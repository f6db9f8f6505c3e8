/** The reading table shared by the three views
    (src/components/DataLogger.jsx): a search and status filter, pages of ten
    rows, each page sorted newest first, prev/next navigation, and colour
    thresholds for the temperature and humidity cells. */
module DataLogger {
  import opened Wrappers
  import Js
  import Seqs
  import Strings

  const ItemsPerPage: nat := 10

  /** `item.status || 'connected'`: a missing or falsy status counts as
      connected. */
  function StatusOf(item: Js.Record): (s: Js.Value)
    ensures !Js.Truthy(Js.Get(item, "status")) ==> s == Js.Str("connected")
    ensures Js.Truthy(Js.Get(item, "status")) ==> s == Js.Get(item, "status")
    ensures Js.Truthy(s)
  {
    var st := Js.Get(item, "status");
    if Js.Truthy(st) then st else Js.Str("connected")
  }

  /** The filter test. `locale(v)` stands for
      `new Date(v).toLocaleString('id-ID')`. */
  predicate Matches(item: Js.Record, term: string, status: string, locale: Js.Value -> string)
  {
    && (term == "" || Strings.Contains(Strings.Lower(locale(Js.Get(item, "timestamp"))), Strings.Lower(term)))
    && (status == "all" || StatusOf(item) == Js.Str(status))
  }

  /** `filteredData`: the items that match, in their original order. */
  function Filtered(data: seq<Js.Record>, term: string, status: string, locale: Js.Value -> string)
    : (r: seq<Js.Record>)
    ensures Seqs.IsSubsequence(r, data)
    ensures forall i :: 0 <= i < |r| ==> Matches(r[i], term, status, locale)
    ensures forall i :: 0 <= i < |data| && Matches(data[i], term, status, locale) ==> data[i] in r
    ensures forall x :: multiset(r)[x] == if Matches(x, term, status, locale) then multiset(data)[x] else 0
  {
    var p := (item: Js.Record) => Matches(item, term, status, locale);
    Seqs.FilterIsSubsequence(p, data);
    Seqs.FilterCounts(p, data);
    Seqs.Filter(p, data)
  }

  /** The empty search term matches every timestamp: the `searchTerm === ''`
      test only short-cuts a containment that holds anyway. */
  lemma EmptyTermMatches(item: Js.Record, locale: Js.Value -> string)
    ensures Strings.Contains(Strings.Lower(locale(Js.Get(item, "timestamp"))), Strings.Lower(""))
  {
    Strings.ContainsAt(Strings.Lower(locale(Js.Get(item, "timestamp"))), Strings.Lower(""));
    assert Strings.Lower(locale(Js.Get(item, "timestamp")))[0..0] == [];
  }

  /** With no search term and the status filter on "all", nothing is dropped. */
  lemma NoFilterKeepsAll(data: seq<Js.Record>, locale: Js.Value -> string)
    ensures Filtered(data, "", "all", locale) == data
  {
    Seqs.FilterAll((item: Js.Record) => Matches(item, "", "all", locale), data);
  }

  /** An item without a status passes the "connected" filter and fails every
      other specific status. */
  lemma MissingStatusIsConnected(item: Js.Record, term: string, status: string, locale: Js.Value -> string)
    requires "status" !in item
    requires status != "all"
    ensures Matches(item, term, status, locale) ==>  status == "connected"
    ensures status == "connected" ==>
      (Matches(item, term, status, locale) <==> Matches(item, term, "all", locale))
  {
  }

  /** `Math.ceil(n / 10)`. */
  function TotalPages(n: nat): (t: nat)
    ensures n == 0 <==> t == 0
    ensures n <= t * ItemsPerPage
    ensures n > 0 ==> (t - 1) * ItemsPerPage < n
  {
    (n + ItemsPerPage - 1) / ItemsPerPage
  }

  /** `(currentPage - 1) * itemsPerPage`. */
  function StartIndex(page: nat): (i: nat)
    requires page >= 1
  {
    (page - 1) * ItemsPerPage
  }

  function Min(a: nat, b: nat): nat { if a <= b then a else b }

  /** `filteredData.slice(startIndex, endIndex)`: JavaScript clamps both ends
      to the length, so a page past the end is empty. */
  function PageSlice<T>(s: seq<T>, page: nat): (r: seq<T>)
    requires page >= 1
    ensures |r| <= ItemsPerPage
    ensures StartIndex(page) <= |s| ==> r == s[StartIndex(page)..Min(StartIndex(page) + ItemsPerPage, |s|)]
    ensures StartIndex(page) >= |s| ==> r == []
  {
    var lo := Min(StartIndex(page), |s|);
    s[lo..Min(StartIndex(page) + ItemsPerPage, |s|)]
  }

  /** A page within range is non-empty and holds `min(10, n - startIndex)` rows. */
  lemma PageSize<T>(s: seq<T>, page: nat)
    requires 1 <= page <= TotalPages(|s|)
    ensures |PageSlice(s, page)| == Min(ItemsPerPage, |s| - StartIndex(page)) > 0
  {
  }

  /** Twenty-five rows: the third page holds exactly the last five, the bar
      is shown, and on that page only the previous button is enabled. */
  lemma ThirdPageOfTwentyFive<T>(s: seq<T>)
    requires |s| == 25
    ensures TotalPages(|s|) == 3
    ensures PageSlice(s, 3) == s[20..]
    ensures PaginationShown(PageSlice(s, 3), TotalPages(|s|))
    ensures NextDisabled(3, TotalPages(|s|)) && !PrevDisabled(3)
  {
  }

  /** The first `k` pages, one after the other. */
  function Pages<T>(s: seq<T>, k: nat): seq<T>
  {
    if k == 0 then [] else Pages(s, k - 1) + PageSlice(s, k)
  }

  lemma {:induction false} PagesPrefix<T>(s: seq<T>, k: nat)
    ensures Pages(s, k) == s[..Min(k * ItemsPerPage, |s|)]
  {
    if k > 0 {
      PagesPrefix(s, k - 1);
      var a := Min((k - 1) * ItemsPerPage, |s|);
      var b := Min(k * ItemsPerPage, |s|);
      assert s[..a] + s[a..b] == s[..b];
    }
  }

  /** Paging neither loses, repeats nor reorders rows: the pages, read in
      order, give back the filtered list. */
  lemma PagesPartition<T>(s: seq<T>)
    ensures Pages(s, TotalPages(|s|)) == s
  {
    PagesPrefix(s, TotalPages(|s|));
  }

  /** The sort key: `epoch(v)` is the time value of `new Date(v)`. */
  function Key(item: Js.Record, epoch: Js.Value -> real): real
  {
    epoch(Js.Get(item, "timestamp"))
  }

  /** Newest first. */
  ghost predicate SortedDesc(s: seq<Js.Record>, epoch: Js.Value -> real)
  {
    forall i, j :: 0 <= i < j < |s| ==> Key(s[i], epoch) >= Key(s[j], epoch)
  }

  function Insert(x: Js.Record, s: seq<Js.Record>, epoch: Js.Value -> real): (r: seq<Js.Record>)
    requires SortedDesc(s, epoch)
    ensures SortedDesc(r, epoch)
    ensures multiset(r) == multiset(s) + multiset{x}
    ensures |r| == |s| + 1
    ensures r[0] == x || (s != [] && r[0] == s[0])
  {
    if s == [] || Key(x, epoch) >= Key(s[0], epoch) then
      ConsSorted(x, s, epoch);
      [x] + s
    else
      var t := Insert(x, s[1..], epoch);
      InsertBehindHead(x, s, t, epoch);
      [s[0]] + t
  }

  /** The recursive case of `Insert`: a record older than the head goes
      into the tail, and the head stays in front. */
  lemma InsertBehindHead(x: Js.Record, s: seq<Js.Record>, t: seq<Js.Record>, epoch: Js.Value -> real)
    requires s != [] && Key(x, epoch) < Key(s[0], epoch)
    requires SortedDesc(s, epoch) && SortedDesc(t, epoch)
    requires multiset(t) == multiset(s[1..]) + multiset{x}
    requires |t| == |s| && (t[0] == x || (s[1..] != [] && t[0] == s[1..][0]))
    ensures SortedDesc([s[0]] + t, epoch)
    ensures multiset([s[0]] + t) == multiset(s) + multiset{x}
  {
    assert Key(s[0], epoch) >= Key(t[0], epoch);
    ConsSorted(s[0], t, epoch);
    assert s == [s[0]] + s[1..];
  }

  /** A record no older than the head of a sorted list can go in front of it. */
  lemma ConsSorted(y: Js.Record, t: seq<Js.Record>, epoch: Js.Value -> real)
    requires SortedDesc(t, epoch)
    requires t != [] ==> Key(y, epoch) >= Key(t[0], epoch)
    ensures SortedDesc([y] + t, epoch)
  {
    var u := [y] + t;
    forall i, j | 0 <= i < j < |u| ensures Key(u[i], epoch) >= Key(u[j], epoch) {
      if i == 0 {
        assert u[j] == t[j - 1];
      } else {
        assert u[i] == t[i - 1] && u[j] == t[j - 1];
      }
    }
  }

  /** The comparator `(a, b) => new Date(b.timestamp) - new Date(a.timestamp)`:
      a permutation of the page, newest first. */
  function SortDesc(s: seq<Js.Record>, epoch: Js.Value -> real): (r: seq<Js.Record>)
    ensures SortedDesc(r, epoch)
    ensures multiset(r) == multiset(s)
    ensures |r| == |s|
  {
    if s == [] then []
    else
      assert s == [s[0]] + s[1..];
      Insert(s[0], SortDesc(s[1..], epoch), epoch)
  }

  /** `currentData`: the page is cut from the filtered list first and only
      then sorted, so each page holds exactly the rows of its slice. */
  function CurrentData(filtered: seq<Js.Record>, page: nat, epoch: Js.Value -> real): (rows: seq<Js.Record>)
    requires page >= 1
    ensures multiset(rows) == multiset(PageSlice(filtered, page))
    ensures SortedDesc(rows, epoch)
    ensures |rows| <= ItemsPerPage
  {
    SortDesc(PageSlice(filtered, page), epoch)
  }

  /** What the table area shows: rows, or one of two empty-state messages. */
  datatype Body = Table(rows: seq<Js.Record>) | NoData | NoMatch

  function Display(data: seq<Js.Record>, filtered: seq<Js.Record>, page: nat, epoch: Js.Value -> real): (b: Body)
    requires page >= 1
    ensures b.Table? <==> CurrentData(filtered, page, epoch) != []
    ensures b.NoData? ==> data == []
    ensures CurrentData(filtered, page, epoch) == [] ==> (b.NoData? <==> data == [])
    ensures b.Table? ==> b.rows == CurrentData(filtered, page, epoch)
  {
    var rows := CurrentData(filtered, page, epoch);
    if |rows| > 0 then Table(rows) else if |data| == 0 then NoData else NoMatch
  }

  /** The page number is not reset when the search changes, so a page past
      the new end shows the no-match message although matches exist. */
  lemma StalePageShowsNoMatch(data: seq<Js.Record>, filtered: seq<Js.Record>, page: nat, epoch: Js.Value -> real)
    requires data != [] && filtered != []
    requires page > TotalPages(|filtered|)
    ensures Display(data, filtered, page, epoch) == NoMatch
  {
  }

  /** The pagination bar is shown only with rows and more than one page. */
  predicate PaginationShown<T>(rows: seq<T>, totalPages: nat)
  {
    |rows| > 0 && totalPages > 1
  }

  /** On a page within range the bar is shown exactly when the rows do not
      fit on a single page. */
  lemma PaginationShownIff<T>(s: seq<T>, page: nat)
    requires 1 <= page <= TotalPages(|s|)
    ensures PaginationShown(PageSlice(s, page), TotalPages(|s|)) <==> |s| > ItemsPerPage
  {
    PageSize(s, page);
  }

  /** `disabled={currentPage === 1}`. */
  predicate PrevDisabled(page: nat)
  {
    page == 1
  }

  /** `disabled={currentPage === totalPages}`. */
  predicate NextDisabled(page: nat, totalPages: nat)
  {
    page == totalPages
  }

  /** The numbers of "Menampilkan first-last dari total data". */
  datatype Range = Range(first: nat, last: nat, total: nat)

  function RangeLabel(page: nat, n: nat): (shown: Range)
    requires page >= 1
    ensures shown.first == StartIndex(page) + 1
    ensures shown.last <= shown.total == n
  {
    Range(StartIndex(page) + 1, Min(StartIndex(page) + ItemsPerPage, n), n)
  }

  /** On a page within range the label counts exactly the rows shown. */
  lemma RangeLabelCountsRows<T>(s: seq<T>, page: nat)
    requires 1 <= page <= TotalPages(|s|)
    ensures RangeLabel(page, |s|).last - RangeLabel(page, |s|).first + 1 == |PageSlice(s, page)|
  {
  }

  /** The table's navigation state: the page number and the filter inputs. */
  class Pager {
    var currentPage: nat
    var searchTerm: string
    var filterStatus: string

    /** The page is at least 1, and the status filter keeps its initial
        "all": the table offers no control that sets it. */
    ghost predicate Valid()
      reads this
    {
      currentPage >= 1 && filterStatus == "all"
    }

    constructor ()
      ensures Valid()
      ensures currentPage == 1 && searchTerm == "" && filterStatus == "all"
    {
      currentPage := 1;
      searchTerm := "";
      filterStatus := "all";
    }

    /** Typing in the search box; the page is left as it is. */
    method Search(term: string)
      requires Valid()
      modifies this
      ensures Valid()
      ensures searchTerm == term
      ensures currentPage == old(currentPage) && filterStatus == old(filterStatus)
    {
      searchTerm := term;
    }

    /** `setCurrentPage(prev => Math.max(prev - 1, 1))`. */
    method Prev()
      requires Valid()
      modifies this
      ensures Valid()
      ensures currentPage == if old(currentPage) > 1 then old(currentPage) - 1 else 1
      ensures searchTerm == old(searchTerm) && filterStatus == old(filterStatus)
    {
      if currentPage > 1 {
        currentPage := currentPage - 1;
      }
    }

    /** `setCurrentPage(prev => Math.min(prev + 1, totalPages))`; the button
        exists only when there is more than one page. */
    method Next(totalPages: nat)
      requires Valid()
      requires totalPages >= 1
      modifies this
      ensures Valid()
      ensures currentPage == Min(old(currentPage) + 1, totalPages)
      ensures currentPage <= totalPages
      ensures searchTerm == old(searchTerm) && filterStatus == old(filterStatus)
    {
      currentPage := Min(currentPage + 1, totalPages);
    }

  }

  /** Walking forward from page 1 stops at the last page and walking back
      stops at page 1, where the button in that direction is disabled. */
  method NavigationClamps(totalPages: nat) returns (last: nat, first: nat)
    requires totalPages >= 1
    ensures last == totalPages && first == 1
    ensures NextDisabled(last, totalPages) && PrevDisabled(first)
  {
    var pager := new Pager();
    var k := 0;
    while k < totalPages
      invariant 0 <= k <= totalPages
      invariant pager.Valid()
      invariant pager.currentPage == Min(k + 1, totalPages)
    {
      pager.Next(totalPages);
      k := k + 1;
    }
    last := pager.currentPage;
    k := 0;
    while k < totalPages
      invariant 0 <= k <= totalPages
      invariant pager.Valid()
      invariant pager.currentPage == if totalPages - k >= 1 then totalPages - k else 1
    {
      pager.Prev();
      k := k + 1;
    }
    first := pager.currentPage;
  }

  /** The cell colours. */
  datatype Color = Blue | Red | Green | Orange {
    function ClassName(): string
    {
      match this
      case Blue => "text-blue-600"
      case Red => "text-red-600"
      case Green => "text-green-600"
      case Orange => "text-orange-600"
    }
  }

  /** `getTemperatureColor`: the comparisons convert the value to a number,
      and NaN fails both, so a missing temperature is green. */
  function TemperatureColor(v: Js.Value): (c: Color)
    ensures c == Blue <==> Js.ToNumber(v).Some? && Js.ToNumber(v).value < 20.0
    ensures c == Red <==> Js.ToNumber(v).Some? && Js.ToNumber(v).value > 30.0
    ensures c == Green <==> Js.ToNumber(v).None? || 20.0 <= Js.ToNumber(v).value <= 30.0
  {
    match Js.ToNumber(v)
    case None => Green
    case Some(t) => if t < 20.0 then Blue else if t > 30.0 then Red else Green
  }

  /** `getHumidityColor`. */
  function HumidityColor(v: Js.Value): (c: Color)
    ensures c == Orange <==> Js.ToNumber(v).Some? && Js.ToNumber(v).value < 50.0
    ensures c == Blue <==> Js.ToNumber(v).Some? && Js.ToNumber(v).value > 80.0
    ensures c == Green <==> Js.ToNumber(v).None? || 50.0 <= Js.ToNumber(v).value <= 80.0
  {
    match Js.ToNumber(v)
    case None => Green
    case Some(h) => if h < 50.0 then Orange else if h > 80.0 then Blue else Green
  }

  /** Distinct colours are distinct class names. */
  lemma ClassNamesDistinct(c: Color, d: Color)
    ensures c.ClassName() == d.ClassName() <==> c == d
  {
  }

  /** The class a temperature cell gets: "text-blue-600" below 20,
      "text-red-600" above 30, "text-green-600" otherwise, NaN included. */
  lemma TemperatureClass(v: Js.Value)
    ensures TemperatureColor(v).ClassName() == "text-blue-600" <==> Js.ToNumber(v).Some? && Js.ToNumber(v).value < 20.0
    ensures TemperatureColor(v).ClassName() == "text-red-600" <==> Js.ToNumber(v).Some? && Js.ToNumber(v).value > 30.0
    ensures TemperatureColor(v).ClassName() == "text-green-600" <==> Js.ToNumber(v).None? || 20.0 <= Js.ToNumber(v).value <= 30.0
  {
  }

  /** The class a humidity cell gets: "text-orange-600" below 50,
      "text-blue-600" above 80, "text-green-600" otherwise, NaN included. */
  lemma HumidityClass(v: Js.Value)
    ensures HumidityColor(v).ClassName() == "text-orange-600" <==> Js.ToNumber(v).Some? && Js.ToNumber(v).value < 50.0
    ensures HumidityColor(v).ClassName() == "text-blue-600" <==> Js.ToNumber(v).Some? && Js.ToNumber(v).value > 80.0
    ensures HumidityColor(v).ClassName() == "text-green-600" <==> Js.ToNumber(v).None? || 50.0 <= Js.ToNumber(v).value <= 80.0
  {
  }

  /** `value.toFixed(1)` in a temperature or humidity cell: only a number has
      `toFixed`; on anything else the call throws (`None`). */
  function CellText(v: Js.Value, fixed: (real, nat) -> string): (t: Option<string>)
    ensures t.Some? <==> v.Num?
  {
    if v.Num? then Some(fixed(v.x, 1)) else None
  }
}
