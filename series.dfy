/** What the two chart components share: the window of the newest readings
    they plot, and `avg`, the mean of one column with an empty column
    averaging to 0. */
module Series {
  import Seqs

  /** How many of the newest readings a chart plots. */
  const WindowSize: nat := 20

  /** `data.slice(-20)`: the last twenty readings, or all of them when there
      are fewer, in their original order. */
  function Window<T>(data: seq<T>): (w: seq<T>)
    ensures |w| == if |data| < WindowSize then |data| else WindowSize
    ensures forall i :: 0 <= i < |w| ==> w[i] == data[|data| - |w| + i]
  {
    Seqs.LastN(data, WindowSize)
  }

  /** `chartData`: one point per reading of the window of the newest
      readings, each built by `f` (which point comes from which reading is
      `ChartAt`). */
  function Chart<T, P>(data: seq<T>, f: T -> P): (points: seq<P>)
    ensures |points| == if |data| < WindowSize then |data| else WindowSize
  {
    Seqs.Map(f, Window(data))
  }

  /** Point `i` of the chart is built from the reading `i` places into the
      window, so the points keep the readings' order. */
  lemma ChartAt<T, P>(data: seq<T>, f: T -> P, i: nat)
    requires i < |Chart(data, f)|
    ensures Chart(data, f)[i] == f(data[|data| - |Chart(data, f)| + i])
  {
    Seqs.MapAt(f, Window(data), i);
  }

  /** The chart area shows the waiting-for-data message exactly when there
      are no readings at all. */
  lemma WaitingIffEmpty<T, P>(data: seq<T>, f: T -> P)
    ensures Chart(data, f) == [] <==> data == []
  {
  }

  /** One column of a series. */
  function Column<T>(points: seq<T>, metric: T -> real): (xs: seq<real>)
    ensures |xs| == |points|
    ensures forall i :: 0 <= i < |points| ==> xs[i] == metric(points[i])
  {
    seq(|points|, i requires 0 <= i < |points| => metric(points[i]))
  }

  function Sum(xs: seq<real>): real
  {
    if xs == [] then 0.0 else xs[0] + Sum(xs[1..])
  }

  /** `avg`: the sum divided by the count, and 0 for an empty column. */
  function Avg(xs: seq<real>): (a: real)
    ensures xs == [] ==> a == 0.0
    ensures xs != [] ==> a * (|xs| as real) == Sum(xs)
  {
    if xs == [] then 0.0 else Sum(xs) / (|xs| as real)
  }

  lemma {:induction false} SumConcat(a: seq<real>, b: seq<real>)
    ensures Sum(a + b) == Sum(a) + Sum(b)
  {
    if a == [] {
      assert a + b == b;
    } else {
      assert (a + b)[1..] == a[1..] + b;
      SumConcat(a[1..], b);
    }
  }

  /** Every value between `lo` and `hi` bounds the sum by the count times each. */
  lemma {:induction false} SumBounds(xs: seq<real>, lo: real, hi: real)
    requires forall i :: 0 <= i < |xs| ==> lo <= xs[i] <= hi
    ensures (|xs| as real) * lo <= Sum(xs) <= (|xs| as real) * hi
  {
    if xs != [] {
      SumBounds(xs[1..], lo, hi);
    }
  }

  /** The mean of a non-empty column lies between its smallest and its largest
      value; the empty column's 0 is exempt. */
  lemma AvgBounds(xs: seq<real>, lo: real, hi: real)
    requires xs != []
    requires forall i :: 0 <= i < |xs| ==> lo <= xs[i] <= hi
    ensures lo <= Avg(xs) <= hi
  {
    SumBounds(xs, lo, hi);
    QuotientBounds(Sum(xs), |xs| as real, lo, hi);
  }

  lemma QuotientBounds(s: real, n: real, lo: real, hi: real)
    requires n > 0.0 && n * lo <= s <= n * hi
    ensures lo <= s / n <= hi
  {
  }

  /** A column of one repeated value averages to that value. */
  lemma {:induction false} AvgConstant(xs: seq<real>, c: real)
    requires xs != []
    requires forall i :: 0 <= i < |xs| ==> xs[i] == c
    ensures Avg(xs) == c
  {
    SumBounds(xs, c, c);
  }

  /** A summary tile: the rendered mean when there is data, "--" otherwise. */
  function Summary(xs: seq<real>, render: real -> string): (shown: string)
    ensures xs == [] ==> shown == "--"
    ensures xs != [] ==> shown == render(Avg(xs))
  {
    if |xs| > 0 then render(Avg(xs)) else "--"
  }

  /** Sliding the window: appending one reading to a series shows the window
      of the old series with the new reading at its end, and the oldest
      dropped if the window was full. */
  lemma WindowAppend<T>(data: seq<T>, x: T)
    ensures Window(data + [x]) == Seqs.LastN(Window(data) + [x], WindowSize)
  {
    Seqs.LastNAppend(data, x, WindowSize);
  }
}
