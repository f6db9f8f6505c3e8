/** Normalisation of spreadsheet cells, shared by the drip-irrigation and the
    hydroponic pages (src/pages/Irigasitetes.jsx and src/pages/hidroponik.jsx
    carry identical copies of `parseNumber`). */
module Cells {
  import opened Wrappers
  import Js
  import Seqs
  import Strings

  /** A spreadsheet row: column header to cell text. A header that the row
      lacks reads as `undefined`. */
  type Row = map<string, string>

  /** `row[key]` as a JavaScript value. */
  function Cell(row: Row, key: string): (v: Js.Value)
    ensures key in row ==> v == Js.Str(row[key])
    ensures key !in row ==> v == Js.Undefined
  {
    if key in row then Js.Str(row[key]) else Js.Undefined
  }

  /** `row[key]` where only its truthiness and its text matter: a missing
      cell and an empty cell are both falsy and read as "". */
  function Text(row: Row, key: string): (t: string)
    ensures t != "" <==> Js.Truthy(Cell(row, key))
  {
    if key in row then row[key] else ""
  }

  /** The characters `parseNumber` keeps: `[0-9.,-]`. */
  predicate Allowed(c: char)
  {
    Js.IsDigit(c) || c == '.' || c == ',' || c == '-'
  }

  /** `value.replace(/[^0-9.,-]/g, "")`. */
  function Keep(s: string): (r: string)
    ensures forall i :: 0 <= i < |r| ==> Allowed(r[i])
  {
    Seqs.Filter(Allowed, s)
  }

  /** `...replace(",", ".")`: the filtered text with its first comma turned into a point. */
  function Clean(s: string): (r: string)
    ensures |r| == |Keep(s)|
    ensures forall i :: 0 <= i < |r| ==> Allowed(r[i])
    ensures ',' !in Keep(s) ==> r == Keep(s)
    ensures ',' in Keep(s) ==> r[Strings.IndexOf(Keep(s), ',')] == '.'
    ensures forall j :: 0 <= j < |r| && (',' !in Keep(s) || j != Strings.IndexOf(Keep(s), ',')) ==>
      r[j] == Keep(s)[j]
  {
    Strings.ReplaceFirst(Keep(s), ',', '.')
  }

  /** Cleaning turns exactly one comma into a point when there is a comma. */
  lemma CleanCounts(s: string)
    requires ',' in Keep(s)
    ensures multiset(Clean(s))[','] == multiset(Keep(s))[','] - 1
    ensures multiset(Clean(s))['.'] == multiset(Keep(s))['.'] + 1
  {
    Strings.ReplaceFirstCounts(Keep(s), ',', '.');
  }

  /** `parseNumber(value)`: strings are cleaned and read with `parseFloat`,
      falling back to 0 on NaN; numbers pass through; anything else is 0. */
  function ParseNumber(v: Js.Value): (r: real)
    ensures v.Num? ==> r == v.x
    ensures !v.Num? && !v.Str? ==> r == 0.0
    ensures v.Str? && Js.ParseFloat(Clean(v.s)).None? ==> r == 0.0
    ensures v.Str? && Js.ParseFloat(Clean(v.s)).Some? ==> r == Js.ParseFloat(Clean(v.s)).value
  {
    match v
    case Str(s) => Js.ParseFloat(Clean(s)).GetOr(0.0)
    case Num(x) => x
    case _ => 0.0
  }

  /** Cleaning twice keeps the same characters as cleaning once. */
  lemma KeepIdempotent(s: string)
    ensures Keep(Keep(s)) == Keep(s)
  {
    Seqs.FilterAll(Allowed, Keep(s));
  }

  /** A missing column parses as 0. */
  lemma MissingCellIsZero(row: Row, key: string)
    requires key !in row
    ensures ParseNumber(Cell(row, key)) == 0.0
  {
  }

  /** Text made only of kept characters, followed by text with none of them,
      keeps exactly the first part. */
  lemma KeepDropsUnit(text: string, unit: string)
    requires forall i :: 0 <= i < |text| ==> Allowed(text[i])
    requires forall i :: 0 <= i < |unit| ==> !Allowed(unit[i])
    ensures Keep(text + unit) == text
  {
    Seqs.FilterConcat(Allowed, text, unit);
    Seqs.FilterAll(Allowed, text);
    Seqs.FilterNone(Allowed, unit);
    assert text + [] == text;
  }

  lemma FirstCommaBecomesPoint(a: string, b: string)
    requires ',' !in a
    ensures Strings.ReplaceFirst(a + "," + b, ',', '.') == a + "." + b
  {
    var s := a + "," + b;
    Strings.IndexOfAfterFree(a, ',', b);
    assert s[..|a|] == a;
    assert s[|a| + 1..] == b;
  }

  /** A whole number followed by a unit or other text without any of
      `0-9 . , -` parses as that number (e.g. "42 %" is 42). */
  lemma {:induction false} WholeNumberWithUnit(ds: string, unit: string)
    requires ds != [] && Js.AllDigits(ds)
    requires forall i :: 0 <= i < |unit| ==> !Allowed(unit[i])
    ensures ParseNumber(Js.Str(ds + unit)) == Js.Natural(ds)
  {
    CleanWholeNumber(ds, unit);
    assert Js.TrimStart(ds) == ds by { assert !Js.IsSpace(ds[0]); }
    Js.WholeDecimal(ds);
    Js.ParseFloatOfLiteral(ds, Js.Literal(Js.Natural(ds), |ds|));
  }

  lemma CleanWholeNumber(ds: string, unit: string)
    requires Js.AllDigits(ds)
    requires forall i :: 0 <= i < |unit| ==> !Allowed(unit[i])
    ensures Clean(ds + unit) == ds
  {
    KeepDropsUnit(ds, unit);
    assert forall i :: 0 <= i < |ds| ==> ds[i] != ',';
  }

  /** A comma used as the decimal separator reads as a decimal point
      (e.g. "25,5 °C" is 25.5). */
  lemma {:induction false} CommaDecimal(a: string, b: string, unit: string)
    requires a != [] && Js.AllDigits(a) && Js.AllDigits(b)
    requires forall i :: 0 <= i < |unit| ==> !Allowed(unit[i])
    ensures ParseNumber(Js.Str(a + "," + b + unit)) == Js.Natural(a) + Js.Fraction(b)
  {
    CleanCommaDecimal(a, b, unit);
    ParsePointDecimal(a, b);
  }

  /** A leading minus sign survives cleaning and negates the value
      (e.g. "-3,5 °C" is -3.5). */
  lemma {:induction false} NegativeCommaDecimal(a: string, b: string, unit: string)
    requires a != [] && Js.AllDigits(a) && Js.AllDigits(b)
    requires forall i :: 0 <= i < |unit| ==> !Allowed(unit[i])
    ensures ParseNumber(Js.Str("-" + a + "," + b + unit)) == -(Js.Natural(a) + Js.Fraction(b))
  {
    CleanNegativeCommaDecimal(a, b, unit);
    ParseNegativePointDecimal(a, b);
  }

  /** `parseFloat` reads `-digits.digits` as the negated whole part plus fraction. */
  lemma ParseNegativePointDecimal(a: string, b: string)
    requires a != [] && Js.AllDigits(a) && Js.AllDigits(b)
    ensures Js.ParseFloat("-" + a + "." + b).Some?
    ensures Js.ParseFloat("-" + a + "." + b).value == -(Js.Natural(a) + Js.Fraction(b))
  {
    var c := a + "." + b;
    assert "-" + a + "." + b == "-" + c;
    Js.PointDecimal(a, b);
    assert Js.SignLength(c) == 0 by { assert c[0] == a[0]; }
    Js.NegatedDecimal(c);
    assert Js.TrimStart("-" + c) == "-" + c by { assert ("-" + c)[0] == '-'; }
    var lit := Js.Literal(-(Js.Natural(a) + Js.Fraction(b)), 1 + (|a| + 1 + |b|));
    Js.ParseFloatOfLiteral("-" + c, lit);
  }

  lemma CleanNegativeCommaDecimal(a: string, b: string, unit: string)
    requires Js.AllDigits(a) && Js.AllDigits(b)
    requires forall i :: 0 <= i < |unit| ==> !Allowed(unit[i])
    ensures Clean("-" + a + "," + b + unit) == "-" + a + "." + b
  {
    var m := "-" + a;
    var k := m + "," + b;
    assert "-" + a + "," + b + unit == k + unit;
    forall i | 0 <= i < |k| ensures Allowed(k[i]) {
      if 0 < i <= |a| { assert k[i] == a[i - 1]; }
      else if i > |m| { assert k[i] == b[i - |m| - 1]; }
    }
    KeepDropsUnit(k, unit);
    assert forall i :: 0 <= i < |m| ==> m[i] != ',' by {
      assert forall i :: 0 < i < |m| ==> m[i] == a[i - 1];
    }
    FirstCommaBecomesPoint(m, b);
  }

  /** `parseFloat` reads `digits.digits` as the whole part plus the fraction. */
  lemma ParsePointDecimal(a: string, b: string)
    requires a != [] && Js.AllDigits(a) && Js.AllDigits(b)
    ensures Js.ParseFloat(a + "." + b).Some?
    ensures Js.ParseFloat(a + "." + b).value == Js.Natural(a) + Js.Fraction(b)
  {
    var c := a + "." + b;
    Js.PointDecimal(a, b);
    assert Js.TrimStart(c) == c by { assert c[0] == a[0]; }
    var lit := Js.Literal(Js.Natural(a) + Js.Fraction(b), |a| + 1 + |b|);
    Js.ParseFloatOfLiteral(c, lit);
  }

  lemma CleanCommaDecimal(a: string, b: string, unit: string)
    requires Js.AllDigits(a) && Js.AllDigits(b)
    requires forall i :: 0 <= i < |unit| ==> !Allowed(unit[i])
    ensures Clean(a + "," + b + unit) == a + "." + b
  {
    var k := a + "," + b;
    forall i | 0 <= i < |k| ensures Allowed(k[i]) {
      if i < |a| { assert k[i] == a[i]; }
      else if i > |a| { assert k[i] == b[i - |a| - 1]; }
    }
    KeepDropsUnit(k, unit);
    assert forall i :: 0 <= i < |a| ==> a[i] != ',';
    FirstCommaBecomesPoint(a, b);
  }
}
