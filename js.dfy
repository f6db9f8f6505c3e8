/** The slice of JavaScript value semantics the views depend on: truthiness
    (`a || b`, `a && b`), `Number(v)`, `parseFloat(s)`, and property access on
    plain objects, where a missing property reads as `undefined`. */
module Js {
  import opened Wrappers

  /** A JavaScript value as it can appear in a reading object. NaN is not a
      value of its own: conversions that produce NaN return `None`. A `Date`
      object is represented by its time value in milliseconds. */
  datatype Value = Undefined | Null | Bool(b: bool) | Num(x: real) | Str(s: string) | Date(time: real)

  /** A plain object: property name to value. */
  type Record = map<string, Value>

  /** `rec[key]`: a missing property is `undefined`. */
  function Get(rec: Record, key: string): (v: Value)
    ensures key !in rec ==> v == Undefined
    ensures key in rec ==> v == rec[key]
  {
    if key in rec then rec[key] else Undefined
  }

  /** JavaScript truthiness. */
  predicate Truthy(v: Value)
  {
    match v
    case Undefined => false
    case Null => false
    case Bool(b) => b
    case Num(x) => x != 0.0
    case Str(s) => s != ""
    case Date(_) => true
  }

  predicate IsDigit(c: char) { '0' <= c <= '9' }

  function DigitValue(c: char): (d: nat)
    requires IsDigit(c)
    ensures d <= 9
  {
    c as int - '0' as int
  }

  predicate AllDigits(s: string) { forall i :: 0 <= i < |s| ==> IsDigit(s[i]) }

  /** How many consecutive digits `s` holds from index `k` on. */
  function DigitsFrom(s: string, k: nat): (n: nat)
    requires k <= |s|
    ensures k + n <= |s|
    ensures forall j :: k <= j < k + n ==> IsDigit(s[j])
    ensures k + n < |s| ==> !IsDigit(s[k + n])
    decreases |s| - k
  {
    if k == |s| || !IsDigit(s[k]) then 0 else 1 + DigitsFrom(s, k + 1)
  }

  /** The digits `s[lo..hi]` read as a whole number. */
  function WholeAt(s: string, lo: nat, hi: nat): (v: real)
    requires lo <= hi <= |s|
    requires forall j :: lo <= j < hi ==> IsDigit(s[j])
    ensures v >= 0.0
    decreases hi - lo
  {
    if lo == hi then 0.0
    else WholeAt(s, lo, hi - 1) * 10.0 + DigitValue(s[hi - 1]) as real
  }

  /** The digits `s[lo..hi]` read after a decimal point. */
  function FractionAt(s: string, lo: nat, hi: nat): (v: real)
    requires lo <= hi <= |s|
    requires forall j :: lo <= j < hi ==> IsDigit(s[j])
    ensures 0.0 <= v < 1.0
    decreases hi - lo
  {
    if lo == hi then 0.0
    else (DigitValue(s[lo]) as real + FractionAt(s, lo + 1, hi)) / 10.0
  }

  /** The value of a string of decimal digits read as a whole number. */
  function Natural(ds: string): (v: real)
    requires AllDigits(ds)
    ensures v >= 0.0
  {
    WholeAt(ds, 0, |ds|)
  }

  /** The value of a string of decimal digits read after a decimal point. */
  function Fraction(ds: string): (v: real)
    requires AllDigits(ds)
    ensures 0.0 <= v < 1.0
  {
    FractionAt(ds, 0, |ds|)
  }

  /** Equal digits at shifted positions have equal values. */
  lemma {:induction false} WholeShift(s: string, lo: nat, hi: nat, t: string, d: nat)
    requires lo <= hi <= |s| && d + (hi - lo) <= |t|
    requires forall j :: lo <= j < hi ==> IsDigit(s[j])
    requires forall j :: d <= j < d + (hi - lo) ==> IsDigit(t[j])
    requires forall j :: lo <= j < hi ==> t[j - lo + d] == s[j]
    ensures WholeAt(s, lo, hi) == WholeAt(t, d, d + (hi - lo))
    decreases hi - lo
  {
    if lo < hi {
      WholeShift(s, lo, hi - 1, t, d);
    }
  }

  lemma {:induction false} FractionShift(s: string, lo: nat, hi: nat, t: string, d: nat)
    requires lo <= hi <= |s| && d + (hi - lo) <= |t|
    requires forall j :: lo <= j < hi ==> IsDigit(s[j])
    requires forall j :: d <= j < d + (hi - lo) ==> IsDigit(t[j])
    requires forall j :: lo <= j < hi ==> t[j - lo + d] == s[j]
    ensures FractionAt(s, lo, hi) == FractionAt(t, d, d + (hi - lo))
    decreases hi - lo
  {
    if lo < hi {
      FractionShift(s, lo + 1, hi, t, d + 1);
    }
  }

  /** What the scanner finds at the start of a string: no number, or a
      decimal literal with its value and how many characters it spans. */
  datatype Scan = NoNumber | Literal(value: real, length: nat)

  /** Length of an optional leading sign. */
  function SignLength(s: string): (n: nat)
    ensures n <= 1 && n <= |s|
  {
    if |s| > 0 && (s[0] == '-' || s[0] == '+') then 1 else 0
  }

  /** A mantissa can start here: a digit, or a point followed by a digit. */
  predicate StartsNumber(b: string)
  {
    (|b| > 0 && IsDigit(b[0])) || (|b| >= 2 && b[0] == '.' && IsDigit(b[1]))
  }

  /** Where the scanner stands in a literal: at its optional sign, or at the
      unsigned mantissa after it. */
  datatype Part = SignPart | Mantissa

  /** The literal at the start of `s`, read from the given part on. A
      mantissa is digits, optionally a point and more digits, with at least
      one digit in all. */
  function ScanAt(s: string, part: Part): (r: Scan)
    ensures part.SignPart? ==> (r.NoNumber? <==> !StartsNumber(s[SignLength(s)..]))
    ensures part.Mantissa? ==> (r.NoNumber? <==> !StartsNumber(s))
    ensures r.Literal? ==> 1 <= r.length <= |s|
    decreases |s|, if part.SignPart? then 1 else 0
  {
    match part
    case SignPart =>
      if SignLength(s) == 0 then
        assert s[0..] == s;
        ScanAt(s, Mantissa)
      else
        (match ScanAt(s[1..], Mantissa)
         case NoNumber => NoNumber
         case Literal(x, n) => Literal(if s[0] == '-' then -x else x, 1 + n))
    case Mantissa =>
      var i := DigitsFrom(s, 0);
      if i < |s| && s[i] == '.' then
        var f := DigitsFrom(s, i + 1);
        if i + f == 0 then NoNumber
        else Literal(WholeAt(s, 0, i) + FractionAt(s, i + 1, i + 1 + f), i + 1 + f)
      else if i == 0 then NoNumber
      else Literal(WholeAt(s, 0, i), i)
  }

  /** The longest prefix of `s` of the form `[+-]digits[.digits]` or
      `[+-].digits` (the decimal forms of JavaScript's StrDecimalLiteral
      without an exponent). */
  function ScanDecimal(s: string): (r: Scan)
    ensures r.NoNumber? <==> !StartsNumber(s[SignLength(s)..])
    ensures r.Literal? ==> 1 <= r.length <= |s|
  {
    ScanAt(s, SignPart)
  }

  /** The digit count is exactly `n` when `n` digits are followed by the end
      of the string or by a non-digit. */
  lemma {:induction false} DigitsFromExactly(s: string, k: nat, n: nat)
    requires k + n <= |s|
    requires forall j :: k <= j < k + n ==> IsDigit(s[j])
    requires k + n == |s| || !IsDigit(s[k + n])
    ensures DigitsFrom(s, k) == n
    decreases n
  {
    if n > 0 {
      DigitsFromExactly(s, k + 1, n - 1);
    }
  }

  /** Without a leading sign the scanner reads the unsigned literal. */
  lemma Unsigned0(s: string)
    requires SignLength(s) == 0
    ensures ScanDecimal(s) == ScanAt(s, Mantissa)
  {
    assert s[0..] == s;
  }

  /** A string of digits is read as exactly that whole number. */
  lemma WholeDecimal(ds: string)
    requires |ds| > 0 && AllDigits(ds)
    ensures ScanDecimal(ds) == Literal(Natural(ds), |ds|)
  {
    assert IsDigit(ds[0]);
    Unsigned0(ds);
    DigitsFromExactly(ds, 0, |ds|);
  }

  /** A minus sign in front of an unsigned literal negates it and adds one
      character to its length. */
  lemma NegatedDecimal(c: string)
    requires SignLength(c) == 0
    ensures ScanDecimal("-" + c) ==
      match ScanDecimal(c)
      case NoNumber => NoNumber
      case Literal(x, n) => Literal(-x, 1 + n)
  {
    Unsigned0(c);
    assert ("-" + c)[1..] == c;
  }

  /** `digits.digits` is read as the whole part plus the fraction. */
  lemma PointDecimal(a: string, b: string)
    requires |a| > 0 && AllDigits(a) && AllDigits(b)
    ensures ScanDecimal(a + "." + b) == Literal(Natural(a) + Fraction(b), |a| + 1 + |b|)
  {
    var s := a + "." + b;
    PointPieces(a, b, s);
    DigitsFromExactly(s, 0, |a|);
    DigitsFromExactly(s, |a| + 1, |b|);
    WholeShift(a, 0, |a|, s, 0);
    FractionShift(b, 0, |b|, s, |a| + 1);
    Unsigned0(s);
  }

  lemma PointPieces(a: string, b: string, s: string)
    requires |a| > 0 && AllDigits(a) && AllDigits(b)
    requires s == a + "." + b
    ensures |s| == |a| + 1 + |b| && SignLength(s) == 0 && s[|a|] == '.'
    ensures forall j :: 0 <= j < |a| ==> s[j] == a[j]
    ensures forall j :: 0 <= j < |b| ==> s[|a| + 1 + j] == b[j]
  {
    assert s[0] == a[0];
  }

  /** ECMAScript's WhiteSpace and LineTerminator characters: tab, vertical
      tab, form feed, space, no-break space, the byte-order mark, the other
      space separators of category Zs, and the four line terminators. */
  predicate IsSpace(c: char)
  {
    || c == '\t' || c == '\U{000B}' || c == '\U{000C}' || c == ' '
    || c == '\U{00A0}' || c == '\U{FEFF}' || c == '\U{1680}'
    || ('\U{2000}' <= c <= '\U{200A}') || c == '\U{202F}' || c == '\U{205F}' || c == '\U{3000}'
    || c == '\n' || c == '\r' || c == '\U{2028}' || c == '\U{2029}'
  }

  function TrimStart(s: string): (r: string)
    ensures |r| <= |s| && r == s[|s| - |r|..]
    ensures r != [] ==> !IsSpace(r[0])
  {
    if s != [] && IsSpace(s[0]) then
      var r := TrimStart(s[1..]);
      assert s[1..][|s| - 1 - |r|..] == s[|s| - |r|..];
      r
    else s
  }

  function TrimEnd(s: string): (r: string)
    ensures |r| <= |s| && r == s[..|r|]
    ensures r != [] ==> !IsSpace(r[|r| - 1])
  {
    if s != [] && IsSpace(s[|s| - 1]) then
      var r := TrimEnd(s[..|s| - 1]);
      assert s[..|s| - 1][..|r|] == s[..|r|];
      r
    else s
  }

  /** `parseFloat(s)`: leading white space is skipped and the longest decimal
      prefix is read; `None` stands for NaN. */
  function ParseFloat(s: string): (r: Option<real>)
    ensures r.None? <==> !StartsNumber(TrimStart(s)[SignLength(TrimStart(s))..])
  {
    match ScanDecimal(TrimStart(s))
    case NoNumber => None
    case Literal(x, _) => Some(x)
  }

  /** A string that starts with no white space is read by `parseFloat` as
      the literal the scanner finds at its start. */
  lemma ParseFloatOfLiteral(s: string, lit: Scan)
    requires TrimStart(s) == s && ScanDecimal(s) == lit && lit.Literal?
    ensures ParseFloat(s) == Some(lit.value)
  {
  }

  /** `Number(s)` for a string: white space around is ignored, a blank
      string is 0, and anything else must be a decimal literal in full. */
  function StringToNumber(s: string): (r: Option<real>)
    ensures s == [] ==> r == Some(0.0)
    decreases |s|
  {
    if s != [] && IsSpace(s[0]) then StringToNumber(s[1..])
    else if s != [] && IsSpace(s[|s| - 1]) then StringToNumber(s[..|s| - 1])
    else if s == [] then Some(0.0)
    else
      match ScanDecimal(s)
      case Literal(x, n) => if n == |s| then Some(x) else None
      case NoNumber => None
  }

  predicate Blank(s: string)
  {
    forall i :: 0 <= i < |s| ==> IsSpace(s[i])
  }

  /** A string of white space only is 0. */
  lemma {:induction false} BlankIsZero(s: string)
    requires Blank(s)
    ensures StringToNumber(s) == Some(0.0)
    decreases |s|
  {
    if s != [] {
      assert IsSpace(s[0]);
      BlankIsZero(s[1..]);
    }
  }

  /** White space around the text does not change the number. */
  lemma {:induction false} SpaceAround(w1: string, s: string, w2: string)
    requires Blank(w1) && Blank(w2)
    ensures StringToNumber(w1 + s + w2) == StringToNumber(s)
    decreases |w1| + |s| + |w2|
  {
    var t := w1 + s + w2;
    if w1 != [] {
      assert IsSpace(t[0]);
      assert t[1..] == w1[1..] + s + w2;
      SpaceAround(w1[1..], s, w2);
    } else if s != [] && IsSpace(s[0]) {
      assert t == s + w2;
      assert t[1..] == [] + s[1..] + w2;
      SpaceAround([], s[1..], w2);
      assert [] + s[1..] + [] == s[1..];
      SpaceAround([], s[1..], []);
      assert [] + s + [] == s;
    } else if s == [] {
      assert t == w2;
      BlankIsZero(w2);
    } else if w2 != [] {
      assert t == s + w2 && !IsSpace(t[0]) && IsSpace(t[|t| - 1]);
      assert t[..|t| - 1] == [] + s + w2[..|w2| - 1];
      SpaceAround([], s, w2[..|w2| - 1]);
    } else {
      assert t == s;
    }
  }

  /** A string that is exactly one decimal literal, with no white space
      around it, is that literal's value. */
  lemma StringToNumberOfLiteral(s: string, x: real)
    requires s != [] && !IsSpace(s[0]) && !IsSpace(s[|s| - 1])
    requires ScanDecimal(s) == Literal(x, |s|)
    ensures StringToNumber(s) == Some(x)
  {
  }

  /** A string that is not blank and does not start with a decimal literal
      is NaN. */
  lemma {:induction false} NoLiteralIsNaN(s: string)
    requires !Blank(s) && ScanDecimal(TrimStart(s)).NoNumber?
    ensures StringToNumber(s).None?
    decreases |s|
  {
    if IsSpace(s[0]) {
      assert TrimStart(s) == TrimStart(s[1..]);
      assert !Blank(s[1..]) by {
        var i :| 0 <= i < |s| && !IsSpace(s[i]);
        assert s[1..][i - 1] == s[i];
      }
      NoLiteralIsNaN(s[1..]);
    } else {
      assert TrimStart(s) == s;
      NoLiteralStaysNaN(s);
    }
  }

  /** Dropping white space from the end cannot make a number start. */
  lemma {:induction false} NoLiteralStaysNaN(s: string)
    requires s != [] && !IsSpace(s[0]) && ScanDecimal(s).NoNumber?
    ensures StringToNumber(s).None?
    decreases |s|
  {
    if IsSpace(s[|s| - 1]) {
      var p := s[..|s| - 1];
      var k := SignLength(s);
      assert p[0] == s[0] && SignLength(p) == k;
      assert !StartsNumber(p[k..]) by {
        var b, c := p[k..], s[k..];
        assert |b| > 0 ==> b[0] == c[0];
        assert |b| >= 2 ==> b[1] == c[1];
      }
      NoLiteralStaysNaN(p);
    }
  }

  /** `Number(v)`; `None` stands for NaN. */
  function ToNumber(v: Value): (r: Option<real>)
    ensures v.Num? ==> r == Some(v.x)
    ensures v.Undefined? <==> r.None? && !v.Str?
    ensures v.Date? ==> r == Some(v.time)
    ensures v.Null? ==> r == Some(0.0)
  {
    match v
    case Undefined => None
    case Null => Some(0.0)
    case Bool(b) => Some(if b then 1.0 else 0.0)
    case Num(x) => Some(x)
    case Str(s) => StringToNumber(s)
    case Date(t) => Some(t)
  }

  /** `Number(v) || 0`: NaN (and 0 itself) become 0, every other number is kept. */
  function NumberOrZero(v: Value): (r: real)
    ensures ToNumber(v).None? ==> r == 0.0
    ensures ToNumber(v).Some? ==> r == ToNumber(v).value
    ensures v.Undefined? || v.Null? ==> r == 0.0
  {
    ToNumber(v).GetOr(0.0)
  }
}
