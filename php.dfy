/**
 * The slice of PHP's value semantics that the application code depends on:
 * dynamically typed values, associative rows, `isset`, `is_numeric`, the
 * `(int)`/`(float)` casts, truthiness, `round`, `fmod`, `intdiv` and `%`.
 */
module Php {
  import opened Common

  datatype Key = KInt(i: int) | KStr(s: string)

  /** A PHP value. Arrays keep their entries in insertion order. */
  datatype PVal =
    | PNull
    | PBool(b: bool)
    | PInt(i: int)
    | PFloat(f: real)
    | PStr(s: string)
    | PArr(entries: seq<(Key, PVal)>)

  /** An associative row with string keys (a database row or a decoded record). */
  type Row = map<string, PVal>

  /** `isset($row[k])`: the key is present and its value is not null. */
  predicate Isset(row: Row, k: string)
  {
    k in row && !row[k].PNull?
  }

  /** `$row[k] ?? null`, with null read as `None`. */
  function Field(row: Row, k: string): (r: Option<PVal>)
    ensures r.Some? <==> Isset(row, k)
  {
    if Isset(row, k) then Some(row[k]) else None
  }

  /** `$arr[k]` on an array value: the entry with that key, if any. */
  function Lookup(entries: seq<(Key, PVal)>, k: Key): (r: Option<PVal>)
    ensures r.Some? ==> exists i :: 0 <= i < |entries| && entries[i] == (k, r.value)
  {
    if |entries| == 0 then None
    else if entries[0].0 == k then Some(entries[0].1)
    else Lookup(entries[1..], k)
  }

  // ---------------------------------------------------------------------
  // Integer and float arithmetic
  // ---------------------------------------------------------------------

  /** Conversion of a float to int, rounding toward zero (`(int)$x`). */
  function Trunc(x: real): (r: int)
    ensures AbsR(r as real) <= AbsR(x) < AbsR(r as real) + 1.0
    ensures x >= 0.0 ==> r >= 0
    ensures x < 0.0 ==> r <= 0
  {
    if x >= 0.0 then x.Floor else -((-x).Floor)
  }

  /** The remainder of a non-negative `y` after whole multiples of `m`. */
  function NonnegMod(y: real, m: real): (r: real)
    requires m > 0.0 && y >= 0.0
    ensures 0.0 <= r < m
  {
    FloorModBound(y, m);
    y - m * (y / m).Floor as real
  }

  lemma FloorModBound(y: real, m: real)
    requires m > 0.0 && y >= 0.0
    ensures 0.0 <= y - m * (y / m).Floor as real < m
  {
    var t := y / m;
    var f := t.Floor as real;
    assert t * m == y;
    MulMono(f, t, m);
    MulStrict(t, f + 1.0, m);
    assert (f + 1.0) * m == f * m + m;
    assert m * f == f * m;
  }

  /** PHP `fmod` for a positive modulus: the remainder takes the sign of the dividend. */
  function FMod(x: real, m: real): (r: real)
    requires m > 0.0
    ensures x >= 0.0 ==> 0.0 <= r < m
    ensures x < 0.0 ==> -m < r <= 0.0
  {
    if x >= 0.0 then NonnegMod(x, m) else -NonnegMod(-x, m)
  }

  /** `fmod` by 360 of a value within one turn above zero is the value. */
  lemma FModBelow(x: real)
    requires 0.0 <= x < 360.0
    ensures FMod(x, 360.0) == x
  {
    assert (x / 360.0).Floor == 0;
  }

  /** `fmod` by 360 of a value in the second turn takes one turn off. */
  lemma FModAbove(x: real)
    requires 360.0 <= x < 720.0
    ensures FMod(x, 360.0) == x - 360.0
  {
    assert (x / 360.0).Floor == 1;
  }

  /** PHP `intdiv` for a positive divisor: the quotient rounds toward zero. */
  function TruncDiv(a: int, b: int): int
    requires b > 0
  {
    if a >= 0 then a / b else -((-a) / b)
  }

  /** PHP `%` for a positive divisor: the remainder takes the sign of the dividend. */
  function TruncMod(a: int, b: int): (r: int)
    requires b > 0
    ensures a >= 0 ==> 0 <= r < b && r == a % b
    ensures a < 0 ==> -b < r <= 0
    ensures a == TruncDiv(a, b) * b + r
  {
    if a >= 0 then a % b else -((-a) % b)
  }

  /** The idiom `(($x % 360) + 360) % 360` is the Euclidean remainder, in [0, 360). */
  lemma NormDegInt(a: int)
    ensures TruncMod(TruncMod(a, 360) + 360, 360) == a % 360
    ensures 0 <= a % 360 < 360
  {
    var r := TruncMod(a, 360);
    if a < 0 {
      assert r == -((-a) % 360);
      assert (-a) == ((-a) / 360) * 360 + (-a) % 360;
      if r == 0 {
        assert a == -((-a) / 360) * 360;
      } else {
        assert a == (-((-a) / 360) - 1) * 360 + (r + 360);
      }
    }
  }

  /** PHP `round($x)`: halves round away from zero. */
  function RoundHalfAway(x: real): (r: int)
    ensures AbsR(r as real - x) <= 0.5
  {
    if x >= 0.0 then (x + 0.5).Floor else -((-x + 0.5).Floor)
  }

  lemma RoundHalfAwayMonotone(x: real, y: real)
    requires x <= y
    ensures RoundHalfAway(x) <= RoundHalfAway(y)
  {
  }

  /** `10^p` as a real. */
  function DecimalScale(p: nat): (s: real)
    ensures s >= 1.0
  {
    if p == 0 then 1.0 else 10.0 * DecimalScale(p - 1)
  }

  function RoundScaled(x: real, s: real): real
    requires s >= 1.0
  {
    (RoundHalfAway(x * s) as real) / s
  }

  /** PHP `round($x, p)` for `p >= 0` decimal places. */
  function RoundTo(x: real, p: nat): real
  {
    RoundScaled(x, DecimalScale(p))
  }

  lemma RoundScaledMonotone(x: real, y: real, s: real)
    requires x <= y && s >= 1.0
    ensures RoundScaled(x, s) <= RoundScaled(y, s)
  {
    MulMono(x, y, s);
    RoundHalfAwayMonotone(x * s, y * s);
    DivMono(RoundHalfAway(x * s) as real, RoundHalfAway(y * s) as real, s);
  }

  /** Rounding to a fixed number of places never reverses an order. */
  lemma RoundToMonotone(x: real, y: real, p: nat)
    requires x <= y
    ensures RoundTo(x, p) <= RoundTo(y, p)
  {
    RoundScaledMonotone(x, y, DecimalScale(p));
  }

  /** A scaled rounding is within half a unit of the last kept place. */
  lemma RoundScaledClose(x: real, s: real)
    requires s >= 1.0
    ensures AbsR(RoundScaled(x, s) - x) <= 0.5 / s
  {
    var q := RoundHalfAway(x * s) as real;
    var d := q - x * s;
    assert q / s - x == d / s;
    if d >= 0.0 {
      DivMono(d, 0.5, s);
    } else {
      DivMono(-d, 0.5, s);
      assert -(d / s) == (-d) / s;
    }
  }

  /** `round($x, 1)` is within 0.05 of `$x`. */
  lemma RoundToOneClose(x: real)
    ensures AbsR(RoundTo(x, 1) - x) <= 0.05
  {
    assert DecimalScale(1) == 10.0;
    RoundScaledClose(x, 10.0);
  }

  /** `round($x, 2)` is within 0.005 of `$x`. */
  lemma RoundToTwoClose(x: real)
    ensures AbsR(RoundTo(x, 2) - x) <= 0.005
  {
    assert DecimalScale(2) == 100.0;
    RoundScaledClose(x, 100.0);
  }

  // ---------------------------------------------------------------------
  // Numeric strings
  // ---------------------------------------------------------------------

  /** The first index at or after `i` that does not hold a digit. */
  function DigitRunEnd(s: string, i: nat): (j: nat)
    requires i <= |s|
    ensures i <= j <= |s| && AllDigits(s[i..j])
    ensures j < |s| ==> !IsDigit(s[j])
    decreases |s| - i
  {
    if i < |s| && IsDigit(s[i]) then
      var j := DigitRunEnd(s, i + 1);
      assert s[i..j] == [s[i]] + s[i + 1..j];
      j
    else i
  }

  /** `v` times ten to the power `e`, for an exponent of either sign. */
  function Scale10(v: real, e: int): real
    decreases if e >= 0 then e else -e
  {
    if e == 0 then v
    else if e > 0 then Scale10(v, e - 1) * 10.0
    else Scale10(v, e + 1) / 10.0
  }

  /**
   * An exponent starting at `k`: `e` or `E`, an optional sign and at least
   * one digit. Yields its end index and value, or `(k, 0)` when none is
   * there (a bare `e` is not an exponent and ends the literal before it).
   */
  function ExponentAt(s: string, k: nat): (r: (nat, int))
    requires k <= |s|
    ensures k <= r.0 <= |s|
    ensures r.0 == k ==> r.1 == 0
  {
    if k < |s| && (s[k] == 'e' || s[k] == 'E') then
      var signed := k + 1 < |s| && (s[k + 1] == '-' || s[k + 1] == '+');
      var j0 := if signed then k + 2 else k + 1;
      var j1 := DigitRunEnd(s, j0);
      var e: int := DigitsValue(s[j0..j1]);
      if j1 > j0 then (j1, if signed && s[k + 1] == '-' then -e else e) else (k, 0)
    else (k, 0)
  }

  /**
   * A decimal literal starting at `i`: an optional sign, then digits with an
   * optional fraction, or a dot followed by digits, then an optional
   * exponent. Yields the end index and the value.
   */
  function DecimalAt(s: string, i: nat): (r: Option<(nat, real)>)
    requires i <= |s|
    ensures r.Some? ==> i < r.value.0 <= |s|
  {
    var neg := i < |s| && s[i] == '-';
    var j0 := if i < |s| && (s[i] == '-' || s[i] == '+') then i + 1 else i;
    var j1 := DigitRunEnd(s, j0);
    var whole := DigitsValue(s[j0..j1]) as real;
    if j1 < |s| && s[j1] == '.' then
      var j2 := DigitRunEnd(s, j1 + 1);
      if j1 > j0 || j2 > j1 + 1 then
        var frac := s[j1 + 1..j2];
        var v := whole + DigitsValue(frac) as real / Pow10(|frac|) as real;
        var (k, e) := ExponentAt(s, j2);
        Some((k, Scale10(if neg then -v else v, e)))
      else None
    else if j1 > j0 then
      var (k, e) := ExponentAt(s, j1);
      Some((k, Scale10(if neg then -whole else whole, e)))
    else None
  }

  /** The first index at or after `i` that is not PHP numeric-string whitespace. */
  function SkipNumWs(s: string, i: nat): (j: nat)
    requires i <= |s|
    ensures i <= j <= |s|
    decreases |s| - i
  {
    if i < |s| && (IsRegexWs(s[i])) then SkipNumWs(s, i + 1) else i
  }

  /** PHP 8 `is_numeric` on a string: optional surrounding whitespace around one decimal literal. */
  predicate IsNumericStr(s: string)
  {
    var i := SkipNumWs(s, 0);
    var d := DecimalAt(s, i);
    d.Some? && SkipNumWs(s, d.value.0) == |s|
  }

  /** `(float)` of a string: the value of its leading decimal literal, or 0. */
  function LeadingFloat(s: string): real
  {
    var d := DecimalAt(s, SkipNumWs(s, 0));
    if d.Some? then d.value.1 else 0.0
  }

  predicate IsNumeric(v: PVal)
  {
    match v
    case PInt(_) => true
    case PFloat(_) => true
    case PStr(s) => IsNumericStr(s)
    case _ => false
  }

  /** `(float)$v`. */
  function FloatCast(v: PVal): real
  {
    match v
    case PNull => 0.0
    case PBool(b) => if b then 1.0 else 0.0
    case PInt(i) => i as real
    case PFloat(f) => f
    case PStr(s) => LeadingFloat(s)
    case PArr(e) => if |e| == 0 then 0.0 else 1.0
  }

  /** `(int)$v`. */
  function IntCast(v: PVal): int
  {
    match v
    case PNull => 0
    case PBool(b) => if b then 1 else 0
    case PInt(i) => i
    case PFloat(f) => Trunc(f)
    case PStr(s) => Trunc(LeadingFloat(s))
    case PArr(e) => if |e| == 0 then 0 else 1
  }

  /** PHP truthiness (`if ($v)`, `!empty($v)`). */
  predicate Truthy(v: PVal)
  {
    match v
    case PNull => false
    case PBool(b) => b
    case PInt(i) => i != 0
    case PFloat(f) => f != 0.0
    case PStr(s) => s != "" && s != "0"
    case PArr(e) => |e| > 0
  }

  /** `!empty($row[k])`: a missing key is empty. */
  predicate NotEmpty(row: Row, k: string)
  {
    k in row && Truthy(row[k])
  }

  /** `is_numeric($v) ? (float)$v : null`. */
  function NumOrNull(v: Option<PVal>): (r: Option<real>)
    ensures r.Some? <==> v.Some? && IsNumeric(v.value)
  {
    if v.Some? && IsNumeric(v.value) then Some(FloatCast(v.value)) else None
  }

  /** A digit string is numeric and reads as its decimal value. */
  lemma DigitsAreNumeric(s: string)
    requires |s| > 0 && AllDigits(s)
    ensures IsNumericStr(s) && LeadingFloat(s) == DigitsValue(s) as real
  {
    assert SkipNumWs(s, 0) == 0;
    assert DigitRunEnd(s, 0) == |s| by {
      var j := DigitRunEnd(s, 0);
      if j < |s| { assert false; }
    }
    assert s[0..|s|] == s;
    assert ExponentAt(s, |s|) == (|s|, 0);
    assert Scale10(DigitsValue(s) as real, 0) == DigitsValue(s) as real;
    assert DecimalAt(s, 0) == Some((|s|, DigitsValue(s) as real));
    assert SkipNumWs(s, |s|) == |s|;
  }

  /** A non-negative power of ten scales by `Pow10`. */
  lemma {:induction false} Scale10Up(v: real, e: nat)
    ensures Scale10(v, e) == v * (Pow10(e) as real)
  {
    if e > 0 {
      Scale10Up(v, e - 1);
    }
  }

  /** The digits from `i` to the end are one run. */
  lemma {:induction false} DigitRunToEnd(s: string, i: nat)
    requires i <= |s| && AllDigits(s[i..])
    ensures DigitRunEnd(s, i) == |s|
    decreases |s| - i
  {
    if i < |s| {
      assert IsDigit(s[i..][0]);
      assert s[i + 1..] == s[i..][1..];
      DigitRunToEnd(s, i + 1);
    }
  }

  /**
   * Digits, `e` and digits make a numeric string whose value is the
   * mantissa times ten to the exponent (`"15e2"` is 1500).
   */
  lemma DigitsExponentNumeric(m: string, x: string)
    requires |m| > 0 && AllDigits(m) && |x| > 0 && AllDigits(x)
    ensures IsNumericStr(m + "e" + x)
    ensures LeadingFloat(m + "e" + x) == Scale10(DigitsValue(m) as real, DigitsValue(x))
  {
    var s := m + "e" + x;
    MantissaOf(m, x);
    ExponentOf(s, |m|, x);
    assert DecimalAt(s, 0) == Some((|s|, Scale10(DigitsValue(m) as real, DigitsValue(x))));
    assert SkipNumWs(s, |s|) == |s|;
  }

  lemma MantissaOf(m: string, x: string)
    requires |m| > 0 && AllDigits(m)
    ensures var s := m + "e" + x;
      SkipNumWs(s, 0) == 0 && IsDigit(s[0]) && DigitRunEnd(s, 0) == |m| && s[0..|m|] == m && s[|m|] == 'e'
  {
    var s := m + "e" + x;
    assert IsDigit(s[0]);
    assert s[0..|m|] == m;
    MantissaRun(s, 0, |m|);
  }

  lemma ExponentOf(s: string, k: nat, x: string)
    requires k < |s| && s[k] == 'e' && s[k + 1..] == x && |x| > 0 && AllDigits(x)
    ensures ExponentAt(s, k) == (|s|, DigitsValue(x) as int)
  {
    assert s[k + 1] == x[0];
    DigitRunToEnd(s, k + 1);
    assert s[k + 1..|s|] == x;
  }

  /** A run of digits from `i` up to a non-digit at `k` ends there. */
  lemma {:induction false} MantissaRun(s: string, i: nat, k: nat)
    requires i <= k < |s| && AllDigits(s[i..k]) && !IsDigit(s[k])
    ensures DigitRunEnd(s, i) == k
    decreases k - i
  {
    if i < k {
      assert IsDigit(s[i..k][0]);
      assert s[i + 1..k] == s[i..k][1..];
      MantissaRun(s, i + 1, k);
    }
  }

  /** A bare `e` is not an exponent: `"1e"` is not numeric, yet `(float)` reads it as 1. */
  lemma BareExponentNotNumeric()
    ensures !IsNumericStr("1e") && LeadingFloat("1e") == 1.0
  {
    var s := "1e";
    assert SkipNumWs(s, 0) == 0;
    assert DigitRunEnd(s, 1) == 1;
    assert DigitRunEnd(s, 0) == 1;
    assert s[0..1] == "1";
    assert DigitsValue("1") == 1;
    assert DigitRunEnd(s, 2) == 2;
    assert ExponentAt(s, 1) == (1, 0);
    assert DecimalAt(s, 0) == Some((1, 1.0));
    assert SkipNumWs(s, 1) == 1;
  }

  // ---------------------------------------------------------------------
  // sprintf('%04d-%02d-%02d %02d:%02d:00')
  // ---------------------------------------------------------------------

  /** The `'YYYY-MM-DD hh:mm:00'` timestamp the parsers build with `sprintf`. */
  function SqlTimestamp(y: int, mo: int, d: int, h: int, mi: int): string
  {
    PadInt(y, 4) + "-" + PadInt(mo, 2) + "-" + PadInt(d, 2) + " " + PadInt(h, 2) + ":" + PadInt(mi, 2) + ":00"
  }

  /** Reads the five fields back from a `'YYYY-MM-DD hh:mm:00'` timestamp. */
  function ReadSqlTimestamp(s: string): Option<(int, int, int, int, int)>
  {
    if |s| == 19 && AllDigits(s[..4]) && AllDigits(s[5..7]) && AllDigits(s[8..10]) &&
       AllDigits(s[11..13]) && AllDigits(s[14..16]) &&
       s[4] == '-' && s[7] == '-' && s[10] == ' ' && s[13] == ':' && s[16..] == ":00"
    then Some((DigitsValue(s[..4]), DigitsValue(s[5..7]), DigitsValue(s[8..10]),
               DigitsValue(s[11..13]), DigitsValue(s[14..16])))
    else None
  }

  /** For fields that fit their widths the timestamp is 19 characters and reads back to its fields. */
  lemma SqlTimestampRoundTrip(y: int, mo: int, d: int, h: int, mi: int)
    requires 0 <= y < 10000 && 0 <= mo < 100 && 0 <= d < 100 && 0 <= h < 100 && 0 <= mi < 100
    ensures ReadSqlTimestamp(SqlTimestamp(y, mo, d, h, mi)) == Some((y, mo, d, h, mi))
  {
    assert Pow10(2) == 100 && Pow10(4) == 10000;
    PadNatRoundTrip(y, 4);
    PadNatRoundTrip(mo, 2);
    PadNatRoundTrip(d, 2);
    PadNatRoundTrip(h, 2);
    PadNatRoundTrip(mi, 2);
    var a, b, c, e, f := PadNat(y, 4), PadNat(mo, 2), PadNat(d, 2), PadNat(h, 2), PadNat(mi, 2);
    assert SqlTimestamp(y, mo, d, h, mi) == a + "-" + b + "-" + c + " " + e + ":" + f + ":00";
    SqlTimestampFields(a, b, c, e, f);
  }

  /** Where each field sits in a timestamp laid out from fields of the right widths. */
  lemma SqlTimestampFields(a: string, b: string, c: string, e: string, f: string)
    requires |a| == 4 && |b| == 2 && |c| == 2 && |e| == 2 && |f| == 2
    ensures var s := a + "-" + b + "-" + c + " " + e + ":" + f + ":00";
      |s| == 19 && s[..4] == a && s[5..7] == b && s[8..10] == c && s[11..13] == e && s[14..16] == f &&
      s[4] == '-' && s[7] == '-' && s[10] == ' ' && s[13] == ':' && s[16..] == ":00"
  {
    var s := a + "-" + b + "-" + c + " " + e + ":" + f + ":00";
    assert s[..4] == a;
    assert s[5..7] == b;
    assert s[8..10] == c;
    assert s[11..13] == e;
    assert s[14..16] == f;
    assert s[16..] == ":00";
  }

  // ---------------------------------------------------------------------
  // Arrays, casts and the string helpers of the repositories
  // ---------------------------------------------------------------------

  /** `$v[k] ?? null`: the non-null entry under the string key `k` when `v` is an array. */
  function Index(v: PVal, k: string): (r: Option<PVal>)
    ensures r.Some? ==> v.PArr? && !r.value.PNull?
    ensures r.Some? ==> Lookup(v.entries, KStr(k)) == r
  {
    if v.PArr? then
      match Lookup(v.entries, KStr(k))
      case Some(x) => if x.PNull? then None else Some(x)
      case None => None
    else None
  }

  /** `(string)$v`; how a float is printed is left to `floatText`. */
  function StrCast(v: PVal, floatText: real -> string): string
  {
    match v
    case PNull => ""
    case PBool(b) => if b then "1" else ""
    case PInt(i) => IntToString(i)
    case PFloat(f) => floatText(f)
    case PStr(s) => s
    case PArr(_) => "Array"
  }

  function StripTrailingSlashes(s: string): (r: string)
    ensures StartsWith(s, r)
    ensures |r| > 0 ==> r[|r| - 1] != '/'
  {
    if |s| > 0 && s[|s| - 1] == '/' then StripTrailingSlashes(s[..|s| - 1]) else s
  }

  /** `basename`: the last `/`-separated component, trailing slashes ignored. */
  function Basename(path: string): (r: string)
    ensures !HasChar(r, '/')
  {
    RSplitTail(StripTrailingSlashes(path), '/')
  }

  /** The base name of `dir/name` is `name`. */
  lemma BasenameOfJoin(dir: string, name: string)
    requires |name| > 0 && !HasChar(name, '/')
    ensures Basename(dir + "/" + name) == name
  {
    assert name[|name| - 1] != '/';
    RSplitJoin(dir, name, '/');
  }

  /** `preg_replace('/\D+/', '', s)`: the digits of `s`, in order. */
  function DigitsOnly(s: string): (r: string)
    ensures AllDigits(r) && |r| <= |s|
  {
    if |s| == 0 then ""
    else (if IsDigit(s[0]) then [s[0]] else []) + DigitsOnly(s[1..])
  }

  /** A string of digits is left as it is. */
  lemma {:induction false} DigitsOnlyKeepsDigits(s: string)
    requires AllDigits(s)
    ensures DigitsOnly(s) == s
    decreases |s|
  {
    if |s| > 0 {
      DigitsOnlyKeepsDigits(s[1..]);
    }
  }

  /** Stripping works piece by piece: the digits of `a + b` are those of `a`, then those of `b`. */
  lemma {:induction false} DigitsOnlyConcat(a: string, b: string)
    ensures DigitsOnly(a + b) == DigitsOnly(a) + DigitsOnly(b)
    decreases |a|
  {
    if |a| > 0 {
      assert (a + b)[1..] == a[1..] + b;
      DigitsOnlyConcat(a[1..], b);
    } else {
      assert a + b == b;
    }
  }

  /** A digit run reaches at least as far as any block of digits at its start. */
  lemma DigitRunCoversDigits(s: string, p: nat, lo: nat)
    requires p + lo <= |s| && AllDigits(s[p..p + lo])
    ensures DigitRunEnd(s, p) >= p + lo
  {
    var e := DigitRunEnd(s, p);
    if e < p + lo {
      assert false;
    }
  }

  /** `lo` digits start at `q`. */
  predicate DigitsAt(s: string, q: nat, lo: nat)
  {
    q + lo <= |s| && AllDigits(s[q..q + lo])
  }

  /**
   * `preg_match('/(\d{lo,hi})/', s)` searching from `p`: the leftmost place
   * where `lo` digits start, and from there the longest run of at most `hi`
   * digits.
   */
  function FirstDigitRunFrom(s: string, lo: nat, hi: nat, p: nat): (r: Option<string>)
    requires 0 < lo <= hi && p <= |s|
    ensures r.Some? ==> lo <= |r.value| <= hi && AllDigits(r.value)
    decreases |s| - p
  {
    if p + lo > |s| then None
    else if DigitsAt(s, p, lo) then
      var e := DigitRunEnd(s, p);
      DigitRunCoversDigits(s, p, lo);
      var r := s[p..Min(e, p + hi)];
      assert AllDigits(r) by {
        forall i | 0 <= i < |r| ensures IsDigit(r[i]) {
          assert r[i] == s[p..e][i];
        }
      }
      Some(r)
    else
      FirstDigitRunFrom(s, lo, hi, p + 1)
  }

  /**
   * The search finds nothing exactly when no `lo` digits follow `p`; when it
   * finds something, it is the longest run of at most `hi` digits at the
   * leftmost place where `lo` digits start.
   */
  lemma {:induction false} FirstDigitRunFromSpec(s: string, lo: nat, hi: nat, p: nat)
    requires 0 < lo <= hi && p <= |s|
    ensures var r := FirstDigitRunFrom(s, lo, hi, p);
      (r.None? <==> forall q :: p <= q ==> !DigitsAt(s, q, lo)) &&
      (r.Some? ==>
        exists q :: p <= q && DigitsAt(s, q, lo) &&
          (forall q' :: p <= q' < q ==> !DigitsAt(s, q', lo)) &&
          r.value == s[q..Min(DigitRunEnd(s, q), q + hi)])
    decreases |s| - p
  {
    if p + lo > |s| {
    } else if DigitsAt(s, p, lo) {
    } else {
      FirstDigitRunFromSpec(s, lo, hi, p + 1);
      var r := FirstDigitRunFrom(s, lo, hi, p + 1);
      if r.Some? {
        var q :| p + 1 <= q && DigitsAt(s, q, lo) &&
          (forall q' :: p + 1 <= q' < q ==> !DigitsAt(s, q', lo)) &&
          r.value == s[q..Min(DigitRunEnd(s, q), q + hi)];
        assert forall q' :: p <= q' < q ==> !DigitsAt(s, q', lo);
      }
    }
  }

  function FirstDigitRun(s: string, lo: nat, hi: nat): (r: Option<string>)
    requires 0 < lo <= hi
  {
    FirstDigitRunFrom(s, lo, hi, 0)
  }

  /** After a stretch free of digits, the first long enough run is found whole. */
  lemma {:induction false} FirstDigitRunAfter(pre: string, d: string, post: string, lo: nat, hi: nat, p: nat)
    requires 0 < lo <= |d| <= hi && AllDigits(d) && p <= |pre|
    requires forall i :: 0 <= i < |pre| ==> !IsDigit(pre[i])
    requires |post| > 0 ==> !IsDigit(post[0])
    ensures FirstDigitRunFrom(pre + d + post, lo, hi, p) == Some(d)
    decreases |pre| - p
  {
    var s := pre + d + post;
    if p < |pre| {
      assert s[p..p + lo][0] == pre[p];
      assert !DigitsAt(s, p, lo);
      FirstDigitRunAfter(pre, d, post, lo, hi, p + 1);
    } else {
      assert s[p..p + lo] == d[..lo];
      assert DigitsAt(s, p, lo);
      var e := DigitRunEnd(s, p);
      if |post| > 0 {
        assert s[|pre| + |d|] == post[0];
      }
      assert e <= |pre| + |d| by {
        if e > |pre| + |d| {
          assert false;
        }
      }
      assert e >= |pre| + |d| by {
        if e < |pre| + |d| {
          assert false;
        }
      }
      assert s[p..e] == d;
    }
  }
}
