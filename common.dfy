/**
 * Shared vocabulary of the model: optional values, results with an error
 * message, and the character and decimal-string helpers that both the
 * Python pipeline and the PHP application rely on.
 */
module Common {

  datatype Option<T> = None | Some(value: T) {
    /** The value, or `d` when there is none. */
    function UnwrapOr(d: T): T
    {
      if Some? then value else d
    }
  }

  /** Left-biased choice, the shape of PHP's `$a ?? $b` once null is `None`. */
  function OrElse<T>(a: Option<T>, b: Option<T>): (r: Option<T>)
    ensures r.Some? <==> (a.Some? || b.Some?)
    ensures a.Some? ==> r == a
  {
    if a.Some? then a else b
  }

  datatype Result<T> = Ok(value: T) | Err(msg: string)

  function Min(a: int, b: int): int { if a <= b then a else b }
  function Max(a: int, b: int): int { if a >= b then a else b }
  function Abs(x: int): nat { if x < 0 then -x else x }
  function AbsR(x: real): real { if x < 0.0 then -x else x }

  // ---------------------------------------------------------------------
  // Characters
  // ---------------------------------------------------------------------

  predicate IsDigit(c: char) { '0' <= c <= '9' }

  predicate AllDigits(s: string)
  {
    forall i :: 0 <= i < |s| ==> IsDigit(s[i])
  }

  /** Word characters of a PCRE `\b` boundary: letters, digits and `_`. */
  predicate IsWordChar(c: char)
  {
    IsDigit(c) || ('a' <= c <= 'z') || ('A' <= c <= 'Z') || c == '_'
  }

  /** Characters PHP's `trim` removes: space, tab, LF, CR, NUL, vertical tab. */
  predicate IsTrimWs(c: char)
  {
    c == ' ' || c == '\t' || c == '\n' || c == '\r' || c == '\0' || c == '\U{B}'
  }

  /** Characters of the PCRE class `\s`: space, tab, LF, vertical tab, form feed, CR. */
  predicate IsRegexWs(c: char)
  {
    c == ' ' || c == '\t' || c == '\n' || c == '\U{B}' || c == '\U{C}' || c == '\r'
  }

  function UpperChar(c: char): char
  {
    if 'a' <= c <= 'z' then (c as int - 32) as char else c
  }

  function LowerChar(c: char): char
  {
    if 'A' <= c <= 'Z' then (c as int + 32) as char else c
  }

  /** ASCII upper-casing (PHP 8 `strtoupper`). */
  function Upper(s: string): (r: string)
    ensures |r| == |s|
    ensures forall i :: 0 <= i < |s| ==> r[i] == UpperChar(s[i])
  {
    seq(|s|, i requires 0 <= i < |s| => UpperChar(s[i]))
  }

  /** ASCII lower-casing (PHP 8 `strtolower`). */
  function Lower(s: string): (r: string)
    ensures |r| == |s|
    ensures forall i :: 0 <= i < |s| ==> r[i] == LowerChar(s[i])
  {
    seq(|s|, i requires 0 <= i < |s| => LowerChar(s[i]))
  }

  // ---------------------------------------------------------------------
  // Substrings
  // ---------------------------------------------------------------------

  predicate StartsWith(s: string, p: string) { |p| <= |s| && s[..|p|] == p }
  predicate EndsWith(s: string, p: string) { |p| <= |s| && s[|s| - |p|..] == p }

  predicate ContainsAt(s: string, sub: string, i: nat)
  {
    i + |sub| <= |s| && s[i..i + |sub|] == sub
  }

  /** PHP `str_contains` / Python `in` on strings. */
  predicate Contains(s: string, sub: string)
  {
    exists i :: 0 <= i <= |s| - |sub| && ContainsAt(s, sub, i)
  }

  predicate HasChar(s: string, c: char)
  {
    exists i :: 0 <= i < |s| && s[i] == c
  }

  /** A string without capitals is its own lower-casing. */
  lemma LowerOfNoCapitals(s: string)
    requires forall i :: 0 <= i < |s| ==> !('A' <= s[i] <= 'Z')
    ensures Lower(s) == s
  {
  }

  // ---------------------------------------------------------------------
  // Trimming and whitespace splitting
  // ---------------------------------------------------------------------

  /** PHP `ltrim`: `s` without its leading whitespace (what is cut: `TrimLeftCuts`). */
  function TrimLeft(s: string): (r: string)
    ensures |r| <= |s|
    ensures |r| > 0 ==> !IsTrimWs(r[0])
  {
    if |s| > 0 && IsTrimWs(s[0]) then TrimLeft(s[1..]) else s
  }

  /** The left trim is the rest of `s` after a prefix made only of whitespace. */
  lemma {:induction false} TrimLeftCuts(s: string)
    ensures var r := TrimLeft(s);
      r == s[|s| - |r|..] && forall k :: 0 <= k < |s| - |r| ==> IsTrimWs(s[k])
  {
    if |s| > 0 && IsTrimWs(s[0]) {
      TrimLeftCuts(s[1..]);
      var r := TrimLeft(s[1..]);
      assert forall k :: 1 <= k < |s| - |r| ==> s[k] == s[1..][k - 1];
    }
  }

  /** PHP `rtrim`: `s` without its trailing whitespace (what is cut: `TrimRightCuts`). */
  function TrimRight(s: string): (r: string)
    ensures |r| <= |s|
    ensures |r| > 0 ==> !IsTrimWs(r[|r| - 1])
  {
    if |s| > 0 && IsTrimWs(s[|s| - 1]) then TrimRight(s[..|s| - 1]) else s
  }

  /** The right trim is `s` up to a suffix made only of whitespace. */
  lemma {:induction false} TrimRightCuts(s: string)
    ensures var r := TrimRight(s);
      r == s[..|r|] && forall k :: |r| <= k < |s| ==> IsTrimWs(s[k])
  {
    if |s| > 0 && IsTrimWs(s[|s| - 1]) {
      TrimRightCuts(s[..|s| - 1]);
      var r := TrimRight(s[..|s| - 1]);
      assert forall k :: |r| <= k < |s| - 1 ==> s[k] == s[..|s| - 1][k];
    }
  }

  /** PHP `trim` with its default character list: `ltrim` then `rtrim` (what is kept: `TrimEnds`). */
  function Trim(s: string): (r: string)
    ensures |r| <= |s|
    ensures |r| > 0 ==> !IsTrimWs(r[0]) && !IsTrimWs(r[|r| - 1])
  {
    TrimRightCuts(TrimLeft(s));
    TrimRight(TrimLeft(s))
  }

  /** A string with no trimmable character at either end is its own trim. */
  lemma TrimOfTrimmed(s: string)
    requires |s| > 0 ==> !IsTrimWs(s[0]) && !IsTrimWs(s[|s| - 1])
    ensures Trim(s) == s
  {
  }

  /** What `trim` keeps: a middle slice of `s`, from offset `i`, with only whitespace around it. */
  lemma TrimEnds(s: string)
    ensures var r := Trim(s); var i := |s| - |TrimLeft(s)|;
      i + |r| <= |s| && r == s[i..i + |r|] &&
      (forall k :: 0 <= k < i ==> IsTrimWs(s[k])) &&
      (forall k :: i + |r| <= k < |s| ==> IsTrimWs(s[k]))
  {
    var l := TrimLeft(s);
    var r := TrimRight(l);
    var i := |s| - |l|;
    TrimLeftCuts(s);
    TrimRightCuts(l);
    forall k | i + |r| <= k < |s| ensures IsTrimWs(s[k]) {
      assert s[k] == l[k - i];
    }
  }

  /** The first index at or after `i` that is not a `\s` character. */
  function SkipRegexWs(s: string, i: nat): (j: nat)
    requires i <= |s|
    ensures i <= j <= |s|
    ensures j < |s| ==> !IsRegexWs(s[j])
    ensures forall k :: i <= k < j ==> IsRegexWs(s[k])
    decreases |s| - i
  {
    if i < |s| && IsRegexWs(s[i]) then SkipRegexWs(s, i + 1) else i
  }

  /** The first index at or after `i` that is a `\s` character, or `|s|`. */
  function FindRegexWs(s: string, i: nat): (j: nat)
    requires i <= |s|
    ensures i <= j <= |s|
    ensures j < |s| ==> IsRegexWs(s[j])
    ensures forall k :: i <= k < j ==> !IsRegexWs(s[k])
    decreases |s| - i
  {
    if i == |s| || IsRegexWs(s[i]) then i else FindRegexWs(s, i + 1)
  }

  /**
   * PHP `preg_split('/\s+/', s)`: the pieces between maximal runs of `\s`,
   * keeping an empty first or last piece when `s` starts or ends with one.
   */
  function SplitWs(s: string): (r: seq<string>)
    ensures |r| >= 1
    ensures forall k :: 0 <= k < |r| ==> forall c :: 0 <= c < |r[k]| ==> !IsRegexWs(r[k][c])
    decreases |s|
  {
    var i := FindRegexWs(s, 0);
    if i == |s| then [s]
    else
      var j := SkipRegexWs(s, i);
      [s[..i]] + SplitWs(s[j..])
  }

  predicate AllRegexWs(s: string)
  {
    forall c :: 0 <= c < |s| ==> IsRegexWs(s[c])
  }

  /** The pieces joined with the separators between them: `parts[0] + seps[0] + parts[1] + ...`. */
  function Interleave(parts: seq<string>, seps: seq<string>): string
    requires |parts| == |seps| + 1
    decreases |seps|
  {
    if |seps| == 0 then parts[0] else parts[0] + seps[0] + Interleave(parts[1..], seps[1..])
  }

  /** The maximal runs of `\s` characters of `s`, the separators `SplitWs` splits at. */
  function WsRuns(s: string): (r: seq<string>)
    ensures |r| + 1 == |SplitWs(s)|
    decreases |s|
  {
    var i := FindRegexWs(s, 0);
    if i == |s| then []
    else
      var j := SkipRegexWs(s, i);
      [s[i..j]] + WsRuns(s[j..])
  }

  /**
   * The pieces of `SplitWs` are the maximal non-`\s` stretches of `s`, in
   * order: put back together with the whitespace runs between them they give
   * `s`, and every run is non-empty and all `\s` (`WsRunsAreRuns`); no piece
   * holds `\s` (`SplitWs`), and only the first and last can be empty
   * (`InnerPiecesNonEmpty`).
   */
  lemma {:induction false} SplitWsRebuilds(s: string)
    ensures Interleave(SplitWs(s), WsRuns(s)) == s
    decreases |s|
  {
    var i := FindRegexWs(s, 0);
    if i < |s| {
      var j := SkipRegexWs(s, i);
      SplitWsRebuilds(s[j..]);
      SplitWsStep(s);
      InterleaveCons(s[..i], SplitWs(s[j..]), s[i..j], WsRuns(s[j..]));
      SliceThree(s, i, j);
    }
  }

  lemma SliceThree(s: string, i: nat, j: nat)
    requires i <= j <= |s|
    ensures s[..i] + s[i..j] + s[j..] == s
  {
    assert s[..i] + s[i..j] == s[..j];
  }

  /** One step of the split: the piece before the first `\s` run, that run, and the split of the rest. */
  lemma SplitWsStep(s: string)
    requires FindRegexWs(s, 0) < |s|
    ensures var i := FindRegexWs(s, 0); var j := SkipRegexWs(s, i);
      SplitWs(s) == [s[..i]] + SplitWs(s[j..]) && WsRuns(s) == [s[i..j]] + WsRuns(s[j..])
  {
  }

  lemma InterleaveCons(p: string, ps: seq<string>, r: string, rs: seq<string>)
    requires |ps| == |rs| + 1
    ensures Interleave([p] + ps, [r] + rs) == p + r + Interleave(ps, rs)
  {
    assert ([p] + ps)[1..] == ps && ([r] + rs)[1..] == rs;
  }

  lemma {:induction false} WsRunsAreRuns(s: string)
    ensures forall k :: 0 <= k < |WsRuns(s)| ==> |WsRuns(s)[k]| > 0 && AllRegexWs(WsRuns(s)[k])
    decreases |s|
  {
    var i := FindRegexWs(s, 0);
    if i < |s| {
      var j := SkipRegexWs(s, i);
      WsRunsAreRuns(s[j..]);
      assert WsRuns(s) == [s[i..j]] + WsRuns(s[j..]);
    }
  }

  /** Only the first and the last piece can be empty: a piece between two runs holds at least one character. */
  lemma {:induction false} InnerPiecesNonEmpty(s: string)
    ensures forall k :: 0 < k < |SplitWs(s)| - 1 ==> |SplitWs(s)[k]| > 0
    decreases |s|
  {
    var i := FindRegexWs(s, 0);
    if i < |s| {
      var j := SkipRegexWs(s, i);
      var t := s[j..];
      InnerPiecesNonEmpty(t);
      assert SplitWs(s) == [s[..i]] + SplitWs(t);
      if |SplitWs(t)| > 1 {
        var f := FindRegexWs(t, 0);
        assert f < |t|;
        assert t[0] == s[j];
        assert SplitWs(t)[0] == t[..f];
      }
    }
  }


  /** Python `str.split(sep)` for a one-character separator. */
  function SplitOn(s: string, sep: char): (r: seq<string>)
    ensures |r| >= 1
    ensures forall k :: 0 <= k < |r| ==> !HasChar(r[k], sep)
    decreases |s|
  {
    if |s| == 0 then [""]
    else if s[0] == sep then [""] + SplitOn(s[1..], sep)
    else
      var rest := SplitOn(s[1..], sep);
      [[s[0]] + rest[0]] + rest[1..]
  }

  /** Joining the pieces of `SplitOn` with the separator gives the input back. */
  function Join(parts: seq<string>, sep: char): string
  {
    if |parts| == 0 then ""
    else if |parts| == 1 then parts[0]
    else parts[0] + [sep] + Join(parts[1..], sep)
  }

  lemma {:induction false} SplitOnJoin(s: string, sep: char)
    ensures Join(SplitOn(s, sep), sep) == s
    decreases |s|
  {
    if |s| == 0 {
    } else if s[0] == sep {
      SplitOnJoin(s[1..], sep);
      var rest := SplitOn(s[1..], sep);
      assert SplitOn(s, sep) == [""] + rest;
      assert ([""] + rest)[1..] == rest;
    } else {
      SplitOnJoin(s[1..], sep);
      var rest := SplitOn(s[1..], sep);
      var r := [[s[0]] + rest[0]] + rest[1..];
      if |rest| == 1 {
        assert Join(r, sep) == [s[0]] + rest[0];
      } else {
        assert r[1..] == rest[1..];
        assert Join(rest, sep) == rest[0] + [sep] + Join(rest[1..], sep);
      }
    }
  }

  /** Splitting a string that has the separator only between the given pieces gives those pieces back. */
  lemma {:induction false} JoinSplitOn(parts: seq<string>, sep: char)
    requires |parts| >= 1
    requires forall k :: 0 <= k < |parts| ==> !HasChar(parts[k], sep)
    ensures SplitOn(Join(parts, sep), sep) == parts
    decreases |parts|, |parts[0]|
  {
    var p := parts[0];
    if |p| == 0 {
      if |parts| == 1 {
      } else {
        var rest := Join(parts[1..], sep);
        assert Join(parts, sep) == [sep] + rest;
        JoinSplitOn(parts[1..], sep);
        assert ([sep] + rest)[1..] == rest;
        assert [""] + parts[1..] == parts;
      }
    } else {
      var shorter := [p[1..]] + parts[1..];
      assert !HasChar(p[1..], sep) by {
        forall i | 0 <= i < |p[1..]| ensures p[1..][i] != sep { assert p[1..][i] == p[i + 1]; }
      }
      assert forall k :: 0 <= k < |shorter| ==> !HasChar(shorter[k], sep) by {
        forall k | 0 <= k < |shorter| ensures !HasChar(shorter[k], sep) {
          if k > 0 { assert shorter[k] == parts[k]; }
        }
      }
      JoinSplitOn(shorter, sep);
      var j := Join(parts, sep);
      assert p[0] != sep by { assert p[0] == parts[0][0]; }
      if |parts| == 1 {
        assert j == p;
        assert j[1..] == Join(shorter, sep);
      } else {
        assert j == p + [sep] + Join(parts[1..], sep);
        assert Join(shorter, sep) == p[1..] + [sep] + Join(shorter[1..], sep);
        assert shorter[1..] == parts[1..];
        assert j[1..] == Join(shorter, sep);
      }
      assert j[0] == p[0];
      assert [p[0]] + p[1..] == p;
      assert [p] + parts[1..] == parts;
    }
  }

  // ---------------------------------------------------------------------
  // Decimal digits
  // ---------------------------------------------------------------------

  function DigitChar(d: nat): (c: char)
    requires d < 10
    ensures IsDigit(c)
  {
    ('0' as int + d) as char
  }

  function DigitValue(c: char): nat
    requires IsDigit(c)
  {
    (c as int - '0' as int) as nat
  }

  /** The decimal value of a string of digits (`""` reads as 0). */
  function DigitsValue(s: string): nat
    requires AllDigits(s)
  {
    if |s| == 0 then 0 else DigitsValue(s[..|s| - 1]) * 10 + DigitValue(s[|s| - 1])
  }

  function Pow10(k: nat): (p: nat)
    ensures p >= 1
  {
    if k == 0 then 1 else 10 * Pow10(k - 1)
  }

  /** The shortest decimal spelling of `n` (Python `str`, PHP `(string)`). */
  function NatToString(n: nat): (s: string)
    ensures |s| >= 1 && AllDigits(s)
    decreases n
  {
    if n < 10 then [DigitChar(n)] else NatToString(n / 10) + [DigitChar(n % 10)]
  }

  lemma {:induction false} NatToStringRoundTrip(n: nat)
    ensures DigitsValue(NatToString(n)) == n
    decreases n
  {
    if n >= 10 {
      NatToStringRoundTrip(n / 10);
      var s := NatToString(n);
      assert s[..|s| - 1] == NatToString(n / 10);
    }
  }

  lemma {:induction false} NatToStringLength(n: nat, k: nat)
    requires k >= 1 && n < Pow10(k)
    ensures |NatToString(n)| <= k
    decreases k
  {
    if n >= 10 {
      assert Pow10(1) == 10;
      assert k != 1;
      NatToStringLength(n / 10, k - 1);
    }
  }

  function Zeros(k: nat): (s: string)
    ensures |s| == k && AllDigits(s)
    ensures forall i :: 0 <= i < k ==> s[i] == '0'
  {
    seq(k, i => '0')
  }

  lemma {:induction false} LeadingZerosValue(z: nat, s: string)
    requires AllDigits(s)
    ensures AllDigits(Zeros(z) + s) && DigitsValue(Zeros(z) + s) == DigitsValue(s)
    decreases |s|
  {
    var t := Zeros(z) + s;
    if |s| == 0 {
      assert t == Zeros(z);
      ZerosValue(z);
    } else {
      assert t[..|t| - 1] == Zeros(z) + s[..|s| - 1];
      LeadingZerosValue(z, s[..|s| - 1]);
    }
  }

  lemma {:induction false} ZerosValue(z: nat)
    ensures DigitsValue(Zeros(z)) == 0
    decreases z
  {
    if z > 0 {
      assert Zeros(z)[..z - 1] == Zeros(z - 1);
      ZerosValue(z - 1);
    }
  }

  /** `n` in decimal, left-padded with zeros to at least `w` characters (`%0wd`, `{:0wd}`). */
  function PadNat(n: nat, w: nat): (s: string)
    ensures AllDigits(s)
  {
    var d := NatToString(n);
    if |d| >= w then d else Zeros(w - |d|) + d
  }

  /** Zero padding is undone by reading the digits back, and fixes the width when `n` fits. */
  lemma PadNatRoundTrip(n: nat, w: nat)
    ensures DigitsValue(PadNat(n, w)) == n
    ensures w >= 1 && n < Pow10(w) ==> |PadNat(n, w)| == w
  {
    var d := NatToString(n);
    NatToStringRoundTrip(n);
    if |d| < w { LeadingZerosValue(w - |d|, d); }
    if w >= 1 && n < Pow10(w) { NatToStringLength(n, w); }
  }

  /** PHP `sprintf('%0wd', i)`: a minus sign counts towards the width. */
  function PadInt(i: int, w: nat): string
  {
    if i < 0 then "-" + PadNat(-i, if w >= 1 then w - 1 else 0) else PadNat(i, w)
  }

  function IntToString(i: int): (s: string)
    ensures |s| >= 1
  {
    if i < 0 then "-" + NatToString(-i) else NatToString(i)
  }

  /**
   * Optional `-` followed by one or more digits; the inverse of `IntToString`.
   * Narrower than Python's `int()`: no surrounding whitespace, no `+` sign
   * and no underscores between digits.
   */
  function ParseInt(s: string): (r: Option<int>)
    ensures r.Some? && |s| > 0 && s[0] != '-' ==> r.value >= 0
  {
    if |s| > 0 && s[0] == '-' then
      if |s| > 1 && AllDigits(s[1..]) then Some(-(DigitsValue(s[1..]) as int)) else None
    else if |s| > 0 && AllDigits(s) then Some(DigitsValue(s))
    else None
  }

  lemma IntStringRoundTrip(i: int)
    ensures ParseInt(IntToString(i)) == Some(i)
  {
    if i < 0 {
      NatToStringRoundTrip(-i);
      assert ("-" + NatToString(-i))[1..] == NatToString(-i);
    } else {
      NatToStringRoundTrip(i);
      assert NatToString(i)[0] != '-';
    }
  }

  /** No digit string contains a non-digit character. */
  lemma DigitsHaveNo(s: string, c: char)
    requires AllDigits(s) && !IsDigit(c)
    ensures !HasChar(s, c)
  {
  }

  // ---------------------------------------------------------------------
  // Real arithmetic steps the solver needs spelled out
  // ---------------------------------------------------------------------

  lemma MulMono(a: real, b: real, m: real)
    requires a <= b && m > 0.0
    ensures a * m <= b * m
  {
  }

  lemma MulStrict(a: real, b: real, m: real)
    requires a < b && m > 0.0
    ensures a * m < b * m
  {
  }

  lemma DivMono(a: real, b: real, m: real)
    requires a <= b && m > 0.0
    ensures a / m <= b / m
  {
  }

  /** A part of a positive whole, divided by the whole, is a fraction in [0, 1]. */
  lemma FractionInUnit(a: real, m: real)
    requires 0.0 <= a <= m && m > 0.0
    ensures 0.0 <= a / m <= 1.0
  {
    var q := a / m;
    assert q * m == a;
    if q < 0.0 {
      MulStrict(q, 0.0, m);
    } else if q > 1.0 {
      MulStrict(1.0, q, m);
    }
  }

  /** Scaling by a fraction `b` in [0, 1] moves a value towards zero without crossing it. */
  lemma ScaleFraction(b: real, x: real)
    requires 0.0 <= b <= 1.0
    ensures x >= 0.0 ==> 0.0 <= b * x <= x
    ensures x < 0.0 ==> x <= b * x <= 0.0
  {
    if x > 0.0 {
      MulMono(b, 1.0, x);
    } else if x < 0.0 {
      if b > 0.0 {
        MulMono(0.0 - 1.0, 0.0 - b, -x);
      }
    }
  }

  // ---------------------------------------------------------------------
  // Python built-ins
  // ---------------------------------------------------------------------

  /** Python `range(start, stop, step)` for a non-zero step. */
  function PyRange(start: int, stop: int, step: int): seq<int>
    requires step != 0
    decreases if step > 0 then stop - start else start - stop
  {
    if (step > 0 && start < stop) || (step < 0 && start > stop) then [start] + PyRange(start + step, stop, step)
    else []
  }

  /**
   * The i-th element of a range is `start + i * step`; every element is on the
   * near side of `stop` and the next one would not be.
   */
  lemma PyRangeSpec(start: int, stop: int, step: int)
    requires step != 0
    ensures var r := PyRange(start, stop, step);
      (forall i :: 0 <= i < |r| ==> r[i] == start + i * step) &&
      (step > 0 ==> (forall i :: 0 <= i < |r| ==> r[i] < stop) && start + |r| * step >= stop) &&
      (step < 0 ==> (forall i :: 0 <= i < |r| ==> r[i] > stop) && start + |r| * step <= stop)
  {
    PyRangeValues(start, stop, step);
    PyRangeEnd(start, stop, step);
  }

  /** One step more from `start` is `i - 1` steps from `start + step`. */
  lemma StepShift(start: int, step: int, i: int)
    ensures start + step + (i - 1) * step == start + i * step
  {
  }

  /** The i-th element of a range is `start + i * step`, on the near side of `stop`. */
  lemma {:induction false} PyRangeValues(start: int, stop: int, step: int)
    requires step != 0
    ensures forall i :: 0 <= i < |PyRange(start, stop, step)| ==>
      PyRange(start, stop, step)[i] == start + i * step &&
      (step > 0 ==> PyRange(start, stop, step)[i] < stop) &&
      (step < 0 ==> PyRange(start, stop, step)[i] > stop)
    decreases if step > 0 then stop - start else start - stop
  {
    var r := PyRange(start, stop, step);
    if (step > 0 && start < stop) || (step < 0 && start > stop) {
      PyRangeValues(start + step, stop, step);
      var rest := PyRange(start + step, stop, step);
      assert r == [start] + rest;
      forall i | 0 < i < |r|
        ensures r[i] == start + i * step && (step > 0 ==> r[i] < stop) && (step < 0 ==> r[i] > stop)
      {
        assert r[i] == rest[i - 1];
        StepShift(start, step, i);
      }
    }
  }

  /** The element one past the last would be on the far side of `stop`. */
  lemma {:induction false} PyRangeEnd(start: int, stop: int, step: int)
    requires step != 0
    ensures var r := PyRange(start, stop, step);
      (step > 0 ==> start + |r| * step >= stop) && (step < 0 ==> start + |r| * step <= stop)
    decreases if step > 0 then stop - start else start - stop
  {
    if (step > 0 && start < stop) || (step < 0 && start > stop) {
      PyRangeEnd(start + step, stop, step);
      var rest := PyRange(start + step, stop, step);
      assert |PyRange(start, stop, step)| == |rest| + 1;
      StepShift(start, step, |rest| + 1);
    }
  }

  predicate NoDup<T(==)>(s: seq<T>)
  {
    forall i, j :: 0 <= i < j < |s| ==> s[i] != s[j]
  }

  /** The values of the present entries of `rs[lo..hi]`, in order: what a loop that skips lines keeps. */
  function Kept<T>(rs: seq<Option<T>>, lo: nat, hi: nat): seq<T>
    requires hi <= |rs|
    decreases hi
  {
    if hi <= lo then []
    else
      var p := Kept(rs, lo, hi - 1);
      if rs[hi - 1].Some? then p + [rs[hi - 1].value] else p
  }

  /** One more entry: its value is appended when present. */
  lemma KeptStep<T>(rs: seq<Option<T>>, lo: nat, hi: nat, acc: seq<T>, r: Option<T>)
    requires lo <= hi < |rs| && acc == Kept(rs, lo, hi) && rs[hi] == r
    ensures Kept(rs, lo, hi + 1) == if r.Some? then acc + [r.value] else acc
  {
  }

  /** The kept values are exactly the present entries in range, at most one per entry. */
  lemma {:induction false} KeptSpec<T>(rs: seq<Option<T>>, lo: nat, hi: nat)
    requires hi <= |rs|
    ensures |Kept(rs, lo, hi)| <= (if hi <= lo then 0 else hi - lo)
    ensures forall x :: x in Kept(rs, lo, hi) <==> exists i :: lo <= i < hi && rs[i] == Some(x)
    decreases hi
  {
    if hi > lo {
      KeptSpec(rs, lo, hi - 1);
    }
  }

  /** The position a kept value came from. */
  lemma KeptSource<T>(rs: seq<Option<T>>, lo: nat, hi: nat, x: T) returns (i: nat)
    requires hi <= |rs| && x in Kept(rs, lo, hi)
    ensures lo <= i < hi && rs[i] == Some(x)
  {
    KeptSpec(rs, lo, hi);
    i :| lo <= i < hi && rs[i] == Some(x);
  }

  /** The present results of `f` over `xs`, in order: what a loop that skips some items and appends a result for the rest builds. */
  function Picked<A, B>(xs: seq<A>, f: A -> Option<B>): (r: seq<B>)
    ensures |r| <= |xs|
  {
    if |xs| == 0 then []
    else
      var p := Picked(xs[..|xs| - 1], f);
      var y := f(xs[|xs| - 1]);
      if y.Some? then p + [y.value] else p
  }

  /** `r[k]` is the result of `f` at position `idx[k]` of `xs`. */
  ghost predicate ResultsAt<A, B>(xs: seq<A>, f: A -> Option<B>, r: seq<B>, idx: seq<nat>)
  {
    |idx| == |r| && forall k :: 0 <= k < |idx| ==> idx[k] < |xs| && f(xs[idx[k]]) == Some(r[k])
  }

  predicate StrictlyIncreasing(idx: seq<nat>)
  {
    forall k, l :: 0 <= k < l < |idx| ==> idx[k] < idx[l]
  }

  /** Every position of `xs` where `f` yields a result is listed in `idx`. */
  ghost predicate CoversResults<A, B>(xs: seq<A>, f: A -> Option<B>, idx: seq<nat>)
  {
    forall i :: 0 <= i < |xs| && f(xs[i]).Some? ==> i in idx
  }

  /**
   * `idx` lists, in increasing order, exactly the positions of `xs` where
   * `f` yields a result, and `r` holds those results in the same order.
   */
  ghost predicate PicksAt<A, B>(xs: seq<A>, f: A -> Option<B>, r: seq<B>, idx: seq<nat>)
  {
    ResultsAt(xs, f, r, idx) && StrictlyIncreasing(idx) && CoversResults(xs, f, idx)
  }

  /** `Picked` keeps every item with a result, drops every item without one, and keeps their order. */
  lemma {:induction false} PickedSpec<A, B>(xs: seq<A>, f: A -> Option<B>)
    ensures exists idx :: PicksAt(xs, f, Picked(xs, f), idx)
  {
    if |xs| == 0 {
      var none: seq<nat> := [];
      assert PicksAt(xs, f, Picked(xs, f), none);
    } else {
      var n := |xs| - 1;
      var pre := xs[..n];
      var p := Picked(pre, f);
      PickedSpec(pre, f);
      var idx: seq<nat> :| PicksAt(pre, f, p, idx);
      var y := f(xs[n]);
      var idx' := if y.Some? then idx + [n] else idx;
      var r := if y.Some? then p + [y.value] else p;
      assert Picked(xs, f) == r;
      ResultsAtExtend(xs, f, p, idx);
      IncreasingExtend(idx, n);
      CoversExtend(xs, f, idx);
      assert PicksAt(xs, f, r, idx');
    }
  }

  lemma ResultsAtExtend<A, B>(xs: seq<A>, f: A -> Option<B>, p: seq<B>, idx: seq<nat>)
    requires |xs| > 0 && ResultsAt(xs[..|xs| - 1], f, p, idx)
    ensures var y := f(xs[|xs| - 1]);
      ResultsAt(xs, f, if y.Some? then p + [y.value] else p, if y.Some? then idx + [|xs| - 1] else idx)
  {
    var n := |xs| - 1;
    assert forall k :: 0 <= k < |idx| ==> xs[..n][idx[k]] == xs[idx[k]];
  }

  lemma IncreasingExtend(idx: seq<nat>, n: nat)
    requires StrictlyIncreasing(idx) && forall k :: 0 <= k < |idx| ==> idx[k] < n
    ensures StrictlyIncreasing(idx + [n])
  {
  }

  lemma CoversExtend<A, B>(xs: seq<A>, f: A -> Option<B>, idx: seq<nat>)
    requires |xs| > 0 && CoversResults(xs[..|xs| - 1], f, idx)
    ensures var n := |xs| - 1;
      CoversResults(xs, f, if f(xs[n]).Some? then idx + [n] else idx)
  {
    var n := |xs| - 1;
    var idx' := if f(xs[n]).Some? then idx + [n] else idx;
    forall i | 0 <= i < |xs| && f(xs[i]).Some?
      ensures i in idx'
    {
      if i < n {
        assert xs[..n][i] == xs[i];
      }
    }
  }

  /** Every picked value is the result of `f` on some item. */
  lemma {:induction false} PickedMember<A, B>(xs: seq<A>, f: A -> Option<B>, y: B)
    requires y in Picked(xs, f)
    ensures exists i :: 0 <= i < |xs| && f(xs[i]) == Some(y)
  {
    var n := |xs| - 1;
    var p := Picked(xs[..n], f);
    if y in p {
      PickedMember(xs[..n], f, y);
      var i :| 0 <= i < n && f(xs[..n][i]) == Some(y);
      assert xs[..n][i] == xs[i];
    } else {
      assert f(xs[n]) == Some(y);
    }
  }

  /** One more item: its result is appended when there is one. */
  lemma PickedStep<A, B>(xs: seq<A>, i: nat, f: A -> Option<B>)
    requires i < |xs|
    ensures Picked(xs[..i + 1], f) == (if f(xs[i]).Some? then Picked(xs[..i], f) + [f(xs[i]).value] else Picked(xs[..i], f))
  {
    assert xs[..i + 1][..i] == xs[..i];
  }

  /** The index of the last present entry before `n`: what a scan that keeps overwriting its finding ends with. */
  function LastSome<T>(rs: seq<Option<T>>, n: nat): (r: Option<nat>)
    requires n <= |rs|
    ensures r.None? <==> forall i :: 0 <= i < n ==> rs[i].None?
    ensures r.Some? ==> r.value < n && rs[r.value].Some? && forall i :: r.value < i < n ==> rs[i].None?
  {
    if n == 0 then None
    else if rs[n - 1].Some? then Some(n - 1)
    else LastSome(rs, n - 1)
  }

  /** When every entry in range is present, the kept values are those entries, one for one. */
  lemma {:induction false} KeptAll<T>(rs: seq<Option<T>>, lo: nat, hi: nat)
    requires lo <= hi <= |rs|
    requires forall i :: lo <= i < hi ==> rs[i].Some?
    ensures |Kept(rs, lo, hi)| == hi - lo
    ensures forall i :: lo <= i < hi ==> Kept(rs, lo, hi)[i - lo] == rs[i].value
    decreases hi
  {
    if hi > lo {
      KeptAll(rs, lo, hi - 1);
    }
  }

  lemma HasCharConcat(a: string, b: string, c: char)
    ensures HasChar(a + b, c) <==> HasChar(a, c) || HasChar(b, c)
  {
    if HasChar(a + b, c) {
      var i :| 0 <= i < |a + b| && (a + b)[i] == c;
      if i >= |a| { assert b[i - |a|] == c; }
    }
    if HasChar(a, c) {
      var i :| 0 <= i < |a| && a[i] == c;
      assert (a + b)[i] == c;
    }
    if HasChar(b, c) {
      var i :| 0 <= i < |b| && b[i] == c;
      assert (a + b)[|a| + i] == c;
    }
  }

  /** A suffix of `s` is the same suffix of `s` without its last element, then that element. */
  lemma SliceThenLast(s: string, k: nat)
    requires k < |s|
    ensures s[k..] == s[..|s| - 1][k..] + [s[|s| - 1]]
  {
  }

  /** The position of the last `c` in `s`. */
  function LastIndexOf(s: string, c: char): (r: Option<nat>)
    ensures r.None? <==> !HasChar(s, c)
    ensures r.Some? ==> r.value < |s| && s[r.value] == c && !HasChar(s[r.value + 1..], c)
  {
    if |s| == 0 then None
    else if s[|s| - 1] == c then
      assert s[|s|..] == [];
      Some(|s| - 1)
    else
      var r := LastIndexOf(s[..|s| - 1], c);
      SliceThenLast(s, 0);
      HasCharConcat(s[..|s| - 1], [s[|s| - 1]], c);
      if r.Some? then
        SliceThenLast(s, r.value + 1);
        HasCharConcat(s[..|s| - 1][r.value + 1..], [s[|s| - 1]], c);
        r
      else r
  }

  /** Python `s.rsplit(c, 1)[0]`: everything before the last `c`, or all of `s`. */
  function RSplitHead(s: string, c: char): string
  {
    var i := LastIndexOf(s, c);
    if i.Some? then s[..i.value] else s
  }

  /** Python `s.rsplit(c, 1)[-1]`: everything after the last `c`, or all of `s`. */
  function RSplitTail(s: string, c: char): string
  {
    var i := LastIndexOf(s, c);
    if i.Some? then s[i.value + 1..] else s
  }

  /** Splitting `d + c + name` at its last `c` gives `d` and `name` back when `name` has no `c`. */
  lemma RSplitJoin(d: string, name: string, c: char)
    requires !HasChar(name, c)
    ensures RSplitHead(d + [c] + name, c) == d
    ensures RSplitTail(d + [c] + name, c) == name
  {
    var s := d + [c] + name;
    var i := LastIndexOf(s, c);
    assert s[|d|] == c;
    assert forall k :: |d| < k < |s| ==> s[k] == name[k - |d| - 1];
    assert i.value == |d|;
    assert s[..|d|] == d;
    assert s[|d| + 1..] == name;
  }

  // ---------------------------------------------------------------------
  // Loops that skip, keep or throw
  // ---------------------------------------------------------------------

  /**
   * A loop over `rs[..n]` in which each step skips, keeps a value or throws:
   * the kept values in order, or the error of the first step that throws.
   */
  function Gather<T>(rs: seq<Result<Option<T>>>, n: nat): (r: Result<seq<T>>)
    requires n <= |rs|
    ensures r.Err? <==> exists i :: 0 <= i < n && rs[i].Err?
    ensures r.Err? ==> exists i :: 0 <= i < n && rs[i] == Err(r.msg) && forall j :: 0 <= j < i ==> rs[j].Ok?
    ensures r.Ok? ==> |r.value| <= n
    ensures r.Ok? ==> forall x :: x in r.value ==> exists i :: 0 <= i < n && rs[i] == Ok(Some(x))
  {
    if n == 0 then Ok([])
    else
      match Gather(rs, n - 1)
      case Err(m) => Err(m)
      case Ok(acc) =>
        match rs[n - 1]
        case Err(m) => Err(m)
        case Ok(None) => Ok(acc)
        case Ok(Some(x)) => Ok(acc + [x])
  }

  /** One more step of a loop that has not thrown. */
  lemma GatherStep<T>(rs: seq<Result<Option<T>>>, n: nat, acc: seq<T>)
    requires n < |rs| && Gather(rs, n) == Ok(acc)
    ensures Gather(rs, n + 1) ==
      match rs[n]
      case Err(m) => Err(m)
      case Ok(None) => Ok(acc)
      case Ok(Some(x)) => Ok(acc + [x])
  {
  }

  /** A step that throws ends the loop with its error, whatever follows. */
  lemma {:induction false} GatherStops<T>(rs: seq<Result<Option<T>>>, i: nat, n: nat)
    requires i < n <= |rs| && rs[i].Err? && Gather(rs, i).Ok?
    ensures Gather(rs, n) == Err(rs[i].msg)
    decreases n
  {
    if n > i + 1 {
      GatherStops(rs, i, n - 1);
    }
  }
}
