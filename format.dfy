/**
 * Display helpers of `Helpers\Format`: a countdown in minutes rendered as
 * `"now"`, `"<m>m"` or `"<h>h <mm>m"`, and the HTML-safe rendering of an
 * optional string with a dash for empty values.
 */
module Format {
  import opened Common

  const Dash: string := "&mdash;"
  const EmDash: char := '\U{2014}'

  // ---------------------------------------------------------------------
  // minutesToHm
  // ---------------------------------------------------------------------

  /** `minutesToHm`: whole hours and zero-padded minutes, or `"now"` when not positive. */
  function MinutesToHm(minutes: int): (r: string)
    ensures r == "now" <==> minutes <= 0
  {
    if minutes <= 0 then "now"
    else
      var h := minutes / 60;
      var m := minutes % 60;
      var r := if h > 0 then NatToString(h) + "h " + PadNat(m, 2) + "m" else NatToString(m) + "m";
      assert r[|r| - 1] == 'm';
      r
  }

  /** Reads a countdown back: `"now"` is 0, otherwise `"<m>m"` or `"<h>h <mm>m"`. */
  function ParseHm(s: string): Option<nat>
  {
    if s == "now" then Some(0)
    else if |s| == 0 || s[|s| - 1] != 'm' then None
    else ParseHmParts(SplitOn(s[..|s| - 1], ' '))
  }

  /** The space-separated parts before the final `m`: minutes alone, or hours with an `h` and then minutes. */
  function ParseHmParts(parts: seq<string>): Option<nat>
  {
    if |parts| == 1 then
      if |parts[0]| > 0 && AllDigits(parts[0]) then Some(DigitsValue(parts[0])) else None
    else if |parts| == 2 then
      var hp := parts[0];
      var mp := parts[1];
      if |hp| >= 2 && hp[|hp| - 1] == 'h' && AllDigits(hp[..|hp| - 1]) && |mp| > 0 && AllDigits(mp)
      then Some(60 * DigitsValue(hp[..|hp| - 1]) + DigitsValue(mp))
      else None
    else None
  }

  /** The rendering loses nothing: reading it back gives the minutes, with every non-positive count read as 0. */
  lemma MinutesToHmRoundTrip(minutes: int)
    ensures ParseHm(MinutesToHm(minutes)) == Some(if minutes <= 0 then 0 else minutes)
  {
    if minutes > 0 {
      if minutes / 60 > 0 {
        HoursRoundTrip(minutes / 60, minutes % 60);
      } else {
        assert MinutesToHm(minutes) == NatToString(minutes) + "m";
        MinutesOnlyRoundTrip(minutes);
      }
    }
  }

  lemma MinutesOnlyRoundTrip(m: nat)
    ensures ParseHm(NatToString(m) + "m") == Some(m)
  {
    var ms := NatToString(m);
    EndsInM(ms);
    assert SplitOn(ms, ' ') == [ms] by {
      DigitsHaveNo(ms, ' ');
      JoinSplitOn([ms], ' ');
    }
    NatToStringRoundTrip(m);
  }

  /** A text ending in `m` is not `"now"`, and dropping the `m` gives the text before it. */
  lemma EndsInM(a: string)
    ensures var s := a + "m";
      s != "now" && |s| > 0 && s[|s| - 1] == 'm' && s[..|s| - 1] == a
  {
    var s := a + "m";
    assert s[..|s| - 1] == a;
    assert s[|s| - 1] == 'm';
    assert "now"[2] == 'w';
  }

  lemma HoursRoundTrip(h: nat, m: nat)
    requires h > 0 && m < 60
    ensures ParseHm(NatToString(h) + "h " + PadNat(m, 2) + "m") == Some(60 * h + m)
  {
    var hs := NatToString(h);
    var ms := PadNat(m, 2);
    var body := hs + "h" + " " + ms;
    assert NatToString(h) + "h " + PadNat(m, 2) + "m" == body + "m";
    EndsInM(body);
    HoursSplit(hs, ms);
    HoursParts(h, m);
  }

  /** The hours part, a space and the minutes split at the space into the two. */
  lemma HoursSplit(hs: string, ms: string)
    requires AllDigits(hs) && AllDigits(ms)
    ensures SplitOn(hs + "h" + " " + ms, ' ') == [hs + "h", ms]
  {
    var hp := hs + "h";
    assert Join([hp, ms], ' ') == hp + " " + ms;
    DigitsHaveNo(hs, ' ');
    DigitsHaveNo(ms, ' ');
    assert !HasChar(hp, ' ') by {
      forall i | 0 <= i < |hp| ensures hp[i] != ' ' {
        if i < |hs| { assert hp[i] == hs[i]; }
      }
    }
    JoinSplitOn([hp, ms], ' ');
  }

  /** The two parts of an `<h>h <mm>m` countdown read as `60 * h + mm`. */
  lemma HoursParts(h: nat, m: nat)
    requires m < 60
    ensures ParseHmParts([NatToString(h) + "h", PadNat(m, 2)]) == Some(60 * h + m)
  {
    var hp := NatToString(h) + "h";
    assert hp[..|hp| - 1] == NatToString(h);
    NatToStringRoundTrip(h);
    PadNatRoundTrip(m, 2);
    assert Pow10(2) == 100;
  }

  /** Under an hour the countdown is the bare minute count; from an hour on the minutes take two digits. */
  lemma MinutesToHmShape(minutes: int)
    requires minutes > 0
    ensures minutes < 60 ==> MinutesToHm(minutes) == NatToString(minutes) + "m"
    ensures minutes >= 60 ==>
      (|PadNat(minutes % 60, 2)| == 2 &&
       MinutesToHm(minutes) == NatToString(minutes / 60) + "h " + PadNat(minutes % 60, 2) + "m")
  {
    assert Pow10(2) == 100;
    PadNatRoundTrip(minutes % 60, 2);
  }

  // ---------------------------------------------------------------------
  // safe
  // ---------------------------------------------------------------------

  /** The entity `htmlspecialchars` with `ENT_QUOTES` writes for one character. */
  function EscapeChar(c: char): string
  {
    if c == '&' then "&amp;"
    else if c == '"' then "&quot;"
    else if c == '\'' then "&#039;"
    else if c == '<' then "&lt;"
    else if c == '>' then "&gt;"
    else [c]
  }

  /** `htmlspecialchars($s, ENT_QUOTES)`. */
  function HtmlEscape(s: string): (r: string)
    ensures forall i :: 0 <= i < |r| ==> r[i] != '<' && r[i] != '>' && r[i] != '"' && r[i] != '\''
    ensures |r| >= |s|
  {
    if |s| == 0 then "" else EscapeChar(s[0]) + HtmlEscape(s[1..])
  }

  /** The decoding a browser applies to the five entities. */
  function Unescape(s: string): string
    decreases |s|
  {
    if |s| == 0 then ""
    else if StartsWith(s, "&amp;") then "&" + Unescape(s[5..])
    else if StartsWith(s, "&quot;") then "\"" + Unescape(s[6..])
    else if StartsWith(s, "&#039;") then "'" + Unescape(s[6..])
    else if StartsWith(s, "&lt;") then "<" + Unescape(s[4..])
    else if StartsWith(s, "&gt;") then ">" + Unescape(s[4..])
    else [s[0]] + Unescape(s[1..])
  }

  /** Decoding an escaped character and then the rest gives the character and the decoded rest. */
  lemma UnescapeAfterEscapeChar(c: char, rest: string)
    ensures Unescape(EscapeChar(c) + rest) == [c] + Unescape(rest)
  {
    if c == '&' {
      UnescapeEntity("&amp;", '&', rest);
    } else if c == '"' {
      UnescapeEntity("&quot;", '"', rest);
    } else if c == '\'' {
      UnescapeEntity("&#039;", '\'', rest);
    } else if c == '<' {
      UnescapeEntity("&lt;", '<', rest);
    } else if c == '>' {
      UnescapeEntity("&gt;", '>', rest);
    } else {
      var t := [c] + rest;
      assert t[0] == c && t[1..] == rest;
      assert !StartsWith(t, "&amp;") && !StartsWith(t, "&quot;") && !StartsWith(t, "&#039;") by {
        assert t[0] != '&';
      }
      assert !StartsWith(t, "&lt;") && !StartsWith(t, "&gt;") by {
        assert t[0] != '&';
      }
    }
  }

  /** One of the five entities in front of `rest` decodes to its character. */
  lemma UnescapeEntity(e: string, c: char, rest: string)
    requires (e, c) in {("&amp;", '&'), ("&quot;", '"'), ("&#039;", '\''), ("&lt;", '<'), ("&gt;", '>')}
    ensures Unescape(e + rest) == [c] + Unescape(rest)
  {
    var t := e + rest;
    assert t[..|e|] == e && t[|e|..] == rest;
    assert t[0] == '&' && t[1] == e[1];
    if e == "&amp;" {
      assert StartsWith(t, "&amp;");
    } else if e == "&quot;" {
      assert !StartsWith(t, "&amp;") && StartsWith(t, "&quot;");
    } else if e == "&#039;" {
      assert !StartsWith(t, "&amp;") && !StartsWith(t, "&quot;") && StartsWith(t, "&#039;");
    } else if e == "&lt;" {
      assert !StartsWith(t, "&amp;") && !StartsWith(t, "&quot;") && !StartsWith(t, "&#039;");
      assert StartsWith(t, "&lt;");
    } else {
      assert !StartsWith(t, "&amp;") && !StartsWith(t, "&quot;") && !StartsWith(t, "&#039;");
      assert !StartsWith(t, "&lt;") && StartsWith(t, "&gt;");
    }
  }

  /** Escaping loses nothing: decoding the entities gives the text back. */
  lemma {:induction false} EscapeRoundTrip(s: string)
    ensures Unescape(HtmlEscape(s)) == s
    decreases |s|
  {
    if |s| > 0 {
      UnescapeAfterEscapeChar(s[0], HtmlEscape(s[1..]));
      EscapeRoundTrip(s[1..]);
      assert [s[0]] + s[1..] == s;
    }
  }

  /** Trimmed text that reads as "nothing here". */
  predicate IsBlankMarker(t: string)
  {
    t == "" || t == [EmDash] || t == "-"
  }

  /**
   * `safe`: a missing value reads as the empty string; the trimmed text is
   * the dash entity when blank, otherwise its HTML-escaped form.
   */
  function Safe(s: Option<string>): (r: string)
    ensures r == Dash <==> IsBlankMarker(Trim(s.UnwrapOr("")))
    ensures r != Dash ==> Unescape(r) == Trim(s.UnwrapOr(""))
  {
    var t := Trim(s.UnwrapOr(""));
    if IsBlankMarker(t) then Dash
    else
      EscapeRoundTrip(t);
      EscapeNeverDash(t);
      HtmlEscape(t)
  }

  /** No escaped text is the dash entity: an escaped `&` is always followed by `amp;`. */
  lemma EscapeNeverDash(t: string)
    ensures HtmlEscape(t) != Dash
  {
    if |t| > 0 {
      var r := HtmlEscape(t);
      var e := EscapeChar(t[0]);
      assert r == e + HtmlEscape(t[1..]);
      if t[0] == '&' || t[0] == '"' || t[0] == '\'' || t[0] == '<' || t[0] == '>' {
        assert r[1] == e[1] != Dash[1];
      } else {
        assert r[0] == t[0] != Dash[0];
      }
    }
  }
}
