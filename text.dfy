/** String helpers with Python's semantics: `str.strip()`, `str.splitlines()`,
    `str.join` and the decimal rendering of a non-negative `int`. */
module Text {

  /** The characters Python's `str.isspace` accepts, i.e. what `str.strip()` removes. */
  predicate IsWhitespace(c: char) {
    c == ' ' || ('\t' <= c <= '\r') || ('\U{1c}' <= c <= '\U{1f}')
    || c == '\U{85}' || c == '\U{a0}' || c == '\U{1680}'
    || ('\U{2000}' <= c <= '\U{200a}') || c == '\U{2028}' || c == '\U{2029}'
    || c == '\U{202f}' || c == '\U{205f}' || c == '\U{3000}'
  }

  /** The characters at which Python's `str.splitlines()` ends a line
      ("\r\n" is one break, handled in LinesFrom). */
  predicate IsLineBreak(c: char) {
    ('\n' <= c <= '\r') || ('\U{1c}' <= c <= '\U{1e}')
    || c == '\U{85}' || c == '\U{2028}' || c == '\U{2029}'
  }

  predicate AllWhitespace(s: string) {
    forall i :: 0 <= i < |s| ==> IsWhitespace(s[i])
  }

  predicate NoLineBreak(s: string) {
    forall i :: 0 <= i < |s| ==> !IsLineBreak(s[i])
  }

  /** Neither starts nor ends with whitespace. */
  predicate IsTrimmed(s: string) {
    s == [] || (!IsWhitespace(s[0]) && !IsWhitespace(s[|s| - 1]))
  }

  /** `s.lstrip()`: no longer than `s`, and starts with a non-whitespace
      character unless empty (see TrimStartSuffix for what was dropped). */
  function TrimStart(s: string): (r: string)
    ensures |r| <= |s|
    ensures r != [] ==> !IsWhitespace(r[0])
  {
    if s != [] && IsWhitespace(s[0]) then TrimStart(s[1..]) else s
  }

  /** What lstrip keeps is a suffix of `s`, and only whitespace was dropped. */
  lemma {:induction false} TrimStartSuffix(s: string)
    ensures TrimStart(s) == s[|s| - |TrimStart(s)|..]
    ensures AllWhitespace(s[..|s| - |TrimStart(s)|])
  {
    if s != [] && IsWhitespace(s[0]) {
      TrimStartSuffix(s[1..]);
      var r := TrimStart(s[1..]);
      assert s[1..][|s| - 1 - |r|..] == s[|s| - |r|..];
      assert s[1..][..|s| - 1 - |r|] == s[1..|s| - |r|];
    }
  }

  /** `s.rstrip()`: no longer than `s`, and ends with a non-whitespace
      character unless empty (see TrimEndPrefix for what was dropped). */
  function TrimEnd(s: string): (r: string)
    ensures |r| <= |s|
    ensures r != [] ==> !IsWhitespace(r[|r| - 1])
  {
    if s != [] && IsWhitespace(s[|s| - 1]) then TrimEnd(s[..|s| - 1]) else s
  }

  /** What rstrip keeps is a prefix of `s`, and only whitespace was dropped. */
  lemma {:induction false} TrimEndPrefix(s: string)
    ensures TrimEnd(s) == s[..|TrimEnd(s)|]
    ensures AllWhitespace(s[|TrimEnd(s)|..])
  {
    if s != [] && IsWhitespace(s[|s| - 1]) {
      TrimEndPrefix(s[..|s| - 1]);
      var r := TrimEnd(s[..|s| - 1]);
      assert s[..|s| - 1][..|r|] == s[..|r|];
      assert s[..|s| - 1][|r|..] == s[|r|..|s| - 1];
      assert s[|r|..] == s[|r|..|s| - 1] + [s[|s| - 1]];
    }
  }

  /** `s.strip()`: drops the leading and the trailing whitespace, leaving a
      trimmed string that is empty exactly when `s` is all whitespace (which is
      how Python's `if elem.strip()` tests for a blank line). */
  function Strip(s: string): (r: string)
    ensures |r| <= |s| && IsTrimmed(r)
    ensures r == [] <==> AllWhitespace(s)
  {
    var t := TrimStart(s);
    var r := TrimEnd(t);
    StripBlank(s);
    TrimEndPrefix(t);
    assert r != [] ==> r[0] == t[0];
    r
  }

  /** What strip keeps is the infix of `s` between two runs of whitespace. */
  lemma StripInfix(s: string) returns (i: nat)
    ensures i + |Strip(s)| <= |s| && Strip(s) == s[i..i + |Strip(s)|]
    ensures AllWhitespace(s[..i]) && AllWhitespace(s[i + |Strip(s)|..])
  {
    var t := TrimStart(s);
    var r := TrimEnd(t);
    TrimStartSuffix(s);
    TrimEndPrefix(t);
    assert r == Strip(s);
    i := |s| - |t|;
    assert t == s[i..];
    assert s[i + |r|..] == t[|r|..];
    assert s[i..i + |r|] == t[..|r|];
  }

  /** Stripping cannot introduce a line break. */
  lemma StripNoLineBreak(s: string)
    requires NoLineBreak(s)
    ensures NoLineBreak(Strip(s))
  {
    var i := StripInfix(s);
    var r := Strip(s);
    forall m | 0 <= m < |r| ensures !IsLineBreak(r[m]) {
      assert r[m] == s[i + m];
    }
  }

  /** Strip leaves nothing exactly when everything is whitespace. */
  lemma StripBlank(s: string)
    ensures TrimEnd(TrimStart(s)) == [] <==> AllWhitespace(s)
  {
    var t := TrimStart(s);
    var r := TrimEnd(t);
    var i := |s| - |t|;
    TrimStartSuffix(s);
    TrimEndPrefix(t);
    if r == [] {
      assert s == s[..i] + t;
    } else {
      assert s[i] == r[0];
    }
  }

  /** Stripping text that is already trimmed changes nothing. */
  lemma StripTrimmed(s: string)
    requires IsTrimmed(s)
    ensures Strip(s) == s
  {
  }

  /** Text without breaks stays without breaks when extended by such text. */
  lemma NoLineBreakConcat(a: string, b: string)
    requires NoLineBreak(a) && NoLineBreak(b)
    ensures NoLineBreak(a + b)
  {
    forall j | 0 <= j < |a + b| ensures !IsLineBreak((a + b)[j]) {
      if j < |a| { assert (a + b)[j] == a[j]; } else { assert (a + b)[j] == b[j - |a|]; }
    }
  }

  /** Leading whitespace does not change what lstrip leaves. */
  lemma {:induction false} TrimStartPadded(w: string, s: string)
    requires AllWhitespace(w)
    ensures TrimStart(w + s) == TrimStart(s)
  {
    if w != [] {
      assert (w + s)[0] == w[0];
      assert (w + s)[1..] == w[1..] + s;
      TrimStartPadded(w[1..], s);
    } else {
      assert w + s == s;
    }
  }

  /** Trailing whitespace does not change what rstrip leaves. */
  lemma {:induction false} TrimEndPadded(s: string, w: string)
    requires AllWhitespace(w)
    ensures TrimEnd(s + w) == TrimEnd(s)
  {
    if w != [] {
      var u := w[..|w| - 1];
      assert (s + w)[|s + w| - 1] == w[|w| - 1];
      assert (s + w)[..|s + w| - 1] == s + u;
      TrimEndPadded(s, u);
    } else {
      assert s + w == s;
    }
  }

  /** lstrip of a string with a non-blank start keeps everything after it. */
  lemma {:induction false} TrimStartAppend(s: string, w: string)
    requires !AllWhitespace(s)
    ensures TrimStart(s + w) == TrimStart(s) + w
  {
    assert s != [];
    assert (s + w)[0] == s[0];
    if IsWhitespace(s[0]) {
      assert !AllWhitespace(s[1..]) by {
        var j :| 0 <= j < |s| && !IsWhitespace(s[j]);
        assert s[1..][j - 1] == s[j];
      }
      assert (s + w)[1..] == s[1..] + w;
      TrimStartAppend(s[1..], w);
    }
  }

  /** Whitespace added before the text does not change `strip()`. */
  lemma StripPadStart(w: string, s: string)
    requires AllWhitespace(w)
    ensures Strip(w + s) == Strip(s)
  {
    TrimStartPadded(w, s);
  }

  /** Whitespace added after the text does not change `strip()`. */
  lemma StripPadEnd(s: string, w: string)
    requires AllWhitespace(w)
    ensures Strip(s + w) == Strip(s)
  {
    if AllWhitespace(s) {
      assert AllWhitespace(s + w) by {
        forall j | 0 <= j < |s + w| ensures IsWhitespace((s + w)[j]) {
          if j < |s| { assert (s + w)[j] == s[j]; } else { assert (s + w)[j] == w[j - |s|]; }
        }
      }
    } else {
      TrimStartAppend(s, w);
      TrimEndPadded(TrimStart(s), w);
    }
  }

  /** Python's `s.splitlines()`: the lines of `s` without their breaks; a final
      break does not open an empty last line, and "" has no lines. */
  function SplitLines(s: string): (lines: seq<string>)
    ensures forall i :: 0 <= i < |lines| ==> NoLineBreak(lines[i])
    ensures lines == [] <==> s == []
  {
    LinesFrom(s, "")
  }

  /** The lines of `s`, where `cur` is the part of the current line read so far. */
  function LinesFrom(s: string, cur: string): (lines: seq<string>)
    requires NoLineBreak(cur)
    ensures forall i :: 0 <= i < |lines| ==> NoLineBreak(lines[i])
    ensures lines == [] <==> s == [] && cur == []
    decreases |s|
  {
    if s == [] then
      if cur == [] then [] else [cur]
    else if IsLineBreak(s[0]) then
      var rest := if s[0] == '\r' && |s| > 1 && s[1] == '\n' then s[2..] else s[1..];
      [cur] + LinesFrom(rest, "")
    else
      LinesFrom(s[1..], cur + [s[0]])
  }

  /** Text without breaks is simply added to the current line. */
  lemma {:induction false} LinesFromAppend(t: string, rest: string, cur: string)
    requires NoLineBreak(t) && NoLineBreak(cur)
    ensures LinesFrom(t + rest, cur) == LinesFrom(rest, cur + t)
    decreases |t|
  {
    if t == [] {
      assert t + rest == rest;
      assert cur + t == cur;
    } else {
      assert (t + rest)[0] == t[0];
      assert (t + rest)[1..] == t[1..] + rest;
      LinesFromAppend(t[1..], rest, cur + [t[0]]);
      assert cur + [t[0]] + t[1..] == cur + t;
    }
  }

  /** `sep.join(parts)`: empty for no parts, the part itself for one, and
      (with `JoinSnoc`) each further part adds the separator and that part. */
  function Join(parts: seq<string>, sep: string): (r: string)
    ensures parts == [] ==> r == []
    ensures |parts| == 1 ==> r == parts[0]
    ensures parts != [] && parts[0] != [] ==> r != [] && r[0] == parts[0][0]
    ensures parts != [] && parts[|parts| - 1] != [] ==>
              r != [] && r[|r| - 1] == parts[|parts| - 1][|parts[|parts| - 1]| - 1]
  {
    if parts == [] then ""
    else if |parts| == 1 then parts[0]
    else
      var tail := Join(parts[1..], sep);
      assert parts[1..][|parts[1..]| - 1] == parts[|parts| - 1];
      parts[0] + (sep + tail)
  }

  lemma ConcatAssoc<T>(a: seq<T>, b: seq<T>, c: seq<T>)
    ensures (a + b) + c == a + (b + c)
  {
  }

  /** A sequence is its prefix, a middle part and its suffix. */
  lemma SplitThree<T>(a: seq<T>, i: nat, j: nat)
    requires i <= j <= |a|
    ensures a == a[..i] + (a[i..j] + a[j..])
  {
    assert a[i..] == a[i..j] + a[j..];
    assert a == a[..i] + a[i..];
  }

  /** Splitting lines joined by "\n" gives the lines back, provided none holds
      a break and the last is not empty (a final empty line would vanish). */
  lemma {:induction false} SplitJoin(lines: seq<string>)
    requires forall i :: 0 <= i < |lines| ==> NoLineBreak(lines[i])
    requires lines != [] ==> lines[|lines| - 1] != []
    ensures SplitLines(Join(lines, "\n")) == lines
  {
    if lines == [] {
    } else if |lines| == 1 {
      LinesFromAppend(lines[0], "", "");
      assert lines[0] + "" == lines[0];
      assert "" + lines[0] == lines[0];
    } else {
      var tail := Join(lines[1..], "\n");
      SplitJoin(lines[1..]);
      LinesFromAppend(lines[0], "\n" + tail, "");
      LinesAfterNewline(tail, "" + lines[0]);
      calc {
        SplitLines(Join(lines, "\n"));
        LinesFrom(lines[0] + ("\n" + tail), "");
        LinesFrom("\n" + tail, "" + lines[0]);
        ["" + lines[0]] + SplitLines(tail);
        { assert "" + lines[0] == lines[0]; }
        [lines[0]] + lines[1..];
      }
    }
  }

  /** Joining one more part adds the separator and that part at the end. */
  lemma {:induction false} JoinSnoc(init: seq<string>, x: string, sep: string)
    requires init != []
    ensures Join(init + [x], sep) == Join(init, sep) + (sep + x)
  {
    var all := init + [x];
    assert all[0] == init[0];
    assert all[1..] == init[1..] + [x];
    if |init| == 1 {
      assert all[1..] == [x];
    } else {
      JoinSnoc(init[1..], x, sep);
      var tail := Join(init[1..], sep);
      ConcatAssoc(sep, tail, sep + x);
      ConcatAssoc(init[0], sep + tail, sep + x);
    }
  }

  /** A break after the last line closes that line and opens no new one: the
      lines joined by "\n" and followed by "\n" split back into the same lines,
      even when some of them are empty. */
  lemma {:induction false} SplitJoinNewline(lines: seq<string>)
    requires lines != []
    requires forall i :: 0 <= i < |lines| ==> NoLineBreak(lines[i])
    ensures SplitLines(Join(lines, "\n") + "\n") == lines
  {
    if |lines| == 1 {
      LinesFromAppend(lines[0], "\n", "");
      assert "\n" + "" == "\n";
      LinesAfterNewline("", "" + lines[0]);
      assert "" + lines[0] == lines[0];
    } else {
      var tail := Join(lines[1..], "\n");
      SplitJoinNewline(lines[1..]);
      ConcatAssoc(lines[0], "\n" + tail, "\n");
      ConcatAssoc("\n", tail, "\n");
      LinesFromAppend(lines[0], "\n" + (tail + "\n"), "");
      LinesAfterNewline(tail + "\n", "" + lines[0]);
      assert "" + lines[0] == lines[0];
      assert lines == [lines[0]] + lines[1..];
    }
  }

  lemma LinesAfterNewline(tail: string, cur: string)
    requires NoLineBreak(cur)
    ensures LinesFrom("\n" + tail, cur) == [cur] + LinesFrom(tail, "")
  {
    assert ("\n" + tail)[0] == '\n';
    assert ("\n" + tail)[1..] == tail;
  }

  function DigitChar(d: nat): (c: char)
    requires d < 10
    ensures '0' <= c <= '9' && c as int - '0' as int == d
  {
    "0123456789"[d]
  }

  predicate AllDigits(s: string) {
    forall i :: 0 <= i < |s| ==> '0' <= s[i] <= '9'
  }

  /** The number a string of decimal digits denotes. */
  function DigitsValue(s: string): nat
    requires AllDigits(s)
  {
    if s == [] then 0
    else DigitsValue(s[..|s| - 1]) * 10 + (s[|s| - 1] as int - '0' as int)
  }

  /** Python's `str(n)` for `n >= 0`: decimal digits, no leading zero, denoting `n`. */
  function NatToString(n: nat): (s: string)
    ensures s != [] && AllDigits(s)
    ensures DigitsValue(s) == n
    ensures |s| > 1 ==> s[0] != '0'
    decreases n
  {
    if n < 10 then [DigitChar(n)]
    else
      var s := NatToString(n / 10) + [DigitChar(n % 10)];
      assert s[..|s| - 1] == NatToString(n / 10);
      s
  }
}
