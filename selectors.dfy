/** The selector list typed into the element-selection window: how the raw
    text becomes the ordered list of CSS selectors the worker applies. */
module Selectors {
  import opened Text

  /** A selector as the registry stores it: non-empty, trimmed, one line. */
  predicate IsSelector(s: string) {
    s != [] && IsTrimmed(s) && NoLineBreak(s)
  }

  /** The lines with surrounding whitespace removed, blank ones dropped and
      the rest kept in order: no more entries than lines, each of them
      non-empty and trimmed. */
  function Clean(lines: seq<string>): (r: seq<string>)
    ensures |r| <= |lines|
    ensures forall i :: 0 <= i < |r| ==> r[i] != [] && IsTrimmed(r[i])
  {
    if lines == [] then []
    else
      var head := Strip(lines[0]);
      (if head == [] then [] else [head]) + Clean(lines[1..])
  }

  /** The kept entries are exactly the stripped non-blank lines. */
  lemma {:induction false} CleanMembers(lines: seq<string>, x: string)
    ensures x in Clean(lines) <==> exists i :: 0 <= i < |lines| && x == Strip(lines[i]) && x != []
  {
    if lines != [] {
      CleanMembers(lines[1..], x);
      assert forall i :: 0 < i < |lines| ==> lines[i] == lines[1..][i - 1];
    }
  }

  /** Lines without breaks stay without breaks once cleaned. */
  lemma {:induction false} CleanNoLineBreak(lines: seq<string>)
    requires forall i :: 0 <= i < |lines| ==> NoLineBreak(lines[i])
    ensures forall i :: 0 <= i < |Clean(lines)| ==> NoLineBreak(Clean(lines)[i])
  {
    if lines != [] {
      StripNoLineBreak(lines[0]);
      CleanNoLineBreak(lines[1..]);
    }
  }

  /** Cleaning works line by line: the lines of `a` come out before those of
      `b`, in their order, duplicates kept. */
  lemma {:induction false} CleanAppend(a: seq<string>, b: seq<string>)
    ensures Clean(a + b) == Clean(a) + Clean(b)
  {
    if a == [] {
      assert a + b == b;
    } else {
      assert (a + b)[0] == a[0];
      assert (a + b)[1..] == a[1..] + b;
      CleanAppend(a[1..], b);
      var head := Strip(a[0]);
      ConcatAssoc(if head == [] then [] else [head], Clean(a[1..]), Clean(b));
    }
  }

  /** A single line contributes its stripped form, or nothing when blank. */
  lemma CleanOne(line: string)
    ensures Clean([line]) == if Strip(line) == [] then [] else [Strip(line)]
  {
    assert [line][1..] == [];
  }

  /** Whitespace padding a line on either side does not change what it contributes. */
  lemma CleanPaddedLine(w: string, line: string)
    requires AllWhitespace(w)
    ensures Clean([w + line]) == Clean([line])
    ensures Clean([line + w]) == Clean([line])
  {
    StripPadStart(w, line);
    StripPadEnd(line, w);
    CleanOne(w + line);
    CleanOne(line + w);
    CleanOne(line);
  }

  /** The line still open at the end of the text is kept, if not blank. */
  lemma CleanLastLine(cur: string)
    requires NoLineBreak(cur)
    ensures Clean(LinesFrom("", cur)) == Clean([cur])
  {
    CleanOne(cur);
  }

  /** Whitespace at the start of the current line does not change the
      cleaned lines. */
  lemma {:induction false} CleanPaddedCurrent(s: string, pad: string, cur: string)
    requires AllWhitespace(pad) && NoLineBreak(pad) && NoLineBreak(cur)
    ensures NoLineBreak(pad + cur)
    ensures Clean(LinesFrom(s, pad + cur)) == Clean(LinesFrom(s, cur))
    decreases |s|
  {
    NoLineBreakConcat(pad, cur);
    if s == [] {
      CleanLastLine(pad + cur);
      CleanLastLine(cur);
      CleanPaddedLine(pad, cur);
    } else if IsLineBreak(s[0]) {
      var rest := if s[0] == '\r' && |s| > 1 && s[1] == '\n' then s[2..] else s[1..];
      CleanAppend([pad + cur], LinesFrom(rest, ""));
      CleanAppend([cur], LinesFrom(rest, ""));
      CleanPaddedLine(pad, cur);
    } else {
      NoLineBreakConcat(cur, [s[0]]);
      CleanPaddedCurrent(s[1..], pad, cur + [s[0]]);
      ConcatAssoc(pad, cur, [s[0]]);
    }
  }

  /** Text made only of whitespace adds no line beyond the current one. */
  lemma {:induction false} CleanBlankText(w: string, cur: string)
    requires AllWhitespace(w) && NoLineBreak(cur)
    ensures Clean(LinesFrom(w, cur)) == Clean([cur])
    decreases |w|
  {
    if w == [] {
      CleanLastLine(cur);
    } else if IsLineBreak(w[0]) {
      var rest := if w[0] == '\r' && |w| > 1 && w[1] == '\n' then w[2..] else w[1..];
      assert AllWhitespace(rest) by {
        forall j | 0 <= j < |rest| ensures IsWhitespace(rest[j]) {
          assert rest[j] == w[j + |w| - |rest|];
        }
      }
      CleanBlankText(rest, "");
      CleanOne("");
      CleanAppend([cur], LinesFrom(rest, ""));
    } else {
      assert AllWhitespace(w[1..]) by {
        forall j | 0 <= j < |w| - 1 ensures IsWhitespace(w[1..][j]) {
          assert w[1..][j] == w[j + 1];
        }
      }
      NoLineBreakConcat(cur, [w[0]]);
      CleanBlankText(w[1..], cur + [w[0]]);
      CleanPaddedLine([w[0]], cur);
    }
  }

  /** A break at the start of blank text closes the current line; the break
      is `k` characters long and the rest of the blank text follows it. */
  lemma LeadingBreak(w: string, s: string, cur: string) returns (k: nat)
    requires AllWhitespace(w) && w != [] && IsLineBreak(w[0]) && NoLineBreak(cur)
    requires s == [] || !IsWhitespace(s[0])
    ensures 1 <= k <= |w| && AllWhitespace(w[k..])
    ensures LinesFrom(w + s, cur) == [cur] + LinesFrom(w[k..] + s, "")
  {
    var t := w + s;
    assert t[0] == w[0];
    assert |w| == 1 && |t| > 1 ==> t[1] == s[0];
    k := if w[0] == '\r' && |t| > 1 && t[1] == '\n' then 2 else 1;
    assert t[k..] == w[k..] + s;
    assert AllWhitespace(w[k..]) by {
      forall j | 0 <= j < |w| - k ensures IsWhitespace(w[k..][j]) {
        assert w[k..][j] == w[j + k];
      }
    }
  }

  /** Whitespace before text that starts with a non-blank character does not
      change the cleaned lines: leading blank lines are dropped, and leading
      blanks of the first line are stripped anyway. */
  lemma {:induction false} CleanLeadingBlanks(w: string, s: string, cur: string)
    requires AllWhitespace(w) && AllWhitespace(cur) && NoLineBreak(cur)
    requires s == [] || !IsWhitespace(s[0])
    ensures Clean(LinesFrom(w + s, cur)) == Clean(LinesFrom(s, ""))
    decreases |w|
  {
    if w == [] {
      assert w + s == s;
      CleanPaddedCurrent(s, cur, "");
      assert cur + "" == cur;
    } else if IsLineBreak(w[0]) {
      var k := LeadingBreak(w, s, cur);
      CleanLeadingBlanks(w[k..], s, "");
      CleanOne(cur);
      CleanAppend([cur], LinesFrom(w[k..] + s, ""));
    } else {
      var t := w + s;
      assert t[0] == w[0];
      assert t[1..] == w[1..] + s;
      assert AllWhitespace(w[1..]) by {
        forall j | 0 <= j < |w| - 1 ensures IsWhitespace(w[1..][j]) {
          assert w[1..][j] == w[j + 1];
        }
      }
      var next := cur + [w[0]];
      assert AllWhitespace(next) by {
        forall j | 0 <= j < |next| ensures IsWhitespace(next[j]) {
          if j < |cur| { assert next[j] == cur[j]; } else { assert next[j] == w[0]; }
        }
      }
      NoLineBreakConcat(cur, [w[0]]);
      CleanLeadingBlanks(w[1..], s, next);
    }
  }

  /** Whitespace after text that ends with a non-blank character does not
      change the cleaned lines: it only pads the last line or adds blank ones. */
  lemma {:induction false} CleanTrailingBlanks(s: string, w: string, cur: string)
    requires AllWhitespace(w) && NoLineBreak(cur)
    requires s == [] || !IsWhitespace(s[|s| - 1])
    ensures Clean(LinesFrom(s + w, cur)) == Clean(LinesFrom(s, cur))
    decreases |s|
  {
    if s == [] {
      assert s + w == w;
      CleanBlankText(w, cur);
      CleanLastLine(cur);
    } else if IsLineBreak(s[0]) {
      var t := s + w;
      assert t[0] == s[0];
      assert |s| > 1 ==> t[1] == s[1];
      var k := if s[0] == '\r' && |s| > 1 && s[1] == '\n' then 2 else 1;
      assert t[k..] == s[k..] + w;
      assert s[k..] == [] || s[k..][|s[k..]| - 1] == s[|s| - 1];
      CleanTrailingBlanks(s[k..], w, "");
      CleanAppend([cur], LinesFrom(t[k..], ""));
      CleanAppend([cur], LinesFrom(s[k..], ""));
    } else {
      var t := s + w;
      assert t[0] == s[0];
      assert t[1..] == s[1..] + w;
      assert s[1..] == [] || s[1..][|s[1..]| - 1] == s[|s| - 1];
      NoLineBreakConcat(cur, [s[0]]);
      CleanTrailingBlanks(s[1..], w, cur + [s[0]]);
    }
  }

  /** The outer `strip()` of `confirm_selection` changes nothing in the result:
      the non-blank lines of the stripped text are those of the text. */
  lemma {:induction false} CleanStrippedText(text: string)
    ensures Clean(SplitLines(Strip(text))) == Clean(SplitLines(text))
  {
    var s := Strip(text);
    if s == [] {
      CleanBlankText(text, "");
      CleanOne("");
    } else {
      var i := StripInfix(text);
      var before, after := text[..i], text[i + |s|..];
      assert text == before + (s + after) by { SplitThree(text, i, i + |s|); }
      CleanPaddedText(before, s, after);
    }
  }

  /** Text with a non-blank first and last character keeps its non-blank
      lines when whitespace is added on either side. */
  lemma {:induction false} CleanPaddedText(before: string, s: string, after: string)
    requires AllWhitespace(before) && AllWhitespace(after) && IsTrimmed(s) && s != []
    ensures Clean(SplitLines(before + (s + after))) == Clean(SplitLines(s))
  {
    assert (s + after)[0] == s[0];
    CleanLeadingBlanks(before, s + after, "");
    CleanTrailingBlanks(s, after, "");
  }

  /** Splitting lines joined by "\n" and cleaning them gives the cleaned lines,
      whatever blank lines, padded lines or empty last line they hold. */
  lemma {:induction false} CleanJoinedLines(lines: seq<string>)
    requires forall i :: 0 <= i < |lines| ==> NoLineBreak(lines[i])
    ensures Clean(SplitLines(Join(lines, "\n"))) == Clean(lines)
  {
    if lines == [] {
    } else if lines[|lines| - 1] != [] {
      SplitJoin(lines);
    } else if |lines| == 1 {
      CleanOne(lines[0]);
    } else {
      var init := lines[..|lines| - 1];
      assert lines == init + [""];
      JoinSnoc(init, "", "\n");
      assert "\n" + "" == "\n";
      SplitJoinNewline(init);
      CleanAppend(init, [""]);
      CleanOne("");
    }
  }

  /** Lines that are already selectors pass through unchanged. */
  lemma {:induction false} CleanSelectors(lines: seq<string>)
    requires forall i :: 0 <= i < |lines| ==> IsSelector(lines[i])
    ensures Clean(lines) == lines
  {
    if lines != [] {
      StripTrimmed(lines[0]);
      CleanSelectors(lines[1..]);
    }
  }

  /** What `confirm_selection` stores: the text is stripped and split into
      lines, and the non-blank lines are kept, trimmed, in order. */
  function Normalise(text: string): (r: seq<string>)
    ensures forall i :: 0 <= i < |r| ==> IsSelector(r[i])
  {
    var lines := SplitLines(Strip(text));
    CleanNoLineBreak(lines);
    Clean(lines)
  }

  /** Confirming lines typed one per line stores exactly the cleaned lines:
      blank lines are dropped and the others trimmed, in order. */
  lemma {:induction false} NormaliseLines(lines: seq<string>)
    requires forall i :: 0 <= i < |lines| ==> NoLineBreak(lines[i])
    ensures Normalise(Join(lines, "\n")) == Clean(lines)
  {
    CleanStrippedText(Join(lines, "\n"));
    CleanJoinedLines(lines);
  }

  /** A padded selector line contributes the selector alone. */
  lemma CleanPaddedSelector(pad: string, selector: string, tail: string)
    requires AllWhitespace(pad) && AllWhitespace(tail) && IsTrimmed(selector)
    ensures Clean([pad + selector + tail]) == Clean([selector])
  {
    CleanPaddedLine(pad, selector + tail);
    CleanPaddedLine(tail, selector);
    ConcatAssoc(pad, selector, tail);
  }

  /** Blank lines and the blanks around each selector disappear: typing
      "  div.title ", an empty line and " p.body" stores the two selectors. */
  lemma {:induction false} NormaliseExample()
    ensures Normalise("  div.title \n\n p.body\n") == ["div.title", "p.body"]
  {
    var lines := ExampleLines();
    NormaliseLines(lines);
    ExampleCleaned(lines);
  }

  /** The example text is its four lines joined by "\n". */
  lemma ExampleLines() returns (lines: seq<string>)
    ensures lines == ["  div.title ", "", " p.body", ""]
    ensures forall i :: 0 <= i < |lines| ==> NoLineBreak(lines[i])
    ensures Join(lines, "\n") == "  div.title \n\n p.body\n"
  {
    lines := ["  div.title ", "", " p.body", ""];
    assert Join(lines[3..], "\n") == "";
    assert Join(lines[2..], "\n") == " p.body" + "\n";
    assert Join(lines[1..], "\n") == "\n" + " p.body" + "\n";
  }

  /** Cleaning the example's four lines keeps the two selectors. */
  lemma ExampleCleaned(lines: seq<string>)
    requires lines == ["  div.title ", "", " p.body", ""]
    ensures Clean(lines) == ["div.title", "p.body"]
  {
    CleanFour("  div.title ", "", " p.body", "");
    ExampleSpelling();
    PaddedExampleLine("  ", "div.title", " ");
    PaddedExampleLine(" ", "p.body", "");
    CleanOne("");
  }

  /** The example's lines and result, spelt out piece by piece. */
  lemma ExampleSpelling()
    ensures "  div.title " == "  " + "div.title" + " "
    ensures " p.body" == " " + "p.body" + ""
    ensures AllWhitespace("  ") && AllWhitespace(" ") && AllWhitespace("")
    ensures IsTrimmed("div.title") && IsTrimmed("p.body")
    ensures ["div.title"] + [] + ["p.body"] + [] == ["div.title", "p.body"]
  {
  }

  /** Four lines are cleaned one by one. */
  lemma CleanFour(a: string, b: string, c: string, d: string)
    ensures Clean([a, b, c, d]) == Clean([a]) + Clean([b]) + Clean([c]) + Clean([d])
  {
    assert [c, d] == [c] + [d];
    assert [b, c, d] == [b] + [c, d];
    assert [a, b, c, d] == [a] + [b, c, d];
    CleanAppend([c], [d]);
    CleanAppend([b], [c, d]);
    CleanAppend([a], [b, c, d]);
  }

  /** A selector line with blanks around it keeps the selector alone. */
  lemma PaddedExampleLine(pad: string, selector: string, tail: string)
    requires AllWhitespace(pad) && AllWhitespace(tail) && IsTrimmed(selector) && selector != []
    ensures Clean([pad + selector + tail]) == [selector]
  {
    CleanPaddedSelector(pad, selector, tail);
    StripTrimmed(selector);
    CleanOne(selector);
  }

  /** Confirming the selectors shown one per line gives back the same list. */
  lemma {:induction false} NormaliseJoin(selectors: seq<string>)
    requires forall i :: 0 <= i < |selectors| ==> IsSelector(selectors[i])
    ensures Normalise(Join(selectors, "\n")) == selectors
  {
    NormaliseLines(selectors);
    CleanSelectors(selectors);
  }

  /** Confirming the stored list again, one selector per line, changes nothing. */
  lemma NormaliseIdempotent(text: string)
    ensures Normalise(Join(Normalise(text), "\n")) == Normalise(text)
  {
    NormaliseJoin(Normalise(text));
  }

  const SelectionPrefix := "Selected Elements: "

  /** The log line `confirm_selection` appends: the prefix alone for no
      selectors, the prefix and the selector for one, and otherwise the
      selectors joined by ", " after the prefix (`SelectionMessageSnoc`). */
  function SelectionMessage(selectors: seq<string>): (message: string)
    ensures |SelectionPrefix| <= |message| && message[..|SelectionPrefix|] == SelectionPrefix
    ensures selectors == [] ==> message == SelectionPrefix
    ensures |selectors| == 1 ==> message == SelectionPrefix + selectors[0]
    ensures selectors != [] && selectors[0] != [] ==>
              |message| > |SelectionPrefix| && message[|SelectionPrefix|] == selectors[0][0]
    ensures selectors != [] && selectors[|selectors| - 1] != [] ==>
              message[|message| - 1] == selectors[|selectors| - 1][|selectors[|selectors| - 1]| - 1]
  {
    var joined := Join(selectors, ", ");
    var message := SelectionPrefix + joined;
    assert joined != [] ==> message[|SelectionPrefix|] == joined[0];
    message
  }

  /** One more selector adds ", " and that selector at the end of the message;
      with the zero- and one-selector cases of `SelectionMessage` this gives
      the message for every list: the prefix, then the entries joined by ", ". */
  lemma {:induction false} SelectionMessageSnoc(selectors: seq<string>, x: string)
    requires selectors != []
    ensures SelectionMessage(selectors + [x]) == SelectionMessage(selectors) + ", " + x
  {
    JoinSnoc(selectors, x, ", ");
    ConcatAssoc(SelectionPrefix, Join(selectors, ", "), ", " + x);
  }
}
