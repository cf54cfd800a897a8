/** What one scraping session produces: the lines `scrape_website` writes to
    the output file and the entries it appends to the log, as a function of
    what each of its 100 fetches returned. */
module Scrape {
  import opened Text

  /** `for _ in range(100)`: the worker fetches the same URL this many times. */
  const Iterations: nat := 100

  /** The only status code whose body is parsed. */
  const StatusOk: nat := 200

  /** The outcome of one `requests.get(url)`: a response, or an exception
      (its message is what `{e}` prints). */
  datatype Fetch = Reply(status: nat, body: string) | Raised(message: string)

  /** File lines written and log entries appended, in order. */
  datatype Trace = Trace(file: seq<string>, log: seq<string>)

  /** How a response body renders the elements one selector matches, as the
      worker writes them: HTML parsing is not modelled, so the worker is given
      it as a function of the body and the selector. */
  type Renderer = (string, string) -> string

  const DataPrefix := "Selected Data for '"
  const StatusPrefix := "Error: "
  const FailurePrefix := "An error occurred: "

  /** The line written to the file, and to the log, for one selector. */
  function DataLine(selector: string, rendered: string): (line: string)
    ensures HasPrefix(line, DataPrefix)
    ensures |line| == |DataPrefix| + |selector| + 3 + |rendered|
    ensures line[|DataPrefix|..|DataPrefix| + |selector|] == selector
    ensures line[|DataPrefix| + |selector|..|line| - |rendered|] == "': "
    ensures line[|line| - |rendered|..] == rendered
  {
    var line := DataPrefix + selector + "': " + rendered;
    assert line[|DataPrefix|..|DataPrefix| + |selector|] == selector;
    line
  }

  /** The log entry for a response whose status is not 200. */
  function StatusLine(status: nat): (line: string)
    ensures HasPrefix(line, StatusPrefix)
    ensures AllDigits(line[|StatusPrefix|..]) && DigitsValue(line[|StatusPrefix|..]) == status
    ensures |line| > |StatusPrefix| && (|line| > |StatusPrefix| + 1 ==> line[|StatusPrefix|] != '0')
  {
    var line := StatusPrefix + NatToString(status);
    assert line[|StatusPrefix|..] == NatToString(status);
    line
  }

  /** The log entry for the exception that ends the session. */
  function FailureLine(message: string): (line: string)
    ensures HasPrefix(line, FailurePrefix)
    ensures line[|FailurePrefix|..] == message
  {
    FailurePrefix + message
  }

  predicate HasPrefix(s: string, p: string) {
    |p| <= |s| && s[..|p|] == p
  }

  /** Each kind of log entry starts with its own prefix and with no other. */
  lemma LineKinds(selector: string, rendered: string, status: nat, message: string)
    ensures HasPrefix(DataLine(selector, rendered), DataPrefix)
    ensures !HasPrefix(DataLine(selector, rendered), StatusPrefix)
    ensures !HasPrefix(DataLine(selector, rendered), FailurePrefix)
    ensures HasPrefix(StatusLine(status), StatusPrefix)
    ensures !HasPrefix(StatusLine(status), DataPrefix)
    ensures !HasPrefix(StatusLine(status), FailurePrefix)
    ensures HasPrefix(FailureLine(message), FailurePrefix)
    ensures !HasPrefix(FailureLine(message), DataPrefix)
    ensures !HasPrefix(FailureLine(message), StatusPrefix)
  {
    assert DataLine(selector, rendered)[0] == 'S';
    assert StatusLine(status)[0] == 'E';
    assert FailureLine(message)[0] == 'A';
    assert DataLine(selector, rendered)[..|DataPrefix|] == DataPrefix;
    assert StatusLine(status)[..|StatusPrefix|] == StatusPrefix;
    assert FailureLine(message)[..|FailurePrefix|] == FailurePrefix;
  }

  /** The inner `for element in self.selected_elements`: one line per
      selector, in selector order. */
  function SelectorLines(body: string, selectors: seq<string>, render: Renderer): (lines: seq<string>)
    ensures |lines| == |selectors|
    ensures forall k :: 0 <= k < |selectors| ==>
              lines[k] == DataLine(selectors[k], render(body, selectors[k]))
  {
    if selectors == [] then []
    else [DataLine(selectors[0], render(body, selectors[0]))] + SelectorLines(body, selectors[1..], render)
  }

  /** One iteration of the loop: a 200 response writes and logs one line per
      selector; any other status logs `Error: <code>` and writes nothing; an
      exception logs `An error occurred: <message>`. */
  function Step(fetch: Fetch, selectors: seq<string>, render: Renderer): (t: Trace)
    ensures |t.file| == if IsOk(fetch) then |selectors| else 0
    ensures |t.log| == if IsOk(fetch) then |selectors| else 1
  {
    match fetch
    case Raised(message) => Trace([], [FailureLine(message)])
    case Reply(status, body) =>
      if status == StatusOk then
        var lines := SelectorLines(body, selectors, render);
        Trace(lines, lines)
      else
        Trace([], [StatusLine(status)])
  }

  /** The whole loop: the iterations in order, ending after the first exception. */
  function Run(fetches: seq<Fetch>, selectors: seq<string>, render: Renderer): (t: Trace)
    ensures !Completes(fetches) ==> t.log != [] && HasPrefix(t.log[|t.log| - 1], FailurePrefix)
  {
    if fetches == [] then Trace([], [])
    else
      var head := Step(fetches[0], selectors, render);
      if fetches[0].Raised? then head
      else
        var rest := Run(fetches[1..], selectors, render);
        CompletesCons(fetches);
        Trace(head.file + rest.file, head.log + rest.log)
  }

  /** A session whose first fetch did not raise completes exactly when the
      rest of it does. */
  lemma CompletesCons(fetches: seq<Fetch>)
    requires fetches != [] && fetches[0].Reply?
    ensures Completes(fetches) <==> Completes(fetches[1..])
  {
    if Completes(fetches[1..]) {
      forall i | 0 <= i < |fetches| ensures fetches[i].Reply? {
        if i > 0 { assert fetches[i] == fetches[1..][i - 1]; }
      }
    } else {
      var j :| 0 <= j < |fetches[1..]| && !fetches[1..][j].Reply?;
      assert !fetches[j + 1].Reply?;
    }
  }

  /** No fetch raised: the loop runs to its end. */
  predicate Completes(fetches: seq<Fetch>) {
    forall i :: 0 <= i < |fetches| ==> fetches[i].Reply?
  }

  predicate IsOk(fetch: Fetch) {
    fetch.Reply? && fetch.status == StatusOk
  }

  /** How many fetches answered with status 200. */
  function OkCount(fetches: seq<Fetch>): nat {
    if fetches == [] then 0
    else (if IsOk(fetches[0]) then 1 else 0) + OkCount(fetches[1..])
  }

  /** How many log entries start with `prefix`. */
  function CountPrefixed(entries: seq<string>, prefix: string): nat {
    if entries == [] then 0
    else (if HasPrefix(entries[0], prefix) then 1 else 0) + CountPrefixed(entries[1..], prefix)
  }

  /** The log entries that start with `prefix`, in order. */
  function Prefixed(entries: seq<string>, prefix: string): seq<string> {
    if entries == [] then []
    else (if HasPrefix(entries[0], prefix) then [entries[0]] else []) + Prefixed(entries[1..], prefix)
  }

  lemma {:induction false} CountPrefixedAppend(a: seq<string>, b: seq<string>, prefix: string)
    ensures CountPrefixed(a + b, prefix) == CountPrefixed(a, prefix) + CountPrefixed(b, prefix)
  {
    if a == [] {
      assert a + b == b;
    } else {
      assert (a + b)[1..] == a[1..] + b;
      CountPrefixedAppend(a[1..], b, prefix);
    }
  }

  lemma {:induction false} PrefixedAppend(a: seq<string>, b: seq<string>, prefix: string)
    ensures Prefixed(a + b, prefix) == Prefixed(a, prefix) + Prefixed(b, prefix)
  {
    if a == [] {
      assert a + b == b;
    } else {
      assert (a + b)[1..] == a[1..] + b;
      PrefixedAppend(a[1..], b, prefix);
    }
  }

  /** Every line a session writes to the file is a `Selected Data for '…'` line. */
  lemma {:induction false} FileLinesAreData(fetches: seq<Fetch>, selectors: seq<string>, render: Renderer)
    ensures forall j :: 0 <= j < |Run(fetches, selectors, render).file| ==>
              HasPrefix(Run(fetches, selectors, render).file[j], DataPrefix)
  {
    if fetches != [] {
      FileLinesAreData(fetches[1..], selectors, render);
      var head := Step(fetches[0], selectors, render);
      forall k | 0 <= k < |head.file| ensures HasPrefix(head.file[k], DataPrefix) {
        LineKinds(selectors[k], render(fetches[0].body, selectors[k]), 0, "");
      }
    }
  }

  /** The log's `Selected Data` entries are exactly the file's lines, in order:
      every written line is mirrored to the log, and nothing else is. */
  lemma {:induction false} LogMirrorsFile(fetches: seq<Fetch>, selectors: seq<string>, render: Renderer)
    ensures Prefixed(Run(fetches, selectors, render).log, DataPrefix) == Run(fetches, selectors, render).file
  {
    if fetches != [] {
      var head := Step(fetches[0], selectors, render);
      StepMirrored(fetches[0], selectors, render);
      if fetches[0].Reply? {
        var rest := Run(fetches[1..], selectors, render);
        LogMirrorsFile(fetches[1..], selectors, render);
        PrefixedAppend(head.log, rest.log, DataPrefix);
      }
    }
  }

  lemma StepMirrored(fetch: Fetch, selectors: seq<string>, render: Renderer)
    ensures Prefixed(Step(fetch, selectors, render).log, DataPrefix) == Step(fetch, selectors, render).file
  {
    match fetch
    case Raised(message) =>
      LineKinds("", "", 0, message);
    case Reply(status, body) =>
      if status == StatusOk {
        DataLinesKept(body, selectors, render);
      } else {
        LineKinds("", "", status, "");
      }
  }

  lemma {:induction false} DataLinesKept(body: string, selectors: seq<string>, render: Renderer)
    ensures Prefixed(SelectorLines(body, selectors, render), DataPrefix) == SelectorLines(body, selectors, render)
  {
    if selectors != [] {
      var lines := SelectorLines(body, selectors, render);
      LineKinds(selectors[0], render(body, selectors[0]), 0, "");
      DataLinesKept(body, selectors[1..], render);
      assert lines[1..] == SelectorLines(body, selectors[1..], render);
    }
  }

  /** A loop that runs to its end writes one line per selector for each 200
      response and nothing for any other. */
  lemma {:induction false} FileLineCount(fetches: seq<Fetch>, selectors: seq<string>, render: Renderer)
    requires Completes(fetches)
    ensures |Run(fetches, selectors, render).file| == OkCount(fetches) * |selectors|
  {
    if fetches != [] {
      FileLineCount(fetches[1..], selectors, render);
      var c := if IsOk(fetches[0]) then 1 else 0;
      assert (c + OkCount(fetches[1..])) * |selectors| == c * |selectors| + OkCount(fetches[1..]) * |selectors|;
    }
  }

  /** Where each line is: the lines of the 200 response at fetch `i` follow
      the lines of all earlier fetches, in selector order, so selector `k` of
      that response is line `OkCount(fetches[..i]) * |selectors| + k`. */
  lemma {:induction false} FileLineAt(fetches: seq<Fetch>, selectors: seq<string>, render: Renderer, i: nat, k: nat)
    requires Completes(fetches)
    requires i < |fetches| && IsOk(fetches[i]) && k < |selectors|
    ensures OkCount(fetches[..i]) * |selectors| + k < |Run(fetches, selectors, render).file|
    ensures Run(fetches, selectors, render).file[OkCount(fetches[..i]) * |selectors| + k]
            == DataLine(selectors[k], render(fetches[i].body, selectors[k]))
  {
    var lines := SelectorLines(fetches[i].body, selectors, render);
    var later := Run(fetches[i + 1..], selectors, render).file;
    FileAroundFetch(fetches, selectors, render, i);
    IndexInMiddle(Run(fetches[..i], selectors, render).file, lines, later, k);
  }

  /** The file of a session without an exception, cut around fetch `i`: the
      earlier lines, one line per selector for a 200 response, then the rest. */
  lemma FileAroundFetch(fetches: seq<Fetch>, selectors: seq<string>, render: Renderer, i: nat)
    requires Completes(fetches)
    requires i < |fetches| && IsOk(fetches[i])
    ensures |Run(fetches[..i], selectors, render).file| == OkCount(fetches[..i]) * |selectors|
    ensures Run(fetches, selectors, render).file
            == Run(fetches[..i], selectors, render).file
               + SelectorLines(fetches[i].body, selectors, render)
               + Run(fetches[i + 1..], selectors, render).file
  {
    assert Completes(fetches[..i]);
    FileLineCount(fetches[..i], selectors, render);
    RunSplitFile(fetches, selectors, render, i);
    assert fetches[i..][0] == fetches[i];
    assert fetches[i..][1..] == fetches[i + 1..];
    RunCons(fetches[i..], selectors, render);
    ConcatAssoc(Run(fetches[..i], selectors, render).file, SelectorLines(fetches[i].body, selectors, render),
                Run(fetches[i + 1..], selectors, render).file);
  }

  lemma IndexInMiddle<T>(a: seq<T>, b: seq<T>, c: seq<T>, k: nat)
    requires k < |b|
    ensures |a| + k < |a + b + c| && (a + b + c)[|a| + k] == b[k]
  {
  }

  /** The file lines of a loop that has not raised before fetch `i` are those
      of the first `i` fetches followed by those of the rest. */
  lemma {:induction false} RunSplitFile(fetches: seq<Fetch>, selectors: seq<string>, render: Renderer, i: nat)
    requires i <= |fetches| && Completes(fetches[..i])
    ensures Run(fetches, selectors, render).file
            == Run(fetches[..i], selectors, render).file + Run(fetches[i..], selectors, render).file
  {
    if i == 0 {
      assert fetches[..0] == [] && fetches[0..] == fetches;
    } else {
      var rest := fetches[1..];
      assert fetches[..i][0] == fetches[0] && fetches[0].Reply?;
      assert fetches[..i][1..] == rest[..i - 1];
      assert rest[i - 1..] == fetches[i..];
      assert Completes(rest[..i - 1]) by { CompletesTail(fetches[..i]); }
      RunSplitFile(rest, selectors, render, i - 1);
      RunCons(fetches, selectors, render);
      RunCons(fetches[..i], selectors, render);
      ConcatAssoc(Step(fetches[0], selectors, render).file, Run(rest[..i - 1], selectors, render).file,
                  Run(fetches[i..], selectors, render).file);
    }
  }

  /** The log of a loop that has not raised before fetch `i` is that of the
      first `i` fetches followed by that of the rest. */
  lemma {:induction false} RunSplitLog(fetches: seq<Fetch>, selectors: seq<string>, render: Renderer, i: nat)
    requires i <= |fetches| && Completes(fetches[..i])
    ensures Run(fetches, selectors, render).log
            == Run(fetches[..i], selectors, render).log + Run(fetches[i..], selectors, render).log
  {
    if i == 0 {
      assert fetches[..0] == [] && fetches[0..] == fetches;
    } else {
      var rest := fetches[1..];
      assert fetches[..i][0] == fetches[0] && fetches[0].Reply?;
      assert fetches[..i][1..] == rest[..i - 1];
      assert rest[i - 1..] == fetches[i..];
      assert Completes(rest[..i - 1]) by { CompletesTail(fetches[..i]); }
      RunSplitLog(rest, selectors, render, i - 1);
      RunCons(fetches, selectors, render);
      RunCons(fetches[..i], selectors, render);
      ConcatAssoc(Step(fetches[0], selectors, render).log, Run(rest[..i - 1], selectors, render).log,
                  Run(fetches[i..], selectors, render).log);
    }
  }

  /** Where each status entry is: a response at fetch `i` whose status is not
      200 logs `Error: ` and its own status code, right after the entries of
      all earlier fetches. */
  lemma StatusLineAt(fetches: seq<Fetch>, selectors: seq<string>, render: Renderer, i: nat)
    requires Completes(fetches) && i < |fetches| && !IsOk(fetches[i])
    ensures |Run(fetches[..i], selectors, render).log| < |Run(fetches, selectors, render).log|
    ensures Run(fetches, selectors, render).log[|Run(fetches[..i], selectors, render).log|]
            == StatusLine(fetches[i].status)
  {
    assert Completes(fetches[..i]);
    RunSplitLog(fetches, selectors, render, i);
    assert fetches[i..][0] == fetches[i];
    assert fetches[i..][1..] == fetches[i + 1..];
    RunCons(fetches[i..], selectors, render);
    var earlier := Run(fetches[..i], selectors, render).log;
    var later := Run(fetches[i + 1..], selectors, render).log;
    IndexInMiddle(earlier, [StatusLine(fetches[i].status)], later, 0);
    ConcatAssoc(earlier, [StatusLine(fetches[i].status)], later);
  }

  lemma CompletesTail(fetches: seq<Fetch>)
    requires fetches != [] && Completes(fetches)
    ensures Completes(fetches[1..])
  {
    forall i | 0 <= i < |fetches| - 1 ensures fetches[1..][i].Reply? {
      assert fetches[1..][i] == fetches[i + 1];
    }
  }

  /** A loop that runs to its end logs one `Error: <code>` entry per response
      whose status is not 200. */
  lemma {:induction false} StatusErrorCount(fetches: seq<Fetch>, selectors: seq<string>, render: Renderer)
    requires Completes(fetches)
    ensures CountPrefixed(Run(fetches, selectors, render).log, StatusPrefix) == |fetches| - OkCount(fetches)
  {
    if fetches != [] {
      var head := Step(fetches[0], selectors, render);
      var rest := Run(fetches[1..], selectors, render);
      StatusErrorCount(fetches[1..], selectors, render);
      CountPrefixedAppend(head.log, rest.log, StatusPrefix);
      OkCountBound(fetches[1..]);
      if IsOk(fetches[0]) {
        DataLinesNotStatus(fetches[0].body, selectors, render);
      } else {
        LineKinds("", "", fetches[0].status, "");
        assert head.log == [StatusLine(fetches[0].status)];
      }
    }
  }

  lemma {:induction false} OkCountBound(fetches: seq<Fetch>)
    ensures OkCount(fetches) <= |fetches|
  {
    if fetches != [] {
      OkCountBound(fetches[1..]);
    }
  }

  lemma {:induction false} DataLinesNotStatus(body: string, selectors: seq<string>, render: Renderer)
    ensures CountPrefixed(SelectorLines(body, selectors, render), StatusPrefix) == 0
    ensures CountPrefixed(SelectorLines(body, selectors, render), FailurePrefix) == 0
  {
    if selectors != [] {
      var lines := SelectorLines(body, selectors, render);
      LineKinds(selectors[0], render(body, selectors[0]), 0, "");
      DataLinesNotStatus(body, selectors[1..], render);
      assert lines[1..] == SelectorLines(body, selectors[1..], render);
    }
  }

  /** The exception at fetch `k` ends the loop: the file keeps exactly what the
      earlier iterations wrote, and the log gains one `An error occurred` entry. */
  lemma {:induction false} RunStopsAtRaise(fetches: seq<Fetch>, selectors: seq<string>, render: Renderer, k: nat)
    requires k < |fetches| && Completes(fetches[..k]) && fetches[k].Raised?
    ensures Run(fetches, selectors, render)
            == Trace(Run(fetches[..k], selectors, render).file,
                     Run(fetches[..k], selectors, render).log + [FailureLine(fetches[k].message)])
  {
    if k == 0 {
      assert fetches[..0] == [];
    } else {
      assert fetches[..k][0] == fetches[0];
      assert fetches[..k][1..] == fetches[1..][..k - 1];
      RunStopsAtRaise(fetches[1..], selectors, render, k - 1);
    }
  }

  /** Exactly one `An error occurred` entry when a fetch raised, none otherwise. */
  lemma {:induction false} FailureCount(fetches: seq<Fetch>, selectors: seq<string>, render: Renderer)
    ensures CountPrefixed(Run(fetches, selectors, render).log, FailurePrefix)
            == if Completes(fetches) then 0 else 1
  {
    if fetches != [] {
      var head := Step(fetches[0], selectors, render);
      match fetches[0]
      case Raised(message) =>
        LineKinds("", "", 0, message);
        assert head.log == [FailureLine(message)];
      case Reply(status, body) =>
        var rest := Run(fetches[1..], selectors, render);
        FailureCount(fetches[1..], selectors, render);
        CountPrefixedAppend(head.log, rest.log, FailurePrefix);
        if status == StatusOk {
          DataLinesNotStatus(body, selectors, render);
        } else {
          LineKinds("", "", status, "");
          assert head.log == [StatusLine(status)];
        }
        CompletesCons(fetches);
    }
  }

  /** When no response has status 200, the file stays empty and every
      iteration logs one `Error: <code>` entry. */
  lemma {:induction false} AllStatusErrors(fetches: seq<Fetch>, selectors: seq<string>, render: Renderer)
    requires forall i :: 0 <= i < |fetches| ==> fetches[i].Reply? && fetches[i].status != StatusOk
    ensures Run(fetches, selectors, render).file == []
    ensures CountPrefixed(Run(fetches, selectors, render).log, StatusPrefix) == |fetches|
    ensures |Run(fetches, selectors, render).log| == |fetches|
    ensures forall i :: 0 <= i < |fetches| ==>
              Run(fetches, selectors, render).log[i] == StatusLine(fetches[i].status)
  {
    NoOk(fetches);
    FileLineCount(fetches, selectors, render);
    StatusErrorCount(fetches, selectors, render);
    StatusLogOnly(fetches, selectors, render);
  }

  /** With no 200 response, entry `i` of the log is `Error: ` and the status
      code of fetch `i`, and there is no other entry. */
  lemma {:induction false} StatusLogOnly(fetches: seq<Fetch>, selectors: seq<string>, render: Renderer)
    requires forall i :: 0 <= i < |fetches| ==> fetches[i].Reply? && fetches[i].status != StatusOk
    ensures |Run(fetches, selectors, render).log| == |fetches|
    ensures forall i :: 0 <= i < |fetches| ==>
              Run(fetches, selectors, render).log[i] == StatusLine(fetches[i].status)
  {
    if fetches != [] {
      StatusLogOnly(fetches[1..], selectors, render);
      RunCons(fetches, selectors, render);
      var rest := Run(fetches[1..], selectors, render).log;
      assert Run(fetches, selectors, render).log == [StatusLine(fetches[0].status)] + rest;
      forall i | 0 <= i < |fetches|
        ensures Run(fetches, selectors, render).log[i] == StatusLine(fetches[i].status)
      {
        if i > 0 { assert fetches[i] == fetches[1..][i - 1]; }
      }
    }
  }

  lemma {:induction false} NoOk(fetches: seq<Fetch>)
    requires forall i :: 0 <= i < |fetches| ==> !IsOk(fetches[i])
    ensures OkCount(fetches) == 0
  {
    if fetches != [] {
      NoOk(fetches[1..]);
    }
  }

  /** Appending one more iteration to a loop that has not raised adds that
      iteration's file lines after the earlier ones. */
  lemma {:induction false} RunSnocFile(fetches: seq<Fetch>, fetch: Fetch, selectors: seq<string>, render: Renderer)
    requires Completes(fetches)
    ensures Run(fetches + [fetch], selectors, render).file
            == Run(fetches, selectors, render).file + Step(fetch, selectors, render).file
  {
    var all := fetches + [fetch];
    if fetches == [] {
      RunOne(fetch, selectors, render);
      assert all == [fetch];
    } else {
      assert all[0] == fetches[0];
      assert all[1..] == fetches[1..] + [fetch];
      RunSnocFile(fetches[1..], fetch, selectors, render);
      RunCons(all, selectors, render);
      RunCons(fetches, selectors, render);
      ConcatAssoc(Step(fetches[0], selectors, render).file, Run(fetches[1..], selectors, render).file,
                  Step(fetch, selectors, render).file);
    }
  }

  /** Likewise for the log entries. */
  lemma {:induction false} RunSnocLog(fetches: seq<Fetch>, fetch: Fetch, selectors: seq<string>, render: Renderer)
    requires Completes(fetches)
    ensures Run(fetches + [fetch], selectors, render).log
            == Run(fetches, selectors, render).log + Step(fetch, selectors, render).log
  {
    var all := fetches + [fetch];
    if fetches == [] {
      RunOne(fetch, selectors, render);
      assert all == [fetch];
    } else {
      assert all[0] == fetches[0];
      assert all[1..] == fetches[1..] + [fetch];
      RunSnocLog(fetches[1..], fetch, selectors, render);
      RunCons(all, selectors, render);
      RunCons(fetches, selectors, render);
      ConcatAssoc(Step(fetches[0], selectors, render).log, Run(fetches[1..], selectors, render).log,
                  Step(fetch, selectors, render).log);
    }
  }

  /** One more iteration of the loop, as the worker takes it. */
  lemma NextIteration(fetches: seq<Fetch>, i: nat, selectors: seq<string>, render: Renderer)
    requires i < |fetches| && Completes(fetches[..i]) && fetches[i].Reply?
    ensures Completes(fetches[..i + 1])
    ensures Run(fetches[..i + 1], selectors, render).file
            == Run(fetches[..i], selectors, render).file + Step(fetches[i], selectors, render).file
    ensures Run(fetches[..i + 1], selectors, render).log
            == Run(fetches[..i], selectors, render).log + Step(fetches[i], selectors, render).log
  {
    assert fetches[..i + 1] == fetches[..i] + [fetches[i]];
    RunSnocFile(fetches[..i], fetches[i], selectors, render);
    RunSnocLog(fetches[..i], fetches[i], selectors, render);
  }

  lemma RunOne(fetch: Fetch, selectors: seq<string>, render: Renderer)
    ensures Run([fetch], selectors, render) == Step(fetch, selectors, render)
  {
    assert [fetch][1..] == [];
  }

  lemma RunCons(fetches: seq<Fetch>, selectors: seq<string>, render: Renderer)
    requires fetches != [] && fetches[0].Reply?
    ensures Run(fetches, selectors, render).file
            == Step(fetches[0], selectors, render).file + Run(fetches[1..], selectors, render).file
    ensures Run(fetches, selectors, render).log
            == Step(fetches[0], selectors, render).log + Run(fetches[1..], selectors, render).log
  {
  }
}
