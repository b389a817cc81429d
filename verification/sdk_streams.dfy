/** The three SDK event-stream readers: the JavaScript `_stream` generator, the Go `stream`
    goroutine and the Rust `do_stream` task emitted by the code generator.  Each reads lines,
    trims them, takes the payload of `data: ` lines and stops at `[DONE]`. */
module SdkStreams {
  import opened Text
  import opened Utf8
  import opened GoStrings

  const MAX_SSE_LINE: nat := 8 * 1024 * 1024

  const DATA := [100, 97, 116, 97, 58, 32]  // "data: "
  const DONE := [91, 68, 79, 78, 69, 93]    // "[DONE]"

  // What a consumer of the stream receives; a payload is the UTF-8 of the payload string.
  datatype Out = Data(payload: seq<int>) | Failure

  // What one line asks the reader to do.
  datatype Action = Skip | Emit(payload: seq<int>) | Report | Stop | Abort

  function TrimmedAction(trimmed: seq<int>): Action {
    if !StartsWith(trimmed, DATA) then Skip
    else if trimmed[6..] == DONE then Stop
    else Emit(trimmed[6..])
  }

  // A payload that was found in a decoded line, as UTF-8.
  function Wire(action: Action): Action {
    if action.Emit? then Emit(Encode(action.payload)) else action
  }

  function TextAction(line: seq<int>, space: int -> bool): Action {
    Wire(TrimmedAction(Trim(line, space)))
  }

  function JsAction(line: seq<int>): Action {
    TextAction(line, JsSpace)
  }

  function GoAction(line: seq<int>): Action {
    if |line| > MAX_SSE_LINE then Abort else TrimmedAction(TrimSpace(line))
  }

  function RustAction(line: seq<int>): Action {
    if !ValidUtf8(line) then Report else TextAction(Decoded(line), WhiteSpace)
  }

  // ---- the outputs of a sequence of lines ----

  function Outputs(lines: seq<seq<int>>, act: seq<int> -> Action): seq<Out> {
    if lines == [] then []
    else
      match act(lines[0])
      case Skip => Outputs(lines[1..], act)
      case Emit(payload) => [Data(payload)] + Outputs(lines[1..], act)
      case Report => [Failure] + Outputs(lines[1..], act)
      case Stop => []
      case Abort => [Failure]
  }

  lemma OutputsCons(line: seq<int>, more: seq<seq<int>>, act: seq<int> -> Action)
    ensures Outputs([line] + more, act) ==
            match act(line)
            case Skip => Outputs(more, act)
            case Emit(payload) => [Data(payload)] + Outputs(more, act)
            case Report => [Failure] + Outputs(more, act)
            case Stop => []
            case Abort => [Failure]
  {
    assert ([line] + more)[1..] == more;
  }

  lemma Prefixed(action: Action, xs: seq<Out>, ys: seq<Out>)
    ensures action.Emit? ==> [Data(action.payload)] + (xs + ys) == ([Data(action.payload)] + xs) + ys
    ensures [Failure] + (xs + ys) == ([Failure] + xs) + ys
  {
  }

  // Some line ends the stream.
  predicate Halts(lines: seq<seq<int>>, act: seq<int> -> Action) {
    lines != [] && (act(lines[0]) == Stop || act(lines[0]) == Abort || Halts(lines[1..], act))
  }

  lemma {:induction false} OutputsAppend(xs: seq<seq<int>>, ys: seq<seq<int>>, act: seq<int> -> Action)
    ensures Outputs(xs + ys, act) ==
            if Halts(xs, act) then Outputs(xs, act) else Outputs(xs, act) + Outputs(ys, act)
    ensures Halts(xs + ys, act) <==> Halts(xs, act) || Halts(ys, act)
  {
    if xs == [] {
      assert xs + ys == ys;
    } else {
      var x, more := xs[0], xs[1..];
      OutputsAppend(more, ys, act);
      assert xs == [x] + more && xs + ys == [x] + (more + ys);
      OutputsCons(x, more + ys, act);
      OutputsCons(x, more, act);
      Prefixed(act(x), Outputs(more, act), Outputs(ys, act));
    }
  }

  // ---- the cut at [DONE] ----

  predicate Halting(action: Action) {
    action == Stop || action == Abort
  }

  // The lines before the first one that ends the stream.
  function Before(lines: seq<seq<int>>, ends: seq<int> -> bool): seq<seq<int>> {
    if lines == [] || ends(lines[0]) then [] else [lines[0]] + Before(lines[1..], ends)
  }

  function Gather(lines: seq<seq<int>>, item: seq<int> -> seq<Out>): seq<Out> {
    if lines == [] then [] else item(lines[0]) + Gather(lines[1..], item)
  }

  lemma {:induction false} BeforeIsFirst(lines: seq<seq<int>>, ends: seq<int> -> bool)
    ensures var k := |Before(lines, ends)|;
            && k <= |lines| && Before(lines, ends) == lines[..k]
            && (forall i :: 0 <= i < k ==> !ends(lines[i]))
            && (k < |lines| ==> ends(lines[k]))
  {
    if lines != [] && !ends(lines[0]) {
      BeforeIsFirst(lines[1..], ends);
      var k := |Before(lines[1..], ends)|;
      assert lines[..k + 1] == [lines[0]] + lines[1..][..k];
    }
  }

  /** Lines after the one that ends the stream do not matter. */
  lemma {:induction false} AfterTheEnd(lines: seq<seq<int>>, more: seq<seq<int>>, ends: seq<int> -> bool)
    requires |Before(lines, ends)| < |lines|
    ensures Before(lines + more, ends) == Before(lines, ends)
  {
    assert (lines + more)[0] == lines[0];
    if !ends(lines[0]) {
      assert (lines + more)[1..] == lines[1..] + more;
      AfterTheEnd(lines[1..], more, ends);
    }
  }

  function JsItem(line: seq<int>): seq<Out> {
    var t := Trim(line, JsSpace);
    if Codes("data: ") <= t then [Data(Encode(t[6..]))] else []
  }

  predicate JsDone(line: seq<int>) {
    Trim(line, JsSpace) == Codes("data: [DONE]")
  }

  function GoItem(line: seq<int>): seq<Out> {
    var t := TrimSpace(line);
    if Codes("data: ") <= t then [Data(t[6..])] else []
  }

  predicate GoDone(line: seq<int>) {
    TrimSpace(line) == Codes("data: [DONE]")
  }

  predicate GoEnds(line: seq<int>) {
    |line| > 8388608 || GoDone(line)
  }

  function RustItem(line: seq<int>): seq<Out> {
    if !ValidUtf8(line) then [Failure]
    else
      var t := Trim(Decoded(line), WhiteSpace);
      if Codes("data: ") <= t then [Data(Encode(t[6..]))] else []
  }

  predicate RustDone(line: seq<int>) {
    ValidUtf8(line) && Trim(Decoded(line), WhiteSpace) == Codes("data: [DONE]")
  }

  lemma Spelled()
    ensures DATA == Codes("data: ") && DONE == Codes("[DONE]") && DATA + DONE == Codes("data: [DONE]")
    ensures MAX_SSE_LINE == 8388608
  {
  }

  /** A trimmed line stops a reader if and only if it reads data: [DONE], and yields the rest of
      a data: line otherwise. */
  lemma TrimmedLaw(t: seq<int>)
    ensures TrimmedAction(t) == Stop <==> t == Codes("data: [DONE]")
    ensures TrimmedAction(t) != Report && TrimmedAction(t) != Abort
    ensures TrimmedAction(t).Emit? <==> Codes("data: ") <= t && t != Codes("data: [DONE]")
    ensures TrimmedAction(t).Emit? ==> TrimmedAction(t).payload == t[6..]
  {
    Spelled();
    if DATA <= t {
      assert t == DATA + t[6..];
    }
  }

  lemma JsLineLaw(line: seq<int>)
    ensures JsAction(line) == Stop <==> JsDone(line)
    ensures !JsDone(line) ==> !Halting(JsAction(line)) && Emitted(JsAction(line)) == JsItem(line)
  {
    TrimmedLaw(Trim(line, JsSpace));
  }

  lemma GoLineLaw(line: seq<int>)
    ensures Halting(GoAction(line)) <==> GoEnds(line)
    ensures GoAction(line) == Abort <==> |line| > 8388608
    ensures !GoEnds(line) ==> Emitted(GoAction(line)) == GoItem(line)
  {
    TrimmedLaw(TrimSpace(line));
  }

  lemma RustLineLaw(line: seq<int>)
    ensures RustAction(line) == Stop <==> RustDone(line)
    ensures !RustDone(line) ==> !Halting(RustAction(line)) && Emitted(RustAction(line)) == RustItem(line)
  {
    if ValidUtf8(line) {
      TrimmedLaw(Trim(Decoded(line), WhiteSpace));
    }
  }

  // One line and those after it.
  lemma OutputsUnfold(lines: seq<seq<int>>, act: seq<int> -> Action)
    requires lines != []
    ensures Halting(act(lines[0])) ==> Halts(lines, act) && Outputs(lines, act) == if act(lines[0]) == Abort then [Failure] else []
    ensures !Halting(act(lines[0])) ==> (Halts(lines, act) <==> Halts(lines[1..], act))
                                        && Outputs(lines, act) == Emitted(act(lines[0])) + Outputs(lines[1..], act)
  {
    assert [] + Outputs(lines[1..], act) == Outputs(lines[1..], act);
  }

  lemma Joins(item: seq<Out>, rest: seq<Out>, more: seq<Out>)
    ensures item + (rest + more) == (item + rest) + more
  {
  }

  lemma BeforeUnfold(lines: seq<seq<int>>, ends: seq<int> -> bool, item: seq<int> -> seq<Out>)
    requires lines != [] && !ends(lines[0])
    ensures Gather(Before(lines, ends), item) == item(lines[0]) + Gather(Before(lines[1..], ends), item)
    ensures |Before(lines, ends)| == 1 + |Before(lines[1..], ends)|
  {
    assert Before(lines, ends)[1..] == Before(lines[1..], ends);
  }

  /** The JavaScript reader delivers the payloads of the lines before the first data: [DONE]. */
  lemma {:induction false} JsCut(lines: seq<seq<int>>)
    ensures Outputs(lines, JsAction) == Gather(Before(lines, JsDone), JsItem)
    ensures Halts(lines, JsAction) <==> |Before(lines, JsDone)| < |lines|
  {
    if lines != [] {
      OutputsUnfold(lines, JsAction);
      JsLineLaw(lines[0]);
      if !JsDone(lines[0]) {
        JsCut(lines[1..]);
        BeforeUnfold(lines, JsDone, JsItem);
      }
    }
  }

  /** The Rust reader does too, with a failure for each line that is not UTF-8. */
  lemma {:induction false} RustCut(lines: seq<seq<int>>)
    ensures Outputs(lines, RustAction) == Gather(Before(lines, RustDone), RustItem)
    ensures Halts(lines, RustAction) <==> |Before(lines, RustDone)| < |lines|
  {
    if lines != [] {
      OutputsUnfold(lines, RustAction);
      RustLineLaw(lines[0]);
      if !RustDone(lines[0]) {
        RustCut(lines[1..]);
        BeforeUnfold(lines, RustDone, RustItem);
      }
    }
  }

  /** The Go reader does too; a line past 8 MiB ends the stream with a failure. */
  lemma {:induction false} GoCut(lines: seq<seq<int>>)
    ensures Outputs(lines, GoAction) == Gather(Before(lines, GoEnds), GoItem) + Overlong(lines)
  {
    if lines != [] {
      OutputsUnfold(lines, GoAction);
      GoLineLaw(lines[0]);
      if !GoEnds(lines[0]) {
        GoCut(lines[1..]);
        BeforeUnfold(lines, GoEnds, GoItem);
        Joins(GoItem(lines[0]), Gather(Before(lines[1..], GoEnds), GoItem), Overlong(lines[1..]));
      }
    }
  }

  // The failure for the line that ends the stream, when that one is too long.
  function Overlong(lines: seq<seq<int>>): seq<Out> {
    var k := |Before(lines, GoEnds)|;
    if k < |lines| && |lines[k]| > 8388608 then [Failure] else []
  }

  // The inner loop every reader has: act on the lines in order until one halts.
  method EmitLines(lines: seq<seq<int>>, act: seq<int> -> Action, before: seq<Out>)
    returns (out: seq<Out>, halted: bool)
    ensures out == before + Outputs(lines, act)
    ensures halted <==> Halts(lines, act)
  {
    out, halted := before, false;
    var i := 0;
    assert lines[0..] == lines;
    while i < |lines| && !halted
      invariant 0 <= i <= |lines|
      invariant before + Outputs(lines, act) == if halted then out else out + Outputs(lines[i..], act)
      invariant Halts(lines, act) <==> halted || Halts(lines[i..], act)
    {
      assert lines[i..][1..] == lines[i + 1..];
      assert lines[i..][0] == lines[i];
      match act(lines[i]) {
        case Skip =>
        case Emit(payload) => out := out + [Data(payload)];
        case Report => out := out + [Failure];
        case Stop => halted := true;
        case Abort => out, halted := out + [Failure], true;
      }
      i := i + 1;
    }
  }

  // ---- JavaScript ----

  const BYTE_ORDER_MARK := 0xFEFF

  // TextDecoder drops one byte-order mark at the start of the stream.
  function StripMark(text: seq<int>): seq<int> {
    if text != [] && text[0] == BYTE_ORDER_MARK then text[1..] else text
  }

  // What the decoder makes of the bytes so far.
  function JsText(bytes: seq<int>): seq<int> {
    StripMark(LossyText(bytes))
  }

  method JsStream(chunks: seq<seq<int>>) returns (out: seq<Out>)
    ensures out == Outputs(Complete(JsText(Flatten(chunks)), NEWLINE), JsAction)
    ensures out == Gather(Before(Complete(JsText(Flatten(chunks)), [10]), JsDone), JsItem)
  {
    var buffer: seq<int>, undecoded: seq<int>, started := [], [], false;
    out := [];
    var n := 0;
    var halted := false;
    while n < |chunks| && !halted
      invariant 0 <= n <= |chunks|
      invariant JsDecoder(Flatten(chunks[..n]), undecoded, started)
      invariant JsReached(JsText(Flatten(chunks[..n])), buffer, out, halted)
      decreases |chunks| - n, !halted
    {
      assert chunks[..n + 1][..n] == chunks[..n];
      ghost var bytes := Flatten(chunks[..n]);
      var more := LossyText(undecoded + chunks[n]);
      MarkAppend(bytes, chunks[n], started);
      if !started && more != [] {
        started, more := true, StripMark(more);
      }
      undecoded := LossyPending(undecoded + chunks[n]);
      JsStep(JsText(bytes), buffer, out, more);
      buffer := buffer + more;
      var lines := Split(buffer, NEWLINE);
      buffer := lines[|lines| - 1];
      out, halted := EmitLines(lines[..|lines| - 1], JsAction, out);
      n := n + 1;
    }
    JsRest(chunks, n, buffer, out, halted);
    JsCut(Complete(JsText(Flatten(chunks)), NEWLINE));
  }

  ghost predicate JsDecoder(bytes: seq<int>, undecoded: seq<int>, started: bool) {
    undecoded == LossyPending(bytes) && (started <==> LossyText(bytes) != [])
  }

  lemma MarkAppend(bytes: seq<int>, chunk: seq<int>, started: bool)
    requires JsDecoder(bytes, LossyPending(bytes), started)
    ensures var more := LossyText(LossyPending(bytes) + chunk);
            && LossyPending(bytes + chunk) == LossyPending(LossyPending(bytes) + chunk)
            && (LossyText(bytes + chunk) != [] <==> started || more != [])
            && JsText(bytes + chunk) == JsText(bytes) + if started then more else StripMark(more)
  {
    LossyAppend(bytes, chunk);
  }

  // After some text without a halting line, what the reader holds; after a halting line, its result.
  ghost predicate JsReached(text: seq<int>, buffer: seq<int>, out: seq<Out>, halted: bool) {
    && buffer == Rest(text, NEWLINE)
    && out == Outputs(Complete(text, NEWLINE), JsAction)
    && (halted <==> Halts(Complete(text, NEWLINE), JsAction))
  }

  lemma CompleteAppend(x: seq<int>, y: seq<int>)
    ensures Complete(x + y, NEWLINE) == Complete(x, NEWLINE) + Complete(Rest(x, NEWLINE) + y, NEWLINE)
    ensures Rest(x + y, NEWLINE) == Rest(Rest(x, NEWLINE) + y, NEWLINE)
  {
    SplitAppend(x, y, NEWLINE);
  }

  lemma JsStep(text: seq<int>, buffer: seq<int>, out: seq<Out>, more: seq<int>)
    requires JsReached(text, buffer, out, false)
    ensures var lines := Complete(buffer + more, NEWLINE);
            JsReached(text + more, Rest(buffer + more, NEWLINE), out + Outputs(lines, JsAction), Halts(lines, JsAction))
  {
    CompleteAppend(text, more);
    OutputsAppend(Complete(text, NEWLINE), Complete(buffer + more, NEWLINE), JsAction);
  }

  lemma JsRest(chunks: seq<seq<int>>, n: nat, buffer: seq<int>, out: seq<Out>, halted: bool)
    requires n <= |chunks| && (n < |chunks| ==> halted)
    requires JsReached(JsText(Flatten(chunks[..n])), buffer, out, halted)
    ensures out == Outputs(Complete(JsText(Flatten(chunks)), NEWLINE), JsAction)
  {
    FlattenCut(chunks, n);
    if n < |chunks| {
      var a, b := Flatten(chunks[..n]), Flatten(chunks[n..]);
      var started, more := LossyText(a) != [], LossyText(LossyPending(a) + b);
      MarkAppend(a, b, started);
      JsAfter(JsText(a), if started then more else StripMark(more));
    }
  }

  // Once a line has halted the reader, nothing that follows matters.
  lemma JsAfter(text: seq<int>, more: seq<int>)
    requires Halts(Complete(text, NEWLINE), JsAction)
    ensures Outputs(Complete(text + more, NEWLINE), JsAction) == Outputs(Complete(text, NEWLINE), JsAction)
  {
    CompleteAppend(text, more);
    OutputsAppend(Complete(text, NEWLINE), Complete(Rest(text, NEWLINE) + more, NEWLINE), JsAction);
  }

  // ---- Go ----

  // bufio.Reader.ReadString('\n') over the rest of the body.
  function ReadString(rest: seq<int>): (line: seq<int>)
    ensures line <= rest && (rest != [] ==> line != [])
  {
    if rest == [] then []
    else if rest[0] == 10 then [10]
    else [rest[0]] + ReadString(rest[1..])
  }

  predicate AtEnd(line: seq<int>) {
    line == [] || line[|line| - 1] != 10
  }

  // The lines Go acts on: the complete ones with their newline, then the unterminated one.
  function GoLines(stream: seq<int>): seq<seq<int>>
    decreases |stream|
  {
    if stream == [] then [] else [ReadString(stream)] + GoLines(stream[|ReadString(stream)|..])
  }

  method GoStream(stream: seq<int>) returns (out: seq<Out>)
    ensures out == Outputs(GoLines(stream), GoAction)
    ensures out == Gather(Before(GoLines(stream), GoEnds), GoItem) + Overlong(GoLines(stream))
  {
    out := ReadBody(stream);
    GoCut(GoLines(stream));
  }

  method ReadBody(stream: seq<int>) returns (out: seq<Out>)
    ensures out == Outputs(GoLines(stream), GoAction)
  {
    out := [];
    var rest := stream;
    while true
      invariant Outputs(GoLines(stream), GoAction) == out + Outputs(GoLines(rest), GoAction)
      decreases |rest|
    {
      var line := ReadString(rest);
      if rest != [] {
        OutputsCons(line, GoLines(rest[|line|..]), GoAction);
      }
      if |line| > MAX_SSE_LINE {
        return out + [Failure];
      }
      if line != [] {
        var action := TrimmedAction(TrimSpace(line));
        if action == Stop {
          return;
        }
        if action.Emit? {
          out := out + [Data(action.payload)];
        }
      }
      if AtEnd(line) {
        EndOfBody(rest);
        return;
      }
      rest := rest[|line|..];
    }
  }

  lemma {:induction false} EndOfBody(rest: seq<int>)
    requires AtEnd(ReadString(rest))
    ensures rest[|ReadString(rest)|..] == []
  {
    if rest != [] && rest[0] != 10 {
      EndOfBody(rest[1..]);
    }
  }

  // ---- Rust ----

  /** The arrival that first makes the pending line plus the new bytes exceed the cap, or
      the number of arrivals when none does. */
  function FirstOver(chunks: seq<seq<int>>): nat {
    if chunks == [] then 0
    else
      var n := |chunks| - 1;
      var k := FirstOver(chunks[..n]);
      if k < n then k
      else if |Rest(Flatten(chunks[..n]), NEWLINE)| + |chunks[n]| > MAX_SSE_LINE then n
      else n + 1
  }

  // Up to the cap the outputs of the complete lines; past it one failure, unless already done.
  function RustOutputs(chunks: seq<seq<int>>, k: nat): seq<Out>
    requires k <= |chunks|
  {
    var lines := Complete(Flatten(chunks[..k]), NEWLINE);
    Outputs(lines, RustAction) + if k == |chunks| || Halts(lines, RustAction) then [] else [Failure]
  }

  lemma {:induction false} FirstOverBound(chunks: seq<seq<int>>)
    ensures FirstOver(chunks) <= |chunks|
  {
    if chunks != [] { FirstOverBound(chunks[..|chunks| - 1]); }
  }

  lemma {:induction false} FirstOverPrefix(chunks: seq<seq<int>>, m: nat)
    requires m <= |chunks|
    ensures FirstOver(chunks[..m]) < m ==> FirstOver(chunks) == FirstOver(chunks[..m])
    ensures FirstOver(chunks[..m]) == m ==> FirstOver(chunks) >= m
  {
    FirstOverBound(chunks[..m]);
    if m == |chunks| {
      assert chunks[..m] == chunks;
    } else {
      var n := |chunks| - 1;
      FirstOverPrefix(chunks[..n], m);
      assert chunks[..n][..m] == chunks[..m];
      FirstOverBound(chunks[..n]);
    }
  }

  method RustStream(chunks: seq<seq<int>>) returns (out: seq<Out>)
    ensures FirstOver(chunks) <= |chunks| && out == RustOutputs(chunks, FirstOver(chunks))
    ensures var lines := Complete(Flatten(chunks[..FirstOver(chunks)]), [10]);
            out == Gather(Before(lines, RustDone), RustItem)
                   + if FirstOver(chunks) == |chunks| || |Before(lines, RustDone)| < |lines| then [] else [Failure]
  {
    RustCutStream(chunks);
    var buffer: seq<int> := [];
    out := [];
    var n := 0;
    FirstOverBound(chunks);
    while n < |chunks|
      invariant 0 <= n <= |chunks|
      invariant RustReached(chunks[..n], buffer, out)
    {
      RustArrival(chunks, n, buffer, out);
      buffer := buffer + chunks[n];
      if |buffer| > MAX_SSE_LINE {
        return out + [Failure];
      }
      var halted;
      buffer, out, halted := Drain(buffer, out);
      if halted {
        return;
      }
      n := n + 1;
    }
    assert chunks[..n] == chunks;
  }

  lemma RustCutStream(chunks: seq<seq<int>>)
    ensures FirstOver(chunks) <= |chunks|
    ensures var lines := Complete(Flatten(chunks[..FirstOver(chunks)]), [10]);
            RustOutputs(chunks, FirstOver(chunks)) ==
            Gather(Before(lines, RustDone), RustItem)
            + if FirstOver(chunks) == |chunks| || |Before(lines, RustDone)| < |lines| then [] else [Failure]
  {
    FirstOverBound(chunks);
    RustCut(Complete(Flatten(chunks[..FirstOver(chunks)]), NEWLINE));
  }

  /** The arrival at which the cap is exceeded is the first that brings the unfinished line past
      8 MiB together with its own bytes. */
  lemma {:induction false} FirstOverMeans(chunks: seq<seq<int>>)
    ensures var k := FirstOver(chunks);
            k <= |chunks| && (forall n :: 0 <= n < k ==> !OverAt(chunks, n)) && (k < |chunks| ==> OverAt(chunks, k))
  {
    if chunks != [] {
      var m := |chunks| - 1;
      FirstOverMeans(chunks[..m]);
      forall n | 0 <= n < m ensures OverAt(chunks[..m], n) == OverAt(chunks, n) {
        assert chunks[..m][..n] == chunks[..n];
      }
    }
  }

  predicate OverAt(chunks: seq<seq<int>>, n: nat)
    requires n < |chunks|
  {
    |Rest(Flatten(chunks[..n]), [10])| + |chunks[n]| > 8388608
  }

  // What the next arrival leads to: past the cap, to the end of the stream, or on.
  lemma RustArrival(chunks: seq<seq<int>>, n: nat, buffer: seq<int>, out: seq<Out>)
    requires n < |chunks| && RustReached(chunks[..n], buffer, out)
    ensures FirstOver(chunks) <= |chunks|
    ensures var more := buffer + chunks[n];
            var lines := Complete(more, NEWLINE);
            if |more| > MAX_SSE_LINE then RustOutputs(chunks, FirstOver(chunks)) == out + [Failure]
            else if Halts(lines, RustAction) then RustOutputs(chunks, FirstOver(chunks)) == out + Outputs(lines, RustAction)
            else RustReached(chunks[..n + 1], Rest(more, NEWLINE), out + Outputs(lines, RustAction))
  {
    FirstOverBound(chunks);
    FirstOverPrefix(chunks, n + 1);
    assert chunks[..n + 1] == chunks[..n] + [chunks[n]];
    assert chunks[..n + 1][..n] == chunks[..n];
    var more := buffer + chunks[n];
    if |more| <= MAX_SSE_LINE {
      RustStep(chunks[..n], chunks[n], out);
      if Halts(Complete(more, NEWLINE), RustAction) {
        RustHalted(chunks, n + 1, FirstOver(chunks));
      }
    }
  }

  ghost predicate RustReached(chunks: seq<seq<int>>, buffer: seq<int>, out: seq<Out>) {
    var lines := Complete(Flatten(chunks), NEWLINE);
    && FirstOver(chunks) == |chunks|
    && buffer == Rest(Flatten(chunks), NEWLINE)
    && out == Outputs(lines, RustAction)
    && !Halts(lines, RustAction)
  }

  lemma RustStep(chunks: seq<seq<int>>, chunk: seq<int>, out: seq<Out>)
    requires RustReached(chunks, Rest(Flatten(chunks), NEWLINE), out)
    requires |Rest(Flatten(chunks), NEWLINE)| + |chunk| <= MAX_SSE_LINE
    ensures var next := chunks + [chunk];
            var buffer := Rest(Flatten(chunks), NEWLINE) + chunk;
            var lines := Complete(buffer, NEWLINE);
            && FirstOver(next) == |next|
            && Rest(Flatten(next), NEWLINE) == Rest(buffer, NEWLINE)
            && Outputs(Complete(Flatten(next), NEWLINE), RustAction) == out + Outputs(lines, RustAction)
            && (Halts(Complete(Flatten(next), NEWLINE), RustAction) <==> Halts(lines, RustAction))
  {
    var bytes := Flatten(chunks);
    var buffer := Rest(bytes, NEWLINE) + chunk;
    assert (chunks + [chunk])[..|chunks|] == chunks;
    CompleteAppend(bytes, chunk);
    OutputsAppend(Complete(bytes, NEWLINE), Complete(buffer, NEWLINE), RustAction);
  }

  lemma RustHalted(chunks: seq<seq<int>>, m: nat, k: nat)
    requires m <= k <= |chunks| && Halts(Complete(Flatten(chunks[..m]), NEWLINE), RustAction)
    ensures RustOutputs(chunks, k) == Outputs(Complete(Flatten(chunks[..m]), NEWLINE), RustAction)
  {
    var a, b := Flatten(chunks[..m]), Flatten(chunks[m..k]);
    assert chunks[..k] == chunks[..m] + chunks[m..k];
    FlattenConcat(chunks[..m], chunks[m..k]);
    CompleteAppend(a, b);
    var xs, ys := Complete(a, NEWLINE), Complete(Rest(a, NEWLINE) + b, NEWLINE);
    OutputsAppend(xs, ys, RustAction);
  }

  // iter().position(|&b| b == b'\n'); the length of the buffer when there is none
  function Position(buffer: seq<int>): (p: nat)
    ensures p <= |buffer|
  {
    if buffer == [] || buffer[0] == 10 then 0 else 1 + Position(buffer[1..])
  }

  lemma {:induction false} SplitAtPosition(buffer: seq<int>)
    ensures var p := Position(buffer);
            && (p < |buffer| ==> buffer[p] == 10)
            && Split(buffer, NEWLINE) ==
               if p == |buffer| then [buffer] else [buffer[..p]] + Split(buffer[p + 1..], NEWLINE)
  {
    if buffer != [] {
      var c, rest := buffer[0], buffer[1..];
      assert buffer == [c] + rest;
      if c == 10 {
        SplitNewline(rest);
      } else {
        SplitAtPosition(rest);
        SplitPlain([c], rest);
        var p := Position(rest);
        assert p < |rest| ==> rest[p + 1..] == buffer[p + 2..] && [c] + rest[..p] == buffer[..p + 1];
      }
    }
  }

  // Drain every complete line from the byte buffer.
  method Drain(buffer: seq<int>, before: seq<Out>) returns (rest: seq<int>, out: seq<Out>, halted: bool)
    ensures out == before + Outputs(Complete(buffer, NEWLINE), RustAction)
    ensures halted <==> Halts(Complete(buffer, NEWLINE), RustAction)
    ensures !halted ==> rest == Rest(buffer, NEWLINE)
    ensures var lines := Complete(buffer, [10]);
            && out == before + Gather(Before(lines, RustDone), RustItem)
            && (halted <==> |Before(lines, RustDone)| < |lines|)
  {
    rest, out, halted := DrainLines(buffer, before);
    RustCut(Complete(buffer, NEWLINE));
  }

  method DrainLines(buffer: seq<int>, before: seq<Out>) returns (rest: seq<int>, out: seq<Out>, halted: bool)
    ensures out == before + Outputs(Complete(buffer, NEWLINE), RustAction)
    ensures halted <==> Halts(Complete(buffer, NEWLINE), RustAction)
    ensures !halted ==> rest == Rest(buffer, NEWLINE)
  {
    rest, out, halted := buffer, before, false;
    ghost var total := before + Outputs(Complete(buffer, NEWLINE), RustAction);
    ghost var halts := Halts(Complete(buffer, NEWLINE), RustAction);
    while Position(rest) < |rest|
      invariant Drained(total, halts, rest, out) && Rest(rest, NEWLINE) == Rest(buffer, NEWLINE)
      decreases |rest|
    {
      var pos := Position(rest);
      DrainStep(total, halts, rest, out);
      var line := rest[..pos + 1];
      rest := rest[pos + 1..];
      var action := RustAction(line);
      if action == Stop {
        halted := true;
        return;
      }
      out := out + Emitted(action);
    }
    DrainEnd(total, halts, rest, out);
  }

  function Emitted(action: Action): seq<Out> {
    match action
    case Emit(payload) => [Data(payload)]
    case Report => [Failure]
    case _ => []
  }

  // The bytes still in the buffer account for the rest of the outputs.
  ghost predicate Drained(total: seq<Out>, halts: bool, rest: seq<int>, out: seq<Out>) {
    var left := Complete(rest, NEWLINE);
    total == out + Outputs(left, RustAction) && (halts <==> Halts(left, RustAction))
  }

  lemma DrainStep(total: seq<Out>, halts: bool, rest: seq<int>, out: seq<Out>)
    requires Drained(total, halts, rest, out) && Position(rest) < |rest|
    ensures var p := Position(rest);
            var action := RustAction(rest[..p + 1]);
            && (action == Stop ==> halts && out == total)
            && (action != Stop ==> Drained(total, halts, rest[p + 1..], out + Emitted(action)))
            && Rest(rest[p + 1..], NEWLINE) == Rest(rest, NEWLINE)
  {
    LinePeel(rest);
    NeverAborts(Complete(rest, NEWLINE)[0]);
    PeelOutputs(total, out, Complete(rest, NEWLINE), RustAction);
  }

  lemma DrainEnd(total: seq<Out>, halts: bool, rest: seq<int>, out: seq<Out>)
    requires Drained(total, halts, rest, out) && Position(rest) == |rest|
    ensures total == out && !halts && Rest(rest, NEWLINE) == rest
  {
    SplitAtPosition(rest);
    assert Complete(rest, NEWLINE) == [];
  }

  lemma NeverAborts(line: seq<int>)
    ensures RustAction(line) != Abort
  {
  }

  lemma PeelOutputs(total: seq<Out>, out: seq<Out>, lines: seq<seq<int>>, act: seq<int> -> Action)
    requires lines != [] && total == out + Outputs(lines, act) && act(lines[0]) != Abort
    ensures var action := act(lines[0]);
            if action == Stop then total == out && Halts(lines, act)
            else total == (out + Emitted(action)) + Outputs(lines[1..], act) && (Halts(lines, act) <==> Halts(lines[1..], act))
  {
  }

  // The first complete line of a buffer, with its newline.
  lemma LinePeel(buffer: seq<int>)
    requires Position(buffer) < |buffer|
    ensures var p := Position(buffer);
            var lines, next := Complete(buffer, NEWLINE), buffer[p + 1..];
            && lines != [] && lines[0] + NEWLINE == buffer[..p + 1]
            && lines[1..] == Complete(next, NEWLINE) && Rest(next, NEWLINE) == Rest(buffer, NEWLINE)
            && RustAction(buffer[..p + 1]) == RustAction(lines[0])
  {
    LineSplit(buffer);
    NewlineInert(buffer[..Position(buffer)]);
  }

  lemma LineSplit(buffer: seq<int>)
    requires Position(buffer) < |buffer|
    ensures var p := Position(buffer);
            var lines, next := Complete(buffer, NEWLINE), buffer[p + 1..];
            && lines != [] && lines[0] == buffer[..p] && lines[0] + NEWLINE == buffer[..p + 1]
            && lines[1..] == Complete(next, NEWLINE) && Rest(next, NEWLINE) == Rest(buffer, NEWLINE)
  {
    SplitAtPosition(buffer);
    var p := Position(buffer);
    assert buffer[..p] + NEWLINE == buffer[..p + 1];
  }

  lemma PendingNewline(p: seq<int>)
    requires p != [] && !Ready(p)
    ensures !Ready(p + NEWLINE)
  {
    var w := Width(p[0]);
    if 0 < w <= |p| {
      assert (p + NEWLINE)[..w] == p[..w];
    } else if w == |p| + 1 {
      assert (p + NEWLINE)[..w] == p + NEWLINE;
      assert !Continuation((p + NEWLINE)[w - 1]);
    }
  }

  lemma {:induction false} PendingNotReady(b: seq<int>)
    ensures !Ready(Pending(b))
  {
    if Ready(b) { PendingNotReady(b[Width(b[0])..]); }
  }

  lemma DecodedNewline(line: seq<int>)
    ensures ValidUtf8(line + NEWLINE) <==> ValidUtf8(line)
    ensures ValidUtf8(line) ==> Decoded(line + NEWLINE) == Decoded(line) + NEWLINE
  {
    DecodeAppend(line, NEWLINE);
    PendingNotReady(line);
    if ValidUtf8(line) {
      assert [] + NEWLINE == NEWLINE;
      assert Encode([10]) == NEWLINE by { assert [10][1..] == []; assert Encode([]) == []; }
      DecodeEncode([10]);
    } else {
      PendingNewline(Pending(line));
    }
  }

  /** The newline a line ends in does not change what the line says. */
  lemma NewlineInert(line: seq<int>)
    ensures RustAction(line + NEWLINE) == RustAction(line)
  {
    DecodedNewline(line);
    if ValidUtf8(line) {
      var t := Decoded(line);
      TrimDropLast(t + NEWLINE, WhiteSpace);
      assert (t + NEWLINE)[..|t|] == t;
    }
  }

  // all is lines with their newlines put back, then the unterminated line if there is one.
  ghost predicate Terminated(all: seq<seq<int>>, lines: seq<seq<int>>, rest: seq<int>) {
    && |all| == |lines| + (if rest == [] then 0 else 1)
    && (forall i :: 0 <= i < |lines| ==> all[i] == lines[i] + NEWLINE)
    && (rest != [] ==> all[|lines|] == rest)
  }

  lemma {:induction false} GoLinesShape(stream: seq<int>)
    ensures Terminated(GoLines(stream), Complete(stream, NEWLINE), Rest(stream, NEWLINE))
    decreases |stream|
  {
    if stream != [] {
      var p := Position(stream);
      ReadToPosition(stream);
      if p < |stream| {
        LineSplit(stream);
        GoLinesShape(stream[p + 1..]);
        TerminatedStep(GoLines(stream[p + 1..]), Complete(stream, NEWLINE), Rest(stream, NEWLINE));
      } else {
        SplitAtPosition(stream);
        assert stream[|stream|..] == [];
      }
    }
  }

  lemma TerminatedStep(more: seq<seq<int>>, lines: seq<seq<int>>, rest: seq<int>)
    requires lines != [] && Terminated(more, lines[1..], rest)
    ensures Terminated([lines[0] + NEWLINE] + more, lines, rest)
  {
    assert forall i :: 0 < i < |lines| ==> lines[i] == lines[1..][i - 1];
  }

  lemma {:induction false} ReadToPosition(s: seq<int>)
    ensures var p := Position(s); ReadString(s) == if p < |s| then s[..p + 1] else s
  {
    if s != [] && s[0] != 10 {
      ReadToPosition(s[1..]);
    }
  }
}
