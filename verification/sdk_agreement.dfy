/** Where the three SDK event-stream readers agree: the exact condition on the lines of a
    stream, and on its unterminated last line. */
module SdkAgreement {
  import opened Text
  import opened Utf8
  import opened GoStrings
  import opened SdkStreams

  // ---- the two notions of white space ----

  predicate Shared(c: int) {
    JsSpace(c) && WhiteSpace(c)
  }

  // U+0085 is white space for Rust and Go only, U+FEFF for JavaScript only.
  predicate Odd(c: int) {
    c == 0x85 || c == 0xFEFF
  }

  // Behind the white space all languages share, neither margin is one of the two.
  predicate EvenMargins(line: seq<int>) {
    var u := Trim(line, Shared);
    u == [] || (!Odd(u[0]) && !Odd(u[|u| - 1]))
  }

  lemma SharedPadding(line: seq<int>)
    ensures Trim(line, JsSpace) == Trim(Trim(line, Shared), JsSpace)
    ensures Trim(line, WhiteSpace) == Trim(Trim(line, Shared), WhiteSpace)
  {
    TrimShape(line, Shared);
    var u, k := Trim(line, Shared), Lead(line, Shared);
    TrimPadded(line, JsSpace, k, k + |u|);
    TrimPadded(line, WhiteSpace, k, k + |u|);
  }

  // A margin that one side trims and the other keeps tells the results apart.
  lemma MarginKept(u: seq<int>, keeps: int -> bool, trims: int -> bool, q: nat)
    requires q < |u| && (q == 0 || q == |u| - 1) && !keeps(u[q]) && trims(u[q])
    ensures Trim(u, keeps) != Trim(u, trims)
  {
    TrimShape(u, keeps);
    TrimShape(u, trims);
    SolidInside(u, keeps, q);
    var t, k := Trim(u, keeps), Lead(u, keeps);
    assert q == 0 ==> t[0] == u[q];
    assert q == |u| - 1 ==> t[|t| - 1] == u[q];
  }

  /** The two trims of a line are equal if and only if, behind the shared white space, neither
      margin is U+0085 or U+FEFF. */
  lemma TrimsAgreeIff(line: seq<int>)
    ensures Trim(line, JsSpace) == Trim(line, WhiteSpace) <==> EvenMargins(line)
  {
    var u := Trim(line, Shared);
    SharedPadding(line);
    TrimShape(line, Shared);
    if u != [] {
      if Odd(u[0]) {
        OddMargin(u, 0);
      } else if Odd(u[|u| - 1]) {
        OddMargin(u, |u| - 1);
      } else {
        TrimUnique(u, JsSpace, 0, |u|);
        TrimUnique(u, WhiteSpace, 0, |u|);
      }
    }
  }

  lemma OddMargin(u: seq<int>, q: nat)
    requires q < |u| && (q == 0 || q == |u| - 1) && Odd(u[q])
    ensures Trim(u, JsSpace) != Trim(u, WhiteSpace)
  {
    if u[q] == 0x85 {
      MarginKept(u, JsSpace, WhiteSpace, q);
    } else {
      MarginKept(u, WhiteSpace, JsSpace, q);
    }
  }

  // ---- one line ----

  lemma TrimScalar(line: seq<int>, space: int -> bool)
    requires AllScalar(line)
    ensures AllScalar(Trim(line, space))
  {
    TrimShape(line, space);
  }

  lemma WiresAgreeIff(a: seq<int>, b: seq<int>)
    requires AllScalar(a) && AllScalar(b)
    ensures Wire(TrimmedAction(a)) == Wire(TrimmedAction(b)) <==>
            a == b || (!StartsWith(a, DATA) && !StartsWith(b, DATA))
  {
    if StartsWith(a, DATA) && StartsWith(b, DATA) {
      assert a == DATA + a[6..] && b == DATA + b[6..];
      if Encode(a[6..]) == Encode(b[6..]) {
        EncodeInjective(a[6..], b[6..]);
      }
    }
  }

  lemma RustOnText(line: seq<int>)
    requires AllScalar(line)
    ensures RustAction(Encode(line)) == TextAction(line, WhiteSpace)
  {
    DecodeEncode(line);
  }

  predicate LineAgrees(line: seq<int>) {
    EvenMargins(line) || (!StartsWith(Trim(line, JsSpace), DATA) && !StartsWith(Trim(line, WhiteSpace), DATA))
  }

  /** JavaScript and Rust do the same with a line if and only if its margins are even or
      neither of them takes it for data. */
  lemma LineAgreesIff(line: seq<int>)
    requires AllScalar(line)
    ensures JsAction(line) == RustAction(Encode(line)) <==> LineAgrees(line)
  {
    RustOnText(line);
    TrimsAgreeIff(line);
    TrimScalar(line, JsSpace);
    TrimScalar(line, WhiteSpace);
    WiresAgreeIff(Trim(line, JsSpace), Trim(line, WhiteSpace));
  }

  // ---- a whole stream ----

  // After k lines both consumers have received the same, and both go on or neither does.
  predicate SameSoFar(xs: seq<seq<int>>, f: seq<int> -> Action, ys: seq<seq<int>>, g: seq<int> -> Action, k: nat)
    requires k <= |xs| == |ys|
  {
    Outputs(xs[..k], f) == Outputs(ys[..k], g) && (Halts(xs[..k], f) <==> Halts(ys[..k], g))
  }

  ghost predicate InStep(xs: seq<seq<int>>, f: seq<int> -> Action, ys: seq<seq<int>>, g: seq<int> -> Action) {
    |xs| == |ys| && forall k: nat :: k <= |xs| ==> SameSoFar(xs, f, ys, g, k)
  }

  // Every line that is read is acted on alike.
  predicate ActAlike(xs: seq<seq<int>>, f: seq<int> -> Action, ys: seq<seq<int>>, g: seq<int> -> Action)
    requires |xs| == |ys|
  {
    xs == [] || (f(xs[0]) == g(ys[0]) && (Halting(f(xs[0])) || ActAlike(xs[1..], f, ys[1..], g)))
  }

  lemma Unfold(xs: seq<seq<int>>, f: seq<int> -> Action, k: nat)
    requires 0 < k <= |xs|
    ensures var rest := xs[1..][..k - 1];
            && Outputs(xs[..k], f) == Led(f(xs[0]), Outputs(rest, f))
            && (Halts(xs[..k], f) <==> Halting(f(xs[0])) || Halts(rest, f))
  {
    assert xs[..k] == [xs[0]] + xs[1..][..k - 1];
    OutputsCons(xs[0], xs[1..][..k - 1], f);
    assert xs[..k][1..] == xs[1..][..k - 1];
  }

  // The outputs of a line and of those after it.
  function Led(action: Action, rest: seq<Out>): seq<Out> {
    match action
    case Skip => rest
    case Emit(payload) => [Data(payload)] + rest
    case Report => [Failure] + rest
    case Stop => []
    case Abort => [Failure]
  }

  lemma {:induction false} AlikeIsSame(xs: seq<seq<int>>, f: seq<int> -> Action, ys: seq<seq<int>>, g: seq<int> -> Action, k: nat)
    requires k <= |xs| == |ys| && ActAlike(xs, f, ys, g)
    ensures SameSoFar(xs, f, ys, g, k)
    decreases k
  {
    if k == 0 {
      assert xs[..0] == ys[..0] == [];
    } else {
      Unfold(xs, f, k);
      Unfold(ys, g, k);
      if !Halting(f(xs[0])) {
        AlikeIsSame(xs[1..], f, ys[1..], g, k - 1);
      }
    }
  }

  lemma FirstAlike(xs: seq<seq<int>>, f: seq<int> -> Action, ys: seq<seq<int>>, g: seq<int> -> Action)
    requires 0 < |xs| == |ys| && SameSoFar(xs, f, ys, g, 1)
    ensures f(xs[0]) == g(ys[0])
  {
    Unfold(xs, f, 1);
    Unfold(ys, g, 1);
    assert xs[1..][..0] == [] && ys[1..][..0] == [];
    ActionShows(f(xs[0]), g(ys[0]));
  }

  // What a single action does tells which action it is.
  lemma ActionShows(a: Action, b: Action)
    requires Led(a, []) == Led(b, []) && (Halting(a) <==> Halting(b))
    ensures a == b
  {
    assert a.Emit? ==> Led(a, [])[0] == Data(a.payload);
    assert b.Emit? ==> Led(b, [])[0] == Data(b.payload);
    assert a.Report? || a.Abort? ==> Led(a, [])[0] == Failure;
    assert b.Report? || b.Abort? ==> Led(b, [])[0] == Failure;
  }

  lemma LedCancels(action: Action, p: seq<Out>, q: seq<Out>)
    requires !Halting(action) && Led(action, p) == Led(action, q)
    ensures p == q
  {
    if !action.Skip? {
      assert Led(action, p)[1..] == p && Led(action, q)[1..] == q;
    }
  }

  lemma {:induction false} SameIsAlike(xs: seq<seq<int>>, f: seq<int> -> Action, ys: seq<seq<int>>, g: seq<int> -> Action)
    requires InStep(xs, f, ys, g)
    ensures ActAlike(xs, f, ys, g)
  {
    if xs != [] {
      assert SameSoFar(xs, f, ys, g, 1);
      FirstAlike(xs, f, ys, g);
      if !Halting(f(xs[0])) {
        forall k: nat | k <= |xs[1..]| ensures SameSoFar(xs[1..], f, ys[1..], g, k) {
          assert SameSoFar(xs, f, ys, g, k + 1);
          Unfold(xs, f, k + 1);
          Unfold(ys, g, k + 1);
          LedCancels(f(xs[0]), Outputs(xs[1..][..k], f), Outputs(ys[1..][..k], g));
        }
        SameIsAlike(xs[1..], f, ys[1..], g);
      }
    }
  }

  /** Two readers stay in step if and only if every line they read is acted on alike. */
  lemma InStepIff(xs: seq<seq<int>>, f: seq<int> -> Action, ys: seq<seq<int>>, g: seq<int> -> Action)
    requires |xs| == |ys|
    ensures InStep(xs, f, ys, g) <==> ActAlike(xs, f, ys, g)
  {
    if ActAlike(xs, f, ys, g) {
      forall k: nat | k <= |xs| ensures SameSoFar(xs, f, ys, g, k) {
        AlikeIsSame(xs, f, ys, g, k);
      }
    }
    if InStep(xs, f, ys, g) {
      SameIsAlike(xs, f, ys, g);
    }
  }

  // ---- JavaScript and Rust on one stream ----

  predicate NoNewline(s: seq<int>) {
    forall i :: 0 <= i < |s| ==> s[i] != 10
  }

  lemma ValueIsPlain(b: seq<int>)
    requires b != [] && |b| == Width(b[0]) && b[0] != 10
    ensures Value(b) != 10
  {
  }

  lemma {:induction false} LossyIsPlain(b: seq<int>)
    requires NoNewline(b)
    ensures NoNewline(LossyText(b))
  {
    if b != [] && (Broken(b) > 0 || Width(b[0]) <= |b|) {
      LossyStep(b);
      if Broken(b) > 0 {
        LossyIsPlain(b[Broken(b)..]);
      } else {
        ValueIsPlain(b[..Width(b[0])]);
        LossyIsPlain(b[Width(b[0])..]);
      }
    }
  }

  lemma OneLine(s: seq<int>)
    requires NoNewline(s)
    ensures Split(s, NEWLINE) == [s]
  {
    SplitPlain(s, []);
    assert s + [] == s && Split([], NEWLINE) == [[]];
  }

  // The lines of the decoded stream are the decoded lines of the stream.
  ghost predicate Decodes(texts: seq<seq<int>>, lines: seq<seq<int>>) {
    && |texts| == |lines| > 0
    && (forall i :: 0 <= i < |lines| - 1 ==> texts[i] == Flushed(lines[i]))
    && texts[|texts| - 1] == LossyText(lines[|lines| - 1])
  }

  lemma {:induction false} LossyLines(b: seq<int>)
    ensures Decodes(Split(LossyText(b), NEWLINE), Split(b, NEWLINE))
    decreases |b|
  {
    var p := Position(b);
    SplitAtPosition(b);
    PositionIsFirst(b);
    if p == |b| {
      LossyIsPlain(b);
      OneLine(LossyText(b));
    } else {
      var line, rest := b[..p], b[p + 1..];
      assert b == line + (NEWLINE + rest);
      DamageIsLocal(line, rest);
      LossyIsPlain(line);
      SplitPlain(Flushed(line), NEWLINE + LossyText(rest));
      SplitNewline(LossyText(rest));
      assert Flushed(line) + [] == Flushed(line);
      LossyLines(rest);
      DecodesCons(line, Split(LossyText(rest), NEWLINE), Split(rest, NEWLINE));
    }
  }

  lemma {:induction false} PositionIsFirst(b: seq<int>)
    ensures NoNewline(b[..Position(b)])
  {
    if b != [] && b[0] != 10 {
      PositionIsFirst(b[1..]);
      assert b[..Position(b)] == [b[0]] + b[1..][..Position(b[1..])];
    }
  }

  lemma DecodesCons(line: seq<int>, texts: seq<seq<int>>, lines: seq<seq<int>>)
    requires Decodes(texts, lines)
    ensures Decodes([Flushed(line)] + texts, [line] + lines)
  {
  }

  /** For any bytes, JavaScript and Rust do the same with a complete line if and only if it is
      valid UTF-8 and its text agrees. */
  lemma ByteLineIff(line: seq<int>)
    ensures JsAction(Flushed(line)) == RustAction(line) <==> ValidUtf8(line) && LineAgrees(Decoded(line))
  {
    if ValidUtf8(line) {
      LossyValid(line);
      EncodeDecode(line);
      assert Decoded(line) + [] == Decoded(line) && Encode(Decoded(line)) + [] == Encode(Decoded(line));
      LineAgreesIff(Decoded(line));
    }
  }

  // Every line up to and including the one that ends the stream.
  predicate LinesAgree(lines: seq<seq<int>>) {
    lines == [] ||
    (ValidUtf8(lines[0]) && LineAgrees(Decoded(lines[0])) && (RustAction(lines[0]) == Stop || LinesAgree(lines[1..])))
  }

  lemma {:induction false} AlikeIff(xs: seq<seq<int>>, ys: seq<seq<int>>)
    requires |xs| == |ys| && forall i :: 0 <= i < |xs| ==> xs[i] == Flushed(ys[i])
    ensures ActAlike(xs, JsAction, ys, RustAction) <==> LinesAgree(ys)
  {
    if xs != [] {
      ByteLineIff(ys[0]);
      NeverAborts(ys[0]);
      AlikeIff(xs[1..], ys[1..]);
    }
  }

  lemma MarkedLine(line: seq<int>)
    ensures JsAction([BYTE_ORDER_MARK] + line) == JsAction(line)
  {
    assert ([BYTE_ORDER_MARK] + line)[1..] == line;
  }

  /** Dropping the byte-order mark does not change what JavaScript does with any line. */
  lemma MarkIsInert(text: seq<int>)
    ensures var xs, zs := Complete(text, NEWLINE), Complete(StripMark(text), NEWLINE);
            |xs| == |zs| && forall i :: 0 <= i < |xs| ==> JsAction(xs[i]) == JsAction(zs[i])
  {
    if StripMark(text) != text {
      var rest := text[1..];
      assert text == [BYTE_ORDER_MARK] + rest;
      SplitPlain([BYTE_ORDER_MARK], rest);
      MarkedLine(Split(rest, NEWLINE)[0]);
    }
  }

  lemma {:induction false} AlikeByAction(xs: seq<seq<int>>, zs: seq<seq<int>>, f: seq<int> -> Action, ys: seq<seq<int>>, g: seq<int> -> Action)
    requires |xs| == |zs| == |ys| && forall i :: 0 <= i < |xs| ==> f(xs[i]) == f(zs[i])
    ensures ActAlike(xs, f, ys, g) <==> ActAlike(zs, f, ys, g)
  {
    if xs != [] {
      AlikeByAction(xs[1..], zs[1..], f, ys[1..], g);
    }
  }

  /** On every stream of bytes, JavaScript and Rust stay in step if and only if every line up to
      the end of the stream is valid UTF-8 and either has even margins or is data to neither. */
  lemma JsAndRustAgreeIff(bytes: seq<int>)
    ensures InStep(Complete(JsText(bytes), NEWLINE), JsAction, Complete(bytes, NEWLINE), RustAction)
            <==> LinesAgree(Complete(bytes, NEWLINE))
  {
    var text := LossyText(bytes);
    var xs, zs, ys := Complete(text, NEWLINE), Complete(StripMark(text), NEWLINE), Complete(bytes, NEWLINE);
    LossyLines(bytes);
    MarkIsInert(text);
    AlikeIff(xs, ys);
    AlikeByAction(xs, zs, JsAction, ys, RustAction);
    InStepIff(zs, JsAction, ys, RustAction);
  }

  /** So there the payloads are the same, however the stream is cut. */
  lemma JsAndRustAgree(bytes: seq<int>)
    requires LinesAgree(Complete(bytes, NEWLINE))
    ensures Outputs(Complete(JsText(bytes), NEWLINE), JsAction) == Outputs(Complete(bytes, NEWLINE), RustAction)
  {
    JsAndRustAgreeIff(bytes);
    var zs, ys := Complete(JsText(bytes), NEWLINE), Complete(bytes, NEWLINE);
    assert SameSoFar(zs, JsAction, ys, RustAction, |zs|);
    assert zs[..|zs|] == zs && ys[..|ys|] == ys;
  }

  // ---- Go ----

  lemma {:induction false} AsciiPrefix(u: seq<int>, p: seq<int>)
    requires AllScalar(u) && (forall i :: 0 <= i < |p| ==> 0 <= p[i] < 0x80) && p <= Encode(u)
    ensures p <= u
  {
    if p != [] {
      assert u != [] && Encode(u)[0] == p[0];
      Encode1Shape(u[0]);
      Encode1High(u[0], 0);
      assert Encode(u)[1..] == Encode(u[1..]);
      AsciiPrefix(u[1..], p[1..]);
    }
  }

  lemma {:induction false} EncodeAscii(p: seq<int>)
    requires forall i :: 0 <= i < |p| ==> 0 <= p[i] < 0x80
    ensures Encode(p) == p
  {
    if p != [] {
      EncodeAscii(p[1..]);
      assert [p[0]] + p[1..] == p;
    }
  }

  // Looking for data in the bytes is looking for it in the text.
  lemma EncodedAction(u: seq<int>)
    requires AllScalar(u)
    ensures TrimmedAction(Encode(u)) == Wire(TrimmedAction(u))
  {
    EncodedData(u);
    if DATA <= u {
      EncodedDone(u[6..]);
    }
  }

  lemma EncodedData(u: seq<int>)
    requires AllScalar(u)
    ensures DATA <= Encode(u) <==> DATA <= u
    ensures DATA <= u ==> Encode(u)[6..] == Encode(u[6..])
  {
    if DATA <= Encode(u) {
      AsciiPrefix(u, DATA);
    }
    if DATA <= u {
      assert u == DATA + u[6..];
      EncodeAppend(DATA, u[6..]);
      EncodeAscii(DATA);
    }
  }

  lemma EncodedDone(v: seq<int>)
    requires AllScalar(v)
    ensures Encode(v) == DONE <==> v == DONE
  {
    EncodeAscii(DONE);
    if Encode(v) == DONE {
      EncodeInjective(v, DONE);
    }
  }

  lemma GoOnText(line: seq<int>)
    requires AllScalar(line) && |Encode(line)| <= MAX_SSE_LINE
    ensures GoAction(Encode(line)) == TextAction(line, WhiteSpace)
  {
    TrimSpaceText(line);
    TrimScalar(line, WhiteSpace);
    EncodedAction(Trim(line, WhiteSpace));
  }

  lemma GoOnLine(line: seq<int>)
    requires AllScalar(line) && |Encode(line) + NEWLINE| <= MAX_SSE_LINE
    ensures GoAction(Encode(line) + NEWLINE) == RustAction(Encode(line))
  {
    EncodeSnoc(line, 10);
    GoOnText(line + NEWLINE);
    NewlineTrims(line);
    RustOnText(line);
  }

  lemma NewlineTrims(line: seq<int>)
    ensures Trim(line + NEWLINE, WhiteSpace) == Trim(line, WhiteSpace)
  {
    TrimDropLast(line + NEWLINE, WhiteSpace);
    assert (line + NEWLINE)[..|line|] == line;
  }

  predicate ShortLines(lines: seq<seq<int>>) {
    forall i :: 0 <= i < |lines| ==> |lines[i]| <= MAX_SSE_LINE
  }

  lemma TrimmedNeverReports(t: seq<int>)
    ensures TrimmedAction(t) != Report && TrimmedAction(t) != Abort
  {
  }

  /** For any bytes within the cap, Go and Rust do the same with a complete line if and only if
      it is valid UTF-8. */
  lemma GoLineIff(line: seq<int>)
    requires |line + NEWLINE| <= MAX_SSE_LINE
    ensures GoAction(line + NEWLINE) == RustAction(line) <==> ValidUtf8(line)
  {
    TrimmedNeverReports(TrimSpace(line + NEWLINE));
    if ValidUtf8(line) {
      EncodeDecode(line);
      assert Encode(Decoded(line)) + [] == Encode(Decoded(line));
      GoOnLine(Decoded(line));
    }
  }

  // Every line up to and including the one that ends the stream is valid.
  predicate LinesValid(lines: seq<seq<int>>) {
    lines == [] || (ValidUtf8(lines[0]) && (RustAction(lines[0]) == Stop || LinesValid(lines[1..])))
  }

  lemma {:induction false} GoAlikeIff(all: seq<seq<int>>, lines: seq<seq<int>>)
    requires |all| == |lines| && ShortLines(all) && forall i :: 0 <= i < |lines| ==> all[i] == lines[i] + NEWLINE
    ensures ActAlike(all, GoAction, lines, RustAction) <==> LinesValid(lines)
  {
    if lines != [] {
      GoLineIff(lines[0]);
      NeverAborts(lines[0]);
      GoAlikeIff(all[1..], lines[1..]);
    }
  }

  /** On every stream of bytes within the cap, Go and Rust stay in step over the complete lines
      if and only if every line up to the end of the stream is valid UTF-8. */
  lemma GoAndRustInStepIff(bytes: seq<int>)
    requires ShortLines(GoLines(bytes))
    ensures var lines, all := Complete(bytes, NEWLINE), GoLines(bytes);
            |lines| <= |all| && (InStep(all[..|lines|], GoAction, lines, RustAction) <==> LinesValid(lines))
  {
    GoLinesShape(bytes);
    var lines, all := Complete(bytes, NEWLINE), GoLines(bytes);
    GoAlikeIff(all[..|lines|], lines);
    InStepIff(all[..|lines|], GoAction, lines, RustAction);
  }

  /** Go reads one line more than the others, the unterminated one, so on a stream of valid
      lines within the cap it agrees with Rust if and only if that line yields nothing or the
      stream was already over. */
  lemma GoAgreesIff(bytes: seq<int>)
    requires ShortLines(GoLines(bytes)) && LinesValid(Complete(bytes, NEWLINE))
    ensures var lines, rest := Complete(bytes, NEWLINE), Rest(bytes, NEWLINE);
            Outputs(GoLines(bytes), GoAction) == Outputs(lines, RustAction)
            <==> Halts(lines, RustAction) || !GoAction(rest).Emit?
  {
    var lines, rest, all := Complete(bytes, NEWLINE), Rest(bytes, NEWLINE), GoLines(bytes);
    GoLinesShape(bytes);
    var tail := if rest == [] then [] else [rest];
    assert all == all[..|lines|] + tail;
    GoAndRustInStepIff(bytes);
    assert SameSoFar(all[..|lines|], GoAction, lines, RustAction, |lines|);
    assert all[..|lines|][..|lines|] == all[..|lines|] && lines[..|lines|] == lines;
    TrimmedNeverReports(TrimSpace(rest));
    TailRule(all[..|lines|], lines, tail, GoAction, RustAction);
    assert rest == [] ==> GoAction(rest) == Skip;
  }

  lemma TailRule(xs: seq<seq<int>>, ys: seq<seq<int>>, tail: seq<seq<int>>,
                 f: seq<int> -> Action, g: seq<int> -> Action)
    requires Outputs(xs, f) == Outputs(ys, g) && (Halts(xs, f) <==> Halts(ys, g)) && |tail| <= 1
    ensures Outputs(xs + tail, f) == Outputs(ys, g) <==>
            Halts(ys, g) || tail == [] || f(tail[0]) == Skip || f(tail[0]) == Stop
  {
    OutputsAppend(xs, tail, f);
    if tail != [] {
      OutputsCons(tail[0], [], f);
      assert tail == [tail[0]] + [];
    }
  }

  // ---- all three ----

  lemma {:induction false} AgreeingIsValid(lines: seq<seq<int>>)
    requires LinesAgree(lines)
    ensures LinesValid(lines)
  {
    if lines != [] && RustAction(lines[0]) != Stop {
      AgreeingIsValid(lines[1..]);
    }
  }

  lemma GoTerminated(bytes: seq<int>)
    requires Rest(bytes, NEWLINE) == [] && LinesValid(Complete(bytes, NEWLINE)) && ShortLines(GoLines(bytes))
    ensures Outputs(GoLines(bytes), GoAction) == Outputs(Complete(bytes, NEWLINE), RustAction)
  {
    GoAgreesIff(bytes);
    assert GoAction([]) == Skip;
  }

  lemma RustUncapped(bytes: seq<int>, chunks: seq<seq<int>>)
    requires Flatten(chunks) == bytes && FirstOver(chunks) == |chunks|
    ensures RustOutputs(chunks, FirstOver(chunks)) == Outputs(Complete(bytes, NEWLINE), RustAction)
  {
    assert chunks[..|chunks|] == chunks;
  }

  /** On a newline-terminated stream within the caps whose lines agree, all three readers yield
      the same payloads, cut at the first [DONE], for every chunking. */
  lemma {:induction false} StreamsAgree(bytes: seq<int>, chunks: seq<seq<int>>)
    requires Flatten(chunks) == bytes && FirstOver(chunks) == |chunks| && ShortLines(GoLines(bytes))
    requires Rest(bytes, NEWLINE) == [] && LinesAgree(Complete(bytes, NEWLINE))
    ensures Outputs(Complete(JsText(bytes), NEWLINE), JsAction)
            == RustOutputs(chunks, FirstOver(chunks)) == Outputs(GoLines(bytes), GoAction)
  {
    JsAndRustAgree(bytes);
    RustUncapped(bytes, chunks);
    AgreeingIsValid(Complete(bytes, NEWLINE));
    GoTerminated(bytes);
  }

  lemma GoEmits(line: seq<int>)
    requires (forall i :: 0 <= i < |line| ==> 0 <= line[i] < 0x80) && |line| <= MAX_SSE_LINE
    requires Trim(line, WhiteSpace) == line && DATA <= line && line[6..] != DONE
    ensures GoAction(line) == Emit(line[6..])
  {
    EncodeAscii(line);
    EncodeAscii(line[6..]);
    GoOnText(line);
  }

  lemma XTrims()
    ensures Trim(DATA + [120], WhiteSpace) == DATA + [120] && (DATA + [120])[6..] == [120]
  {
    TrimUnique(DATA + [120], WhiteSpace, 0, 7);
    assert (DATA + [120])[0..7] == DATA + [120];
  }

  /** Without the last newline they need not: on "data: x" only Go has an event. */
  lemma UnterminatedDivides()
    ensures var bytes := DATA + [120];
            && Outputs(GoLines(bytes), GoAction) == [Data([120])]
            && Outputs(Complete(bytes, NEWLINE), RustAction) == []
  {
    var bytes := DATA + [120];
    OneLine(bytes);
    GoLinesShape(bytes);
    assert GoLines(bytes) == [bytes] + [];
    XTrims();
    GoEmits(bytes);
    OutputsCons(bytes, [], GoAction);
  }

  /** Both code points divide the readers at a margin and neither does inside a payload: after
      U+FEFF only JavaScript sees the event, after U+0085 only Rust does. */
  lemma MarginsDivide()
    ensures var line := [0xFEFF] + DATA + [120]; JsAction(line) == Emit([120]) && RustAction(Encode(line)) == Skip
    ensures var line := [0x85] + DATA + [120]; JsAction(line) == Skip && RustAction(Encode(line)) == Emit([120])
    ensures LineAgrees(DATA + [97, 0xFEFF, 98]) && LineAgrees(DATA + [97, 0x85, 98])
  {
    EncodeAscii([120]);
    assert (DATA + [120])[6..] == [120];
    Divided(0xFEFF, JsSpace, WhiteSpace);
    Divided(0x85, WhiteSpace, JsSpace);
    InsidePayload(0xFEFF);
    InsidePayload(0x85);
  }

  lemma Divided(c: int, trims: int -> bool, keeps: int -> bool)
    requires Odd(c) && trims(c) && !keeps(c) && !trims(100) && !keeps(120) && !trims(120)
    ensures var line := [c] + DATA + [120];
            Trim(line, trims) == DATA + [120] && Trim(line, keeps) == line && !StartsWith(line, DATA)
            && RustAction(Encode(line)) == TextAction(line, WhiteSpace)
  {
    var line := [c] + DATA + [120];
    TrimUnique(line, trims, 1, 8);
    assert line[1..8] == DATA + [120];
    TrimUnique(line, keeps, 0, 8);
    assert line[0..8] == line;
    assert line[0] == c;
    RustOnText(line);
  }

  lemma InsidePayload(c: int)
    requires Odd(c)
    ensures LineAgrees(DATA + [97, c, 98])
  {
    var line := DATA + [97, c, 98];
    TrimUnique(line, Shared, 0, 9);
    assert line[0..9] == line;
  }
}
