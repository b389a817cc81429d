/** The gateway's streaming forwarder (forwardToLibreFangStreaming): SSE frames split on a
    blank line, the events they carry, and the throttled progressive edits. */
module SseGateway {
  import opened Options
  import opened Text
  import opened Utf8

  const BLANK := [10, 10]
  const EDIT_INTERVAL_MS := 2000

  // "event:", "data:", and the event names the forwarder acts on
  const EVENT_FIELD := [101, 118, 101, 110, 116, 58]
  const DATA_FIELD := [100, 97, 116, 97, 58]
  const MESSAGE := [109, 101, 115, 115, 97, 103, 101]
  const PHASE := [112, 104, 97, 115, 101]
  const OWNER_NOTICE := [111, 119, 110, 101, 114, 95, 110, 111, 116, 105, 99, 101]
  const CHUNK := [99, 104, 117, 110, 107]

  // ---- one frame ----

  datatype Fields = Fields(eventType: seq<int>, data: seq<int>)

  function TakeLine(f: Fields, line: seq<int>): Fields {
    if StartsWith(line, EVENT_FIELD) then f.(eventType := Trim(line[6..], JsSpace))
    else if StartsWith(line, DATA_FIELD) then f.(data := f.data + Trim(line[5..], JsSpace))
    else f
  }

  function TakeLines(lines: seq<seq<int>>): Fields {
    if lines == [] then Fields(MESSAGE, [])
    else TakeLine(TakeLines(lines[..|lines| - 1]), lines[|lines| - 1])
  }

  // The trimmed values of the data fields, in order.
  function DataFields(lines: seq<seq<int>>): seq<seq<int>> {
    if lines == [] then []
    else
      var n := |lines| - 1;
      DataFields(lines[..n]) + if StartsWith(lines[n], DATA_FIELD) then [Trim(lines[n][5..], JsSpace)] else []
  }

  // Line k is the last of the event fields.
  predicate IsLastEvent(lines: seq<seq<int>>, k: nat) {
    && k < |lines| && StartsWith(lines[k], EVENT_FIELD)
    && forall i :: k < i < |lines| ==> !StartsWith(lines[i], EVENT_FIELD)
  }

  lemma {:induction false} FrameData(lines: seq<seq<int>>)
    ensures TakeLines(lines).data == Flatten(DataFields(lines))
  {
    if lines != [] {
      var n := |lines| - 1;
      var before, last := lines[..n], lines[n];
      FrameData(before);
      FieldsDiffer(last);
      if StartsWith(last, DATA_FIELD) {
        FlattenSnoc(DataFields(before), Trim(last[5..], JsSpace));
      } else {
        assert DataFields(before) + [] == DataFields(before);
      }
    }
  }

  lemma {:induction false} FrameEvent(lines: seq<seq<int>>, k: nat)
    requires IsLastEvent(lines, k)
    ensures TakeLines(lines).eventType == Trim(lines[k][6..], JsSpace)
  {
    var n := |lines| - 1;
    if k < n {
      assert lines[k] == lines[..n][k] && !StartsWith(lines[n], EVENT_FIELD);
      FrameEvent(lines[..n], k);
    }
  }

  lemma {:induction false} FrameWithoutEvent(lines: seq<seq<int>>)
    requires forall i :: 0 <= i < |lines| ==> !StartsWith(lines[i], EVENT_FIELD)
    ensures TakeLines(lines).eventType == MESSAGE
  {
    if lines != [] { FrameWithoutEvent(lines[..|lines| - 1]); }
  }

  /** What the lines of a frame come to: the value of the last event field, "message" when
      there is none, and the values of all data fields put together. */
  lemma FrameMeans(lines: seq<seq<int>>)
    ensures TakeLines(lines).data == Flatten(DataFields(lines))
    ensures forall k: nat :: IsLastEvent(lines, k) ==> TakeLines(lines).eventType == Trim(lines[k][6..], JsSpace)
    ensures (forall i :: 0 <= i < |lines| ==> !StartsWith(lines[i], EVENT_FIELD)) ==> TakeLines(lines).eventType == MESSAGE
  {
    FrameData(lines);
    forall k: nat | IsLastEvent(lines, k) ensures TakeLines(lines).eventType == Trim(lines[k][6..], JsSpace) {
      FrameEvent(lines, k);
    }
    if forall i :: 0 <= i < |lines| ==> !StartsWith(lines[i], EVENT_FIELD) {
      FrameWithoutEvent(lines);
    }
  }

  lemma FieldsDiffer(line: seq<int>)
    ensures !(StartsWith(line, EVENT_FIELD) && StartsWith(line, DATA_FIELD))
  {
    assert StartsWith(line, EVENT_FIELD) ==> line[0] == 101;
    assert StartsWith(line, DATA_FIELD) ==> line[0] == 100;
  }

  lemma FlattenSnoc(parts: seq<seq<int>>, part: seq<int>)
    ensures Flatten(parts + [part]) == Flatten(parts) + part
  {
    assert (parts + [part])[..|parts|] == parts;
  }

  method ParseFrame(frame: seq<int>) returns (f: Fields)
    ensures f == TakeLines(Split(frame, NEWLINE))
    ensures f.data == Flatten(DataFields(Split(frame, NEWLINE)))
    ensures forall k: nat :: IsLastEvent(Split(frame, NEWLINE), k) ==>
              f.eventType == Trim(Split(frame, NEWLINE)[k][6..], JsSpace)
  {
    var eventType, data := MESSAGE, [];
    var lines := Split(frame, NEWLINE);
    for i := 0 to |lines|
      invariant Fields(eventType, data) == TakeLines(lines[..i])
    {
      var line := lines[i];
      if StartsWith(line, EVENT_FIELD) {
        eventType := Trim(line[6..], JsSpace);
      } else if StartsWith(line, DATA_FIELD) {
        data := data + Trim(line[5..], JsSpace);
      }
      assert lines[..i + 1][..i] == lines[..i];
    }
    assert lines[..|lines|] == lines;
    FrameMeans(lines);
    f := Fields(eventType, data);
  }

  // What JSON.parse makes of a data string, as far as the forwarder looks at it.
  datatype Payload = Malformed | Object(content: seq<int>, text: seq<int>, longRunning: bool, detail: seq<int>)

  // What a frame does.
  datatype Effect = Nothing | Status(detail: seq<int>) | Notice(text: seq<int>) | Content(content: seq<int>)

  function EffectOf(f: Fields, json: seq<int> -> Payload): Effect {
    if f.data == [] || json(f.data).Malformed? then Nothing
    else if f.eventType == PHASE then (if json(f.data).longRunning then Status(json(f.data).detail) else Nothing)
    else if f.eventType == OWNER_NOTICE then (if json(f.data).text != [] then Notice(json(f.data).text) else Nothing)
    else if f.eventType == CHUNK then (if json(f.data).content != [] then Content(json(f.data).content) else Nothing)
    else Nothing
  }

  function Effects(frames: seq<seq<int>>, json: seq<int> -> Payload): (r: seq<Effect>)
    ensures |r| == |frames|
  {
    seq(|frames|, i requires 0 <= i < |frames| => EffectOf(TakeLines(Split(frames[i], NEWLINE)), json))
  }

  // The reply text and the owner notices a sequence of effects amounts to.
  function Accumulated(effects: seq<Effect>): seq<int> {
    if effects == [] then []
    else
      var n := |effects| - 1;
      Accumulated(effects[..n]) + if effects[n].Content? then effects[n].content else []
  }

  function Notices(effects: seq<Effect>): seq<seq<int>> {
    if effects == [] then []
    else
      var n := |effects| - 1;
      Notices(effects[..n]) + if effects[n].Notice? then [effects[n].text] else []
  }

  // ---- status displays ----

  // "NO_REPLY" and "Still working..."
  const NO_REPLY := [78, 79, 95, 82, 69, 80, 76, 89]
  const STILL_WORKING := [83, 116, 105, 108, 108, 32, 119, 111, 114, 107, 105, 110, 103, 46, 46, 46]

  // The sentinel stands at the end of the trimmed text, alone on its line.
  predicate EndsNoReply(text: seq<int>) {
    var t := Trim(text, JsSpace);
    |t| >= 8 && t[|t| - 8..] == NO_REPLY && LineStartAt(t[..|t| - 8])
  }

  // The text is blank, or a newline is part of the white space it ends in.
  predicate LineStartAt(p: seq<int>) {
    var q := TrimEnd(p, JsSpace);
    q == [] || (|q| <= |p| && 10 in p[|q|..])
  }

  // White space back to the start of the text or to a newline.
  ghost predicate BlankBack(p: seq<int>, k: nat) {
    k <= |p| && All(p[k..], JsSpace) && (k == 0 || p[k - 1] == 10)
  }

  lemma LineStartFound(p: seq<int>)
    requires LineStartAt(p)
    ensures exists k: nat :: BlankBack(p, k)
  {
    TrimEndShape(p, JsSpace);
    var q := TrimEnd(p, JsSpace);
    if q == [] {
      assert BlankBack(p, 0);
    } else {
      var i :| 0 <= i < |p[|q|..]| && p[|q|..][i] == 10;
      var k := |q| + i + 1;
      assert p[k..] == p[|q|..][i + 1..] && p[k - 1] == 10;
      assert BlankBack(p, k);
    }
  }

  lemma SolidIsBefore(p: seq<int>, i: nat, k: nat)
    requires i < |p| && !JsSpace(p[i]) && BlankBack(p, k)
    ensures i + 1 < k
  {
    forall j | k <= j < |p| ensures JsSpace(p[j]) {
      assert p[k..][j - k] == p[j];
    }
  }

  lemma BreakIsBehind(p: seq<int>, n: nat, k: nat)
    requires 0 < n <= |p| && !JsSpace(p[n - 1]) && BlankBack(p, k)
    ensures 10 in p[n..]
  {
    SolidIsBefore(p, n - 1, k);
    assert p[n..][k - 1 - n] == p[k - 1];
  }

  /** That is what (?:^|\n)\s* before the sentinel asks for. */
  lemma LineStartMeans(p: seq<int>)
    ensures LineStartAt(p) <==> exists k: nat :: BlankBack(p, k)
  {
    if LineStartAt(p) {
      LineStartFound(p);
    }
    if k: nat :| BlankBack(p, k) {
      TrimEndShape(p, JsSpace);
      var q := TrimEnd(p, JsSpace);
      if q != [] {
        BreakIsBehind(p, |q|, k);
      }
    }
  }

  function Display(accumulated: seq<int>, detail: seq<int>): seq<int> {
    var status := [91] + (if detail != [] then detail else STILL_WORKING) + [93];
    if accumulated != [] then accumulated + BLANK + status else status
  }

  // What is shown for the `phase` events: the status behind the text so far, unless the text
  // has come to a silent reply.
  function Statuses(effects: seq<Effect>): seq<seq<int>> {
    if effects == [] then []
    else
      var n := |effects| - 1;
      var text := Accumulated(effects[..n]);
      Statuses(effects[..n]) + if effects[n].Status? && !EndsNoReply(text) then [Display(text, effects[n].detail)] else []
  }

  // ---- what a stream says, frame by frame ----

  lemma Spelled()
    ensures EVENT_FIELD == Codes("event:") && DATA_FIELD == Codes("data:") && MESSAGE == Codes("message")
    ensures PHASE == Codes("phase") && OWNER_NOTICE == Codes("owner_notice") && CHUNK == Codes("chunk")
    ensures NO_REPLY == Codes("NO_REPLY") && STILL_WORKING == Codes("Still working...") && BLANK == Codes("\n\n")
  {
  }

  // The last event field of the frame reads `name`.
  ghost predicate Names(frame: seq<int>, name: string) {
    var lines := Split(frame, NEWLINE);
    exists k: nat :: IsLastEvent(lines, k) && Trim(lines[k][6..], JsSpace) == Codes(name)
  }

  function DataOf(frame: seq<int>): seq<int> {
    Flatten(DataFields(Split(frame, NEWLINE)))
  }

  // The frame is a `name` event with an object for its data.
  ghost predicate Says(frame: seq<int>, name: string, json: seq<int> -> Payload) {
    Names(frame, name) && DataOf(frame) != [] && json(DataOf(frame)).Object?
  }

  /** The reply is the content of the chunk events, one after the other. */
  ghost function ReplyOf(frames: seq<seq<int>>, json: seq<int> -> Payload): seq<int> {
    if frames == [] then []
    else
      var n := |frames| - 1;
      ReplyOf(frames[..n], json) + Chunk(frames[n], json)
  }

  ghost function Chunk(frame: seq<int>, json: seq<int> -> Payload): seq<int> {
    if Says(frame, "chunk", json) then json(DataOf(frame)).content else []
  }

  /** The owner is told the texts of the owner_notice events. */
  ghost function OwnerTexts(frames: seq<seq<int>>, json: seq<int> -> Payload): seq<seq<int>> {
    if frames == [] then []
    else
      var n := |frames| - 1;
      OwnerTexts(frames[..n], json)
      + if Says(frames[n], "owner_notice", json) && json(DataOf(frames[n])).text != [] then [json(DataOf(frames[n])).text] else []
  }

  // The text ends in a line of its own that reads NO_REPLY: (?:^|\n)\s*NO_REPLY\s*$.
  ghost predicate EndsInSentinel(t: seq<int>) {
    exists a: nat :: SentinelAt(t, a)
  }

  ghost predicate SentinelAt(t: seq<int>, a: nat) {
    && a + 8 <= |t| && t[a..a + 8] == Codes("NO_REPLY") && All(t[a + 8..], JsSpace)
    && exists k: nat :: BlankBack(t[..a], k)
  }

  // The status in brackets behind the reply so far.
  function Bracketed(reply: seq<int>, detail: seq<int>): seq<int> {
    (if reply == [] then [] else reply + [10, 10]) + [91] + (if detail == [] then Codes("Still working...") else detail) + [93]
  }

  /** The displays are those of the long-running phase events, except after a silent reply. */
  ghost function StatusDisplays(frames: seq<seq<int>>, json: seq<int> -> Payload): seq<seq<int>> {
    if frames == [] then []
    else
      var n := |frames| - 1;
      var reply := ReplyOf(frames[..n], json);
      StatusDisplays(frames[..n], json)
      + if Says(frames[n], "phase", json) && json(DataOf(frames[n])).longRunning && !EndsInSentinel(Trim(reply, JsSpace))
        then [Bracketed(reply, json(DataOf(frames[n])).detail)] else []
  }

  lemma SpaceAtEnd(t: seq<int>, b: nat)
    requires b < |t| && All(t[b..], JsSpace)
    ensures JsSpace(t[|t| - 1])
  {
    assert t[b..][|t| - 1 - b] == t[|t| - 1];
  }

  lemma SentinelMeans(text: seq<int>)
    ensures EndsNoReply(text) <==> EndsInSentinel(Trim(text, JsSpace))
  {
    var t := Trim(text, JsSpace);
    TrimShape(text, JsSpace);
    if a: nat :| SentinelAt(t, a) {
      if a + 8 < |t| { SpaceAtEnd(t, a + 8); }
    }
    if |t| >= 8 {
      LastEight(t);
    }
  }

  lemma LastEight(t: seq<int>)
    requires |t| >= 8
    ensures SentinelAt(t, |t| - 8) <==> t[|t| - 8..] == NO_REPLY && LineStartAt(t[..|t| - 8])
  {
    Spelled();
    var a := |t| - 8;
    LineStartMeans(t[..a]);
    assert t[a..a + 8] == t[a..] && t[a + 8..] == [];
  }

  lemma {:induction false} SomeEventIsLast(lines: seq<seq<int>>, i: nat)
    requires i < |lines| && StartsWith(lines[i], EVENT_FIELD)
    ensures exists k: nat :: IsLastEvent(lines, k)
  {
    var n := |lines| - 1;
    if StartsWith(lines[n], EVENT_FIELD) {
      assert IsLastEvent(lines, n);
    } else {
      SomeEventIsLast(lines[..n], i);
      var k: nat :| IsLastEvent(lines[..n], k);
      assert IsLastEvent(lines, k);
    }
  }

  lemma NamesMeans(frame: seq<int>, name: string)
    requires Codes(name) != MESSAGE
    ensures Names(frame, name) <==> TakeLines(Split(frame, NEWLINE)).eventType == Codes(name)
  {
    var lines := Split(frame, NEWLINE);
    FrameMeans(lines);
    if i: nat :| i < |lines| && StartsWith(lines[i], EVENT_FIELD) {
      SomeEventIsLast(lines, i);
    }
  }

  lemma EffectMeans(frame: seq<int>, json: seq<int> -> Payload)
    ensures var e, p := EffectOf(TakeLines(Split(frame, NEWLINE)), json), json(DataOf(frame));
            && (if e.Content? then e.content else []) == (if Says(frame, "chunk", json) then p.content else [])
            && (e.Notice? <==> Says(frame, "owner_notice", json) && p.text != [])
            && (e.Notice? ==> e.text == p.text)
            && (e.Status? <==> Says(frame, "phase", json) && p.longRunning)
            && (e.Status? ==> e.detail == p.detail)
  {
    Spelled();
    NamesDiffer();
    FrameData(Split(frame, NEWLINE));
    NamesMeans(frame, "chunk");
    NamesMeans(frame, "owner_notice");
    NamesMeans(frame, "phase");
  }

  lemma NamesDiffer()
    ensures |MESSAGE| == 7 && |PHASE| == 5 && |OWNER_NOTICE| == 12 && |CHUNK| == 5 && PHASE != CHUNK
  {
    assert PHASE[0] != CHUNK[0];
  }

  /** What the effects add up to is the reply, the owner's texts and the displays. */
  lemma {:induction false} StreamMeans(frames: seq<seq<int>>, json: seq<int> -> Payload)
    ensures var effects := Effects(frames, json);
            && Accumulated(effects) == ReplyOf(frames, json)
            && Notices(effects) == OwnerTexts(frames, json)
            && Statuses(effects) == StatusDisplays(frames, json)
  {
    if frames != [] {
      var n := |frames| - 1;
      var before, frame := frames[..n], frames[n];
      assert before + [frame] == frames;
      StreamMeans(before, json);
      OneMoreFrame(before, frame, json);
    }
  }

  lemma OneMoreFrame(before: seq<seq<int>>, frame: seq<int>, json: seq<int> -> Payload)
    requires Accumulated(Effects(before, json)) == ReplyOf(before, json)
    requires Notices(Effects(before, json)) == OwnerTexts(before, json)
    requires Statuses(Effects(before, json)) == StatusDisplays(before, json)
    ensures Accumulated(Effects(before + [frame], json)) == ReplyOf(before + [frame], json)
    ensures Notices(Effects(before + [frame], json)) == OwnerTexts(before + [frame], json)
    ensures Statuses(Effects(before + [frame], json)) == StatusDisplays(before + [frame], json)
  {
    var e := EffectOf(TakeLines(Split(frame, NEWLINE)), json);
    var reply := ReplyOf(before, json);
    EffectsSnoc(before, frame, json);
    Snoc(Effects(before, json), e);
    EffectMeans(frame, json);
    SentinelMeans(reply);
    if e.Status? { DisplayMeans(reply, e.detail); }
    assert (before + [frame])[..|before|] == before;
  }

  lemma DisplayMeans(reply: seq<int>, detail: seq<int>)
    ensures Display(reply, detail) == Bracketed(reply, detail)
  {
    Spelled();
    var behind := [91] + (if detail == [] then STILL_WORKING else detail) + [93];
    if reply == [] {
      assert Bracketed(reply, detail) == behind;
    } else {
      assert Bracketed(reply, detail) == reply + BLANK + behind;
    }
  }

  lemma Assoc<T>(a: seq<T>, b: seq<T>, c: seq<T>)
    ensures a + b + c == a + (b + c)
  {
  }

  lemma ReplySnoc(frames: seq<seq<int>>, frame: seq<int>, json: seq<int> -> Payload)
    ensures ReplyOf(frames + [frame], json) == ReplyOf(frames, json) + Chunk(frame, json)
  {
    assert (frames + [frame])[..|frames|] == frames;
  }

  lemma {:induction false} ReplyAppend(xs: seq<seq<int>>, ys: seq<seq<int>>, json: seq<int> -> Payload)
    ensures ReplyOf(xs + ys, json) == ReplyOf(xs, json) + ReplyOf(ys, json)
  {
    if ys == [] {
      assert xs + ys == xs;
    } else {
      var n := |ys| - 1;
      ReplyAppend(xs, ys[..n], json);
      SnocSlice(xs, ys, n);
      Whole(ys);
      ReplySnoc(xs + ys[..n], ys[n], json);
      Assoc(ReplyOf(xs, json), ReplyOf(ys[..n], json), Chunk(ys[n], json));
    }
  }

  /** A frame that is no chunk event leaves the reply as it is. */
  lemma OnlyChunksReply(before: seq<seq<int>>, frame: seq<int>, after: seq<seq<int>>, json: seq<int> -> Payload)
    requires !Names(frame, "chunk")
    ensures ReplyOf(before + [frame] + after, json) == ReplyOf(before + after, json)
  {
    ReplyAppend(before + [frame], after, json);
    ReplySnoc(before, frame, json);
    ReplyAppend(before, after, json);
  }

  /** So an owner notice never changes the reply. */
  lemma NoticesKeepReply(before: seq<seq<int>>, notice: seq<int>, after: seq<seq<int>>, json: seq<int> -> Payload)
    requires Names(notice, "owner_notice")
    ensures ReplyOf(before + [notice] + after, json) == ReplyOf(before + after, json)
  {
    Spelled();
    NamesDiffer();
    NamesMeans(notice, "chunk");
    NamesMeans(notice, "owner_notice");
    OnlyChunksReply(before, notice, after, json);
  }

  // ---- the edit throttle as a value ----

  datatype Edit = Edit(time: int, text: seq<int>)

  // `edits` are the chunk-driven onProgress calls; `pending` is the due time of the armed timer.
  datatype Throttle = Throttle(accumulated: seq<int>, lastEditTime: int, pending: Option<int>, edits: seq<Edit>)

  const IDLE := Throttle([], 0, None, [])

  function OnContent(t: Throttle, content: seq<int>, now: int): Throttle {
    var text := t.accumulated + content;
    if now - t.lastEditTime >= EDIT_INTERVAL_MS
    then Throttle(text, now, None, t.edits + [Edit(now, text)])
    else if t.pending == None
    then t.(accumulated := text, pending := Some(now + (EDIT_INTERVAL_MS - (now - t.lastEditTime))))
    else t.(accumulated := text)
  }

  function OnTimer(t: Throttle, now: int): Throttle {
    Throttle(t.accumulated, now, None, t.edits + [Edit(now, t.accumulated)])
  }

  function Shown(t: Throttle): seq<int> {
    if t.edits == [] then [] else t.edits[|t.edits| - 1].text
  }

  ghost predicate Spaced(edits: seq<Edit>) {
    forall i :: 0 < i < |edits| ==> edits[i].time - edits[i - 1].time >= EDIT_INTERVAL_MS
  }

  /** Edits are at least the interval apart; text not yet shown has a trailing edit armed,
      and that edit is due exactly one interval after the last one. */
  ghost predicate Fair(t: Throttle) {
    && Spaced(t.edits)
    && t.lastEditTime == (if t.edits == [] then 0 else t.edits[|t.edits| - 1].time)
    && (t.pending.Some? ==> t.pending.value == t.lastEditTime + EDIT_INTERVAL_MS)
    && (t.pending.None? ==> Shown(t) == t.accumulated)
    && Shown(t) <= t.accumulated
  }

  datatype Event = Arrives(content: seq<int>, now: int) | Fires(now: int)

  // Timers fire only while armed, and not before they are due.
  predicate Enabled(t: Throttle, e: Event) {
    e.Fires? ==> t.pending.Some? && e.now >= t.pending.value
  }

  function Step(t: Throttle, e: Event): Throttle {
    match e
    case Arrives(content, now) => OnContent(t, content, now)
    case Fires(now) => OnTimer(t, now)
  }

  function Run(events: seq<Event>): Throttle {
    if events == [] then IDLE else Step(Run(events[..|events| - 1]), events[|events| - 1])
  }

  ghost predicate Possible(events: seq<Event>) {
    events != [] ==>
      var n := |events| - 1;
      Possible(events[..n]) && Enabled(Run(events[..n]), events[n])
  }

  lemma StepIsFair(t: Throttle, e: Event)
    requires Fair(t) && Enabled(t, e)
    ensures Fair(Step(t, e))
  {
    assert e.Arrives? ==> t.accumulated <= t.accumulated + e.content;
  }

  // The throttle after some effects, the k-th of them at clock(k).
  function Throttled(t: Throttle, effects: seq<Effect>, clock: nat -> int): Throttle {
    if effects == [] then t
    else
      var n := |effects| - 1;
      Applied(Throttled(t, effects[..n], clock), effects[n], clock(n))
  }

  function Applied(t: Throttle, e: Effect, now: int): Throttle {
    if e.Content? then OnContent(t, e.content, now) else t
  }

  lemma ThrottledSnoc(t: Throttle, effects: seq<Effect>, e: Effect, clock: nat -> int)
    ensures Throttled(t, effects + [e], clock) == Applied(Throttled(t, effects, clock), e, clock(|effects|))
  {
    assert (effects + [e])[..|effects|] == effects;
  }

  /** A chunk that comes two seconds or more after the last edit is shown at once, with all the
      text; an earlier one is shown by the timer at the end of the two seconds. */
  lemma ContentIsShown(t: Throttle, content: seq<int>, now: int)
    requires Fair(t)
    ensures var t' := OnContent(t, content, now);
            && t'.accumulated == t.accumulated + content
            && (now - t.lastEditTime >= 2000 ==> t'.edits == t.edits + [Edit(now, t'.accumulated)] && t'.pending == None)
            && (now - t.lastEditTime < 2000 ==> t'.edits == t.edits && t'.pending == Some(t.lastEditTime + 2000))
  {
  }

  /** In every run, edits are spaced and nothing accumulated is left without a shown or a
      pending edit. */
  lemma {:induction false} EveryRunIsFair(events: seq<Event>)
    requires Possible(events)
    ensures Fair(Run(events))
  {
    if events != [] {
      var n := |events| - 1;
      EveryRunIsFair(events[..n]);
      StepIsFair(Run(events[..n]), events[n]);
    }
  }

  lemma {:induction false} SpacedApart(edits: seq<Edit>, i: nat, j: nat)
    requires Spaced(edits) && i <= j < |edits|
    ensures edits[j].time - edits[i].time >= (j - i) * EDIT_INTERVAL_MS
  {
    if i < j { SpacedApart(edits, i, j - 1); }
  }

  /** Any stretch of time holds at most one edit per interval, plus one. */
  lemma EditsPerWindow(events: seq<Event>, i: nat, j: nat, window: nat)
    requires Possible(events) && i <= j < |Run(events).edits|
    requires Run(events).edits[j].time - Run(events).edits[i].time <= window
    ensures j - i <= window / 2000
  {
    EveryRunIsFair(events);
    SpacedApart(Run(events).edits, i, j);
  }

  // ---- the code ----

  // The text is that of the frames' effects.
  ghost predicate Tells(frames: seq<seq<int>>, json: seq<int> -> Payload, effects: seq<Effect>, accumulated: seq<int>) {
    effects == Effects(frames, json) && accumulated == Accumulated(effects)
  }

  ghost predicate Edited(onProgress: bool, t: Throttle) {
    if onProgress then Fair(t) else t.pending == None && t.edits == []
  }

  class Forwarder {
    const json: seq<int> -> Payload
    const onProgress: bool   // whether the caller passed an onProgress callback
    const ownerChannel: bool // whether the owner channel is enabled and has a callback

    var undecoded: seq<int>  // held by the UTF-8 decoder of the response
    var buf: seq<int>
    var accumulated: seq<int>
    var lastEditTime: int
    var pendingEdit: Option<int>
    var edits: seq<Edit>
    var notices: seq<seq<int>>
    var statuses: seq<seq<int>>  // the onProgress calls for `phase` events
    ghost var received: seq<int>
    ghost var frames: seq<seq<int>>
    ghost var effects: seq<Effect>

    ghost function Value(): Throttle
      reads this
    {
      Throttle(accumulated, lastEditTime, pendingEdit, edits)
    }

    /** The state is a function of the bytes received so far, however they were cut. */
    ghost predicate Valid()
      reads this
    {
      && undecoded == LossyPending(received)
      && buf == Rest(LossyText(received), BLANK)
      && frames == Complete(LossyText(received), BLANK)
      && Processed()
    }

    ghost predicate Processed()
      reads this
    {
      && Tells(frames, json, effects, accumulated)
      && notices == (if ownerChannel then Notices(effects) else [])
      && statuses == (if onProgress then Statuses(effects) else [])
      && Edited(onProgress, Value())
    }

    constructor (json: seq<int> -> Payload, onProgress: bool, ownerChannel: bool)
      ensures Valid() && received == [] && this.json == json
      ensures this.onProgress == onProgress && this.ownerChannel == ownerChannel
    {
      this.json, this.onProgress, this.ownerChannel := json, onProgress, ownerChannel;
      undecoded, buf, accumulated, lastEditTime, pendingEdit := [], [], [], 0, None;
      edits, notices, statuses := [], [], [];
      received, frames, effects := [], [], [];
    }

    method OnData(raw: seq<int>, clock: nat -> int)
      requires Valid()
      modifies this
      ensures Valid() && received == old(received) + raw
      ensures var frames := Complete(LossyText(received), [10, 10]);
              && accumulated == ReplyOf(frames, json)
              && notices == (if ownerChannel then OwnerTexts(frames, json) else [])
              && statuses == (if onProgress then StatusDisplays(frames, json) else [])
      ensures old(effects) <= effects == Effects(Complete(LossyText(received), [10, 10]), json)
      ensures onProgress ==> Value() == Throttled(old(Value()), effects[|old(effects)|..], clock)
    {
      var parts := Receive(raw);
      ProcessFrames(parts, clock);
      StreamMeans(frames, json);
    }

    // buf += raw, then split and keep the incomplete frame.
    method Receive(raw: seq<int>) returns (parts: seq<seq<int>>)
      requires Valid()
      modifies this`undecoded, this`buf, this`received
      ensures received == old(received) + raw && undecoded == LossyPending(received)
      ensures buf == Rest(LossyText(received), BLANK) && frames + parts == Complete(LossyText(received), BLANK)
    {
      ArrivalExtends(received, raw);
      buf := buf + LossyText(undecoded + raw);
      undecoded := LossyPending(undecoded + raw);
      received := received + raw;
      parts := Split(buf, BLANK);
      buf := parts[|parts| - 1];
      parts := parts[..|parts| - 1];
    }

    // What the frames in `seen` have come to since the throttle, the frames and the effects were
    // t, fs and es.
    ghost predicate Since(t: Throttle, fs: seq<seq<int>>, es: seq<Effect>, seen: seq<seq<int>>, clock: nat -> int)
      reads this
    {
      && Processed() && frames == fs + seen && |effects| == |es| + |seen| && es <= effects
      && (onProgress ==> Value() == Throttled(t, effects[|es|..], clock))
    }

    method ProcessFrames(parts: seq<seq<int>>, clock: nat -> int)
      requires Processed()
      modifies this`accumulated, this`lastEditTime, this`pendingEdit, this`edits, this`notices, this`statuses, this`frames, this`effects
      ensures Since(old(Value()), old(frames), old(effects), parts, clock)
    {
      for i := 0 to |parts|
        invariant Since(old(Value()), old(frames), old(effects), parts[..i], clock)
      {
        OnNextFrame(old(Value()), old(frames), old(effects), parts, i, clock);
      }
      Whole(parts);
    }

    method OnNextFrame(ghost t: Throttle, ghost fs: seq<seq<int>>, ghost es: seq<Effect>,
                       parts: seq<seq<int>>, i: nat, clock: nat -> int)
      requires i < |parts| && Since(t, fs, es, parts[..i], clock)
      modifies this`accumulated, this`lastEditTime, this`pendingEdit, this`edits, this`notices, this`statuses, this`frames, this`effects
      ensures Since(t, fs, es, parts[..i + 1], clock)
    {
      var e := OnFrame(parts[i], clock(i));
      Behind(es, old(effects), e);
      ThrottledSnoc(t, old(effects)[|es|..], e, clock);
      SnocSlice(fs, parts, i);
    }

    method OnFrame(frame: seq<int>, now: int) returns (effect: Effect)
      requires Processed()
      modifies this`accumulated, this`lastEditTime, this`pendingEdit, this`edits, this`notices, this`statuses, this`frames, this`effects
      ensures Processed() && frames == old(frames) + [frame] && effects == old(effects) + [effect]
      ensures onProgress ==> Value() == Applied(old(Value()), effect, now)
    {
      var f := ParseFrame(frame);
      effect := EffectOf(f, json);
      EffectsSnoc(frames, frame, json);
      Snoc(effects, effect);
      frames := frames + [frame];
      effects := effects + [effect];
      Apply(effect, now);
    }

    method Apply(effect: Effect, now: int)
      requires Edited(onProgress, Value())
      modifies this`accumulated, this`lastEditTime, this`pendingEdit, this`edits, this`notices, this`statuses
      ensures Edited(onProgress, Value()) && (onProgress ==> Value() == Applied(old(Value()), effect, now))
      ensures accumulated == old(accumulated) + if effect.Content? then effect.content else []
      ensures notices == old(notices) + if effect.Notice? && ownerChannel then [effect.text] else []
      ensures statuses == old(statuses) + if effect.Status? && onProgress && !EndsNoReply(old(accumulated))
                                          then [Display(old(accumulated), effect.detail)] else []
    {
      if effect.Status? && onProgress {
        if !EndsNoReply(accumulated) {
          statuses := statuses + [Display(accumulated, effect.detail)];
        }
      } else if effect.Notice? && ownerChannel {
        notices := notices + [effect.text];
      } else if effect.Content? {
        ghost var t := Value();
        if onProgress {
          StepIsFair(t, Arrives(effect.content, now));
        }
        AddContent(effect.content, now);
      }
    }

    method AddContent(content: seq<int>, now: int)
      modifies this`accumulated, this`lastEditTime, this`pendingEdit, this`edits
      ensures Value() == if onProgress then OnContent(old(Value()), content, now)
                         else old(Value()).(accumulated := old(accumulated) + content)
    {
      accumulated := accumulated + content;
      if onProgress && now - lastEditTime >= EDIT_INTERVAL_MS {
        lastEditTime := now;
        pendingEdit := None;
        edits := edits + [Edit(now, accumulated)];
      } else if onProgress && pendingEdit == None {
        var remaining := EDIT_INTERVAL_MS - (now - lastEditTime);
        pendingEdit := Some(now + remaining);
      }
    }

    /** The trailing-edit timer; setTimeout never runs it early. */
    method OnTimerFires(now: int)
      requires Valid() && pendingEdit.Some? && now >= pendingEdit.value
      modifies this`lastEditTime, this`pendingEdit, this`edits
      ensures Valid() && edits == old(edits) + [Edit(now, accumulated)]
    {
      TrailingEdit(now);
    }

    method TrailingEdit(now: int)
      requires Edited(onProgress, Value()) && pendingEdit.Some? && now >= pendingEdit.value
      modifies this`lastEditTime, this`pendingEdit, this`edits
      ensures Edited(onProgress, Value()) && edits == old(edits) + [Edit(now, accumulated)]
    {
      ghost var t := Value();
      StepIsFair(t, Fires(now));
      pendingEdit := None;
      lastEditTime := now;
      edits := edits + [Edit(now, accumulated)];
      assert Value() == OnTimer(t, now);
    }

    /** The response ended: an unfinished code point is flushed as U+FFFD, which completes no
        frame, the timer is cleared and the promise resolves to the full text. */
    method OnEnd() returns (reply: seq<int>)
      requires Valid()
      modifies this`undecoded, this`buf, this`pendingEdit
      ensures reply == ReplyOf(Complete(LossyText(received), [10, 10]), json)
      ensures Split(buf, BLANK) == [buf] && pendingEdit == None
    {
      reply := Resolved();
      RestIsSingle(LossyText(received), BLANK);
      if undecoded != [] {
        FlushAddsNoFrame(buf, REPLACEMENT);
        undecoded, buf := [], buf + [REPLACEMENT];
      }
      pendingEdit := None;
    }

    method Resolved() returns (reply: seq<int>)
      requires Valid()
      ensures reply == ReplyOf(Complete(LossyText(received), [10, 10]), json)
    {
      StreamMeans(frames, json);
      reply := accumulated;
    }
  }

  lemma {:induction false} FlushAddsNoFrame(s: seq<int>, c: int)
    requires Split(s, BLANK) == [s] && c != 10
    ensures Split(s + [c], BLANK) == [s + [c]]
  {
    if |s| >= 2 {
      assert !(BLANK <= s);
      SplitSingle(s[1..], BLANK);
      FlushAddsNoFrame(s[1..], c);
      assert (s + [c])[1..] == s[1..] + [c];
      assert !(BLANK <= s + [c]) by { assert (s + [c])[..2] == s[..2]; }
      assert [s[0]] + (s[1..] + [c]) == s + [c];
    } else if |s| == 1 {
      assert (s + [c])[1] == c && (s + [c])[1..] == [c];
      assert [s[0]] + [c] == s + [c];
    }
  }

  lemma SnocSlice<T>(done: seq<T>, parts: seq<T>, i: nat)
    requires i < |parts|
    ensures done + parts[..i] + [parts[i]] == done + parts[..i + 1]
  {
  }

  lemma Whole<T>(parts: seq<T>)
    ensures parts[..|parts|] == parts
  {
  }

  lemma Behind<T>(before: seq<T>, all: seq<T>, e: T)
    requires before <= all
    ensures before <= all + [e] && (all + [e])[|before|..] == all[|before|..] + [e]
  {
  }

  lemma Snoc(effects: seq<Effect>, e: Effect)
    ensures Accumulated(effects + [e]) == Accumulated(effects) + if e.Content? then e.content else []
    ensures Notices(effects + [e]) == Notices(effects) + if e.Notice? then [e.text] else []
    ensures Statuses(effects + [e]) == Statuses(effects) +
              if e.Status? && !EndsNoReply(Accumulated(effects)) then [Display(Accumulated(effects), e.detail)] else []
  {
    assert (effects + [e])[..|effects|] == effects;
  }

  lemma EffectsSnoc(frames: seq<seq<int>>, frame: seq<int>, json: seq<int> -> Payload)
    ensures Effects(frames + [frame], json) ==
            Effects(frames, json) + [EffectOf(TakeLines(Split(frame, NEWLINE)), json)]
  {
  }

  // ---- cutting the byte stream ----

  // What one arrival adds to the text, and to its complete and unfinished frames.
  lemma ArrivalExtends(before: seq<int>, raw: seq<int>)
    ensures var text, undecoded := LossyText(before), LossyPending(before);
            var buf := Rest(text, BLANK) + LossyText(undecoded + raw);
            && LossyPending(before + raw) == LossyPending(undecoded + raw)
            && Rest(LossyText(before + raw), BLANK) == Rest(buf, BLANK)
            && Complete(LossyText(before + raw), BLANK) == Complete(text, BLANK) + Complete(buf, BLANK)
  {
    LossyAppend(before, raw);
    SplitAppend(LossyText(before), LossyText(LossyPending(before) + raw), BLANK);
  }

  // What the data handler carries from one arrival to the next, and the frames seen so far.
  datatype Reader = Reader(undecoded: seq<int>, buf: seq<int>, frames: seq<seq<int>>)

  function Feed(r: Reader, raw: seq<int>): Reader {
    var buf := r.buf + LossyText(r.undecoded + raw);
    Reader(LossyPending(r.undecoded + raw), Rest(buf, BLANK), r.frames + Complete(buf, BLANK))
  }

  function FeedAll(chunks: seq<seq<int>>): Reader {
    if chunks == [] then Reader([], [], [])
    else Feed(FeedAll(chunks[..|chunks| - 1]), chunks[|chunks| - 1])
  }

  /** However the byte stream is cut, inside a code point, inside a separator or in a run
      of newlines, the frames are those of one split of the whole. */
  lemma {:induction false} FramesIgnoreCuts(chunks: seq<seq<int>>)
    ensures var text := LossyText(Flatten(chunks));
            FeedAll(chunks) == Reader(LossyPending(Flatten(chunks)), Rest(text, BLANK), Complete(text, BLANK))
  {
    if chunks != [] {
      var n := |chunks| - 1;
      var before := Flatten(chunks[..n]);
      FramesIgnoreCuts(chunks[..n]);
      ArrivalExtends(before, chunks[n]);
    } else {
      assert LossyText([]) == [];
    }
  }

  /** So the reply, the notices and the status displays are the same for any two cuttings of one
      stream. */
  lemma ReplyIgnoresCuts(xs: seq<seq<int>>, ys: seq<seq<int>>, json: seq<int> -> Payload)
    requires Flatten(xs) == Flatten(ys)
    ensures var fx, fy := FeedAll(xs).frames, FeedAll(ys).frames;
            && ReplyOf(fx, json) == ReplyOf(fy, json)
            && OwnerTexts(fx, json) == OwnerTexts(fy, json)
            && StatusDisplays(fx, json) == StatusDisplays(fy, json)
  {
    FramesIgnoreCuts(xs);
    FramesIgnoreCuts(ys);
  }
}
