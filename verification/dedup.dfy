/** Two-phase message deduplication: lib/dedup-tracker.js and the head of the
    `messages.upsert` handler in packages/whatsapp-gateway/index.js. */
module Dedup {
  import opened TimedMap

  const WINDOW_MS := 60000
  const STATUS_BROADCAST := "status@broadcast"

  datatype Msg = Msg(id: string, remoteJid: string, fromMe: bool, hasPayload: bool)

  // How the head of the handler disposes of a message.
  datatype Outcome = StatusSkip | Duplicate | OwnSkip | Recovery | Handled

  class DedupTracker {
    var seen: map<string, int>

    constructor ()
      ensures seen == map[]
    {
      seen := map[];
    }

    method WasProcessed(id: string, now: int) returns (r: bool)
      modifies this
      ensures seen == if id == "" then old(seen) else Fresh(old(seen), now)
      ensures r <==> id != "" && id in seen
    {
      if id == "" {
        return false;
      }
      seen := Prune(seen, ts => now - ts <= WINDOW_MS);
      r := id in seen;
    }

    method MarkProcessed(id: string, now: int)
      modifies this
      ensures seen == Marked(old(seen), id, now)
    {
      if id != "" {
        seen := seen[id := now];
      }
    }

    /** The head of the upsert loop body.  Nothing in it awaits, so it runs in one turn of
        the event loop. */
    method Head(msg: Msg, ownJid: string, now: int) returns (outcome: Outcome)
      modifies this
      ensures outcome == Decide(old(seen), msg, ownJid, now)
      ensures seen == After(old(seen), msg, ownJid, now)
    {
      if msg.remoteJid == STATUS_BROADCAST {
        return StatusSkip;
      }
      var duplicate := WasProcessed(msg.id, now);
      if duplicate {
        return Duplicate;
      }
      if msg.fromMe {
        var isSelfChat := ownJid != "" && msg.remoteJid == ownJid;
        if !isSelfChat {
          return OwnSkip;
        }
      }
      if !msg.hasPayload && !msg.fromMe && msg.remoteJid != "" {
        return Recovery;
      }
      MarkProcessed(msg.id, now);
      return Handled;
    }
  }

  function Fresh(seen: map<string, int>, now: int): map<string, int> {
    Kept(seen, ts => now - ts <= WINDOW_MS)
  }

  function Marked(seen: map<string, int>, id: string, now: int): map<string, int> {
    if id == "" then seen else seen[id := now]
  }

  // What the handler does with a message that is neither a status update nor a duplicate.
  function Fate(msg: Msg, ownJid: string): Outcome {
    if msg.fromMe && !(ownJid != "" && msg.remoteJid == ownJid) then OwnSkip
    else if !msg.hasPayload && !msg.fromMe && msg.remoteJid != "" then Recovery
    else Handled
  }

  function Decide(seen: map<string, int>, msg: Msg, ownJid: string, now: int): Outcome {
    if msg.remoteJid == STATUS_BROADCAST then StatusSkip
    else if msg.id != "" && msg.id in Fresh(seen, now) then Duplicate
    else Fate(msg, ownJid)
  }

  function After(seen: map<string, int>, msg: Msg, ownJid: string, now: int): map<string, int> {
    if msg.remoteJid == STATUS_BROADCAST then seen
    else
      var pruned := if msg.id == "" then seen else Fresh(seen, now);
      if Decide(seen, msg, ownJid, now) == Handled then Marked(pruned, msg.id, now) else pruned
  }

  // ---- concurrent handlers ----

  // A handler works through its batch; between two heads it may be suspended at an await.
  datatype Handler = Handler(batch: seq<Msg>, next: nat)

  datatype Turn = Turn(handler: nat, msg: Msg, now: int, ownJid: string, outcome: Outcome)

  datatype Sys = Sys(handlers: seq<Handler>, seen: map<string, int>, clock: int, log: seq<Turn>)

  // The gateway's own JID is whatever the connection has set it to by then.
  datatype Event = Upsert(batch: seq<Msg>) | Resume(handler: nat, now: int, ownJid: string)

  const QUIET := Sys([], map[], 0, [])

  // The clock never goes backwards; a handler resumes only while it has messages left.
  predicate Enabled(s: Sys, e: Event) {
    match e
    case Upsert(_) => true
    case Resume(h, now, _) => now >= s.clock && h < |s.handlers| && s.handlers[h].next < |s.handlers[h].batch|
  }

  function Next(s: Sys, e: Event): Sys
    requires Enabled(s, e)
  {
    match e
    case Upsert(batch) => s.(handlers := s.handlers + [Handler(batch, 0)])
    case Resume(h, now, ownJid) =>
      var msg := s.handlers[h].batch[s.handlers[h].next];
      Sys(s.handlers[h := s.handlers[h].(next := s.handlers[h].next + 1)],
          After(s.seen, msg, ownJid, now), now,
          s.log + [Turn(h, msg, now, ownJid, Decide(s.seen, msg, ownJid, now))])
  }

  predicate Possible(events: seq<Event>)
    decreases |events|, 0
  {
    events != [] ==>
      var n := |events| - 1;
      Possible(events[..n]) && Enabled(Run(events[..n]), events[n])
  }

  function Run(events: seq<Event>): Sys
    requires Possible(events)
    decreases |events|, 1
  {
    if events == [] then QUIET
    else Next(Run(events[..|events| - 1]), events[|events| - 1])
  }

  // ---- the unpruned history ----

  predicate Marks(t: Turn, id: string) {
    t.outcome == Handled && t.msg.id == id
  }

  ghost predicate MarkedWithin(log: seq<Turn>, id: string, now: int) {
    exists j :: 0 <= j < |log| && Marks(log[j], id) && now - log[j].now <= WINDOW_MS
  }

  /** The decision as the complete history prescribes it. */
  ghost predicate Prescribed(log: seq<Turn>, k: nat)
    requires k < |log|
  {
    var t := log[k];
    t.outcome ==
      if t.msg.remoteJid == STATUS_BROADCAST then StatusSkip
      else if t.msg.id != "" && MarkedWithin(log[..k], t.msg.id, t.now) then Duplicate
      else Fate(t.msg, t.ownJid)
  }

  // The tracker remembers a marked id, under its latest mark, for as long as it matters.
  ghost predicate Faithful(s: Sys) {
    && (forall id :: id in s.seen ==> id != "" && exists j :: 0 <= j < |s.log| && Marks(s.log[j], id) && s.log[j].now == s.seen[id])
    && (forall j :: 0 <= j < |s.log| && s.log[j].outcome == Handled && s.log[j].msg.id != "" ==>
          Remembered(s, s.log[j].msg.id, s.log[j].now))
    && (forall j :: 0 <= j < |s.log| ==> s.log[j].now <= s.clock)
    && (forall i, j :: 0 <= i < j < |s.log| ==> s.log[i].now <= s.log[j].now)
  }

  ghost predicate Remembered(s: Sys, id: string, at: int) {
    (id in s.seen && s.seen[id] >= at) || s.clock - at > WINDOW_MS
  }

  lemma SeenIsHistory(s: Sys, id: string, now: int)
    requires Faithful(s) && now >= s.clock && id != ""
    ensures id in Fresh(s.seen, now) <==> MarkedWithin(s.log, id, now)
  {
    if MarkedWithin(s.log, id, now) {
      var j :| 0 <= j < |s.log| && Marks(s.log[j], id) && now - s.log[j].now <= WINDOW_MS;
      assert Remembered(s, id, s.log[j].now);
    }
  }

  lemma ResumeKeeps(s: Sys, e: Event)
    requires Faithful(s) && e.Resume? && Enabled(s, e)
    ensures Faithful(Next(s, e))
  {
    var s' := Next(s, e);
    var n := |s.log|;
    forall j | 0 <= j < |s'.log| && s'.log[j].outcome == Handled && s'.log[j].msg.id != ""
      ensures Remembered(s', s'.log[j].msg.id, s'.log[j].now)
    {
      assert j < n ==> s'.log[j] == s.log[j] && Remembered(s, s.log[j].msg.id, s.log[j].now);
    }
    forall id | id in s'.seen
      ensures id != "" && exists j :: 0 <= j < |s'.log| && Marks(s'.log[j], id) && s'.log[j].now == s'.seen[id]
    {
      if id in s.seen && s'.seen[id] == s.seen[id] {
        var j :| 0 <= j < n && Marks(s.log[j], id) && s.log[j].now == s.seen[id];
        assert s'.log[j] == s.log[j];
      } else {
        assert Marks(s'.log[n], id) && s'.log[n].now == s'.seen[id];
      }
    }
  }

  // Every decision so far is the prescribed one, and each handler is where its turns say.
  ghost predicate Lawful(s: Sys) {
    && Faithful(s)
    && (forall k :: 0 <= k < |s.log| ==> Prescribed(s.log, k))
    && (forall h :: 0 <= h < |s.handlers| ==>
          s.handlers[h].next <= |s.handlers[h].batch| && TurnsOf(s.log, h) == s.handlers[h].batch[..s.handlers[h].next])
    && (forall k :: 0 <= k < |s.log| ==> s.log[k].handler < |s.handlers|)
  }

  function TurnsOf(log: seq<Turn>, h: nat): seq<Msg> {
    if log == [] then []
    else
      var n := |log| - 1;
      TurnsOf(log[..n], h) + if log[n].handler == h then [log[n].msg] else []
  }

  lemma {:induction false} NoTurns(log: seq<Turn>, h: nat)
    requires forall k :: 0 <= k < |log| ==> log[k].handler < h
    ensures TurnsOf(log, h) == []
  {
    if log != [] { NoTurns(log[..|log| - 1], h); }
  }

  lemma PrescribedStays(log: seq<Turn>, longer: seq<Turn>, k: nat)
    requires k < |log| && log <= longer && Prescribed(log, k)
    ensures Prescribed(longer, k)
  {
    assert longer[..k] == log[..k];
  }

  lemma UpsertIsLawful(s: Sys, e: Event)
    requires Lawful(s) && e.Upsert?
    ensures Lawful(Next(s, e))
  {
    var s' := Next(s, e);
    assert forall id, at :: Remembered(s, id, at) ==> Remembered(s', id, at);
    NoTurns(s.log, |s.handlers|);
  }

  lemma ResumePrescribed(s: Sys, e: Event)
    requires Lawful(s) && e.Resume? && Enabled(s, e)
    ensures var s' := Next(s, e); forall k :: 0 <= k < |s'.log| ==> Prescribed(s'.log, k)
  {
    var s', n := Next(s, e), |s.log|;
    assert s'.log[..n] == s.log;
    if s'.log[n].msg.id != "" {
      SeenIsHistory(s, s'.log[n].msg.id, e.now);
    }
    forall k | 0 <= k < n ensures Prescribed(s'.log, k) {
      PrescribedStays(s.log, s'.log, k);
    }
    assert Prescribed(s'.log, n);
  }

  lemma ResumeTakesNext(s: Sys, e: Event, h: nat)
    requires Lawful(s) && e.Resume? && Enabled(s, e) && h < |s.handlers|
    ensures var s' := Next(s, e);
            && s'.handlers[h].next <= |s'.handlers[h].batch|
            && TurnsOf(s'.log, h) == s'.handlers[h].batch[..s'.handlers[h].next]
  {
    var s', n := Next(s, e), |s.log|;
    assert s'.log[..n] == s.log;
    var b, i := s.handlers[h].batch, s.handlers[h].next;
    if h == e.handler {
      assert b[..i + 1] == b[..i] + [b[i]];
    } else {
      assert TurnsOf(s.log, h) + [] == TurnsOf(s.log, h);
    }
  }

  lemma StepIsLawful(s: Sys, e: Event)
    requires Lawful(s) && Enabled(s, e)
    ensures Lawful(Next(s, e))
  {
    if e.Upsert? {
      UpsertIsLawful(s, e);
    } else {
      ResumeKeeps(s, e);
      ResumePrescribed(s, e);
      forall h | 0 <= h < |s.handlers|
        ensures var s' := Next(s, e);
                && s'.handlers[h].next <= |s'.handlers[h].batch|
                && TurnsOf(s'.log, h) == s'.handlers[h].batch[..s'.handlers[h].next]
      {
        ResumeTakesNext(s, e, h);
      }
    }
  }

  /** Under every interleaving of the handlers, every decision is the one the complete
      unpruned history prescribes, and every handler takes its batch in order. */
  lemma {:induction false} EveryRunIsLawful(events: seq<Event>)
    requires Possible(events)
    ensures Lawful(Run(events))
  {
    if events != [] {
      var n := |events| - 1;
      EveryRunIsLawful(events[..n]);
      StepIsLawful(Run(events[..n]), events[n]);
    }
  }

  // Some earlier turn with this id was handled within the last 60 s.
  ghost predicate HandledBefore(log: seq<Turn>, k: nat)
    requires k < |log|
  {
    log[k].msg.id != "" &&
    exists j :: 0 <= j < k && log[j].outcome == Handled && log[j].msg.id == log[k].msg.id && log[k].now - log[j].now <= 60000
  }

  lemma BeforeIsWithin(log: seq<Turn>, k: nat)
    requires k < |log|
    ensures HandledBefore(log, k) <==> log[k].msg.id != "" && MarkedWithin(log[..k], log[k].msg.id, log[k].now)
  {
    if HandledBefore(log, k) {
      var j :| 0 <= j < k && log[j].outcome == Handled && log[j].msg.id == log[k].msg.id && log[k].now - log[j].now <= 60000;
      assert Marks(log[..k][j], log[k].msg.id);
    }
    if MarkedWithin(log[..k], log[k].msg.id, log[k].now) {
      var j :| 0 <= j < k && Marks(log[..k][j], log[k].msg.id) && log[k].now - log[..k][j].now <= WINDOW_MS;
      assert log[j].outcome == Handled;
    }
  }

  /** The disposal of every message of every run, spelled out: a status update is skipped; of
      the others, one whose id was handled within the window is a duplicate; of the rest, an
      own message is handled exactly in the chat with oneself, and an inbound one exactly when
      it was decrypted or has no chat, a null payload going to recovery otherwise. */
  lemma EveryTurnIs(events: seq<Event>, k: nat)
    requires Possible(events) && k < |Run(events).log|
    ensures var log := Run(events).log;
            var m, o, own := log[k].msg, log[k].outcome, log[k].ownJid;
            var status, unseen := m.remoteJid == "status@broadcast", !HandledBefore(log, k);
            && (o == StatusSkip <==> status)
            && (o == Duplicate <==> !status && !unseen)
            && (o == OwnSkip <==> !status && unseen && m.fromMe && (own == "" || m.remoteJid != own))
            && (o == Recovery <==> !status && unseen && !m.fromMe && !m.hasPayload && m.remoteJid != "")
            && (o == Handled <==> (!status && unseen &&
                                   if m.fromMe then own != "" && m.remoteJid == own else m.hasPayload || m.remoteJid == ""))
  {
    EveryRunIsLawful(events);
    assert Prescribed(Run(events).log, k);
    BeforeIsWithin(Run(events).log, k);
  }

  /** So a message id is handled at most once per window. */
  lemma HandledOncePerWindow(events: seq<Event>, j: nat, k: nat)
    requires Possible(events) && j < k < |Run(events).log|
    requires var log := Run(events).log;
             log[j].msg.id == log[k].msg.id != "" && log[j].outcome == log[k].outcome == Handled
    ensures var log := Run(events).log;
            log[k].now - log[j].now > 60000
  {
    EveryRunIsLawful(events);
    var log := Run(events).log;
    assert Prescribed(log, k);
    assert log[..k][j] == log[j];
  }

  /** An inbound message whose payload was null never marks its id, so unless some other
      delivery of it was handled within the window, its retransmit reaches session recovery
      (payload still null) or normal handling (payload decrypted). */
  lemma RetransmitIsNotStranded(events: seq<Event>, k: nat)
    requires Possible(events) && k < |Run(events).log|
    requires var t := Run(events).log[k];
             !t.msg.fromMe && t.msg.remoteJid != "" && t.msg.remoteJid != STATUS_BROADCAST
    ensures var log := Run(events).log;
            && (!log[k].msg.hasPayload ==> log[k].outcome != Handled)
            && ((forall j :: 0 <= j < k && log[j].msg.id == log[k].msg.id && log[k].now - log[j].now <= 60000 ==>
                   !log[j].msg.hasPayload && !log[j].msg.fromMe && log[j].msg.remoteJid != "")
                ==> log[k].outcome == if log[k].msg.hasPayload then Handled else Recovery)
  {
    EveryRunIsLawful(events);
    var log := Run(events).log;
    assert Prescribed(log, k);
    if j :| 0 <= j < |log[..k]| && Marks(log[..k][j], log[k].msg.id) && log[k].now - log[..k][j].now <= WINDOW_MS {
      assert log[..k][j] == log[j];
      assert Prescribed(log, j);
    }
  }
}
