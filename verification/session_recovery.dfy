/** Signal session recovery: handleSessionRecovery with its cooldown, attempt cap and
    periodic expiry (packages/whatsapp-gateway/index.js). */
module SessionRecovery {
  import opened TimedMap

  const COOLDOWN_MS := 20000
  const MAX_ATTEMPTS := 3
  const EXPIRE_MS := 1800000

  type Jid = string

  datatype Entry = Entry(attempts: int, lastAttemptAt: int, lastMsgId: string, notified: bool)

  // What the owner is told: the peer, the number of renegotiations, the last failed message.
  datatype Notice = Notice(peer: Jid, attempts: int, lastMsgId: string)

  // `calls` records, per base JID, when assertSessions was called, `ids` for which messages, and
  // `expired` how many of those calls preceded its last expiry; `notices` are the messages to the
  // owner, and `clock` is the time of the latest event.
  datatype Recovery = Recovery(entries: map<Jid, Entry>, calls: map<Jid, seq<int>>, ids: map<Jid, seq<string>>,
                               expired: map<Jid, nat>, notices: seq<Notice>, clock: int)

  const EMPTY := Recovery(map[], map[], map[], map[], [], 0)

  function CallsIn(calls: map<Jid, seq<int>>, base: Jid): seq<int> {
    if base in calls then calls[base] else []
  }

  function IdsIn(ids: map<Jid, seq<string>>, base: Jid): seq<string> {
    if base in ids then ids[base] else []
  }

  function ExpiredIn(expired: map<Jid, nat>, base: Jid): nat {
    if base in expired then expired[base] else 0
  }

  function Calls(r: Recovery, base: Jid): seq<int> {
    CallsIn(r.calls, base)
  }

  // A sweep expires, for good, every peer last called more than the expiry time ago.
  predicate Lapsed(calls: seq<int>, now: int) {
    calls != [] && now - calls[|calls| - 1] > 1800000
  }

  function ExpireAll(calls: map<Jid, seq<int>>, expired: map<Jid, nat>, now: int): map<Jid, nat> {
    map base | base in calls :: if Lapsed(calls[base], now) then |calls[base]| else ExpiredIn(expired, base)
  }

  function EntryOf(r: Recovery, base: Jid): Entry {
    if base in r.entries then r.entries[base] else Entry(0, 0, "", false)
  }

  predicate Renegotiates(r: Recovery, base: Jid, ready: bool, now: int) {
    && base != "" && ready
    && now - EntryOf(r, base).lastAttemptAt >= COOLDOWN_MS
    && EntryOf(r, base).attempts < MAX_ATTEMPTS
  }

  // `owners` is what OWNER_JIDS.length comes to, 0 when it is not defined.
  predicate Notifies(r: Recovery, base: Jid, ready: bool, owners: nat, now: int) {
    && base != "" && ready
    && now - EntryOf(r, base).lastAttemptAt >= COOLDOWN_MS
    && EntryOf(r, base).attempts >= MAX_ATTEMPTS
    && !EntryOf(r, base).notified && owners > 0
  }

  function Handle(r: Recovery, base: Jid, msgId: string, ready: bool, owners: nat, now: int): Recovery {
    var e := EntryOf(r, base);
    if Renegotiates(r, base, ready, now) then
      r.(entries := r.entries[base := Entry(e.attempts + 1, now, if msgId != "" then msgId else e.lastMsgId, e.notified)],
         calls := r.calls[base := Calls(r, base) + [now]], ids := r.ids[base := IdsIn(r.ids, base) + [msgId]], clock := now)
    else if Notifies(r, base, ready, owners, now) then
      r.(entries := r.entries[base := e.(notified := true)], notices := r.notices + [Notice(base, e.attempts, e.lastMsgId)], clock := now)
    else r.(clock := now)
  }

  function Sweep(r: Recovery, now: int): Recovery {
    r.(entries := Kept(r.entries, (e: Entry) => now - e.lastAttemptAt <= EXPIRE_MS),
       expired := ExpireAll(r.calls, r.expired, now), clock := now)
  }

  // ---- the code ----

  class SessionRecoveryMap {
    var entries: map<Jid, Entry>
    var calls: map<Jid, seq<int>>
    var notices: seq<Notice>
    ghost var ids: map<Jid, seq<string>>
    ghost var expired: map<Jid, nat>
    ghost var clock: int

    ghost function Value(): Recovery
      reads this
    {
      Recovery(entries, calls, ids, expired, notices, clock)
    }

    constructor ()
      ensures Value() == EMPTY
    {
      entries, calls, ids, expired, notices, clock := map[], map[], map[], map[], [], 0;
    }

    method AssertSessions(base: Jid, now: int)
      modifies this`calls
      ensures calls == old(calls)[base := Calls(old(Value()), base) + [now]]
    {
      calls := calls[base := (if base in calls then calls[base] else []) + [now]];
    }

    method NotifyOwner(base: Jid, entry: Entry)
      modifies this`notices
      ensures notices == old(notices) + [Notice(base, entry.attempts, entry.lastMsgId)]
    {
      notices := notices + [Notice(base, entry.attempts, entry.lastMsgId)];
    }

    method HandleSessionRecovery(base: Jid, msgId: string, ready: bool, owners: nat, now: int)
      modifies this
      ensures Value() == Handle(old(Value()), base, msgId, ready, owners, now)
    {
      clock := now;
      if base == "" || !ready {
        return;
      }
      var entry := Entry(0, 0, "", false);
      if base in entries {
        entry := entries[base];
      }
      if now - entry.lastAttemptAt < COOLDOWN_MS {
        return;
      }
      if entry.attempts >= MAX_ATTEMPTS {
        if !entry.notified && owners > 0 {
          entry := entry.(notified := true);
          entries := entries[base := entry];
          NotifyOwner(base, entry);
        }
        return;
      }
      entry := entry.(attempts := entry.attempts + 1, lastAttemptAt := now,
                      lastMsgId := if msgId != "" then msgId else entry.lastMsgId);
      entries := entries[base := entry];
      ids := ids[base := IdsIn(ids, base) + [msgId]];
      AssertSessions(base, now);
    }

    method PeriodicSweep(now: int)
      modifies this`entries, this`expired, this`clock
      ensures Value() == Sweep(old(Value()), now)
    {
      clock := now;
      expired := ExpireAll(calls, expired, now);
      entries := Prune(entries, (e: Entry) => now - e.lastAttemptAt <= EXPIRE_MS);
    }
  }

  // ---- every run ----

  // Consecutive calls keep the cooldown.
  ghost predicate Cooled(calls: seq<int>) {
    forall i :: 0 < i < |calls| ==> calls[i] - calls[i - 1] >= 20000
  }

  // Four consecutive calls span more than the expiry time.
  ghost predicate Spanned(calls: seq<int>) {
    forall i :: 3 <= i < |calls| ==> calls[i] - calls[i - 3] > 1800000
  }

  ghost predicate Paced(calls: seq<int>) {
    Cooled(calls) && Spanned(calls)
  }

  // The last expiry lies in a gap longer than the expiry time.
  ghost predicate GapInv(calls: seq<int>, expired: nat) {
    && expired <= |calls|
    && (0 < expired < |calls| ==> calls[expired] - calls[expired - 1] > EXPIRE_MS)
  }

  // What is known about one base JID: a live entry counts the calls since the last expiry, and
  // without one there were none.
  ghost predicate Consistent(live: bool, e: Entry, calls: seq<int>, expired: nat, clock: int) {
    && Paced(calls) && GapInv(calls, expired)
    && (calls != [] ==> 0 <= calls[|calls| - 1] <= clock)
    && 0 <= e.attempts == |calls| - expired <= MAX_ATTEMPTS
    && (live <==> expired < |calls|)
    && e.lastAttemptAt == (if live then calls[|calls| - 1] else 0)
    && (!live && calls != [] ==> clock - calls[|calls| - 1] > EXPIRE_MS)
  }

  ghost predicate JidInv(r: Recovery, base: Jid) {
    Consistent(base in r.entries, EntryOf(r, base), Calls(r, base), ExpiredIn(r.expired, base), r.clock)
  }

  ghost predicate Inv(r: Recovery) {
    forall base :: JidInv(r, base)
  }

  datatype Event = Fails(base: Jid, msgId: string, ready: bool, owners: nat, now: int) | Sweeps(now: int)

  function Next(r: Recovery, e: Event): Recovery {
    match e
    case Fails(base, msgId, ready, owners, now) => Handle(r, base, msgId, ready, owners, now)
    case Sweeps(now) => Sweep(r, now)
  }

  function Run(events: seq<Event>): Recovery {
    if events == [] then EMPTY else Next(Run(events[..|events| - 1]), events[|events| - 1])
  }

  // The clock never goes backwards.
  ghost predicate Timely(events: seq<Event>) {
    && (events != [] ==> events[0].now >= 0)
    && (forall i, j :: 0 <= i < j < |events| ==> events[i].now <= events[j].now)
  }

  lemma CooledSnoc(calls: seq<int>, now: int)
    requires Cooled(calls) && (calls != [] ==> now - calls[|calls| - 1] >= COOLDOWN_MS)
    ensures Cooled(calls + [now])
  {
  }

  lemma SpannedSnoc(calls: seq<int>, now: int)
    requires Spanned(calls) && (|calls| >= 3 ==> now - calls[|calls| - 3] > EXPIRE_MS)
    ensures Spanned(calls + [now])
  {
  }

  // The gap before the batch of at most two latest calls makes four calls span the expiry time.
  lemma PacedSnoc(calls: seq<int>, now: int, batch: nat)
    requires Paced(calls) && batch <= 2 && batch <= |calls|
    requires calls != [] ==> now - calls[|calls| - 1] >= COOLDOWN_MS
    requires calls != [] && batch == 0 ==> now - calls[|calls| - 1] > EXPIRE_MS
    requires 0 < batch < |calls| ==> calls[|calls| - batch] - calls[|calls| - batch - 1] > EXPIRE_MS
    ensures Paced(calls + [now])
  {
    var n := |calls|;
    if n >= 3 {
      assert calls[n - 1] - calls[n - 2] >= COOLDOWN_MS && calls[n - 2] - calls[n - 3] >= COOLDOWN_MS;
    }
    CooledSnoc(calls, now);
    SpannedSnoc(calls, now);
  }

  lemma HandleKeeps(r: Recovery, e: Event)
    requires Inv(r) && e.Fails? && e.now >= r.clock && e.now >= 0
    ensures Inv(Next(r, e))
  {
    forall base ensures JidInv(Next(r, e), base) {
      assert JidInv(r, base);
      if base == e.base && Renegotiates(r, base, e.ready, e.now) {
        HandleCalls(r, e);
      } else {
        HandleLeaves(r, e, base);
      }
    }
  }

  lemma HandleCalls(r: Recovery, e: Event)
    requires e.Fails? && JidInv(r, e.base) && e.now >= r.clock && e.now >= 0
    requires Renegotiates(r, e.base, e.ready, e.now)
    ensures JidInv(Next(r, e), e.base)
  {
    CallKeeps(e.base in r.entries, EntryOf(r, e.base), Calls(r, e.base), ExpiredIn(r.expired, e.base), r.clock, e.now,
      Next(r, e).entries[e.base]);
  }

  lemma HandleLeaves(r: Recovery, e: Event, base: Jid)
    requires e.Fails? && JidInv(r, base) && e.now >= r.clock
    requires base != e.base || !Renegotiates(r, base, e.ready, e.now)
    ensures JidInv(Next(r, e), base)
  {
    var r' := Next(r, e);
    assert Calls(r', base) == Calls(r, base) && r'.expired == r.expired;
    assert EntryOf(r', base).attempts == EntryOf(r, base).attempts;
    assert EntryOf(r', base).lastAttemptAt == EntryOf(r, base).lastAttemptAt;
    assert base in r'.entries <==> base in r.entries;
  }

  lemma CallKeeps(live: bool, e: Entry, calls: seq<int>, expired: nat, clock: int, now: int, e': Entry)
    requires Consistent(live, e, calls, expired, clock) && now >= clock && now >= 0
    requires now - e.lastAttemptAt >= COOLDOWN_MS && e.attempts < MAX_ATTEMPTS
    requires e'.attempts == e.attempts + 1 && e'.lastAttemptAt == now
    ensures Consistent(true, e', calls + [now], expired, now)
  {
    PacedSnoc(calls, now, e.attempts);
    GapSnoc(calls, expired, now);
  }

  lemma GapSnoc(calls: seq<int>, expired: nat, now: int)
    requires GapInv(calls, expired) && (calls != [] && expired == |calls| ==> now - calls[|calls| - 1] > EXPIRE_MS)
    ensures GapInv(calls + [now], expired)
  {
  }

  lemma SweepKeeps(r: Recovery, now: int)
    requires Inv(r) && now >= r.clock
    ensures Inv(Sweep(r, now))
  {
    forall base ensures JidInv(Sweep(r, now), base) {
      assert JidInv(r, base);
    }
  }

  lemma {:induction false} EveryRunKeeps(events: seq<Event>)
    requires Timely(events)
    ensures Inv(Run(events))
    ensures Run(events).clock == if events == [] then 0 else events[|events| - 1].now
  {
    if events != [] {
      var n := |events| - 1;
      EveryRunKeeps(events[..n]);
      if events[n].Fails? {
        HandleKeeps(Run(events[..n]), events[n]);
      } else {
        SweepKeeps(Run(events[..n]), events[n].now);
      }
    }
  }

  /** In every run, consecutive renegotiations for a base JID are at least 20 s apart and
      any four consecutive ones span more than 30 minutes. */
  lemma RenegotiationsArePaced(events: seq<Event>, base: Jid)
    requires Timely(events)
    ensures Paced(Calls(Run(events), base))
  {
    EveryRunKeeps(events);
    assert JidInv(Run(events), base);
  }

  // ---- the decision as the unpruned history prescribes it ----

  function LastCall(calls: seq<int>): int {
    if calls == [] then 0 else calls[|calls| - 1]
  }

  predicate Allowed(calls: seq<int>, expired: nat, base: Jid, ready: bool, now: int) {
    base != "" && ready && now - LastCall(calls) >= 20000 && |calls| - expired < 3
  }

  /** After every run a failure makes the gateway renegotiate if and only if the socket is
      ready, the cooldown since the last renegotiation has passed, and fewer than three were
      made since the last expiry. */
  lemma DecisionIsHistory(events: seq<Event>, base: Jid, ready: bool, now: int)
    requires Timely(events) && now >= Run(events).clock
    ensures var r := Run(events);
            Renegotiates(r, base, ready, now) <==> Allowed(Calls(r, base), ExpiredIn(r.expired, base), base, ready, now)
  {
    EveryRunKeeps(events);
    assert JidInv(Run(events), base);
  }

  // The last of the message ids that is not empty.
  function LastNamed(ids: seq<string>): string {
    if ids == [] then "" else if ids[|ids| - 1] != "" then ids[|ids| - 1] else LastNamed(ids[..|ids| - 1])
  }

  function Since(ids: seq<string>, expired: nat): seq<string> {
    if expired <= |ids| then ids[expired..] else []
  }

  // The same protocol without the map that is pruned: calls, expiries, and the peers the owner
  // was told about since their last expiry.
  datatype History = History(calls: map<Jid, seq<int>>, ids: map<Jid, seq<string>>, expired: map<Jid, nat>,
                             told: set<Jid>, notices: seq<Notice>)

  // The owner is told when a failure is refused though the cooldown has passed.
  predicate Due(h: History, base: Jid, ready: bool, owners: nat, now: int) {
    var calls := CallsIn(h.calls, base);
    && base != "" && ready && owners > 0 && base !in h.told
    && now - LastCall(calls) >= 20000 && |calls| - ExpiredIn(h.expired, base) >= 3
  }

  function Recall(h: History, e: Event): History {
    match e
    case Fails(base, msgId, ready, owners, now) =>
      var calls, ids, expired := CallsIn(h.calls, base), IdsIn(h.ids, base), ExpiredIn(h.expired, base);
      if Allowed(calls, expired, base, ready, now) then
        h.(calls := h.calls[base := calls + [now]], ids := h.ids[base := ids + [msgId]])
      else if Due(h, base, ready, owners, now) then
        h.(told := h.told + {base}, notices := h.notices + [Notice(base, 3, LastNamed(Since(ids, expired)))])
      else h
    case Sweeps(now) =>
      h.(expired := ExpireAll(h.calls, h.expired, now), told := set base | base in h.told && !Lapsed(CallsIn(h.calls, base), now))
  }

  function RecallAll(events: seq<Event>): History {
    if events == [] then History(map[], map[], map[], {}, [])
    else Recall(RecallAll(events[..|events| - 1]), events[|events| - 1])
  }

  // The live entry of a peer says what its calls since the last expiry say.
  ghost predicate Linked(r: Recovery, told: set<Jid>, base: Jid) {
    && |IdsIn(r.ids, base)| == |Calls(r, base)|
    && EntryOf(r, base).lastMsgId == LastNamed(Since(IdsIn(r.ids, base), ExpiredIn(r.expired, base)))
    && (base in told <==> EntryOf(r, base).notified)
  }

  ghost predicate SameHistory(r: Recovery, h: History) {
    && h.calls == r.calls && h.ids == r.ids && h.expired == r.expired && h.notices == r.notices
    && forall base :: Linked(r, h.told, base)
  }

  lemma LastNamedSnoc(ids: seq<string>, expired: nat, id: string)
    requires expired <= |ids|
    ensures LastNamed(Since(ids + [id], expired)) == if id != "" then id else LastNamed(Since(ids, expired))
  {
    assert Since(ids + [id], expired) == Since(ids, expired) + [id];
  }

  // The same of one peer, with its decisions.
  ghost predicate Agreeing(r: Recovery, h: History, e: Event) {
    && e.Fails? && Linked(r, h.told, e.base) && h.expired == r.expired && h.calls == r.calls
    && (Due(h, e.base, e.ready, e.owners, e.now) <==> Notifies(r, e.base, e.ready, e.owners, e.now))
    && (Allowed(Calls(r, e.base), ExpiredIn(r.expired, e.base), e.base, e.ready, e.now)
        <==> Renegotiates(r, e.base, e.ready, e.now))
  }

  lemma LinkedFails(r: Recovery, h: History, e: Event)
    requires e.Fails? && JidInv(r, e.base) && Agreeing(r, h, e)
    ensures Linked(Next(r, e), Recall(h, e).told, e.base)
  {
    LastNamedSnoc(IdsIn(r.ids, e.base), ExpiredIn(r.expired, e.base), e.msgId);
  }

  lemma LinkedOther(r: Recovery, h: History, e: Event, base: Jid)
    requires Linked(r, h.told, base) && e.Fails? && base != e.base
    ensures Linked(Next(r, e), Recall(h, e).told, base)
  {
    assert EntryOf(Next(r, e), base) == EntryOf(r, base) && Calls(Next(r, e), base) == Calls(r, base);
  }

  lemma LinkedSweeps(r: Recovery, h: History, now: int, base: Jid)
    requires JidInv(r, base) && Linked(r, h.told, base) && h.calls == r.calls && h.expired == r.expired
    ensures Linked(Sweep(r, now), Recall(h, Sweeps(now)).told, base)
  {
    assert Since(IdsIn(r.ids, base), |Calls(r, base)|) == [];
  }

  lemma SameDecisions(r: Recovery, h: History, e: Event)
    requires e.Fails? && JidInv(r, e.base) && Linked(r, h.told, e.base) && h.calls == r.calls && h.expired == r.expired
    requires e.now >= r.clock
    ensures Due(h, e.base, e.ready, e.owners, e.now) <==> Notifies(r, e.base, e.ready, e.owners, e.now)
    ensures Renegotiates(r, e.base, e.ready, e.now)
            <==> Allowed(Calls(r, e.base), ExpiredIn(r.expired, e.base), e.base, e.ready, e.now)
    ensures Due(h, e.base, e.ready, e.owners, e.now) ==> EntryOf(r, e.base).attempts == 3
  {
  }

  lemma FailIsHistory(r: Recovery, h: History, e: Event)
    requires Inv(r) && SameHistory(r, h) && e.Fails? && e.now >= r.clock
    ensures SameHistory(Next(r, e), Recall(h, e))
  {
    assert JidInv(r, e.base) && Linked(r, h.told, e.base);
    SameDecisions(r, h, e);
    forall base ensures Linked(Next(r, e), Recall(h, e).told, base) {
      assert Linked(r, h.told, base);
      if base == e.base {
        LinkedFails(r, h, e);
      } else {
        LinkedOther(r, h, e, base);
      }
    }
  }

  lemma SweepIsHistory(r: Recovery, h: History, now: int)
    requires Inv(r) && SameHistory(r, h)
    ensures SameHistory(Sweep(r, now), Recall(h, Sweeps(now)))
  {
    forall base ensures Linked(Sweep(r, now), Recall(h, Sweeps(now)).told, base) {
      assert JidInv(r, base) && Linked(r, h.told, base);
      LinkedSweeps(r, h, now, base);
    }
  }

  /** So the pruned map makes exactly the renegotiations of the complete history, and tells the
      owner exactly when and what it prescribes: once between expiries, at a failure that comes
      after three renegotiations and past the cooldown, naming the last failed message. */
  lemma {:induction false} RunIsHistory(events: seq<Event>)
    requires Timely(events)
    ensures SameHistory(Run(events), RecallAll(events))
  {
    if events != [] {
      var n := |events| - 1;
      RunIsHistory(events[..n]);
      EveryRunKeeps(events[..n]);
      if events[n].Fails? {
        FailIsHistory(Run(events[..n]), RecallAll(events[..n]), events[n]);
      } else {
        SweepIsHistory(Run(events[..n]), RecallAll(events[..n]), events[n].now);
      }
    }
  }

  // ---- the notice to the owner ----

  /** Without a number of owners above zero, no run ever notifies anybody: a set of owners,
      which has no `length`, disables the notice. */
  lemma {:induction false} NoLengthNoNotice(events: seq<Event>)
    requires forall i :: 0 <= i < |events| && events[i].Fails? ==> events[i].owners == 0
    ensures Run(events).notices == []
  {
    if events != [] { NoLengthNoNotice(events[..|events| - 1]); }
  }

  // How often the owner was told about a peer.
  function NoticesOf(notices: seq<Notice>, base: Jid): nat {
    if notices == [] then 0
    else
      var n := |notices| - 1;
      NoticesOf(notices[..n], base) + if notices[n].peer == base then 1 else 0
  }

  // Each notice is about three renegotiations of its own: those it counted have expired, or are
  // those of the live entry that says so.
  ghost predicate NoticeInv(r: Recovery, base: Jid) {
    var told := EntryOf(r, base).notified;
    && (told ==> EntryOf(r, base).attempts == MAX_ATTEMPTS)
    && MAX_ATTEMPTS * (NoticesOf(r.notices, base) - if told then 1 else 0) <= ExpiredIn(r.expired, base)
  }

  lemma NoticesSnoc(notices: seq<Notice>, notice: Notice, base: Jid)
    ensures NoticesOf(notices + [notice], base) == NoticesOf(notices, base) + if notice.peer == base then 1 else 0
  {
    assert (notices + [notice])[..|notices|] == notices;
  }

  lemma NoticeFails(r: Recovery, e: Event, base: Jid)
    requires JidInv(r, base) && NoticeInv(r, base) && e.Fails?
    ensures NoticeInv(Next(r, e), base)
  {
    NoticesSnoc(r.notices, Notice(e.base, EntryOf(r, e.base).attempts, EntryOf(r, e.base).lastMsgId), base);
    if e.base != base {
      assert EntryOf(Next(r, e), base) == EntryOf(r, base);
    }
  }

  lemma NoticeSweeps(r: Recovery, now: int, base: Jid)
    requires JidInv(r, base) && NoticeInv(r, base)
    ensures NoticeInv(Sweep(r, now), base)
  {
    var r', calls := Sweep(r, now), Calls(r, base);
    if base in r.entries && Lapsed(calls, now) {
      assert base !in r'.entries && ExpiredIn(r'.expired, base) == |calls|;
    } else if base in r.entries {
      assert EntryOf(r', base) == EntryOf(r, base) && ExpiredIn(r'.expired, base) == ExpiredIn(r.expired, base);
    } else {
      assert base !in r'.entries && ExpiredIn(r'.expired, base) == ExpiredIn(r.expired, base);
    }
  }

  /** And with owners, a peer is reported at most once per three renegotiations. */
  lemma {:induction false} NoticesArePaid(events: seq<Event>, base: Jid)
    requires Timely(events)
    ensures NoticeInv(Run(events), base)
    ensures 3 * NoticesOf(Run(events).notices, base) <= |Calls(Run(events), base)|
  {
    EveryRunKeeps(events);
    assert JidInv(Run(events), base);
    if events != [] {
      var n := |events| - 1;
      NoticesArePaid(events[..n], base);
      EveryRunKeeps(events[..n]);
      assert JidInv(Run(events[..n]), base);
      if events[n].Fails? {
        NoticeFails(Run(events[..n]), events[n], base);
      } else {
        NoticeSweeps(Run(events[..n]), events[n].now, base);
      }
    }
  }
}
