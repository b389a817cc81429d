/** The decrypt-retry tracker: decryptRetryMap with its expiry timers, the
    `messages.update` handler that feeds it, the success path in `messages.upsert` and the
    periodic sweep (packages/whatsapp-gateway/index.js). */
module DecryptRetry {
  import opened Options
  import Journal

  const RETRY_MAX := 3
  const EXPIRE_MS := 300000

  type Key = string
  type TimerId = nat

  datatype Entry = Entry(count: int, expireTimer: Option<TimerId>, firstSeen: int)
  datatype Timer = Timer(key: Key, due: int)

  // `timers` are the timeouts armed in the event loop; `failures` and `reports` count, per
  // key, the decryption failures seen and the exhaustion reports made since the start.
  datatype Tracker = Tracker(entries: map<Key, Entry>, timers: map<TimerId, Timer>, nextTimer: TimerId,
                             failures: map<Key, nat>, reports: map<Key, nat>)

  const EMPTY := Tracker(map[], map[], 0, map[], map[])

  function Count(m: map<Key, nat>, key: Key): nat {
    if key in m then m[key] else 0
  }

  // How many failures the tracker holds against a key.
  function Held(t: Tracker, key: Key): int {
    if key in t.entries then t.entries[key].count else 0
  }

  // ---- the handlers as values ----

  // cleanupDecryptRetry
  function Cleanup(t: Tracker, key: Key): Tracker {
    if key !in t.entries then t
    else
      var timer := t.entries[key].expireTimer;
      t.(entries := t.entries - {key}, timers := if timer.Some? then t.timers - {timer.value} else t.timers)
  }

  function Fail(t: Tracker, key: Key, now: int): Tracker {
    var entry := if key in t.entries then t.entries[key] else Entry(0, None, now);
    var counted := t.(failures := t.failures[key := Count(t.failures, key) + 1],
                      entries := t.entries[key := entry.(count := entry.count + 1)]);
    if entry.count + 1 >= RETRY_MAX
    then Cleanup(counted.(reports := t.reports[key := Count(t.reports, key) + 1]), key)
    else
      var cleared := if entry.expireTimer.Some? then t.timers - {entry.expireTimer.value} else t.timers;
      counted.(timers := cleared[t.nextTimer := Timer(key, now + EXPIRE_MS)], nextTimer := t.nextTimer + 1,
               entries := counted.entries[key := Entry(entry.count + 1, Some(t.nextTimer), entry.firstSeen)])
  }

  // getDecryptRetryKey
  function RetryKey(jid: string, msgId: string): Key {
    jid + ":" + msgId
  }

  const PLACEHOLDER := "[DECRYPTION_FAILED — message could not be read]"

  // What a failure does to the journal: a placeholder row at the first one, one retry more or
  // the final failure of the row at the last.
  function Journalled(rows: Journal.Table, t: Tracker, jid: string, msgId: string, now: int): Journal.Table {
    var key := RetryKey(jid, msgId);
    var saved := if key in t.entries then rows
                 else Journal.Insert(rows, msgId, Journal.Row(jid, PLACEHOLDER, now, Journal.PENDING, 0));
    if Held(t, key) + 1 >= RETRY_MAX then Journal.IncrOrFail(saved, msgId) else saved
  }

  // The timeout leaves the event loop and runs cleanupDecryptRetry.
  function Expire(t: Tracker, id: TimerId): Tracker
    requires id in t.timers
  {
    Cleanup(t.(timers := t.timers - {id}), t.timers[id].key)
  }

  predicate Stale(e: Entry, now: int) {
    now - e.firstSeen > EXPIRE_MS
  }

  function Sweep(t: Tracker, now: int): Tracker {
    t.(entries := map k | k in t.entries && !Stale(t.entries[k], now) :: t.entries[k],
       timers := map id | id in t.timers &&
                   !(t.timers[id].key in t.entries && Stale(t.entries[t.timers[id].key], now)) :: t.timers[id])
  }

  // ---- what holds between events ----

  // Count 1 or 2 and one armed timer.
  ghost predicate EntryInv(t: Tracker, key: Key)
    requires key in t.entries
  {
    var e := t.entries[key];
    && 1 <= e.count < RETRY_MAX
    && e.expireTimer.Some? && e.expireTimer.value in t.timers
    && t.timers[e.expireTimer.value].key == key
  }

  // Every armed timer is the timer of a live entry.
  ghost predicate TimerInv(t: Tracker, id: TimerId)
    requires id in t.timers
  {
    id < t.nextTimer && t.timers[id].key in t.entries && t.entries[t.timers[id].key].expireTimer == Some(id)
  }

  ghost predicate Accounted(t: Tracker, key: Key) {
    RETRY_MAX * Count(t.reports, key) + (if key in t.entries then t.entries[key].count else 0) <= Count(t.failures, key)
  }

  ghost predicate Inv(t: Tracker) {
    && (forall key :: key in t.entries ==> EntryInv(t, key))
    && (forall id :: id in t.timers ==> TimerInv(t, id))
    && (forall key :: Accounted(t, key))
  }

  // ---- the code ----

  class DecryptRetryTracker {
    var entries: map<Key, Entry>
    var timers: map<TimerId, Timer>
    var nextTimer: TimerId
    ghost var failures: map<Key, nat>
    var reports: map<Key, nat>

    ghost function Value(): Tracker
      reads this
    {
      Tracker(entries, timers, nextTimer, failures, reports)
    }

    ghost predicate Valid()
      reads this
    {
      Inv(Value())
    }

    constructor ()
      ensures Value() == EMPTY && Valid()
    {
      entries, timers, nextTimer, failures, reports := map[], map[], 0, map[], map[];
    }

    method ClearTimeout(id: TimerId)
      modifies this`timers
      ensures timers == old(timers) - {id}
    {
      timers := timers - {id};
    }

    method CleanupDecryptRetry(key: Key)
      modifies this`entries, this`timers
      ensures Value() == Cleanup(old(Value()), key)
    {
      if key in entries {
        var timer := entries[key].expireTimer;
        if timer.Some? {
          ClearTimeout(timer.value);
        }
      }
      entries := entries - {key};
    }

    /** One decryption error of `messages.update`, with what it does to the message journal. */
    method OnFailure(jid: string, msgId: string, now: int, store: Journal.MessageStore)
      requires Valid()
      modifies this, store
      ensures Value() == Fail(old(Value()), RetryKey(jid, msgId), now) && Valid()
      ensures store.rows == Journalled(old(store.rows), old(Value()), jid, msgId, now)
      ensures RetryKey(jid, msgId) !in old(entries) ==> msgId in store.rows
      ensures Journal.Sound(old(store.rows)) ==> Journal.Sound(store.rows)
    {
      var key := RetryKey(jid, msgId);
      FailKeeps(Value(), key, now);
      if key !in entries {
        store.Save(msgId, jid, PLACEHOLDER, now, Journal.PENDING);
      }
      var exhausted := RecordFailure(key, now);
      if exhausted {
        store.IncrRetryOrFail(msgId);
      }
    }

    method RecordFailure(key: Key, now: int) returns (exhausted: bool)
      modifies this
      ensures Value() == Fail(old(Value()), key, now)
      ensures exhausted <==> Held(old(Value()), key) + 1 >= RETRY_MAX
    {
      var entry := Entry(0, None, now);
      if key in entries {
        entry := entries[key];
      }
      failures := failures[key := Count(failures, key) + 1];
      entry := entry.(count := entry.count + 1);
      entries := entries[key := entry];
      exhausted := entry.count >= RETRY_MAX;
      if exhausted {
        reports := reports[key := Count(reports, key) + 1];
        CleanupDecryptRetry(key);
      } else {
        if entry.expireTimer.Some? {
          ClearTimeout(entry.expireTimer.value);
        }
        timers := timers[nextTimer := Timer(key, now + EXPIRE_MS)];
        entries := entries[key := entry.(expireTimer := Some(nextTimer))];
        nextTimer := nextTimer + 1;
      }
    }

    /** A message that decrypts after all: its entry goes and its row is settled. */
    method OnSuccess(jid: string, msgId: string, store: Journal.MessageStore) returns (resolved: bool)
      requires Valid()
      modifies this`entries, this`timers, store
      ensures Value() == Cleanup(old(Value()), RetryKey(jid, msgId)) && Valid()
      ensures resolved <==> RetryKey(jid, msgId) in old(entries)
      ensures store.rows == if resolved then Journal.SetProcessed(old(store.rows), msgId, Journal.PROCESSED) else old(store.rows)
    {
      var key := RetryKey(jid, msgId);
      CleanupKeeps(Value(), key);
      resolved := key in entries;
      if resolved {
        CleanupDecryptRetry(key);
        store.MarkProcessed(msgId, Journal.PROCESSED);
      }
    }

    method OnTimeout(id: TimerId)
      requires Valid() && id in timers
      modifies this`entries, this`timers
      ensures Value() == Expire(old(Value()), id) && Valid()
    {
      ExpireKeeps(Value(), id);
      var key := timers[id].key;
      timers := timers - {id};
      CleanupDecryptRetry(key);
    }

    method PeriodicSweep(now: int)
      requires Valid()
      modifies this`entries, this`timers
      ensures Value() == Sweep(old(Value()), now) && Valid()
    {
      ghost var before := Value();
      SweepKeeps(before, now);
      var all := entries;
      var todo := all.Keys;
      while todo != {}
        invariant todo <= all.Keys
        invariant Value() == SweepPart(before, now, all.Keys - todo)
        decreases |todo|
      {
        var key :| key in todo;
        SweepPartStep(before, now, all.Keys - todo, key);
        if now - all[key].firstSeen > EXPIRE_MS {
          CleanupDecryptRetry(key);
        }
        assert all.Keys - (todo - {key}) == all.Keys - todo + {key};
        todo := todo - {key};
      }
      assert all.Keys - {} == all.Keys;
      SweepAll(before, now);
    }
  }

  // The sweep after it has looked at the entries in `done`.
  function SweepPart(t: Tracker, now: int, done: set<Key>): Tracker {
    t.(entries := map k | k in t.entries && !(k in done && Stale(t.entries[k], now)) :: t.entries[k],
       timers := map id | id in t.timers &&
                   !(t.timers[id].key in done && t.timers[id].key in t.entries && Stale(t.entries[t.timers[id].key], now))
                 :: t.timers[id])
  }

  lemma SweepPartStep(t: Tracker, now: int, done: set<Key>, key: Key)
    requires Inv(t) && key in t.entries && key !in done
    ensures SweepPart(t, now, done + {key}) ==
            if Stale(t.entries[key], now) then Cleanup(SweepPart(t, now, done), key) else SweepPart(t, now, done)
  {
    assert EntryInv(t, key);
    var part := SweepPart(t, now, done);
    var next := SweepPart(t, now, done + {key});
    if Stale(t.entries[key], now) {
      var timer := t.entries[key].expireTimer.value;
      assert next.entries == part.entries - {key};
      forall id | id in t.timers ensures t.timers[id].key == key <==> id == timer {
        assert TimerInv(t, id);
      }
      assert next.timers == part.timers - {timer};
    } else {
      assert next.entries == part.entries;
      assert next.timers == part.timers;
    }
  }

  lemma SweepAll(t: Tracker, now: int)
    ensures SweepPart(t, now, t.entries.Keys) == Sweep(t, now)
  {
    assert SweepPart(t, now, t.entries.Keys).entries == Sweep(t, now).entries;
    assert SweepPart(t, now, t.entries.Keys).timers == Sweep(t, now).timers;
  }

  // ---- every event keeps the invariant ----

  lemma CleanupKeeps(t: Tracker, key: Key)
    requires Inv(t)
    ensures Inv(Cleanup(t, key))
  {
    if key in t.entries {
      var t' := Cleanup(t, key);
      assert EntryInv(t, key);
      forall k | k in t'.entries ensures EntryInv(t', k) {
        assert EntryInv(t, k);
      }
      forall id | id in t'.timers ensures TimerInv(t', id) {
        assert TimerInv(t, id);
      }
      forall k ensures Accounted(t', k) {
        assert Accounted(t, k);
      }
    }
  }

  lemma FailKeepsEntries(t: Tracker, key: Key, now: int)
    requires Inv(t)
    ensures var t' := Fail(t, key, now); forall k :: k in t'.entries ==> EntryInv(t', k)
  {
    var t' := Fail(t, key, now);
    assert key in t.entries ==> EntryInv(t, key);
    forall k | k in t'.entries ensures EntryInv(t', k) {
      assert k != key ==> EntryInv(t, k) && TimerInv(t, t.entries[k].expireTimer.value);
    }
  }

  lemma FailKeepsTimers(t: Tracker, key: Key, now: int)
    requires Inv(t)
    ensures var t' := Fail(t, key, now); forall id :: id in t'.timers ==> TimerInv(t', id)
  {
    var t' := Fail(t, key, now);
    assert key in t.entries ==> EntryInv(t, key);
    forall id | id in t'.timers ensures TimerInv(t', id) {
      assert id in t.timers ==> TimerInv(t, id);
    }
  }

  lemma FailKeeps(t: Tracker, key: Key, now: int)
    requires Inv(t)
    ensures Inv(Fail(t, key, now))
  {
    FailKeepsEntries(t, key, now);
    FailKeepsTimers(t, key, now);
    forall k ensures Accounted(Fail(t, key, now), k) {
      assert Accounted(t, k);
      assert key in t.entries ==> EntryInv(t, key);
    }
  }

  lemma ExpireIsCleanup(t: Tracker, id: TimerId)
    requires Inv(t) && id in t.timers
    ensures Expire(t, id) == Cleanup(t, t.timers[id].key)
  {
    assert TimerInv(t, id);
    assert t.timers - {id} - {id} == t.timers - {id};
  }

  lemma ExpireKeeps(t: Tracker, id: TimerId)
    requires Inv(t) && id in t.timers
    ensures Inv(Expire(t, id))
  {
    ExpireIsCleanup(t, id);
    CleanupKeeps(t, t.timers[id].key);
  }

  lemma SweepKeeps(t: Tracker, now: int)
    requires Inv(t)
    ensures Inv(Sweep(t, now))
  {
    var t' := Sweep(t, now);
    forall k | k in t'.entries ensures EntryInv(t', k) {
      assert EntryInv(t, k);
    }
    forall id | id in t'.timers ensures TimerInv(t', id) {
      assert TimerInv(t, id);
    }
    forall k ensures Accounted(t', k) {
      assert Accounted(t, k);
    }
  }

  datatype Event = Fails(key: Key, now: int) | Succeeds(key: Key, now: int) | Fires(id: TimerId, now: int) | Sweeps(now: int)

  // A timeout fires only while armed and not before it is due.
  predicate Enabled(t: Tracker, e: Event) {
    e.Fires? ==> e.id in t.timers && e.now >= t.timers[e.id].due
  }

  function Next(t: Tracker, e: Event): Tracker
    requires Enabled(t, e)
  {
    match e
    case Fails(key, now) => Fail(t, key, now)
    case Succeeds(key, _) => Cleanup(t, key)
    case Fires(id, _) => Expire(t, id)
    case Sweeps(now) => Sweep(t, now)
  }

  predicate Possible(from: Tracker, events: seq<Event>)
    decreases |events|, 0
  {
    events != [] ==>
      var n := |events| - 1;
      Possible(from, events[..n]) && Enabled(Run(from, events[..n]), events[n])
  }

  function Run(from: Tracker, events: seq<Event>): Tracker
    requires Possible(from, events)
    decreases |events|, 1
  {
    if events == [] then from else Next(Run(from, events[..|events| - 1]), events[|events| - 1])
  }

  lemma NextKeeps(t: Tracker, e: Event)
    requires Inv(t) && Enabled(t, e)
    ensures Inv(Next(t, e))
  {
    match e
    case Fails(key, now) => FailKeeps(t, key, now);
    case Succeeds(key, _) => CleanupKeeps(t, key);
    case Fires(id, _) => ExpireKeeps(t, id);
    case Sweeps(now) => SweepKeeps(t, now);
  }

  /** Between events of every run, each entry has count 1 or 2 and one armed timer, each
      armed timer belongs to a live entry, and three failures are spent per report. */
  lemma {:induction false} EveryRunKeeps(from: Tracker, events: seq<Event>)
    requires Inv(from) && Possible(from, events)
    ensures Inv(Run(from, events))
  {
    if events != [] {
      EveryRunKeeps(from, events[..|events| - 1]);
      NextKeeps(Run(from, events[..|events| - 1]), events[|events| - 1]);
    }
  }

  /** Entries and armed timers are in one-to-one correspondence. */
  lemma OneTimerPerEntry(events: seq<Event>, a: TimerId, b: TimerId)
    requires Possible(EMPTY, events)
    requires var t := Run(EMPTY, events); a in t.timers && b in t.timers && t.timers[a].key == t.timers[b].key
    ensures a == b
  {
    EveryRunKeeps(EMPTY, events);
    var t := Run(EMPTY, events);
    assert TimerInv(t, a) && TimerInv(t, b);
  }

  // ---- when every failure counts ----

  function FailuresOf(events: seq<Event>, key: Key): nat {
    if events == [] then 0
    else
      var n := |events| - 1;
      FailuresOf(events[..n], key) + if events[n].Fails? && events[n].key == key then 1 else 0
  }

  // The event drops a live entry of the key: a success, its own timer, or a sweep more than
  // five minutes after the first failure.
  predicate Drops(t: Tracker, e: Event, key: Key)
    requires Enabled(t, e)
  {
    key in t.entries &&
    match e
    case Fails(_, _) => false
    case Succeeds(k, _) => k == key
    case Fires(id, _) => t.timers[id].key == key
    case Sweeps(now) => Stale(t.entries[key], now)
  }

  // The failures that dropped entries had counted.
  function Lost(from: Tracker, events: seq<Event>, key: Key): int
    requires Possible(from, events)
  {
    if events == [] then 0
    else
      var n := |events| - 1;
      var t := Run(from, events[..n]);
      Lost(from, events[..n], key) + if Drops(t, events[n], key) then Held(t, key) else 0
  }

  lemma StepAccounts(t: Tracker, e: Event, key: Key)
    requires Inv(t) && Enabled(t, e)
    ensures RETRY_MAX * Count(Next(t, e).reports, key) + Held(Next(t, e), key) + (if Drops(t, e, key) then Held(t, key) else 0) ==
            RETRY_MAX * Count(t.reports, key) + Held(t, key) + if e.Fails? && e.key == key then 1 else 0
  {
    assert key in t.entries ==> EntryInv(t, key);
    match e
    case Fails(k, now) =>
      assert k in t.entries ==> EntryInv(t, k);
    case Succeeds(k, _) =>
    case Fires(id, _) =>
      ExpireIsCleanup(t, id);
    case Sweeps(now) =>
  }

  /** In every run each failure of a key has been reported, is held, or was lost with an entry
      that was dropped: three per report, and nothing else. */
  lemma {:induction false} EveryFailureIsAccounted(from: Tracker, events: seq<Event>, key: Key)
    requires Inv(from) && Possible(from, events)
    ensures var t := Run(from, events);
            RETRY_MAX * Count(t.reports, key) + Held(t, key) + Lost(from, events, key) ==
            RETRY_MAX * Count(from.reports, key) + Held(from, key) + FailuresOf(events, key)
  {
    if events != [] {
      var n := |events| - 1;
      EveryFailureIsAccounted(from, events[..n], key);
      EveryRunKeeps(from, events[..n]);
      StepAccounts(Run(from, events[..n]), events[n], key);
    }
  }

  ghost predicate NeverDropped(from: Tracker, events: seq<Event>, key: Key)
    requires Possible(from, events)
  {
    events != [] ==>
      var n := |events| - 1;
      NeverDropped(from, events[..n], key) && !Drops(Run(from, events[..n]), events[n], key)
  }

  lemma {:induction false} NothingIsLostIff(from: Tracker, events: seq<Event>, key: Key)
    requires Inv(from) && Possible(from, events)
    ensures Lost(from, events, key) >= 0
    ensures Lost(from, events, key) == 0 <==> NeverDropped(from, events, key)
  {
    if events != [] {
      var n := |events| - 1;
      NothingIsLostIff(from, events[..n], key);
      EveryRunKeeps(from, events[..n]);
      assert key in Run(from, events[..n]).entries ==> EntryInv(Run(from, events[..n]), key);
    }
  }

  // m failures made m / 3 reports and m % 3 of them are held.
  predicate CountedExactly(from: Tracker, t: Tracker, key: Key, m: nat) {
    Count(t.reports, key) == Count(from.reports, key) + m / RETRY_MAX && Held(t, key) == m % RETRY_MAX
  }

  /** Every third failure of a key is reported, in any run that starts without an entry for it,
      if and only if no live entry of the key is dropped on the way. */
  lemma CountsExactlyIff(from: Tracker, events: seq<Event>, key: Key)
    requires Inv(from) && Possible(from, events) && key !in from.entries
    ensures CountedExactly(from, Run(from, events), key, FailuresOf(events, key)) <==> NeverDropped(from, events, key)
  {
    var t, m := Run(from, events), FailuresOf(events, key);
    EveryFailureIsAccounted(from, events, key);
    NothingIsLostIff(from, events, key);
    EveryRunKeeps(from, events);
    assert key in t.entries ==> EntryInv(t, key);
  }

  // All events happen within five minutes of `start`, and none resolves the key.
  predicate Within(events: seq<Event>, key: Key, start: int) {
    forall i :: 0 <= i < |events| ==>
      start <= events[i].now < start + EXPIRE_MS && !(events[i].Succeeds? && events[i].key == key)
  }

  // An entry born at or after `start` cannot expire or be swept within five minutes of it.
  ghost predicate Young(t: Tracker, key: Key, start: int) {
    key in t.entries ==>
      && t.entries[key].firstSeen >= start
      && t.entries[key].expireTimer.Some?
      && t.entries[key].expireTimer.value in t.timers
      && t.timers[t.entries[key].expireTimer.value].due >= start + EXPIRE_MS
  }

  lemma YoungStep(t: Tracker, e: Event, key: Key, start: int)
    requires Inv(t) && Enabled(t, e) && Young(t, key, start)
    requires start <= e.now < start + EXPIRE_MS && !(e.Succeeds? && e.key == key)
    ensures Young(Next(t, e), key, start) && !Drops(t, e, key)
  {
    assert key in t.entries ==> EntryInv(t, key);
    match e
    case Fails(k, now) =>
      assert k in t.entries ==> EntryInv(t, k);
      if key in t.entries { assert TimerInv(t, t.entries[key].expireTimer.value); }
    case Succeeds(k, _) =>
      assert k in t.entries ==> EntryInv(t, k);
    case Fires(id, _) =>
      assert TimerInv(t, id);
      ExpireIsCleanup(t, id);
    case Sweeps(now) =>
  }

  lemma {:induction false} NeverDroppedWithin(from: Tracker, events: seq<Event>, key: Key, start: int)
    requires Inv(from) && Possible(from, events) && key !in from.entries && Within(events, key, start)
    ensures Young(Run(from, events), key, start) && NeverDropped(from, events, key)
  {
    if events != [] {
      var n := |events| - 1;
      NeverDroppedWithin(from, events[..n], key, start);
      EveryRunKeeps(from, events[..n]);
      YoungStep(Run(from, events[..n]), events[n], key, start);
    }
  }

  /** Nothing is dropped within five minutes, so there m failures of a key that is not resolved
      meanwhile make m / 3 reports and leave an entry holding m % 3. */
  lemma ExactWithinFiveMinutes(from: Tracker, events: seq<Event>, key: Key, start: int)
    requires Inv(from) && Possible(from, events) && key !in from.entries && Within(events, key, start)
    ensures CountedExactly(from, Run(from, events), key, FailuresOf(events, key))
  {
    NeverDroppedWithin(from, events, key, start);
    CountsExactlyIff(from, events, key);
  }

  lemma RunSnoc(from: Tracker, events: seq<Event>, e: Event)
    requires Possible(from, events) && Enabled(Run(from, events), e)
    ensures Possible(from, events + [e]) && Run(from, events + [e]) == Next(Run(from, events), e)
  {
    assert (events + [e])[..|events|] == events;
  }

  const ONE_FAILURE := Tracker(map["k" := Entry(1, Some(0), 0)], map[0 := Timer("k", EXPIRE_MS)], 1, map["k" := 1], map[])
  const TWO_FAILURES := Tracker(map["k" := Entry(2, Some(1), 0)], map[1 := Timer("k", 2 * EXPIRE_MS - 1)], 2, map["k" := 2], map[])
  const SWEPT := Tracker(map[], map[], 2, map["k" := 2], map[])

  lemma RenewedThenSwept()
    ensures Fail(EMPTY, "k", 0) == ONE_FAILURE
    ensures Fail(ONE_FAILURE, "k", EXPIRE_MS - 1) == TWO_FAILURES
    ensures Sweep(TWO_FAILURES, EXPIRE_MS + 1) == SWEPT
  {
    assert ONE_FAILURE.timers - {0} == map[];
    assert Sweep(TWO_FAILURES, EXPIRE_MS + 1).entries == map[];
    assert Sweep(TWO_FAILURES, EXPIRE_MS + 1).timers == map[];
  }

  lemma RunTwo(from: Tracker, a: Event, b: Event)
    requires Enabled(from, a) && Enabled(Next(from, a), b)
    ensures Possible(from, [a, b]) && Run(from, [a, b]) == Next(Next(from, a), b)
  {
    RunSnoc(from, [], a);
    assert [] + [a] == [a];
    RunSnoc(from, [a], b);
    assert [a] + [b] == [a, b];
  }

  lemma RunFour(from: Tracker, a: Event, b: Event, c: Event, d: Event)
    requires Enabled(from, a) && Enabled(Next(from, a), b)
    requires var t := Next(Next(from, a), b); Enabled(t, c) && Enabled(Next(t, c), d)
    ensures Possible(from, [a, b, c, d]) && Run(from, [a, b, c, d]) == Next(Next(Next(Next(from, a), b), c), d)
  {
    RunTwo(from, a, b);
    RunSnoc(from, [a, b], c);
    assert [a, b] + [c] == [a, b, c];
    RunSnoc(from, [a, b, c], d);
    assert [a, b, c] + [d] == [a, b, c, d];
  }

  /** Past five minutes it can lose one: a later failure renews the timer, but the periodic
      sweep drops the entry by the age of its first failure, and the third failure, three
      milliseconds after the second, makes no report. */
  lemma SweepForgets()
    ensures var events := [Fails("k", 0), Fails("k", EXPIRE_MS - 1), Sweeps(EXPIRE_MS + 1), Fails("k", EXPIRE_MS + 2)];
            Possible(EMPTY, events) && Count(Run(EMPTY, events).failures, "k") == 3
                                    && Count(Run(EMPTY, events).reports, "k") == 0
  {
    RenewedThenSwept();
    RunFour(EMPTY, Fails("k", 0), Fails("k", EXPIRE_MS - 1), Sweeps(EXPIRE_MS + 1), Fails("k", EXPIRE_MS + 2));
  }

  // ---- messages and keys ----

  // The second pair is the first one with the colon further to the right.
  ghost predicate ColonLater(i: string, a: string, j: string, b: string) {
    exists c: string :: j == i + ":" + c && a == c + ":" + b
  }

  lemma KeyCut(i: string, a: string, j: string, b: string)
    requires RetryKey(i, a) == RetryKey(j, b) && |i| <= |j|
    ensures (i == j && a == b) || ColonLater(i, a, j, b)
  {
    var k := RetryKey(i, a);
    assert k[..|i|] == i && k[|i|] == ':' && k[|i| + 1..] == a;
    assert k[..|j|] == j && k[|j|] == ':' && k[|j| + 1..] == b;
    if |i| < |j| {
      var c := j[|i| + 1..];
      assert j[..|i|] == i && j[|i|] == ':';
      assert j == i + ":" + c;
      assert a == c + ":" + b;
    }
  }

  lemma KeyShift(i: string, a: string, j: string, b: string)
    requires ColonLater(i, a, j, b)
    ensures RetryKey(i, a) == RetryKey(j, b)
  {
    var c: string :| j == i + ":" + c && a == c + ":" + b;
    assert i + ":" + (c + ":" + b) == (i + ":" + c) + ":" + b;
  }

  /** Two messages share a retry key if and only if they are one message or one pair of chat and
      id is the other with the colon moved. */
  lemma KeysCollideIff(i: string, a: string, j: string, b: string)
    ensures RetryKey(i, a) == RetryKey(j, b) <==>
            (i == j && a == b) || ColonLater(i, a, j, b) || ColonLater(j, b, i, a)
  {
    if RetryKey(i, a) == RetryKey(j, b) {
      if |i| <= |j| { KeyCut(i, a, j, b); } else { KeyCut(j, b, i, a); }
    }
    if ColonLater(i, a, j, b) { KeyShift(i, a, j, b); }
    if ColonLater(j, b, i, a) { KeyShift(j, b, i, a); }
  }

  lemma ColonInside(i: string, a: string, j: string, b: string)
    requires ColonLater(i, a, j, b)
    ensures ':' in a && |j| > |i|
  {
    var c: string :| j == i + ":" + c && a == c + ":" + b;
    assert a[|c|] == ':';
  }

  /** So ids without a colon, and any ids in one chat, are kept apart. */
  lemma KeysAreApart(i: string, a: string, j: string, b: string)
    requires (':' !in a && ':' !in b) || i == j
    ensures RetryKey(i, a) == RetryKey(j, b) <==> i == j && a == b
  {
    KeysCollideIff(i, a, j, b);
    if ColonLater(i, a, j, b) { ColonInside(i, a, j, b); }
    if ColonLater(j, b, i, a) { ColonInside(j, b, i, a); }
  }

  // ---- runs over messages, with the journal ----

  datatype MsgEvent = FailsMsg(jid: string, msgId: string, now: int) | SucceedsMsg(jid: string, msgId: string, now: int)
                    | FiresMsg(id: TimerId, now: int) | SweepsMsg(now: int)

  datatype Sys = Sys(tracker: Tracker, rows: Journal.Table)

  function KeyEvent(e: MsgEvent): Event {
    match e
    case FailsMsg(jid, msgId, now) => Fails(RetryKey(jid, msgId), now)
    case SucceedsMsg(jid, msgId, now) => Succeeds(RetryKey(jid, msgId), now)
    case FiresMsg(id, now) => Fires(id, now)
    case SweepsMsg(now) => Sweeps(now)
  }

  // The handlers OnFailure, OnSuccess, OnTimeout and PeriodicSweep as values.
  function NextMsg(s: Sys, e: MsgEvent): Sys
    requires Enabled(s.tracker, KeyEvent(e))
  {
    var rows :=
      match e
      case FailsMsg(jid, msgId, now) => Journalled(s.rows, s.tracker, jid, msgId, now)
      case SucceedsMsg(jid, msgId, _) =>
        if RetryKey(jid, msgId) in s.tracker.entries then Journal.SetProcessed(s.rows, msgId, Journal.PROCESSED) else s.rows
      case _ => s.rows;
    Sys(Next(s.tracker, KeyEvent(e)), rows)
  }

  predicate PossibleMsgs(events: seq<MsgEvent>)
    decreases |events|, 0
  {
    events != [] ==>
      var n := |events| - 1;
      PossibleMsgs(events[..n]) && Enabled(RunMsgs(events[..n]).tracker, KeyEvent(events[n]))
  }

  function RunMsgs(events: seq<MsgEvent>): Sys
    requires PossibleMsgs(events)
    decreases |events|, 1
  {
    if events == [] then Sys(EMPTY, map[]) else NextMsg(RunMsgs(events[..|events| - 1]), events[|events| - 1])
  }

  // No message id holds a colon.
  predicate PlainIds(events: seq<MsgEvent>) {
    forall i :: 0 <= i < |events| ==> events[i].FailsMsg? ==> ':' !in events[i].msgId
  }

  // Every message the tracker holds something against has its row.
  ghost predicate Recorded(s: Sys) {
    forall jid: string, msgId: string :: ':' !in msgId && RetryKey(jid, msgId) in s.tracker.entries ==> msgId in s.rows
  }

  lemma NextEntries(t: Tracker, e: Event, key: Key)
    requires Enabled(t, e) && key in Next(t, e).entries
    ensures key in t.entries || (e.Fails? && e.key == key)
  {
  }

  lemma RowsGrow(s: Sys, e: MsgEvent)
    requires Enabled(s.tracker, KeyEvent(e))
    ensures forall id :: id in s.rows ==> id in NextMsg(s, e).rows
    ensures e.FailsMsg? && RetryKey(e.jid, e.msgId) !in s.tracker.entries ==> e.msgId in NextMsg(s, e).rows
  {
  }

  lemma StepRecords(s: Sys, e: MsgEvent)
    requires Recorded(s) && Enabled(s.tracker, KeyEvent(e)) && (e.FailsMsg? ==> ':' !in e.msgId)
    ensures Recorded(NextMsg(s, e)) && (e.FailsMsg? ==> e.msgId in NextMsg(s, e).rows)
  {
    RowsGrow(s, e);
    forall jid: string, msgId: string | ':' !in msgId && RetryKey(jid, msgId) in NextMsg(s, e).tracker.entries
      ensures msgId in NextMsg(s, e).rows
    {
      NextEntries(s.tracker, KeyEvent(e), RetryKey(jid, msgId));
      if e.FailsMsg? {
        KeysAreApart(e.jid, e.msgId, jid, msgId);
      }
    }
  }

  /** In every run over messages whose ids hold no colon, each message that ever failed has its
      row in the journal. */
  lemma {:induction false} EveryFailureIsJournalled(events: seq<MsgEvent>, i: nat)
    requires PossibleMsgs(events) && PlainIds(events)
    ensures Recorded(RunMsgs(events))
    ensures i < |events| && events[i].FailsMsg? ==> events[i].msgId in RunMsgs(events).rows
  {
    if events != [] {
      var n := |events| - 1;
      assert PlainIds(events[..n]);
      EveryFailureIsJournalled(events[..n], i);
      StepRecords(RunMsgs(events[..n]), events[n]);
      RowsGrow(RunMsgs(events[..n]), events[n]);
    }
  }

  /** And what is held against one message is not changed by another one's failures and
      successes. */
  lemma OtherMessagesStay(s: Sys, e: MsgEvent, jid: string, msgId: string)
    requires Enabled(s.tracker, KeyEvent(e)) && ((e.FailsMsg? || e.SucceedsMsg?) && !(e.jid == jid && e.msgId == msgId))
    requires (':' !in e.msgId && ':' !in msgId) || e.jid == jid
    ensures var key := RetryKey(jid, msgId);
            && Held(NextMsg(s, e).tracker, key) == Held(s.tracker, key)
            && Count(NextMsg(s, e).tracker.reports, key) == Count(s.tracker.reports, key)
            && (key in s.tracker.entries <==> key in NextMsg(s, e).tracker.entries)
            && (key in s.tracker.entries && key in NextMsg(s, e).tracker.entries ==>
                  NextMsg(s, e).tracker.entries[key] == s.tracker.entries[key])
  {
    KeysAreApart(e.jid, e.msgId, jid, msgId);
  }

  // ---- timers and ages ----

  /** A failure that is not the third leaves the entry with its first time, and one timer that
      is due five minutes after this failure. */
  lemma FailureArms(t: Tracker, key: Key, now: int)
    requires Inv(t) && Held(t, key) < 2
    ensures var t' := Fail(t, key, now);
            && key in t'.entries && t'.entries[key].count == Held(t, key) + 1
            && t'.entries[key].firstSeen == (if key in t.entries then t.entries[key].firstSeen else now)
            && t'.entries[key].expireTimer.Some? && t'.entries[key].expireTimer.value in t'.timers
            && t'.timers[t'.entries[key].expireTimer.value] == Timer(key, now + 300000)
  {
  }

  /** The sweep removes exactly the entries whose first failure is more than five minutes ago. */
  lemma SweepRemovesIff(t: Tracker, key: Key, now: int)
    ensures key in Sweep(t, now).entries <==> key in t.entries && now - t.entries[key].firstSeen <= 300000
    ensures key in Sweep(t, now).entries ==> Sweep(t, now).entries[key] == t.entries[key]
  {
  }
}
