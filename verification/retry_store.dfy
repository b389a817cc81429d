/** The bounded store of raw messages for Baileys' retry mechanism: messageStoreSet,
    messageStoreGet and the periodic sweep (packages/whatsapp-gateway/index.js). */
module RetryStore {
  import opened Options

  const STORE_MAX := 500
  const TTL_MS := 600000

  type Id = string

  // One entry of the insertion-ordered Map.
  datatype Slot = Slot(id: Id, message: string, ts: int)

  function Find(slots: seq<Slot>, id: Id): int {
    if slots == [] then -1
    else if slots[0].id == id then 0
    else if Find(slots[1..], id) < 0 then -1 else 1 + Find(slots[1..], id)
  }

  // Map.prototype.set keeps the place of an existing key.
  function Put(slots: seq<Slot>, slot: Slot): seq<Slot> {
    var i := Find(slots, slot.id);
    if 0 <= i < |slots| then slots[i := slot] else slots + [slot]
  }

  function Evict(slots: seq<Slot>): seq<Slot> {
    if |slots| > STORE_MAX then slots[1..] else slots
  }

  function Drop(slots: seq<Slot>, id: Id): seq<Slot> {
    var i := Find(slots, id);
    if 0 <= i < |slots| then slots[..i] + slots[i + 1..] else slots
  }

  function Live(slots: seq<Slot>, now: int): seq<Slot> {
    if slots == [] then []
    else
      var n := |slots| - 1;
      Live(slots[..n], now) + if now - slots[n].ts > TTL_MS then [] else [slots[n]]
  }

  function Lookup(slots: seq<Slot>, id: Id, now: int): Option<string> {
    var i := Find(slots, id);
    if 0 <= i < |slots| && now - slots[i].ts <= TTL_MS then Some(slots[i].message) else None
  }

  function AfterGet(slots: seq<Slot>, id: Id, now: int): seq<Slot> {
    var i := Find(slots, id);
    if 0 <= i < |slots| && now - slots[i].ts > TTL_MS then Drop(slots, id) else slots
  }

  function AfterSet(slots: seq<Slot>, id: Id, message: string, now: int): seq<Slot> {
    if id == "" || message == "" then slots else Evict(Put(slots, Slot(id, message, now)))
  }

  // ---- the code ----

  class MessageStore {
    var slots: seq<Slot>

    constructor ()
      ensures slots == []
    {
      slots := [];
    }

    method Set(id: Id, message: string, now: int)
      modifies this
      ensures slots == AfterSet(old(slots), id, message, now)
    {
      if id == "" || message == "" {
        return;
      }
      slots := Put(slots, Slot(id, message, now));
      if |slots| > STORE_MAX {
        slots := slots[1..];
      }
    }

    method Get(id: Id, now: int) returns (message: Option<string>)
      modifies this
      ensures message == Lookup(old(slots), id, now)
      ensures slots == AfterGet(old(slots), id, now)
    {
      var i := Find(slots, id);
      if i < 0 || i >= |slots| {
        return None;
      }
      if now - slots[i].ts > TTL_MS {
        slots := Drop(slots, id);
        return None;
      }
      return Some(slots[i].message);
    }

    method PeriodicSweep(now: int)
      modifies this
      ensures slots == Live(old(slots), now)
    {
      var kept := [];
      for i := 0 to |slots|
        invariant kept == Live(slots[..i], now)
      {
        assert slots[..i + 1][..i] == slots[..i];
        if now - slots[i].ts <= TTL_MS {
          kept := kept + [slots[i]];
        }
      }
      assert slots[..|slots|] == slots;
      slots := kept;
    }
  }

  // ---- runs, with an unbounded store beside the bounded one ----

  // `latest` is everything ever set; `insertions` counts how often a key was newly inserted, and
  // `at` says which insertion last brought a key in.
  datatype State = State(slots: seq<Slot>, latest: map<Id, Slot>, at: map<Id, nat>, insertions: nat, clock: int)

  datatype Event = Sets(id: Id, message: string, now: int) | Gets(id: Id, now: int) | Sweeps(now: int)

  const START := State([], map[], map[], 0, 0)

  function Next(s: State, e: Event): State {
    match e
    case Sets(id, message, now) =>
      if id == "" || message == "" then s.(clock := now)
      else
        var isNew := Find(s.slots, id) < 0;
        State(AfterSet(s.slots, id, message, now), s.latest[id := Slot(id, message, now)],
              if isNew then s.at[id := s.insertions] else s.at,
              if isNew then s.insertions + 1 else s.insertions, now)
    case Gets(id, now) => s.(slots := AfterGet(s.slots, id, now), clock := now)
    case Sweeps(now) => s.(slots := Live(s.slots, now), clock := now)
  }

  function Run(events: seq<Event>): State {
    if events == [] then START else Next(Run(events[..|events| - 1]), events[|events| - 1])
  }

  ghost predicate Timely(events: seq<Event>) {
    && (events != [] ==> events[0].now >= 0)
    && (forall i, j :: 0 <= i < j < |events| ==> events[i].now <= events[j].now)
  }

  // The store holds the latest version of each of its keys, in the order of their insertion.
  ghost predicate Ordered(slots: seq<Slot>, latest: map<Id, Slot>, at: map<Id, nat>, insertions: nat) {
    && (forall i :: 0 <= i < |slots| ==> slots[i].id in latest && latest[slots[i].id] == slots[i])
    && (forall i :: 0 <= i < |slots| ==> slots[i].id in at && at[slots[i].id] < insertions)
    && (forall i, j :: 0 <= i < j < |slots| ==> at[slots[i].id] < at[slots[j].id])
  }

  ghost predicate Holds(slots: seq<Slot>, id: Id) {
    exists i :: 0 <= i < |slots| && slots[i].id == id
  }

  // A key that is gone has expired or has seen at least 500 newer insertions.
  ghost predicate Excused(s: State, id: Id)
    requires id in s.latest && id in s.at
  {
    Holds(s.slots, id) || s.clock - s.latest[id].ts > TTL_MS || s.insertions - s.at[id] > STORE_MAX
  }

  ghost predicate Inv(s: State) {
    && |s.slots| <= STORE_MAX
    && Ordered(s.slots, s.latest, s.at, s.insertions)
    && s.latest.Keys == s.at.Keys
    && (forall id :: id in s.latest ==> s.latest[id].id == id && s.latest[id].ts <= s.clock && Excused(s, id))
  }

  lemma {:induction false} FindHolds(slots: seq<Slot>, id: Id)
    ensures var i := Find(slots, id);
            && (i < 0 <==> !Holds(slots, id))
            && (i >= 0 ==> i < |slots| && slots[i].id == id)
  {
    if slots != [] && slots[0].id != id {
      FindHolds(slots[1..], id);
      if Holds(slots, id) {
        var i :| 0 <= i < |slots| && slots[i].id == id;
        assert slots[1..][i - 1].id == id;
      }
      if Holds(slots[1..], id) {
        var i :| 0 <= i < |slots[1..]| && slots[1..][i].id == id;
        assert slots[i + 1].id == id;
      }
    }
  }

  lemma {:induction false} Packed(slots: seq<Slot>, latest: map<Id, Slot>, at: map<Id, nat>, insertions: nat, i: nat)
    requires Ordered(slots, latest, at, insertions) && i < |slots|
    ensures at[slots[i].id] + (|slots| - i) <= insertions
    decreases |slots| - i
  {
    if i + 1 < |slots| {
      Packed(slots, latest, at, insertions, i + 1);
    }
  }

  lemma ReplaceOrdered(s: State, i: nat, slot: Slot)
    requires Inv(s) && i < |s.slots| && s.slots[i].id == slot.id
    ensures Ordered(s.slots[i := slot], s.latest[slot.id := slot], s.at, s.insertions)
  {
  }

  lemma AppendOrdered(s: State, slot: Slot)
    requires Inv(s) && !Holds(s.slots, slot.id)
    ensures Ordered(s.slots + [slot], s.latest[slot.id := slot], s.at[slot.id := s.insertions], s.insertions + 1)
  {
  }

  lemma TailOrdered(slots: seq<Slot>, latest: map<Id, Slot>, at: map<Id, nat>, insertions: nat)
    requires Ordered(slots, latest, at, insertions) && slots != []
    ensures Ordered(slots[1..], latest, at, insertions)
  {
  }

  lemma SetKeeps(s: State, e: Event)
    requires Inv(s) && e.Sets? && e.now >= s.clock
    ensures Inv(Next(s, e))
  {
    if e.id != "" && e.message != "" {
      FindHolds(s.slots, e.id);
      if Find(s.slots, e.id) >= 0 {
        SetOld(s, e);
      } else {
        SetNew(s, e);
      }
    }
  }

  lemma SetOld(s: State, e: Event)
    requires Inv(s) && e.Sets? && e.now >= s.clock && e.id != "" && e.message != ""
    requires 0 <= Find(s.slots, e.id) < |s.slots| && s.slots[Find(s.slots, e.id)].id == e.id
    ensures Inv(Next(s, e))
  {
    var s', i := Next(s, e), Find(s.slots, e.id);
    ReplaceOrdered(s, i, Slot(e.id, e.message, e.now));
    assert s'.slots == s.slots[i := Slot(e.id, e.message, e.now)];
    forall id | id in s'.latest ensures s'.latest[id].id == id && Excused(s', id) {
      if Holds(s.slots, id) {
        var j :| 0 <= j < |s.slots| && s.slots[j].id == id;
        assert s'.slots[j].id == id;
      }
    }
  }

  lemma SetNew(s: State, e: Event)
    requires Inv(s) && e.Sets? && e.now >= s.clock && e.id != "" && e.message != ""
    requires Find(s.slots, e.id) < 0 && !Holds(s.slots, e.id)
    ensures Inv(Next(s, e))
  {
    var s', slot := Next(s, e), Slot(e.id, e.message, e.now);
    NewOrdered(s, slot);
    assert s'.latest.Keys == s'.at.Keys;
    forall id | id in s'.latest ensures s'.latest[id].id == id && s'.latest[id].ts <= s'.clock && Excused(s', id) {
      ExcusedAfterNew(s, e, id);
    }
  }

  lemma NewOrdered(s: State, slot: Slot)
    requires Inv(s) && Find(s.slots, slot.id) < 0 && !Holds(s.slots, slot.id)
    ensures var slots := Evict(Put(s.slots, slot));
            && |slots| <= STORE_MAX
            && Ordered(slots, s.latest[slot.id := slot], s.at[slot.id := s.insertions], s.insertions + 1)
  {
    AppendOrdered(s, slot);
    EvictOrdered(s.slots + [slot], s.latest[slot.id := slot], s.at[slot.id := s.insertions], s.insertions + 1);
  }

  lemma EvictOrdered(slots: seq<Slot>, latest: map<Id, Slot>, at: map<Id, nat>, insertions: nat)
    requires Ordered(slots, latest, at, insertions)
    ensures Ordered(Evict(slots), latest, at, insertions)
  {
    if |slots| > STORE_MAX {
      TailOrdered(slots, latest, at, insertions);
    }
  }

  lemma ExcusedAfterNew(s: State, e: Event, id: Id)
    requires Inv(s) && e.Sets? && e.now >= s.clock && e.id != "" && e.message != ""
    requires Find(s.slots, e.id) < 0 && !Holds(s.slots, e.id) && (id in s.latest || id == e.id)
    ensures id in Next(s, e).latest && id in Next(s, e).at && Excused(Next(s, e), id)
  {
    var slot := Slot(e.id, e.message, e.now);
    GrownHolds(s.slots, slot);
    if id != e.id {
      assert Excused(s, id);
      if Holds(s.slots, id) {
        var j :| 0 <= j < |s.slots| && s.slots[j].id == id;
        GrownKeeps(s.slots, slot, j);
        if j == 0 {
          Packed(s.slots, s.latest, s.at, s.insertions, 0);
        }
      }
    }
  }

  lemma GrownHolds(slots: seq<Slot>, slot: Slot)
    ensures Holds(Evict(slots + [slot]), slot.id)
  {
    var r := Evict(slots + [slot]);
    assert r[|r| - 1] == slot;
  }

  // The oldest slot is the only one that can go.
  lemma GrownKeeps(slots: seq<Slot>, slot: Slot, j: nat)
    requires j < |slots|
    ensures Holds(Evict(slots + [slot]), slots[j].id) || (j == 0 && |slots| >= STORE_MAX)
  {
    var r := Evict(slots + [slot]);
    if |slots| < STORE_MAX {
      assert r[j] == slots[j];
    } else if j > 0 {
      assert r[j - 1] == slots[j];
    }
  }

  lemma RemoveOrdered(slots: seq<Slot>, i: nat, latest: map<Id, Slot>, at: map<Id, nat>, insertions: nat)
    requires Ordered(slots, latest, at, insertions) && i < |slots|
    ensures Ordered(slots[..i] + slots[i + 1..], latest, at, insertions)
  {
    var r := slots[..i] + slots[i + 1..];
    assert forall j :: 0 <= j < |r| ==> r[j] == slots[if j < i then j else j + 1];
  }

  lemma RemoveHolds(slots: seq<Slot>, i: nat, id: Id)
    requires i < |slots| && Holds(slots, id) && slots[i].id != id
    ensures Holds(slots[..i] + slots[i + 1..], id)
  {
    var j :| 0 <= j < |slots| && slots[j].id == id;
    var r := slots[..i] + slots[i + 1..];
    assert j < i ==> r[j] == slots[j];
    assert j > i ==> r[j - 1] == slots[j];
  }

  lemma DropKeeps(s: State, id: Id, now: int)
    requires Inv(s) && now >= s.clock
    ensures Inv(s.(slots := AfterGet(s.slots, id, now), clock := now))
  {
    var s' := s.(slots := AfterGet(s.slots, id, now), clock := now);
    FindHolds(s.slots, id);
    var i := Find(s.slots, id);
    if i >= 0 && now - s.slots[i].ts > TTL_MS {
      RemoveOrdered(s.slots, i, s.latest, s.at, s.insertions);
      forall k | k in s'.latest ensures Excused(s', k) {
        assert Excused(s, k);
        if Holds(s.slots, k) && k != id {
          RemoveHolds(s.slots, i, k);
        }
      }
    } else {
      forall k | k in s'.latest ensures Excused(s', k) {
        assert Excused(s, k);
      }
    }
  }

  // Sweeping keeps only slots that were there, and all of those that are still fresh.
  ghost predicate Sifted(slots: seq<Slot>, kept: seq<Slot>, now: int) {
    && |kept| <= |slots|
    && (forall j :: 0 <= j < |kept| ==> Holds(slots, kept[j].id))
    && (forall j :: 0 <= j < |slots| && now - slots[j].ts <= TTL_MS ==> Holds(kept, slots[j].id))
  }

  lemma {:induction false} LiveSifts(slots: seq<Slot>, now: int)
    ensures Sifted(slots, Live(slots, now), now)
  {
    if slots != [] {
      var n := |slots| - 1;
      var q := Live(slots[..n], now);
      LiveSifts(slots[..n], now);
      SiftSnoc(slots[..n], q, slots[n], now);
      assert slots == slots[..n] + [slots[n]];
    }
  }

  lemma HoldsMore(slots: seq<Slot>, more: seq<Slot>, id: Id)
    requires Holds(slots, id)
    ensures Holds(slots + more, id)
  {
    var i :| 0 <= i < |slots| && slots[i].id == id;
    assert (slots + more)[i].id == id;
  }

  lemma SiftSnoc(slots: seq<Slot>, kept: seq<Slot>, slot: Slot, now: int)
    requires Sifted(slots, kept, now)
    ensures Sifted(slots + [slot], kept + if now - slot.ts > TTL_MS then [] else [slot], now)
  {
    var more, r := slots + [slot], kept + if now - slot.ts > TTL_MS then [] else [slot];
    forall j | 0 <= j < |r| ensures Holds(more, r[j].id) {
      if j < |kept| {
        HoldsMore(slots, [slot], kept[j].id);
      } else {
        assert more[|slots|].id == r[j].id;
      }
    }
    forall j | 0 <= j < |more| && now - more[j].ts <= TTL_MS ensures Holds(r, more[j].id) {
      if j < |slots| {
        HoldsMore(kept, if now - slot.ts > TTL_MS then [] else [slot], slots[j].id);
      } else {
        assert r[|kept|].id == more[j].id;
      }
    }
  }

  lemma {:induction false} LiveOrdered(slots: seq<Slot>, now: int, latest: map<Id, Slot>, at: map<Id, nat>, insertions: nat)
    requires Ordered(slots, latest, at, insertions)
    ensures Ordered(Live(slots, now), latest, at, insertions)
  {
    if slots != [] {
      var n := |slots| - 1;
      var q := Live(slots[..n], now);
      LiveOrdered(slots[..n], now, latest, at, insertions);
      LiveSifts(slots[..n], now);
      forall j | 0 <= j < |q| ensures at[q[j].id] < at[slots[n].id] {
        var i :| 0 <= i < n && slots[..n][i].id == q[j].id;
      }
      OrderedSnoc(q, slots[n], latest, at, insertions);
      assert q + [] == q;
    }
  }

  lemma OrderedSnoc(q: seq<Slot>, slot: Slot, latest: map<Id, Slot>, at: map<Id, nat>, insertions: nat)
    requires Ordered(q, latest, at, insertions)
    requires slot.id in latest && latest[slot.id] == slot && slot.id in at && at[slot.id] < insertions
    requires forall j :: 0 <= j < |q| ==> at[q[j].id] < at[slot.id]
    ensures Ordered(q + [slot], latest, at, insertions)
  {
  }

  lemma SweepKeeps(s: State, now: int)
    requires Inv(s) && now >= s.clock
    ensures Inv(s.(slots := Live(s.slots, now), clock := now))
  {
    var s' := s.(slots := Live(s.slots, now), clock := now);
    LiveOrdered(s.slots, now, s.latest, s.at, s.insertions);
    LiveSifts(s.slots, now);
    forall k | k in s'.latest ensures Excused(s', k) {
      assert Excused(s, k);
      if Holds(s.slots, k) {
        var j :| 0 <= j < |s.slots| && s.slots[j].id == k;
        assert s.latest[k] == s.slots[j];
      }
    }
  }

  lemma {:induction false} EveryRunKeeps(events: seq<Event>)
    requires Timely(events)
    ensures Inv(Run(events))
    ensures Run(events).clock == if events == [] then 0 else events[|events| - 1].now
  {
    if events != [] {
      var n := |events| - 1;
      EveryRunKeeps(events[..n]);
      match events[n]
      case Sets(_, _, _) => SetKeeps(Run(events[..n]), events[n]);
      case Gets(id, now) => DropKeeps(Run(events[..n]), id, now);
      case Sweeps(now) => SweepKeeps(Run(events[..n]), now);
    }
  }

  /** The sweep leaves exactly the messages of the last ten minutes. */
  lemma {:induction false} SweepLeaves(slots: seq<Slot>, now: int, slot: Slot)
    ensures slot in Live(slots, now) <==> slot in slots && now - slot.ts <= 600000
  {
    if slots != [] {
      var n := |slots| - 1;
      SweepLeaves(slots[..n], now, slot);
      assert slots == slots[..n] + [slots[n]];
    }
  }

  /** Asking for a message that is too old removes it and nothing else; asking for any other
      changes nothing. */
  lemma GetLeaves(s: State, id: Id, now: int, slot: Slot)
    requires Inv(s)
    ensures slot in AfterGet(s.slots, id, now) <==> slot in s.slots && !(slot.id == id && now - slot.ts > 600000)
  {
    var slots, i := s.slots, Find(s.slots, id);
    FindHolds(slots, id);
    if i >= 0 && now - slots[i].ts > TTL_MS {
      Without(slots, i, slot);
      OnlyOne(s, i, slot);
    }
  }

  lemma Without(slots: seq<Slot>, i: nat, slot: Slot)
    requires i < |slots|
    ensures slot in slots <==> slot == slots[i] || slot in slots[..i] + slots[i + 1..]
  {
    assert slots == slots[..i] + [slots[i]] + slots[i + 1..];
  }

  lemma OnlyOne(s: State, i: nat, slot: Slot)
    requires Inv(s) && i < |s.slots|
    ensures slot in s.slots && slot.id == s.slots[i].id ==> slot == s.slots[i]
    ensures s.slots[i] !in s.slots[..i] + s.slots[i + 1..]
  {
    forall j | 0 <= j < |s.slots| && j != i ensures s.slots[j].id != s.slots[i].id {
      assert s.at[s.slots[i].id] != s.at[s.slots[j].id];
    }
  }

  // What an unbounded timed map would answer.
  function Ideal(latest: map<Id, Slot>, id: Id, now: int): Option<string> {
    if id in latest && now - latest[id].ts <= 600000 then Some(latest[id].message) else None
  }

  /** After every run the store holds at most 500 entries; what it returns is what an
      unbounded timed map would return; and it returns it for every key inserted among the
      last 500 insertions. */
  lemma AgreesWithUnbounded(events: seq<Event>, id: Id, now: int)
    requires Timely(events) && now >= Run(events).clock
    ensures var s := Run(events);
            && |s.slots| <= 500
            && (Lookup(s.slots, id, now) == None || Lookup(s.slots, id, now) == Ideal(s.latest, id, now))
            && (id !in s.latest || (id in s.at && s.insertions - s.at[id] <= 500) ==>
                  Lookup(s.slots, id, now) == Ideal(s.latest, id, now))
  {
    EveryRunKeeps(events);
    FindHolds(Run(events).slots, id);
  }

  /** The entry just set is always present. */
  lemma JustSetIsPresent(events: seq<Event>, id: Id, message: string, now: int)
    requires Timely(events) && now >= Run(events).clock && id != "" && message != ""
    ensures Lookup(Next(Run(events), Sets(id, message, now)).slots, id, now) == Some(message)
  {
    EveryRunKeeps(events);
    var s := Run(events);
    var s' := Next(s, Sets(id, message, now));
    SetKeeps(s, Sets(id, message, now));
    FindHolds(s.slots, id);
    FindHolds(s'.slots, id);
    assert Excused(s', id);
    if Find(s.slots, id) >= 0 {
      assert s'.slots[Find(s.slots, id)].id == id;
    } else {
      assert s'.insertions - s'.at[id] == 1;
    }
  }
}
