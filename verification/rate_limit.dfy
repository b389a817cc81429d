/** The per-JID sliding-window rate limiter and the escalation debounce, with their periodic
    cleanups (packages/whatsapp-gateway/index.js). */
module RateLimit {

  const MAX := 3
  const WINDOW_MS := 60000

  type Jid = string

  // timestamps.filter(t => now - t < RATE_LIMIT_WINDOW_MS)
  function Recent(s: seq<int>, now: int): seq<int> {
    if s == [] then []
    else
      var n := |s| - 1;
      Recent(s[..n], now) + if now - s[n] < WINDOW_MS then [s[n]] else []
  }

  function Stamps(m: map<Jid, seq<int>>, jid: Jid): seq<int> {
    if jid in m then m[jid] else []
  }

  function Filtered(m: map<Jid, seq<int>>, now: int): map<Jid, seq<int>> {
    map jid | jid in m && Recent(m[jid], now) != [] :: Recent(m[jid], now)
  }

  class RateLimiter {
    var entries: map<Jid, seq<int>>

    constructor ()
      ensures entries == map[]
    {
      entries := map[];
    }

    method FilterStamps(s: seq<int>, now: int) returns (r: seq<int>)
      ensures r == Recent(s, now)
    {
      r := [];
      for i := 0 to |s|
        invariant r == Recent(s[..i], now)
      {
        assert s[..i + 1][..i] == s[..i];
        if now - s[i] < WINDOW_MS {
          r := r + [s[i]];
        }
      }
      assert s[..|s|] == s;
    }

    method IsRateLimited(jid: Jid, now: int) returns (limited: bool)
      modifies this
      ensures limited <==> |Recent(Stamps(old(entries), jid), now)| >= MAX
      ensures entries == Ask(old(entries), jid, now)
    {
      if jid !in entries {
        entries := entries[jid := []];
      }
      var stamps := FilterStamps(entries[jid], now);
      entries := entries[jid := stamps];
      if |stamps| >= MAX {
        return true;
      }
      entries := entries[jid := stamps + [now]];
      return false;
    }

    method PeriodicCleanup(now: int)
      modifies this
      ensures entries == Filtered(old(entries), now)
    {
      var all := entries;
      var todo := all.Keys;
      PartlyNone(all, now);
      while todo != {}
        invariant todo <= all.Keys && entries == Partly(all, todo, now)
        decreases |todo|
      {
        var k :| k in todo;
        PartlyStep(all, todo, k, now);
        var stamps := FilterStamps(all[k], now);
        if stamps == [] {
          entries := entries - {k};
        } else {
          entries := entries[k := stamps];
        }
        todo := todo - {k};
      }
      PartlyDone(all, now);
    }
  }

  // The map while the keys in `todo` are still to be visited.
  function Partly(all: map<Jid, seq<int>>, todo: set<Jid>, now: int): map<Jid, seq<int>> {
    map k | k in all && (k in todo || Recent(all[k], now) != []) :: if k in todo then all[k] else Recent(all[k], now)
  }

  lemma PartlyNone(all: map<Jid, seq<int>>, now: int)
    ensures Partly(all, all.Keys, now) == all
  {
  }

  lemma PartlyDone(all: map<Jid, seq<int>>, now: int)
    ensures Partly(all, {}, now) == Filtered(all, now)
  {
  }

  lemma PartlyStep(all: map<Jid, seq<int>>, todo: set<Jid>, k: Jid, now: int)
    requires k in todo && k in all
    ensures var m, stamps := Partly(all, todo, now), Recent(all[k], now);
            Partly(all, todo - {k}, now) == if stamps == [] then m - {k} else m[k := stamps]
  {
    var m, stamps := Partly(all, todo, now), Recent(all[k], now);
    var next := if stamps == [] then m - {k} else m[k := stamps];
    assert Partly(all, todo - {k}, now).Keys == next.Keys;
  }

  lemma {:induction false} RecentIff(s: seq<int>, now: int, t: int)
    ensures t in Recent(s, now) <==> t in s && now - t < 60000
  {
    if s != [] {
      var n := |s| - 1;
      RecentIff(s[..n], now, t);
      assert s == s[..n] + [s[n]];
    }
  }

  /** The cleanup keeps exactly the JIDs with a time stamp from the last minute, and of their
      stamps those. */
  lemma CleanupLeaves(m: map<Jid, seq<int>>, now: int, jid: Jid)
    ensures jid in Filtered(m, now) <==> jid in m && exists t :: t in m[jid] && now - t < 60000
    ensures jid in Filtered(m, now) ==> forall t :: t in Filtered(m, now)[jid] <==> t in m[jid] && now - t < 60000
  {
    if jid in m {
      var kept := Recent(m[jid], now);
      forall t ensures t in kept <==> t in m[jid] && now - t < 60000 {
        RecentIff(m[jid], now, t);
      }
      assert kept != [] ==> kept[0] in kept;
    }
  }

  function Ask(m: map<Jid, seq<int>>, jid: Jid, now: int): map<Jid, seq<int>> {
    var stamps := Recent(Stamps(m, jid), now);
    m[jid := if |stamps| >= MAX then stamps else stamps + [now]]
  }

  // ---- runs, with the complete history beside the pruned map ----

  datatype Decision = Decision(jid: Jid, now: int, limited: bool)

  datatype State = State(entries: map<Jid, seq<int>>, clock: int, log: seq<Decision>)

  datatype Event = Asks(jid: Jid, now: int) | Cleans(now: int)

  const START := State(map[], 0, [])

  function Next(s: State, e: Event): State {
    match e
    case Asks(jid, now) =>
      State(Ask(s.entries, jid, now), now,
            s.log + [Decision(jid, now, |Recent(Stamps(s.entries, jid), now)| >= MAX)])
    case Cleans(now) => State(Filtered(s.entries, now), now, s.log)
  }

  function Run(events: seq<Event>): State {
    if events == [] then START else Next(Run(events[..|events| - 1]), events[|events| - 1])
  }

  ghost predicate Timely(events: seq<Event>) {
    && (events != [] ==> events[0].now >= 0)
    && (forall i, j :: 0 <= i < j < |events| ==> events[i].now <= events[j].now)
  }

  // Every acceptance ever made for a JID, oldest first.
  function Accepted(log: seq<Decision>, jid: Jid): seq<int> {
    if log == [] then []
    else
      var n := |log| - 1;
      Accepted(log[..n], jid) + if log[n].jid == jid && !log[n].limited then [log[n].now] else []
  }

  /** The decision as the complete history prescribes it: limited exactly when three
      acceptances lie in the trailing window. */
  ghost predicate Prescribed(log: seq<Decision>, k: nat)
    requires k < |log|
  {
    var inWindow := |Recent(Accepted(log[..k], log[k].jid), log[k].now)|;
    (log[k].limited <==> inWindow >= MAX) && inWindow <= MAX
  }

  lemma {:induction false} RecentTwice(s: seq<int>, a: int, b: int)
    requires a <= b
    ensures Recent(Recent(s, a), b) == Recent(s, b)
  {
    if s != [] {
      var n := |s| - 1;
      RecentTwice(s[..n], a, b);
      RecentSnoc(Recent(s[..n], a), s[n], b);
      assert Recent(s[..n], a) + [] == Recent(s[..n], a);
      assert Recent(s[..n], b) + [] == Recent(s[..n], b);
    }
  }

  lemma RecentSnoc(s: seq<int>, x: int, now: int)
    ensures Recent(s + [x], now) == Recent(s, now) + if now - x < WINDOW_MS then [x] else []
  {
    assert (s + [x])[..|s|] == s;
  }

  // In order, none later than the clock, and never four within a window.
  ghost predicate Spread(s: seq<int>, clock: int) {
    && (forall i, j :: 0 <= i < j < |s| ==> s[i] <= s[j])
    && (forall i :: 0 <= i < |s| ==> s[i] <= clock)
    && (forall i :: 3 <= i < |s| ==> s[i] - s[i - 3] >= WINDOW_MS)
  }

  lemma LastThreeRecent(s: seq<int>, now: int)
    requires |s| >= 3 && Spread(s, now) && now - s[|s| - 3] < WINDOW_MS
    ensures |Recent(s, now)| >= 3
  {
    var n := |s|;
    var t, u := s[..n - 1], s[..n - 2];
    assert t[..n - 2] == u && u[..n - 3] == s[..n - 3];
    assert s[n - 3] <= s[n - 2] <= s[n - 1];
    assert |Recent(u, now)| >= 1 && |Recent(t, now)| >= 2;
  }

  lemma {:induction false} NoneRecent(s: seq<int>, now: int)
    requires forall i :: 0 <= i < |s| ==> now - s[i] >= WINDOW_MS
    ensures Recent(s, now) == []
  {
    if s != [] { NoneRecent(s[..|s| - 1], now); }
  }

  lemma {:induction false} RecentLength(s: seq<int>, now: int)
    ensures |Recent(s, now)| <= |s|
  {
    if s != [] { RecentLength(s[..|s| - 1], now); }
  }

  /** Spread acceptances never put more than three into a trailing window. */
  lemma AtMostThree(s: seq<int>, now: int)
    requires Spread(s, now)
    ensures |Recent(s, now)| <= MAX
  {
    var n := |s|;
    if n <= 3 {
      RecentLength(s, now);
    } else {
      var t, u, v := s[..n - 1], s[..n - 2], s[..n - 3];
      assert t[..n - 2] == u && u[..n - 3] == v;
      forall i | 0 <= i < |v| ensures now - v[i] >= WINDOW_MS {
        assert v[i] <= s[n - 4] && s[n - 1] - s[n - 4] >= WINDOW_MS;
      }
      NoneRecent(v, now);
      assert |Recent(u, now)| <= 1;
      assert |Recent(t, now)| <= 2;
    }
  }

  // Between events: the pruned list of every JID agrees with the complete one.
  ghost predicate JidInv(s: State, jid: Jid) {
    var all := Accepted(s.log, jid);
    Recent(Stamps(s.entries, jid), s.clock) == Recent(all, s.clock) && Spread(all, s.clock)
  }

  ghost predicate Inv(s: State) {
    && (forall jid :: JidInv(s, jid))
    && (forall k :: 0 <= k < |s.log| ==> Prescribed(s.log, k))
  }

  lemma SameRecent(s: State, jid: Jid, now: int)
    requires JidInv(s, jid) && now >= s.clock
    ensures Recent(Stamps(s.entries, jid), now) == Recent(Accepted(s.log, jid), now)
  {
    RecentTwice(Stamps(s.entries, jid), s.clock, now);
    RecentTwice(Accepted(s.log, jid), s.clock, now);
  }

  lemma AskOther(s: State, jid: Jid, now: int, other: Jid)
    requires JidInv(s, other) && now >= s.clock && other != jid
    ensures JidInv(Next(s, Asks(jid, now)), other)
  {
    var s' := Next(s, Asks(jid, now));
    OtherStays(s, jid, now, other);
    SameRecent(s, other, now);
    assert s'.clock == now;
  }

  lemma OtherStays(s: State, jid: Jid, now: int, other: Jid)
    requires other != jid
    ensures var s' := Next(s, Asks(jid, now));
            Stamps(s'.entries, other) == Stamps(s.entries, other) && Accepted(s'.log, other) == Accepted(s.log, other)
  {
    AcceptedSnoc(s.log, Decision(jid, now, |Recent(Stamps(s.entries, jid), now)| >= MAX), other);
    assert Accepted(s.log, other) + [] == Accepted(s.log, other);
  }

  lemma AskSame(s: State, jid: Jid, now: int)
    requires JidInv(s, jid) && now >= s.clock
    ensures JidInv(Next(s, Asks(jid, now)), jid)
  {
    var all := Accepted(s.log, jid);
    AcceptedSnoc(s.log, Decision(jid, now, |Recent(Stamps(s.entries, jid), now)| >= MAX), jid);
    assert all + [] == all;
    AskList(Stamps(s.entries, jid), all, s.clock, now);
  }

  lemma AcceptedSnoc(log: seq<Decision>, d: Decision, jid: Jid)
    ensures Accepted(log + [d], jid) == Accepted(log, jid) + if d.jid == jid && !d.limited then [d.now] else []
  {
    assert (log + [d])[..|log|] == log;
  }

  // One question about a JID, on its pruned and its complete list.
  lemma AskList(pruned: seq<int>, all: seq<int>, clock: int, now: int)
    requires Recent(pruned, clock) == Recent(all, clock) && Spread(all, clock) && now >= clock
    ensures var stamps := Recent(pruned, now);
            && Spread(all, now) && Recent(stamps, now) == Recent(all, now)
            && (|stamps| < MAX ==> Recent(stamps + [now], now) == Recent(all + [now], now) && Spread(all + [now], now))
  {
    AskRecent(pruned, all, clock, now);
    if |Recent(pruned, now)| < MAX {
      SpreadSnoc(all, now);
    }
  }

  lemma AskRecent(pruned: seq<int>, all: seq<int>, clock: int, now: int)
    requires Recent(pruned, clock) == Recent(all, clock) && now >= clock
    ensures var stamps := Recent(pruned, now);
            stamps == Recent(all, now) == Recent(stamps, now) && Recent(stamps + [now], now) == Recent(all + [now], now)
  {
    RecentTwice(pruned, clock, now);
    RecentTwice(all, clock, now);
    RecentTwice(pruned, now, now);
    RecentSnoc(Recent(pruned, now), now, now);
    RecentSnoc(all, now, now);
  }

  lemma {:induction false} SpreadSnoc(all: seq<int>, now: int)
    requires Spread(all, now) && |Recent(all, now)| < MAX
    ensures Spread(all + [now], now)
  {
    var more, n := all + [now], |all|;
    forall i, j | 0 <= i < j < |more| ensures more[i] <= more[j] {
      assert more[i] == all[i] && (j < n ==> more[j] == all[j]);
    }
    forall i | 3 <= i < |more| ensures more[i] - more[i - 3] >= WINDOW_MS {
      if i < n {
        assert more[i] == all[i] && more[i - 3] == all[i - 3];
      } else if now - all[n - 3] < WINDOW_MS {
        LastThreeRecent(all, now);
      }
    }
  }

  lemma AskKeeps(s: State, jid: Jid, now: int)
    requires Inv(s) && now >= s.clock
    ensures Inv(Next(s, Asks(jid, now)))
  {
    var s' := Next(s, Asks(jid, now));
    forall other ensures JidInv(s', other) {
      assert JidInv(s, jid) && JidInv(s, other);
      if other == jid {
        AskSame(s, jid, now);
      } else {
        AskOther(s, jid, now, other);
      }
    }
    forall k | 0 <= k < |s'.log| ensures Prescribed(s'.log, k) {
      if k < |s.log| {
        assert s'.log[..k] == s.log[..k];
        assert Prescribed(s.log, k);
      } else {
        assert s'.log[..k] == s.log;
        assert JidInv(s, jid);
        SameRecent(s, jid, now);
        AtMostThree(Accepted(s.log, jid), now);
      }
    }
  }

  lemma CleanKeeps(s: State, now: int)
    requires Inv(s) && now >= s.clock
    ensures Inv(Next(s, Cleans(now)))
  {
    var s' := Next(s, Cleans(now));
    forall jid ensures JidInv(s', jid) {
      assert JidInv(s, jid);
      SameRecent(s, jid, now);
      RecentTwice(Stamps(s.entries, jid), now, now);
    }
  }

  /** In every run each decision is the one the complete unpruned history prescribes, and a
      refusal means exactly three acceptances in the trailing window. */
  lemma {:induction false} EveryRunKeeps(events: seq<Event>)
    requires Timely(events)
    ensures Inv(Run(events))
    ensures Run(events).clock == if events == [] then 0 else events[|events| - 1].now
  {
    if events != [] {
      var n := |events| - 1;
      EveryRunKeeps(events[..n]);
      match events[n]
      case Asks(jid, now) => AskKeeps(Run(events[..n]), jid, now);
      case Cleans(now) => CleanKeeps(Run(events[..n]), now);
    }
  }

  // How often the JID was accepted less than a minute before.
  function AcceptedWithin(log: seq<Decision>, jid: Jid, now: int): nat {
    if log == [] then 0
    else
      var n := |log| - 1;
      AcceptedWithin(log[..n], jid, now) + if log[n].jid == jid && !log[n].limited && now - log[n].now < 60000 then 1 else 0
  }

  lemma {:induction false} RecentCounts(log: seq<Decision>, jid: Jid, now: int)
    ensures |Recent(Accepted(log, jid), now)| == AcceptedWithin(log, jid, now)
  {
    if log != [] {
      var n := |log| - 1;
      RecentCounts(log[..n], jid, now);
      var last := log[n];
      if last.jid == jid && !last.limited {
        RecentSnoc(Accepted(log[..n], jid), last.now, now);
      } else {
        assert Accepted(log[..n], jid) + [] == Accepted(log[..n], jid);
      }
    }
  }

  /** In every run a request is refused if and only if three of the JID's requests were accepted
      less than a minute before it. */
  lemma RefusedIff(events: seq<Event>, k: nat)
    requires Timely(events) && k < |Run(events).log|
    ensures var log := Run(events).log;
            log[k].limited <==> AcceptedWithin(log[..k], log[k].jid, log[k].now) >= 3
  {
    EveryRunKeeps(events);
    var log := Run(events).log;
    assert Prescribed(log, k);
    RecentCounts(log[..k], log[k].jid, log[k].now);
  }

  // The members of a list that lie in the window that ends at `end`, wherever that is.
  function InWindow(s: seq<int>, end: int): seq<int> {
    if s == [] then []
    else
      var n := |s| - 1;
      InWindow(s[..n], end) + if end - 60000 < s[n] <= end then [s[n]] else []
  }

  lemma {:induction false} WindowHoldsThree(s: seq<int>, clock: int, end: int)
    requires Spread(s, clock)
    ensures |InWindow(s, end)| <= MAX
  {
    if s != [] {
      var n := |s| - 1;
      if s[n] > end {
        WindowHoldsThree(s[..n], clock, end);
      } else {
        WindowIsRecent(s, end);
        AtMostThree(s, end);
      }
    }
  }

  lemma {:induction false} WindowIsRecent(s: seq<int>, end: int)
    requires forall i :: 0 <= i < |s| ==> s[i] <= end
    ensures InWindow(s, end) == Recent(s, end)
  {
    if s != [] { WindowIsRecent(s[..|s| - 1], end); }
  }

  /** At most three acceptances per JID in any window whatever, of any run. */
  lemma AtMostThreePerWindow(events: seq<Event>, jid: Jid, end: int)
    requires Timely(events)
    ensures |InWindow(Accepted(Run(events).log, jid), end)| <= 3
  {
    EveryRunKeeps(events);
    assert JidInv(Run(events), jid);
    WindowHoldsThree(Accepted(Run(events).log, jid), Run(events).clock, end);
  }

  function AsksOnly(events: seq<Event>): seq<Event> {
    if events == [] then []
    else
      var n := |events| - 1;
      AsksOnly(events[..n]) + if events[n].Asks? then [events[n]] else []
  }

  lemma {:induction false} AsksTimely(events: seq<Event>, bound: int)
    requires Timely(events) && (events != [] ==> events[|events| - 1].now <= bound)
    ensures Timely(AsksOnly(events)) && forall i :: 0 <= i < |AsksOnly(events)| ==> 0 <= AsksOnly(events)[i].now <= bound
  {
    if events != [] {
      var n := |events| - 1;
      AsksTimely(events[..n], events[n].now);
    }
  }

  /** The periodic cleanup never changes any decision. */
  lemma {:induction false} CleanupIsInvisible(events: seq<Event>)
    requires Timely(events)
    ensures Timely(AsksOnly(events)) && Run(events).log == Run(AsksOnly(events)).log
  {
    if events != [] {
      var n := |events| - 1;
      var e, before := events[n], events[..n];
      AsksTimely(events, e.now);
      CleanupIsInvisible(before);
      if e.Asks? {
        CleanupStep(before, e);
        RunSnoc(AsksOnly(before), e);
      } else {
        assert AsksOnly(before) + [] == AsksOnly(before);
      }
    }
  }

  lemma RunSnoc(events: seq<Event>, e: Event)
    ensures Run(events + [e]) == Next(Run(events), e)
  {
    assert (events + [e])[..|events|] == events;
  }

  lemma CleanupStep(before: seq<Event>, e: Event)
    requires Timely(before) && Timely(AsksOnly(before)) && e.Asks?
    requires before == [] || before[|before| - 1].now <= e.now
    requires Run(before).log == Run(AsksOnly(before)).log && 0 <= e.now
    ensures Next(Run(before), e).log == Next(Run(AsksOnly(before)), e).log
  {
    AsksTimely(before, e.now);
    EveryRunKeeps(before);
    EveryRunKeeps(AsksOnly(before));
    SameDecision(Run(before), Run(AsksOnly(before)), e.jid, e.now);
  }

  lemma SameDecision(a: State, b: State, jid: Jid, now: int)
    requires Inv(a) && Inv(b) && a.log == b.log && now >= a.clock && now >= b.clock
    ensures Next(a, Asks(jid, now)).log == Next(b, Asks(jid, now)).log
  {
    assert JidInv(a, jid) && JidInv(b, jid);
    SameRecent(a, jid, now);
    SameRecent(b, jid, now);
  }
}

/** The escalation debounce: shouldDebounceEscalation and its cleanup. */
module Escalation {
  import opened TimedMap

  const DEBOUNCE_MS := 300000

  type Jid = string

  class EscalationDebounce {
    var last: map<Jid, int>

    constructor ()
      ensures last == map[]
    {
      last := map[];
    }

    method ShouldDebounce(jid: Jid, now: int) returns (debounced: bool)
      modifies this
      ensures debounced <==> Debounces(old(last), jid, now)
      ensures last == Ask(old(last), jid, now)
    {
      if jid in last && last[jid] != 0 && now - last[jid] < DEBOUNCE_MS {
        return true;
      }
      last := last[jid := now];
      return false;
    }

    method PeriodicCleanup(now: int)
      modifies this
      ensures last == Kept(old(last), ts => now - ts <= DEBOUNCE_MS)
    {
      last := Prune(last, ts => now - ts <= DEBOUNCE_MS);
    }
  }

  predicate Debounces(last: map<Jid, int>, jid: Jid, now: int) {
    jid in last && last[jid] != 0 && now - last[jid] < DEBOUNCE_MS
  }

  function Ask(last: map<Jid, int>, jid: Jid, now: int): map<Jid, int> {
    if Debounces(last, jid, now) then last else last[jid := now]
  }

  datatype Decision = Decision(jid: Jid, now: int, debounced: bool)

  datatype State = State(last: map<Jid, int>, clock: int, log: seq<Decision>)

  datatype Event = Asks(jid: Jid, now: int) | Cleans(now: int)

  const START := State(map[], 1, [])

  function Next(s: State, e: Event): State {
    match e
    case Asks(jid, now) => State(Ask(s.last, jid, now), now, s.log + [Decision(jid, now, Debounces(s.last, jid, now))])
    case Cleans(now) => State(Kept(s.last, ts => now - ts <= DEBOUNCE_MS), now, s.log)
  }

  function Run(events: seq<Event>): State {
    if events == [] then START else Next(Run(events[..|events| - 1]), events[|events| - 1])
  }

  // The clock is past the epoch and never goes backwards.
  ghost predicate Timely(events: seq<Event>) {
    && (events != [] ==> events[0].now >= 1)
    && (forall i, j :: 0 <= i < j < |events| ==> events[i].now <= events[j].now)
  }

  predicate Escalates(d: Decision, jid: Jid) {
    d.jid == jid && !d.debounced
  }

  ghost predicate EscalatedWithin(log: seq<Decision>, jid: Jid, now: int) {
    exists j :: 0 <= j < |log| && Escalates(log[j], jid) && now - log[j].now < 300000
  }

  ghost predicate Prescribed(log: seq<Decision>, k: nat)
    requires k < |log|
  {
    log[k].debounced <==> EscalatedWithin(log[..k], log[k].jid, log[k].now)
  }

  ghost predicate HasEscalation(log: seq<Decision>, jid: Jid, at: int) {
    exists j :: 0 <= j < |log| && Escalates(log[j], jid) && log[j].now == at
  }

  ghost predicate Remembered(s: State, d: Decision) {
    (d.jid in s.last && s.last[d.jid] >= d.now) || s.clock - d.now >= DEBOUNCE_MS
  }

  ghost predicate Inv(s: State) {
    && (forall jid :: jid in s.last ==> s.last[jid] >= 1 && HasEscalation(s.log, jid, s.last[jid]))
    && (forall j :: 0 <= j < |s.log| && !s.log[j].debounced ==> Remembered(s, s.log[j]))
    && (forall j :: 0 <= j < |s.log| ==> s.log[j].now <= s.clock)
    && (forall k :: 0 <= k < |s.log| ==> Prescribed(s.log, k))
  }

  lemma LastIsHistory(s: State, jid: Jid, now: int)
    requires Inv(s) && now >= s.clock
    ensures Debounces(s.last, jid, now) <==> EscalatedWithin(s.log, jid, now)
  {
    if j :| 0 <= j < |s.log| && Escalates(s.log[j], jid) && now - s.log[j].now < DEBOUNCE_MS {
      assert Remembered(s, s.log[j]);
    }
  }

  lemma AskKeeps(s: State, jid: Jid, now: int)
    requires Inv(s) && now >= s.clock >= 1
    ensures Inv(Next(s, Asks(jid, now)))
  {
    var s', n := Next(s, Asks(jid, now)), |s.log|;
    LastIsHistory(s, jid, now);
    assert s'.log[..n] == s.log;
    forall k | 0 <= k < |s'.log| ensures Prescribed(s'.log, k) {
      if k < n {
        assert s'.log[..k] == s.log[..k];
        assert Prescribed(s.log, k);
      }
    }
    forall j | 0 <= j < |s'.log| && !s'.log[j].debounced ensures Remembered(s', s'.log[j]) {
      assert j < n ==> s'.log[j] == s.log[j] && Remembered(s, s.log[j]);
    }
    forall k | k in s'.last
      ensures s'.last[k] >= 1 && HasEscalation(s'.log, k, s'.last[k])
    {
      if k in s.last && s'.last[k] == s.last[k] {
        var j :| 0 <= j < n && Escalates(s.log[j], k) && s.log[j].now == s.last[k];
        assert s'.log[j] == s.log[j];
      } else {
        assert Escalates(s'.log[n], k) && s'.log[n].now == s'.last[k];
      }
    }
  }

  lemma CleanKeeps(s: State, now: int)
    requires Inv(s) && now >= s.clock
    ensures Inv(Next(s, Cleans(now)))
  {
    var s' := Next(s, Cleans(now));
    forall j | 0 <= j < |s'.log| && !s'.log[j].debounced ensures Remembered(s', s'.log[j]) {
      assert Remembered(s, s.log[j]);
    }
  }

  /** Each decision of every run is the one the complete history prescribes, so the cleanup
      never shows. */
  lemma {:induction false} EveryRunKeeps(events: seq<Event>)
    requires Timely(events)
    ensures Inv(Run(events))
    ensures Run(events).clock == if events == [] then 1 else events[|events| - 1].now
  {
    if events != [] {
      var n := |events| - 1;
      EveryRunKeeps(events[..n]);
      assert Run(events[..n]).clock >= 1;
      match events[n]
      case Asks(jid, now) => AskKeeps(Run(events[..n]), jid, now);
      case Cleans(now) => CleanKeeps(Run(events[..n]), now);
    }
  }

  /** The cleanup forgets exactly the escalations of more than five minutes ago. */
  lemma CleanupLeaves(s: State, now: int, jid: Jid)
    ensures var last := Next(s, Cleans(now)).last;
            && (jid in last <==> jid in s.last && now - s.last[jid] <= 300000)
            && (jid in last ==> last[jid] == s.last[jid])
  {
  }

  /** Escalations of one stranger are at least five minutes apart. */
  lemma EscalationsAreApart(events: seq<Event>, j: nat, k: nat)
    requires Timely(events) && j < k < |Run(events).log|
    requires var log := Run(events).log; log[j].jid == log[k].jid && !log[j].debounced && !log[k].debounced
    ensures Run(events).log[k].now - Run(events).log[j].now >= 300000
  {
    EveryRunKeeps(events);
    var log := Run(events).log;
    assert Prescribed(log, k);
    assert log[..k][j] == log[j];
  }
}
