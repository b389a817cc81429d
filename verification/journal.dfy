/** The gateway's message journal: the `messages` table, its prepared statements, the
    catch-up sweep and the daily cleanup (packages/whatsapp-gateway/index.js). */
module Journal {

  const MAX_RETRIES := 3
  const PENDING := 0
  const PROCESSED := 1
  const FAILED := -1

  type Id = string

  datatype Row = Row(jid: string, text: string, timestamp: int, processed: int, retryCount: int)

  type Table = map<Id, Row>

  predicate Terminal(r: Row) {
    r.processed == PROCESSED || r.processed == FAILED
  }

  // ---- the statements ----

  // INSERT OR IGNORE; retry_count takes its default
  function Insert(t: Table, id: Id, row: Row): Table {
    if id in t then t else t[id := row.(retryCount := 0)]
  }

  // UPDATE messages SET processed = ? WHERE id = ?
  function SetProcessed(t: Table, id: Id, status: int): Table {
    if id in t then t[id := t[id].(processed := status)] else t
  }

  function IncrOrFail(t: Table, id: Id): Table {
    if id !in t then t
    else if t[id].retryCount + 1 >= MAX_RETRIES then SetProcessed(t, id, FAILED)
    else t[id := t[id].(retryCount := t[id].retryCount + 1)]
  }

  // DELETE FROM messages WHERE timestamp < ? AND processed IN (1, -1)
  function DeleteOld(t: Table, cutoff: int): Table {
    map id | id in t && !(t[id].timestamp < cutoff && Terminal(t[id])) :: t[id]
  }

  // What SELECT ... WHERE processed = 0 AND timestamp < ? ORDER BY timestamp ASC may return.
  ghost predicate IsSelection(order: seq<Id>, t: Table, cutoff: int) {
    && (forall i :: 0 <= i < |order| ==> order[i] in t)
    && (forall i, j :: 0 <= i < j < |order| ==> order[i] != order[j] && t[order[i]].timestamp <= t[order[j]].timestamp)
    && (forall id :: id in t ==> (id in order <==> t[id].processed == PENDING && t[id].timestamp < cutoff))
  }

  // ---- one iteration of the sweep ----

  datatype Msg = Msg(id: Id, row: Row)

  // What the network does during an iteration.
  datatype Outcome = AgentUnavailable | ForwardFails | ForwardSucceeds

  predicate IsGroup(jid: string) {
    |jid| >= 5 && jid[|jid| - 5..] == "@g.us"
  }

  function Visit(t: Table, msg: Msg, outcome: Outcome): Table {
    if msg.row.retryCount >= MAX_RETRIES then IncrOrFail(t, msg.id)
    else if msg.row.jid == "" then SetProcessed(t, msg.id, PROCESSED)
    else if outcome == AgentUnavailable then IncrOrFail(t, msg.id)
    else if IsGroup(msg.row.jid) || outcome == ForwardSucceeds then SetProcessed(t, msg.id, PROCESSED)
    else IncrOrFail(t, msg.id)
  }

  // The iteration re-forwards the message and is answered.
  predicate Succeeds(msg: Msg, outcome: Outcome) {
    outcome == ForwardSucceeds && msg.row.retryCount < 3 && msg.row.jid != "" && !IsGroup(msg.row.jid)
  }

  // The iteration gets as far as re-forwarding the message.
  predicate Forwards(msg: Msg, outcome: Outcome) {
    msg.row.retryCount < MAX_RETRIES && msg.row.jid != "" && outcome != AgentUnavailable && !IsGroup(msg.row.jid)
  }

  // ---- what the statements and an iteration do to a row ----

  /** INSERT OR IGNORE adds the given row with no retries, or nothing; an UPDATE sets the one
      column; and nothing happens to any other row. */
  lemma StatementsMean(t: Table, id: Id, row: Row, status: int, other: Id)
    ensures Insert(t, id, row) == if id in t then t
                                  else t[id := Row(row.jid, row.text, row.timestamp, row.processed, 0)]
    ensures id in t ==> SetProcessed(t, id, status) ==
                        t[id := Row(t[id].jid, t[id].text, t[id].timestamp, status, t[id].retryCount)]
    ensures id !in t ==> SetProcessed(t, id, status) == t && IncrOrFail(t, id) == t
    ensures other != id && other in t ==> other in IncrOrFail(t, id) && IncrOrFail(t, id)[other] == t[other]
  {
  }

  /** The cleanup keeps exactly the rows at or after the cutoff and those still pending, as
      they are. */
  lemma CleanupKeepsIff(t: Table, cutoff: int, id: Id)
    ensures id in DeleteOld(t, cutoff) <==>
            id in t && (t[id].timestamp >= cutoff || (t[id].processed != 1 && t[id].processed != -1))
    ensures id in DeleteOld(t, cutoff) ==> DeleteOld(t, cutoff)[id] == t[id]
  {
  }

  // The row as it was, but for its status and its retries.
  function Changed(r: Row, processed: int, retries: int): Row {
    Row(r.jid, r.text, r.timestamp, processed, retries)
  }

  /** A private message that is answered is settled as processed without another retry; one
      that is not loses a retry, and fails at the third. */
  lemma VisitSettles(t: Table, msg: Msg, outcome: Outcome)
    requires msg.id in t && msg.row == t[msg.id] && msg.row.retryCount < 3
    ensures var r, r' := t[msg.id], Visit(t, msg, outcome)[msg.id];
            && (r.jid == "" ==> r' == Changed(r, 1, r.retryCount))
            && (r.jid != "" && outcome.AgentUnavailable? ==> r' == OneMore(r))
            && (r.jid != "" && !outcome.AgentUnavailable? && IsGroup(r.jid) ==> r' == Changed(r, 1, r.retryCount))
            && (r.jid != "" && !IsGroup(r.jid) && outcome.ForwardFails? ==> r' == OneMore(r))
            && (r.jid != "" && !IsGroup(r.jid) && outcome.ForwardSucceeds? ==> r' == Changed(r, 1, r.retryCount))
  {
  }

  function OneMore(r: Row): Row {
    if r.retryCount >= 2 then Changed(r, -1, r.retryCount) else Changed(r, r.processed, r.retryCount + 1)
  }

  // ---- how much retrying is left ----

  function Weight(r: Row): int {
    if r.processed == PENDING then MAX_RETRIES - r.retryCount else 0
  }

  ghost predicate Sound(t: Table) {
    forall id :: id in t ==>
      0 <= t[id].retryCount < MAX_RETRIES && (t[id].processed == PENDING || Terminal(t[id]))
  }

  ghost function Total(t: Table): int {
    if t == map[] then 0
    else
      var id :| id in t;
      Weight(t[id]) + Total(t - {id})
  }

  lemma {:induction false} TotalSplit(t: Table, id: Id)
    requires id in t
    ensures Total(t) == Weight(t[id]) + Total(t - {id})
    decreases |t|
  {
    var k :| k in t && Total(t) == Weight(t[k]) + Total(t - {k});
    if k != id {
      TotalSplit(t - {k}, id);
      TotalSplit(t - {id}, k);
      assert t - {k} - {id} == t - {id} - {k};
    }
  }

  lemma TotalUpdate(t: Table, id: Id, row: Row)
    requires id in t
    ensures Total(t[id := row]) == Total(t) - Weight(t[id]) + Weight(row)
  {
    TotalSplit(t, id);
    TotalSplit(t[id := row], id);
    assert t[id := row] - {id} == t - {id};
  }

  lemma TotalInsert(t: Table, id: Id, row: Row)
    requires id !in t
    ensures Total(t[id := row]) == Total(t) + Weight(row)
  {
    TotalSplit(t[id := row], id);
    assert t[id := row] - {id} == t;
  }

  lemma {:induction false} TotalNonNegative(t: Table)
    requires Sound(t)
    ensures Total(t) >= 0
    decreases |t|
  {
    if t != map[] {
      var k :| k in t && Total(t) == Weight(t[k]) + Total(t - {k});
      assert Weight(t[k]) >= 0;
      TotalNonNegative(t - {k});
    }
  }

  /** Cleanup deletes only rows that no longer weigh anything. */
  lemma {:induction false} TotalDeleteOld(t: Table, cutoff: int)
    ensures Total(DeleteOld(t, cutoff)) == Total(t)
    decreases |t|
  {
    if t == map[] {
      assert DeleteOld(t, cutoff) == map[];
    } else {
      var k :| k in t && Total(t) == Weight(t[k]) + Total(t - {k});
      TotalDeleteOld(t - {k}, cutoff);
      if k in DeleteOld(t, cutoff) {
        TotalSplit(DeleteOld(t, cutoff), k);
        assert DeleteOld(t, cutoff) - {k} == DeleteOld(t - {k}, cutoff);
      } else {
        assert Weight(t[k]) == 0;
        var u := DeleteOld(t, cutoff);
        assert u == DeleteOld(t - {k}, cutoff);
        assert Total(u) == Total(t - {k});
      }
    }
  }

  /** A sweep iteration leaves every other row alone and takes its own row nearer to its
      end: if it was pending it is now terminal or one retry further, and the total falls. */
  lemma VisitLowers(t: Table, msg: Msg, outcome: Outcome)
    requires Sound(t)
    ensures var t' := Visit(t, msg, outcome);
            && Sound(t') && t'.Keys == t.Keys
            && (forall id :: id in t && id != msg.id ==> t'[id] == t[id])
            && (msg.id in t && t[msg.id].processed == PENDING ==>
                  Weight(t'[msg.id]) < Weight(t[msg.id]) && Total(t') < Total(t)
                  && (t'[msg.id].processed == PENDING ==> t'[msg.id].retryCount == t[msg.id].retryCount + 1))
            && (msg.id in t && Terminal(t[msg.id]) ==> Terminal(t'[msg.id]) && Total(t') == Total(t))
            && (msg.id !in t ==> t' == t)
  {
    if msg.id in t {
      var t' := Visit(t, msg, outcome);
      TotalUpdate(t, msg.id, t'[msg.id]);
      assert t' == t[msg.id := t'[msg.id]];
    }
  }

  // ---- the code ----

  class MessageStore {
    var rows: Table

    constructor ()
      ensures rows == map[]
    {
      rows := map[];
    }

    method Save(id: Id, jid: string, text: string, timestamp: int, processed: int)
      modifies this
      ensures rows == Insert(old(rows), id, Row(jid, text, timestamp, processed, 0))
      ensures id in rows && forall k :: k in old(rows) ==> k in rows && rows[k] == old(rows)[k]
      ensures id !in old(rows) ==> rows[id] == Row(jid, text, timestamp, processed, 0)
    {
      if id !in rows {
        rows := rows[id := Row(jid, text, timestamp, processed, 0)];
      }
    }

    method MarkProcessed(id: Id, status: int)
      modifies this
      ensures rows == SetProcessed(old(rows), id, status)
    {
      if id in rows {
        rows := rows[id := rows[id].(processed := status)];
      }
    }

    method IncrRetryOrFail(id: Id)
      modifies this
      ensures rows == IncrOrFail(old(rows), id) && (Sound(old(rows)) ==> Sound(rows))
      ensures id in rows && rows[id].processed == PENDING ==> rows[id].retryCount == old(rows)[id].retryCount + 1
    {
      if id !in rows {
        return;
      }
      if rows[id].retryCount + 1 >= MAX_RETRIES {
        MarkProcessed(id, FAILED);
      } else {
        rows := rows[id := rows[id].(retryCount := rows[id].retryCount + 1)];
      }
    }

    method CleanupOld(cutoff: int) returns (changes: nat)
      modifies this
      ensures rows == DeleteOld(old(rows), cutoff)
      ensures changes == |old(rows)| - |rows|
    {
      var before := rows;
      rows := map id | id in before && !(before[id].timestamp < cutoff && Terminal(before[id])) :: before[id];
      assert rows.Keys <= before.Keys;
      Smaller(rows.Keys, before.Keys);
      changes := |before| - |rows|;
    }

    method SweepRow(msg: Msg, outcome: Outcome)
      modifies this
      ensures rows == Visit(old(rows), msg, outcome) && (Sound(old(rows)) ==> Sound(rows))
      ensures Succeeds(msg, outcome) && msg.id in rows ==> rows[msg.id].processed == 1
    {
      if msg.row.retryCount >= MAX_RETRIES {
        IncrRetryOrFail(msg.id);
        return;
      }
      if msg.row.jid == "" {
        MarkProcessed(msg.id, PROCESSED);
        return;
      }
      if outcome == AgentUnavailable {
        IncrRetryOrFail(msg.id);
        return;
      }
      if IsGroup(msg.row.jid) {
        MarkProcessed(msg.id, PROCESSED);
        return;
      }
      if outcome == ForwardSucceeds {
        MarkProcessed(msg.id, PROCESSED);
      } else {
        IncrRetryOrFail(msg.id);
      }
    }

    /** A whole sweep, nothing else running: every selected row comes strictly nearer to a
        terminal status, no other row changes, and the total falls by at least their number. */
    method RunCatchUpSweep(order: seq<Id>, ghost cutoff: int, outcome: Id -> Outcome)
      requires Sound(rows) && IsSelection(order, rows, cutoff)
      modifies this
      ensures Sound(rows) && rows.Keys == old(rows).Keys
      ensures forall id :: id in old(rows) ==>
                if id in order then Weight(rows[id]) < Weight(old(rows)[id]) else rows[id] == old(rows)[id]
      ensures Total(rows) + |order| <= Total(old(rows))
    {
      var unprocessed := rows;
      for i := 0 to |order|
        invariant Sound(rows) && Swept(unprocessed, rows, order[..i])
      {
        var id := order[i];
        SweptStep(unprocessed, rows, order, i, outcome(id));
        SweepRow(Msg(id, unprocessed[id]), outcome(id));
      }
      assert order[..|order|] == order;
    }
  }

  // The sweep has dealt with these rows and no others.
  ghost predicate Swept(before: Table, after: Table, done: seq<Id>) {
    && after.Keys == before.Keys
    && (forall id :: id in before ==>
          if id in done then Weight(after[id]) < Weight(before[id]) else after[id] == before[id])
    && Total(after) + |done| <= Total(before)
  }

  lemma SweptStep(before: Table, now: Table, order: seq<Id>, i: nat, outcome: Outcome)
    requires i < |order| && order[i] in before && before[order[i]].processed == PENDING && order[i] !in order[..i]
    requires Sound(now) && Swept(before, now, order[..i])
    ensures Swept(before, Visit(now, Msg(order[i], before[order[i]]), outcome), order[..i + 1])
  {
    var id := order[i];
    VisitLowers(now, Msg(id, before[id]), outcome);
    assert order[..i + 1] == order[..i] + [id];
  }

  lemma {:induction false} Smaller(a: set<Id>, b: set<Id>)
    requires a <= b
    ensures |a| <= |b|
  {
    if a != {} {
      var x :| x in a;
      Smaller(a - {x}, b - {x});
    }
  }

  // ---- every run, with sweeps interleaved with each other and with everything else ----

  // `sweeps` holds, for each sweep in progress, the part of its snapshot still to visit.  The
  // timer does not wait for an earlier sweep, so up to `limit` of them may be in progress.
  // For each row in the table, `visits` counts the iterations spent on it and `forwards`
  // its re-forwards, and `answered` those that succeeded.
  datatype State = State(limit: nat, rows: Table, sweeps: seq<seq<Msg>>, visits: map<Id, nat>,
                         forwards: map<Id, nat>, answered: map<Id, nat>, inserted: nat, effective: nat)

  datatype Step =
    | Save(id: Id, row: Row)
    | Mark(id: Id, status: int)
    | Retry(id: Id)
    | Cleanup(cutoff: int)
    | SweepBegin(cutoff: int, order: seq<Id>)
    | SweepVisit(sweep: nat, outcome: Outcome)
    | SweepEnd(sweep: nat)

  function Start(limit: nat): State {
    State(limit, map[], [], map[], map[], map[], 0, 0)
  }

  // New rows are pending or processed and rows are marked 1 or -1, as every caller does.
  ghost predicate Enabled(s: State, step: Step) {
    match step
    case Save(_, row) => row.processed == PENDING || row.processed == PROCESSED
    case Mark(_, status) => status == PROCESSED || status == FAILED
    case SweepBegin(cutoff, order) => |s.sweeps| < s.limit && IsSelection(order, s.rows, cutoff)
    case SweepVisit(q, _) => q < |s.sweeps| && s.sweeps[q] != []
    case SweepEnd(q) => q < |s.sweeps| && s.sweeps[q] == []
    case _ => true
  }

  function Snapshot(t: Table, order: seq<Id>): (r: seq<Msg>)
    requires forall i :: 0 <= i < |order| ==> order[i] in t
    ensures |r| == |order|
  {
    seq(|order|, i requires 0 <= i < |order| => Msg(order[i], t[order[i]]))
  }

  function Bump(m: map<Id, nat>, id: Id): map<Id, nat> {
    if id in m then m[id := m[id] + 1] else m
  }

  ghost function Next(s: State, step: Step): State
    requires Enabled(s, step)
  {
    match step
    case Save(id, row) =>
      if id in s.rows then s
      else s.(rows := Insert(s.rows, id, row), visits := s.visits[id := 0], forwards := s.forwards[id := 0],
              answered := s.answered[id := 0],
              inserted := s.inserted + if row.processed == PENDING then 1 else 0)
    case Mark(id, status) => s.(rows := SetProcessed(s.rows, id, status))
    case Retry(id) => s.(rows := IncrOrFail(s.rows, id))
    case Cleanup(cutoff) =>
      var rows := DeleteOld(s.rows, cutoff);
      s.(rows := rows, visits := map id | id in s.visits && id in rows :: s.visits[id],
         forwards := map id | id in s.forwards && id in rows :: s.forwards[id],
         answered := map id | id in s.answered && id in rows :: s.answered[id])
    case SweepBegin(_, order) => s.(sweeps := s.sweeps + [Snapshot(s.rows, order)])
    case SweepVisit(q, outcome) =>
      var msg := s.sweeps[q][0];
      s.(rows := Visit(s.rows, msg, outcome), sweeps := s.sweeps[q := s.sweeps[q][1..]],
         visits := Bump(s.visits, msg.id),
         forwards := if Forwards(msg, outcome) then Bump(s.forwards, msg.id) else s.forwards,
         answered := if Succeeds(msg, outcome) then Bump(s.answered, msg.id) else s.answered,
         effective := s.effective + if msg.id in s.rows && s.rows[msg.id].processed == PENDING then 1 else 0)
    case SweepEnd(q) => s.(sweeps := s.sweeps[..q] + s.sweeps[q + 1..])
  }

  ghost predicate Possible(limit: nat, steps: seq<Step>)
    decreases |steps|, 0
  {
    steps != [] ==>
      var n := |steps| - 1;
      Possible(limit, steps[..n]) && Enabled(Run(limit, steps[..n]), steps[n])
  }

  ghost function Run(limit: nat, steps: seq<Step>): State
    requires Possible(limit, steps)
    decreases |steps|, 1
  {
    if steps == [] then Start(limit) else Next(Run(limit, steps[..|steps| - 1]), steps[|steps| - 1])
  }

  ghost predicate Distinct(sweep: seq<Msg>) {
    forall i, j :: 0 <= i < j < |sweep| ==> sweep[i].id != sweep[j].id
  }

  ghost predicate Awaits(sweep: seq<Msg>, id: Id) {
    exists i :: 0 <= i < |sweep| && sweep[i].id == id
  }

  // How many of the sweeps in progress will still visit a row.
  ghost function Waiting(sweeps: seq<seq<Msg>>, id: Id): nat {
    if sweeps == [] then 0
    else Waiting(sweeps[..|sweeps| - 1], id) + if Awaits(sweeps[|sweeps| - 1], id) then 1 else 0
  }

  lemma {:induction false} WaitingBound(sweeps: seq<seq<Msg>>, id: Id)
    ensures Waiting(sweeps, id) <= |sweeps|
  {
    if sweeps != [] { WaitingBound(sweeps[..|sweeps| - 1], id); }
  }

  lemma WaitingSnoc(sweeps: seq<seq<Msg>>, sweep: seq<Msg>, id: Id)
    ensures Waiting(sweeps + [sweep], id) == Waiting(sweeps, id) + if Awaits(sweep, id) then 1 else 0
  {
    assert (sweeps + [sweep])[..|sweeps|] == sweeps;
  }

  lemma {:induction false} WaitingUpdate(sweeps: seq<seq<Msg>>, q: nat, sweep: seq<Msg>, id: Id)
    requires q < |sweeps|
    ensures Waiting(sweeps[q := sweep], id) ==
            Waiting(sweeps, id) - (if Awaits(sweeps[q], id) then 1 else 0) + (if Awaits(sweep, id) then 1 else 0)
  {
    var n := |sweeps| - 1;
    if q < n {
      WaitingUpdate(sweeps[..n], q, sweep, id);
      assert sweeps[q := sweep][..n] == sweeps[..n][q := sweep];
    } else {
      assert sweeps[q := sweep][..n] == sweeps[..n];
    }
  }

  lemma {:induction false} WaitingRemove(sweeps: seq<seq<Msg>>, q: nat, id: Id)
    requires q < |sweeps| && !Awaits(sweeps[q], id)
    ensures Waiting(sweeps[..q] + sweeps[q + 1..], id) == Waiting(sweeps, id)
  {
    var n := |sweeps| - 1;
    if q < n {
      WaitingRemove(sweeps[..n], q, id);
      assert sweeps[..n][..q] + sweeps[..n][q + 1..] == (sweeps[..q] + sweeps[q + 1..])[..n - 1];
    } else {
      assert sweeps[..q] + sweeps[q + 1..] == sweeps[..n];
    }
  }

  // How far one row has come: a pending row has paid for every visit with a retry.
  ghost predicate RowInv(s: State, id: Id)
    requires id in s.rows && id in s.visits && id in s.forwards && id in s.answered
  {
    && s.answered[id] <= s.forwards[id] <= s.visits[id]
    && SettledInv(Terminal(s.rows[id]), s.answered[id], Waiting(s.sweeps, id), s.limit)
    && (s.rows[id].processed == PENDING ==> s.visits[id] <= s.rows[id].retryCount)
    && s.visits[id] + Waiting(s.sweeps, id) <= s.limit + MAX_RETRIES - 1
  }

  // An answered row is settled, and only the sweeps that began before can still answer it.
  predicate SettledInv(terminal: bool, answered: nat, waiting: nat, limit: nat) {
    answered > 0 ==> terminal && answered + waiting <= limit
  }

  // All of the invariant but what it says of each row.
  ghost predicate Frame(s: State) {
    && Sound(s.rows)
    && s.visits.Keys == s.rows.Keys && s.forwards.Keys == s.rows.Keys && s.answered.Keys == s.rows.Keys
    && |s.sweeps| <= s.limit
    && (forall q :: 0 <= q < |s.sweeps| ==> Distinct(s.sweeps[q]))
    && Total(s.rows) + s.effective <= MAX_RETRIES * s.inserted
  }

  ghost predicate Inv(s: State) {
    Frame(s) && forall id :: id in s.rows ==> RowInv(s, id)
  }

  lemma SaveKeeps(s: State, step: Step)
    requires Inv(s) && step.Save? && Enabled(s, step)
    ensures Inv(Next(s, step))
  {
    var s' := Next(s, step);
    if step.id !in s.rows {
      TotalInsert(s.rows, step.id, step.row.(retryCount := 0));
      forall id | id in s'.rows ensures RowInv(s', id) {
        WaitingBound(s.sweeps, id);
        assert id != step.id ==> RowInv(s, id);
      }
    }
  }

  // Marking and retrying change one row, and bring no settled row back.
  lemma MarkRow(s: State, step: Step, id: Id)
    requires Inv(s) && (step.Mark? || step.Retry?) && Enabled(s, step) && id in s.rows
    ensures var s' := Next(s, step); id in s'.rows && RowInv(s', id)
  {
    assert RowInv(s, id);
  }

  lemma MarkKeeps(s: State, step: Step)
    requires Inv(s) && (step.Mark? || step.Retry?) && Enabled(s, step)
    ensures Inv(Next(s, step))
  {
    var s' := Next(s, step);
    if step.id in s.rows {
      TotalUpdate(s.rows, step.id, s'.rows[step.id]);
      assert s'.rows == s.rows[step.id := s'.rows[step.id]];
      forall id | id in s'.rows ensures RowInv(s', id) {
        MarkRow(s, step, id);
      }
    }
  }

  lemma CleanupKeeps(s: State, step: Step)
    requires Inv(s) && step.Cleanup?
    ensures Inv(Next(s, step))
  {
    var s' := Next(s, step);
    TotalDeleteOld(s.rows, step.cutoff);
    forall id | id in s'.rows ensures RowInv(s', id) {
      assert RowInv(s, id);
    }
  }

  lemma BeginKeeps(s: State, step: Step)
    requires Inv(s) && step.SweepBegin? && Enabled(s, step)
    ensures Inv(Next(s, step))
  {
    var s' := Next(s, step);
    forall id | id in s'.rows ensures RowInv(s', id) {
      assert RowInv(s, id);
      var sweep := Snapshot(s.rows, step.order);
      WaitingSnoc(s.sweeps, sweep, id);
      WaitingBound(s.sweeps, id);
      if i :| 0 <= i < |sweep| && sweep[i].id == id {
        assert id == step.order[i] && id in step.order;
      }
    }
  }

  lemma VisitOther(s: State, step: Step, id: Id)
    requires Inv(s) && step.SweepVisit? && Enabled(s, step) && id in s.rows
    requires id != s.sweeps[step.sweep][0].id
    ensures var s' := Next(s, step); id in s'.rows && id in s'.visits && id in s'.forwards && id in s'.answered && RowInv(s', id)
  {
    var sweep := s.sweeps[step.sweep];
    VisitLowers(s.rows, sweep[0], step.outcome);
    assert RowInv(s, id);
    WaitingUpdate(s.sweeps, step.sweep, sweep[1..], id);
    AwaitsTail(sweep, id);
  }

  lemma VisitOwn(s: State, step: Step, id: Id)
    requires Inv(s) && step.SweepVisit? && Enabled(s, step) && id in s.rows
    requires id == s.sweeps[step.sweep][0].id
    ensures var s' := Next(s, step); id in s'.rows && id in s'.visits && id in s'.forwards && id in s'.answered && RowInv(s', id)
  {
    var sweep := s.sweeps[step.sweep];
    VisitLowers(s.rows, sweep[0], step.outcome);
    assert RowInv(s, id);
    WaitingUpdate(s.sweeps, step.sweep, sweep[1..], id);
    WaitingBound(s.sweeps, id);
    AwaitsTail(sweep, id);
    if Succeeds(sweep[0], step.outcome) {
      VisitAnswers(s.rows, sweep[0], step.outcome);
    }
  }

  lemma VisitAnswers(t: Table, msg: Msg, outcome: Outcome)
    requires msg.id in t && Succeeds(msg, outcome)
    ensures Forwards(msg, outcome) && msg.id in Visit(t, msg, outcome) && Terminal(Visit(t, msg, outcome)[msg.id])
  {
  }

  lemma VisitFrame(s: State, step: Step)
    requires Frame(s) && step.SweepVisit? && Enabled(s, step)
    ensures Frame(Next(s, step)) && Next(s, step).rows.Keys == s.rows.Keys
  {
    VisitLowers(s.rows, s.sweeps[step.sweep][0], step.outcome);
  }

  lemma VisitKeeps(s: State, step: Step)
    requires Inv(s) && step.SweepVisit? && Enabled(s, step)
    ensures Inv(Next(s, step))
  {
    VisitFrame(s, step);
    forall id | id in s.rows ensures RowInv(Next(s, step), id) {
      if id == s.sweeps[step.sweep][0].id {
        VisitOwn(s, step, id);
      } else {
        VisitOther(s, step, id);
      }
    }
  }

  lemma AwaitsTail(sweep: seq<Msg>, id: Id)
    requires sweep != [] && Distinct(sweep)
    ensures Awaits(sweep, id) <==> sweep[0].id == id || Awaits(sweep[1..], id)
    ensures sweep[0].id == id ==> !Awaits(sweep[1..], id)
  {
    if Awaits(sweep, id) && sweep[0].id != id {
      var i :| 0 <= i < |sweep| && sweep[i].id == id;
      assert sweep[1..][i - 1].id == id;
    }
  }

  lemma EndKeeps(s: State, step: Step)
    requires Inv(s) && step.SweepEnd? && Enabled(s, step)
    ensures Inv(Next(s, step))
  {
    var s' := Next(s, step);
    forall id | id in s'.rows ensures RowInv(s', id) {
      assert RowInv(s, id);
      WaitingRemove(s.sweeps, step.sweep, id);
    }
  }

  lemma {:induction false} EveryRunKeeps(limit: nat, steps: seq<Step>)
    requires Possible(limit, steps)
    ensures Inv(Run(limit, steps)) && Run(limit, steps).limit == limit
  {
    if steps != [] {
      var n := |steps| - 1;
      EveryRunKeeps(limit, steps[..n]);
      var s, step := Run(limit, steps[..n]), steps[n];
      match step
      case Save(_, _) => SaveKeeps(s, step);
      case Mark(_, _) => MarkKeeps(s, step);
      case Retry(_) => MarkKeeps(s, step);
      case Cleanup(_) => CleanupKeeps(s, step);
      case SweepBegin(_, _) => BeginKeeps(s, step);
      case SweepVisit(_, _) => VisitKeeps(s, step);
      case SweepEnd(_) => EndKeeps(s, step);
    }
  }

  /** In every run with at most `limit` sweeps in progress at a time, a row's retry count
      stays below three, it is visited, hence re-forwarded, at most limit + 2 times (three
      times when sweeps do not overlap), and a third visit leaves it terminal. */
  lemma BoundedRedelivery(limit: nat, steps: seq<Step>, id: Id)
    requires Possible(limit, steps) && id in Run(limit, steps).rows
    ensures var s := Run(limit, steps);
            && id in s.visits && id in s.forwards
            && 0 <= s.rows[id].retryCount < 3
            && s.forwards[id] <= s.visits[id] <= limit + 2
            && (s.visits[id] >= 3 ==> s.rows[id].processed == 1 || s.rows[id].processed == -1)
  {
    EveryRunKeeps(limit, steps);
    assert RowInv(Run(limit, steps), id);
  }

  /** In every run a message is answered at most as often as sweeps may be in progress at a
      time, so once when they do not overlap, and from the first answer on its row is settled. */
  lemma AnsweredOncePerSweep(limit: nat, steps: seq<Step>, id: Id)
    requires Possible(limit, steps) && id in Run(limit, steps).rows
    ensures var s := Run(limit, steps);
            && id in s.answered && s.answered[id] <= limit
            && (s.answered[id] > 0 ==> s.rows[id].processed == 1 || s.rows[id].processed == -1)
  {
    EveryRunKeeps(limit, steps);
    assert RowInv(Run(limit, steps), id);
  }

  /** Over a whole run, the sweep iterations that found their row still pending number at
      most three per pending row ever inserted. */
  lemma BoundedSweeping(limit: nat, steps: seq<Step>)
    requires Possible(limit, steps)
    ensures Run(limit, steps).effective <= MAX_RETRIES * Run(limit, steps).inserted
  {
    EveryRunKeeps(limit, steps);
    TotalNonNegative(Run(limit, steps).rows);
  }

  /** No step deletes a row that has not reached a terminal status, and no step returns a
      terminal row to pending. */
  lemma NoRegression(s: State, step: Step, id: Id)
    requires Inv(s) && Enabled(s, step) && id in s.rows
    ensures var s' := Next(s, step);
            && (id !in s'.rows ==> Terminal(s.rows[id]))
            && (id in s'.rows ==> s'.rows[id].retryCount >= s.rows[id].retryCount
                                  && (Terminal(s.rows[id]) ==> Terminal(s'.rows[id])))
  {
    if step.SweepVisit? {
      VisitMoves(s.rows, s.sweeps[step.sweep][0], step.outcome, id);
    }
  }

  // What an iteration of a sweep may do to a row.
  lemma VisitMoves(t: Table, msg: Msg, outcome: Outcome, id: Id)
    requires Sound(t) && id in t
    ensures var t' := Visit(t, msg, outcome);
            && id in t' && t'[id].retryCount >= t[id].retryCount
            && (Terminal(t[id]) ==> Terminal(t'[id]))
  {
  }

  ghost predicate SettledBy(limit: nat, steps: seq<Step>, id: Id, j: nat)
    requires Possible(limit, steps) && j <= |steps|
  {
    PrefixPossible(limit, steps, j);
    id in Run(limit, steps[..j]).rows && Terminal(Run(limit, steps[..j]).rows[id])
  }

  lemma {:induction false} PrefixPossible(limit: nat, steps: seq<Step>, j: nat)
    requires Possible(limit, steps) && j <= |steps|
    ensures Possible(limit, steps[..j])
  {
    if j == |steps| {
      assert steps[..j] == steps;
    } else {
      PrefixPossible(limit, steps[..|steps| - 1], j);
      assert steps[..|steps| - 1][..j] == steps[..j];
    }
  }

  /** Nothing is lost: every message ever saved is still pending or was settled. */
  lemma {:induction false} NothingIsLost(limit: nat, steps: seq<Step>, k: nat)
    requires Possible(limit, steps) && k < |steps| && steps[k].Save?
    ensures var id := steps[k].id;
            || (id in Run(limit, steps).rows && Run(limit, steps).rows[id].processed == PENDING)
            || exists j: nat :: k < j <= |steps| && SettledBy(limit, steps, id, j)
  {
    var n, id := |steps| - 1, steps[k].id;
    var before := steps[..n];
    EveryRunKeeps(limit, steps);
    assert steps[..|steps|] == steps;
    if k < n {
      NothingIsLost(limit, before, k);
      if j: nat :| k < j <= n && SettledBy(limit, before, id, j) {
        assert before[..j] == steps[..j];
        assert SettledBy(limit, steps, id, j);
      } else {
        EveryRunKeeps(limit, before);
        NoRegression(Run(limit, before), steps[n], id);
        assert id in Run(limit, steps).rows;
        assert Run(limit, steps).rows[id].processed != PENDING ==> SettledBy(limit, steps, id, |steps|);
      }
    } else {
      assert id in Run(limit, steps).rows;
      assert Run(limit, steps).rows[id].processed != PENDING ==> SettledBy(limit, steps, id, |steps|);
    }
  }

  // ---- the bound on re-forwards is reached ----

  // A private message of one chat, refused `retries` times.
  function Refused(retries: int): Row {
    Row("a@s.whatsapp.net", "hi", 0, PENDING, retries)
  }

  const REFUSED := Msg("m", Refused(2))

  // The message is alone in the table after some refusals, each of which was a re-forward.
  ghost predicate Calm(s: State, limit: nat, retries: nat) {
    s.limit == limit && s.rows == map["m" := Refused(retries)] && s.forwards == map["m" := retries]
  }

  // k sweeps have begun and none has got anywhere.
  ghost predicate Begun(s: State, limit: nat, k: nat) {
    Calm(s, limit, 2) && |s.sweeps| == k && forall q :: 0 <= q < k ==> s.sweeps[q] == [REFUSED]
  }

  // Of `limit` such sweeps the first k have re-forwarded the message.
  ghost predicate Drained(s: State, limit: nat, k: nat) {
    && s.limit == limit == |s.sweeps| && "m" in s.rows && "m" in s.forwards && s.forwards["m"] == 2 + k
    && forall q :: k <= q < limit ==> s.sweeps[q] == [REFUSED]
  }

  lemma RunSnoc(limit: nat, steps: seq<Step>, step: Step)
    requires Possible(limit, steps) && Enabled(Run(limit, steps), step)
    ensures Possible(limit, steps + [step]) && Run(limit, steps + [step]) == Next(Run(limit, steps), step)
  {
    assert (steps + [step])[..|steps|] == steps;
  }

  lemma SelectsIt(s: State, limit: nat, retries: nat)
    requires Calm(s, limit, retries) && |s.sweeps| < limit
    ensures Enabled(s, SweepBegin(1, ["m"]))
    ensures Next(s, SweepBegin(1, ["m"])) == s.(sweeps := s.sweeps + [[Msg("m", Refused(retries))]])
  {
    assert ["m"][0] == "m" && "m" in ["m"];
    assert Snapshot(s.rows, ["m"]) == [Msg("m", Refused(retries))];
  }

  // One whole sweep that re-forwards the message in vain.
  lemma OneRefusal(limit: nat, steps: seq<Step>, retries: nat) returns (more: seq<Step>)
    requires limit >= 1 && retries <= 1 && Possible(limit, steps)
    requires Calm(Run(limit, steps), limit, retries) && Run(limit, steps).sweeps == []
    ensures Possible(limit, more) && Calm(Run(limit, more), limit, retries + 1) && Run(limit, more).sweeps == []
  {
    SelectsIt(Run(limit, steps), limit, retries);
    more := steps + [SweepBegin(1, ["m"])];
    RunSnoc(limit, steps, SweepBegin(1, ["m"]));
    var s := Run(limit, more);
    assert s.sweeps == [[Msg("m", Refused(retries))]];
    RunSnoc(limit, more, SweepVisit(0, ForwardFails));
    more := more + [SweepVisit(0, ForwardFails)];
    VisitRefused(s, limit, retries);
    var t := Run(limit, more);
    assert t.sweeps[..0] + t.sweeps[1..] == [];
    RunSnoc(limit, more, SweepEnd(0));
    more := more + [SweepEnd(0)];
  }

  lemma VisitRefused(s: State, limit: nat, retries: nat)
    requires Calm(s, limit, retries) && retries <= 1 && s.sweeps == [[Msg("m", Refused(retries))]]
    ensures Calm(Next(s, SweepVisit(0, ForwardFails)), limit, retries + 1)
    ensures Next(s, SweepVisit(0, ForwardFails)).sweeps == [[]]
  {
    var jid, s' := Refused(retries).jid, Next(s, SweepVisit(0, ForwardFails));
    assert jid[|jid| - 5..] == "p.net";
    assert "p.net"[0] != "@g.us"[0];
    assert Forwards(s.sweeps[0][0], ForwardFails);
    assert s'.forwards == map["m" := retries + 1];
    assert s'.rows == map["m" := Refused(retries + 1)];
    assert s'.sweeps[0] == [];
  }

  lemma {:induction false} BeginAll(limit: nat, steps: seq<Step>, k: nat) returns (more: seq<Step>)
    requires Possible(limit, steps) && k <= limit && Begun(Run(limit, steps), limit, 0)
    ensures Possible(limit, more) && Begun(Run(limit, more), limit, k)
  {
    more := steps;
    if k > 0 {
      more := BeginAll(limit, steps, k - 1);
      SelectsIt(Run(limit, more), limit, 2);
      RunSnoc(limit, more, SweepBegin(1, ["m"]));
      more := more + [SweepBegin(1, ["m"])];
    }
  }

  lemma {:induction false} DrainAll(limit: nat, steps: seq<Step>, k: nat) returns (more: seq<Step>)
    requires Possible(limit, steps) && k <= limit && Drained(Run(limit, steps), limit, 0)
    ensures Possible(limit, more) && Drained(Run(limit, more), limit, k)
  {
    more := steps;
    if k > 0 {
      more := DrainAll(limit, steps, k - 1);
      DrainOne(Run(limit, more), limit, k - 1);
      RunSnoc(limit, more, SweepVisit(k - 1, ForwardFails));
      more := more + [SweepVisit(k - 1, ForwardFails)];
    }
  }

  lemma DrainOne(s: State, limit: nat, k: nat)
    requires Drained(s, limit, k) && k < limit
    ensures Enabled(s, SweepVisit(k, ForwardFails)) && Drained(Next(s, SweepVisit(k, ForwardFails)), limit, k + 1)
  {
    var jid := REFUSED.row.jid;
    assert jid[|jid| - 5..] == "p.net";
    assert "p.net"[0] != "@g.us"[0];
    assert s.sweeps[k] == [REFUSED];
    assert Forwards(REFUSED, ForwardFails);
  }

  /** The bound of BoundedRedelivery is exact: for every number of sweeps that may be in
      progress at a time, some run re-forwards one message two more times than that.  So three
      attempts are the limit only while sweeps do not overlap. */
  lemma RedeliveryBoundIsReached(limit: nat) returns (steps: seq<Step>)
    requires limit >= 1
    ensures Possible(limit, steps)
    ensures "m" in Run(limit, steps).forwards && Run(limit, steps).forwards["m"] == limit + MAX_RETRIES - 1
  {
    var save := Save("m", Refused(0));
    RunSnoc(limit, [], save);
    steps := [] + [save];
    assert Calm(Run(limit, steps), limit, 0);
    steps := OneRefusal(limit, steps, 0);
    steps := OneRefusal(limit, steps, 1);
    steps := BeginAll(limit, steps, limit);
    steps := DrainAll(limit, steps, limit);
  }
}
