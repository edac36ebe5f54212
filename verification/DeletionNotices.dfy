/**
  * Notices that a customer account was deleted, kept until the server has acknowledged them.
  * Times are in minutes. Columns are as stored: `attempts` is a 32-bit integer.
  */
module DeletionNotices {
  import opened Options
  import opened Powers

  const MAX_DELAY: int := 60
  const MAX_INT32: int := 0x7fff_ffff

  datatype Notice = Notice(pubkey: string, deletedAt: int, attempts: int, nextAttemptAt: int)

  type Table = map<int, Notice>

  /** Notices with their ids, as read at the start of a pass. */
  type Batch = seq<(int, Notice)>

  function Clamp(attempts: int): nat {
    if attempts < 0 then 0 else if attempts > 16 then 16 else attempts
  }

  /** The exponent is clamped, so `saturating_pow` never saturates. */
  function Delay(attempts: int): int {
    var delay := Pow2(Clamp(attempts));
    if delay > MAX_DELAY then MAX_DELAY else delay
  }

  /** For any stored attempt count, even a negative one, the delay is between one and sixty minutes,
    * never shrinks from one attempt to the next, and no power on the way exceeds 2^16. */
  lemma DelaysAreBounded(attempts: int, later: int)
    ensures 1 <= Delay(attempts) <= MAX_DELAY
    ensures attempts <= later ==> Delay(attempts) <= Delay(later)
    ensures Pow2(Clamp(attempts)) <= 65536
    ensures 6 <= attempts ==> Delay(attempts) == MAX_DELAY
  {
    Pow2Ascends(Clamp(attempts), 16);
    Pow2AtSixteen();
    if attempts <= later {
      Pow2Ascends(Clamp(attempts), Clamp(later));
    }
    if 6 <= attempts {
      Pow2Ascends(6, Clamp(attempts));
    }
  }

  /** The schedule in minutes. */
  lemma Schedule(attempts: int)
    ensures Delay(attempts) ==
      if attempts <= 0 then 1 else if attempts == 1 then 2 else if attempts == 2 then 4
      else if attempts == 3 then 8 else if attempts == 4 then 16 else if attempts == 5 then 32 else 60
  {
    DelaysAreBounded(attempts, attempts);
    assert Pow2(1) == 2 && Pow2(2) == 4;
    assert Pow2(3) == 8 && Pow2(4) == 16;
    assert Pow2(5) == 32;
  }

  lemma Pow2AtSixteen()
    ensures Pow2(6) == 64 && Pow2(16) == 65536
  {
    assert Pow2(4) == 16;
    assert Pow2(8) == 16 * Pow2(4);
    assert Pow2(12) == 16 * Pow2(8);
  }

  // ---------------------------------------------------------------- the table

  predicate Due(notice: Notice, now: int) {
    notice.nextAttemptAt <= now
  }

  /** A possible answer of `find_due`: due notices as stored, each once, oldest first, at most `limit`
    * of them, and none passed over for a younger one. */
  ghost predicate IsBatch(table: Table, now: int, limit: nat, batch: Batch) {
    && Snapshot(table, batch)
    && (forall i :: 0 <= i < |batch| ==> Due(batch[i].1, now))
    && (forall i, j :: 0 <= i < j < |batch| ==> batch[i].1.deletedAt <= batch[j].1.deletedAt)
    && |batch| <= limit
    && (forall id :: id in table && Due(table[id], now) && !Lists(batch, id) ==>
          |batch| == limit && forall i :: 0 <= i < |batch| ==> batch[i].1.deletedAt <= table[id].deletedAt)
  }

  /** The batch lists each id at most once, with the row the table holds. */
  ghost predicate Snapshot(table: Table, batch: Batch) {
    && (forall i :: 0 <= i < |batch| ==> batch[i].0 in table && batch[i].1 == table[batch[i].0])
    && (forall i, j :: 0 <= i < j < |batch| ==> batch[i].0 != batch[j].0)
  }

  ghost predicate Lists(batch: Batch, id: int) {
    exists i :: 0 <= i < |batch| && batch[i].0 == id
  }

  function Row(table: Table, id: int): Option<Notice> {
    if id in table then Some(table[id]) else None
  }

  /** How one attempt ended. The database may fail after the send, which aborts the pass. */
  datatype Outcome = Acknowledged | AcknowledgeFailed | RetryStored | RetryFailed

  /** The table after one attempt on a notice as `find_due` returned it. */
  function Attempted(table: Table, id: int, seen: Notice, outcome: Outcome, now: int): Table {
    match outcome
    case Acknowledged => table - {id}
    case RetryStored =>
      if id in table
      then table[id := table[id].(attempts := table[id].attempts + 1, nextAttemptAt := now + Delay(seen.attempts))]
      else table
    case _ => table
  }

  predicate Aborts(outcome: Outcome) {
    outcome.AcknowledgeFailed? || outcome.RetryFailed?
  }

  /** What happens to each notice when it is tried: whether the send succeeds, whether the
    * database then does, and the time of it. Incrementing a full 32-bit counter is a database error too. */
  datatype Try = Try(sent: bool, stored: bool, at: int)

  function OutcomeOf(table: Table, id: int, t: Try): Outcome {
    if t.sent then (if t.stored then Acknowledged else AcknowledgeFailed)
    else if t.stored && !(id in table && table[id].attempts >= MAX_INT32) then RetryStored
    else RetryFailed
  }

  /** The database fails in this try: it does not store what it is told, or the 32-bit attempt counter it
    * should increment is full. */
  predicate Fails(table: Table, id: int, t: Try) {
    !t.stored || (!t.sent && id in table && table[id].attempts >= 0x7fff_ffff)
  }

  /** The table after a pass over the rest of a batch. */
  function Passed(table: Table, batch: Batch, tries: seq<Try>): Table
    requires |tries| == |batch|
    decreases |batch|
  {
    if batch == [] then table
    else
      var outcome := OutcomeOf(table, batch[0].0, tries[0]);
      var table' := Attempted(table, batch[0].0, batch[0].1, outcome, tries[0].at);
      if Aborts(outcome) then table' else Passed(table', batch[1..], tries[1..])
  }

  class DeletionNoticeRepository {
    var table: Table

    constructor (table: Table)
      ensures this.table == table
    {
      this.table := table;
    }

    method Acknowledge(id: int, stored: bool) returns (ok: bool)
      modifies this
      ensures ok == stored
      ensures table == if stored then old(table) - {id} else old(table)
    {
      if stored {
        table := table - {id};
      }
      ok := stored;
    }

    method ScheduleRetry(id: int, seen: Notice, stored: bool, now: int) returns (ok: bool)
      modifies this
      ensures ok == (stored && !(id in old(table) && old(table)[id].attempts >= MAX_INT32))
      ensures table == if ok then Attempted(old(table), id, seen, RetryStored, now) else old(table)
    {
      var delay := Delay(seen.attempts);
      if !stored || (id in table && table[id].attempts >= MAX_INT32) {
        return false;
      }
      if id in table {
        var row := table[id];
        table := table[id := row.(attempts := row.attempts + 1, nextAttemptAt := now + delay)];
      }
      return true;
    }
  }

  /** The sends of a pass whose deletion was stored, up to the first database failure. */
  function Acknowledgements(table: Table, batch: Batch, tries: seq<Try>): (n: nat)
    requires |tries| == |batch|
    ensures n <= |batch|
    decreases |batch|
  {
    if batch == [] || Fails(table, batch[0].0, tries[0]) then 0
    else
      var table' := Attempted(table, batch[0].0, batch[0].1, OutcomeOf(table, batch[0].0, tries[0]), tries[0].at);
      (if tries[0].sent then 1 else 0) + Acknowledgements(table', batch[1..], tries[1..])
  }

  /** The pass gets through the whole batch. */
  predicate Finishes(table: Table, batch: Batch, tries: seq<Try>)
    requires |tries| == |batch|
    decreases |batch|
  {
    batch == [] || (
      var table' := Attempted(table, batch[0].0, batch[0].1, OutcomeOf(table, batch[0].0, tries[0]), tries[0].at);
      !Fails(table, batch[0].0, tries[0]) && Finishes(table', batch[1..], tries[1..]))
  }

  /** One delivery pass: the batch in order, stopping at the first database failure. */
  method DeliverDueNotices(repo: DeletionNoticeRepository, batch: Batch, tries: seq<Try>)
    returns (acknowledged: nat, ok: bool)
    requires |tries| == |batch|
    modifies repo
    ensures repo.table == Passed(old(repo.table), batch, tries)
    ensures acknowledged == Acknowledgements(old(repo.table), batch, tries)
    ensures ok == Finishes(old(repo.table), batch, tries)
    ensures acknowledged <= |batch| && (ok ==> acknowledged == Sends(tries))
    ensures Snapshot(old(repo.table), batch) ==> |repo.table| + acknowledged == |old(repo.table)|
    ensures Snapshot(old(repo.table), batch) ==> (ok <==> Reaches(old(repo.table), batch, tries, |batch|))
  {
    acknowledged := 0;
    ghost var start := repo.table;
    if Snapshot(start, batch) {
      AcknowledgedRowsGo(start, batch, tries);
      FinishesIff(start, batch, tries);
    }
    if Finishes(start, batch, tries) {
      FinishedAcknowledgesAllSends(start, batch, tries);
    }
    for i := 0 to |batch|
      invariant Passed(start, batch, tries) == Passed(repo.table, batch[i..], tries[i..])
      invariant Acknowledgements(start, batch, tries)
             == acknowledged + Acknowledgements(repo.table, batch[i..], tries[i..])
      invariant Finishes(start, batch, tries) == Finishes(repo.table, batch[i..], tries[i..])
    {
      var (id, seen) := batch[i];
      assert batch[i..][0] == batch[i] && tries[i..][0] == tries[i];
      assert batch[i..][1..] == batch[i + 1..] && tries[i..][1..] == tries[i + 1..];
      if tries[i].sent {
        var stored := repo.Acknowledge(id, tries[i].stored);
        if !stored {
          return acknowledged, false;
        }
        acknowledged := acknowledged + 1;
      } else {
        var stored := repo.ScheduleRetry(id, seen, tries[i].stored, tries[i].at);
        if !stored {
          return acknowledged, false;
        }
      }
    }
    ok := true;
  }

  /** Over a fresh batch each acknowledgement takes one row out of the table. */
  lemma {:induction false} AcknowledgedRowsGo(table: Table, batch: Batch, tries: seq<Try>)
    requires |tries| == |batch| && Snapshot(table, batch)
    ensures |Passed(table, batch, tries)| + Acknowledgements(table, batch, tries) == |table|
    decreases |batch|
  {
    if batch != [] && !Fails(table, batch[0].0, tries[0]) {
      var table' := Attempted(table, batch[0].0, batch[0].1, OutcomeOf(table, batch[0].0, tries[0]), tries[0].at);
      var b := batch[1..];
      assert forall j :: 0 <= j < |b| ==> b[j] == batch[j + 1];
      assert forall j :: 0 <= j < |b| ==> Row(table', b[j].0) == Row(table, b[j].0);
      AcknowledgedRowsGo(table', b, tries[1..]);
      OneRowGoes(table, batch[0].0, batch[0].1, tries[0]);
    }
  }

  lemma OneRowGoes(table: Table, id: int, seen: Notice, t: Try)
    requires id in table && !Fails(table, id, t)
    ensures |Attempted(table, id, seen, OutcomeOf(table, id, t), t.at)| + (if t.sent then 1 else 0) == |table|
  {
    var table' := Attempted(table, id, seen, OutcomeOf(table, id, t), t.at);
    if t.sent {
      assert table.Keys == table'.Keys + {id};
    } else {
      assert table'.Keys == table.Keys;
    }
  }

  /** A pass that finishes has acknowledged exactly the sends that succeeded. */
  lemma {:induction false} FinishedAcknowledgesAllSends(table: Table, batch: Batch, tries: seq<Try>)
    requires |tries| == |batch| && Finishes(table, batch, tries)
    ensures Acknowledgements(table, batch, tries) == Sends(tries)
    decreases |batch|
  {
    if batch != [] {
      var table' := Attempted(table, batch[0].0, batch[0].1, OutcomeOf(table, batch[0].0, tries[0]), tries[0].at);
      FinishedAcknowledgesAllSends(table', batch[1..], tries[1..]);
    }
  }

  function Sends(tries: seq<Try>): nat
    decreases |tries|
  {
    if tries == [] then 0 else (if tries[0].sent then 1 else 0) + Sends(tries[1..])
  }

  // ---------------------------------------------------------------- one pass

  /** Every attempt before the i-th left the database working. */
  ghost predicate Reaches(table: Table, batch: Batch, tries: seq<Try>, i: nat)
    requires |tries| == |batch| && i <= |batch|
  {
    forall j :: 0 <= j < i ==> !Aborts(OutcomeOf(table, batch[j].0, tries[j]))
  }

  /** A pass leaves the rows it does not list alone. */
  lemma {:induction false} PassKeepsUnlisted(table: Table, batch: Batch, tries: seq<Try>, id: int)
    requires |tries| == |batch| && !Lists(batch, id)
    ensures Row(Passed(table, batch, tries), id) == Row(table, id)
    decreases |batch|
  {
    if batch != [] {
      assert batch[0].0 != id;
      var outcome := OutcomeOf(table, batch[0].0, tries[0]);
      var table' := Attempted(table, batch[0].0, batch[0].1, outcome, tries[0].at);
      assert forall i :: 0 <= i < |batch[1..]| ==> batch[1..][i] == batch[i + 1];
      PassKeepsUnlisted(table', batch[1..], tries[1..], id);
    }
  }

  /** A pass treats each listed row once, by its own attempt and nobody else's, up to the first
    * database failure. */
  lemma {:induction false} PassTreatsEachOnce(table: Table, batch: Batch, tries: seq<Try>, i: nat)
    requires |tries| == |batch| && Snapshot(table, batch) && i < |batch|
    ensures var (id, seen) := batch[i];
      Row(Passed(table, batch, tries), id) ==
        if Reaches(table, batch, tries, i)
        then Row(Attempted(table, id, seen, OutcomeOf(table, id, tries[i]), tries[i].at), id)
        else Row(table, id)
    decreases |batch|
  {
    var outcome := OutcomeOf(table, batch[0].0, tries[0]);
    var table' := Attempted(table, batch[0].0, batch[0].1, outcome, tries[0].at);
    var b, t := batch[1..], tries[1..];
    assert forall j :: 0 <= j < |b| ==> b[j] == batch[j + 1] && t[j] == tries[j + 1];
    if !Aborts(outcome) {
      if i == 0 {
        PassKeepsUnlisted(table', b, t, batch[0].0);
      } else {
        assert forall j :: 0 <= j < |b| ==> Row(table', b[j].0) == Row(table, b[j].0);
        assert Snapshot(table', b);
        ReachesTail(table, table', batch, tries, i);
        PassTreatsEachOnce(table', b, t, i - 1);
      }
    }
  }

  lemma ReachesTail(table: Table, table': Table, batch: Batch, tries: seq<Try>, i: nat)
    requires |tries| == |batch| && 0 < i <= |batch|
    requires !Aborts(OutcomeOf(table, batch[0].0, tries[0]))
    requires forall j :: 1 <= j < |batch| ==> Row(table', batch[j].0) == Row(table, batch[j].0)
    ensures Reaches(table', batch[1..], tries[1..], i - 1) <==> Reaches(table, batch, tries, i)
  {
    assert forall j :: 1 <= j < |batch| ==>
      OutcomeOf(table', batch[j].0, tries[j]) == OutcomeOf(table, batch[j].0, tries[j]);
    if Reaches(table', batch[1..], tries[1..], i - 1) {
      forall j | 0 <= j < i
        ensures !Aborts(OutcomeOf(table, batch[j].0, tries[j]))
      {
        assert j > 0 ==> batch[1..][j - 1] == batch[j] && tries[1..][j - 1] == tries[j];
      }
    }
  }

  lemma {:induction false} FinishesIff(table: Table, batch: Batch, tries: seq<Try>)
    requires |tries| == |batch| && Snapshot(table, batch)
    ensures Finishes(table, batch, tries) <==> Reaches(table, batch, tries, |batch|)
    decreases |batch|
  {
    if batch != [] && !Fails(table, batch[0].0, tries[0]) {
      var table' := Attempted(table, batch[0].0, batch[0].1, OutcomeOf(table, batch[0].0, tries[0]), tries[0].at);
      var b := batch[1..];
      assert forall j :: 0 <= j < |b| ==> b[j] == batch[j + 1];
      assert forall j :: 0 <= j < |b| ==> Row(table', b[j].0) == Row(table, b[j].0);
      ReachesTail(table, table', batch, tries, |batch|);
      FinishesIff(table', b, tries[1..]);
    }
  }

  /** After an undisturbed pass over the due notices nothing listed is due any more: it is gone, or
    * it waits, counted once more, for the delay its old count calls for. What is still due was
    * crowded out by a full batch of notices no younger. */
  lemma {:induction false} UndisturbedPass(table: Table, batch: Batch, tries: seq<Try>, now: int, limit: nat, id: int)
    requires |tries| == |batch| && IsBatch(table, now, limit, batch) && id in table
    requires Reaches(table, batch, tries, |batch|)
    requires forall i :: 0 <= i < |tries| ==> now <= tries[i].at
    ensures var t := Passed(table, batch, tries);
      if id !in t then Delivered(table, batch, tries, id)
      else if Lists(batch, id) then
        && !Due(t[id], now)
        && t[id].attempts == table[id].attempts + 1
        && (exists i :: 0 <= i < |tries| && !tries[i].sent
                        && t[id].nextAttemptAt == tries[i].at + Delay(table[id].attempts))
      else
        && t[id] == table[id]
        && (Due(t[id], now) ==> |batch| == limit)
        && (Due(t[id], now) ==> forall i :: 0 <= i < |batch| ==> batch[i].1.deletedAt <= t[id].deletedAt)
  {
    if Lists(batch, id) {
      var i :| 0 <= i < |batch| && batch[i].0 == id;
      PassTreatsEachOnce(table, batch, tries, i);
      PassDeliversIff(table, batch, tries, id);
      DelaysAreBounded(table[id].attempts, table[id].attempts);
    } else {
      PassKeepsUnlisted(table, batch, tries, id);
    }
  }

  // ---------------------------------------------------------------- whole runs

  /** A pass over some batch; nothing is assumed about how the batch was chosen. */
  datatype Pass = Pass(batch: Batch, tries: seq<Try>)

  ghost predicate WellFormed(passes: seq<Pass>) {
    forall i :: 0 <= i < |passes| ==> |passes[i].tries| == |passes[i].batch|
  }

  ghost function Ran(table: Table, passes: seq<Pass>): Table
    requires WellFormed(passes)
    decreases |passes|
  {
    if passes == [] then table
    else Ran(Passed(table, passes[0].batch, passes[0].tries), passes[1..])
  }

  /** The pass reaches a try of this notice that is sent and whose deletion is stored. */
  predicate Delivered(table: Table, batch: Batch, tries: seq<Try>, id: int)
    requires |tries| == |batch|
    decreases |batch|
  {
    batch != [] &&
    var table' := Attempted(table, batch[0].0, batch[0].1, OutcomeOf(table, batch[0].0, tries[0]), tries[0].at);
    || (batch[0].0 == id && tries[0].sent && tries[0].stored)
    || (!Fails(table, batch[0].0, tries[0]) && Delivered(table', batch[1..], tries[1..], id))
  }

  /** The attempt counts that the stored retries of this notice had read, in order. */
  function CountsRead(table: Table, batch: Batch, tries: seq<Try>, id: int): seq<int>
    requires |tries| == |batch|
    decreases |batch|
  {
    if batch == [] then []
    else
      var failed := Fails(table, batch[0].0, tries[0]);
      var table' := Attempted(table, batch[0].0, batch[0].1, OutcomeOf(table, batch[0].0, tries[0]), tries[0].at);
      (if batch[0].0 == id && id in table && !tries[0].sent && !failed then [batch[0].1.attempts] else [])
      + (if failed then [] else CountsRead(table', batch[1..], tries[1..], id))
  }

  lemma {:induction false} GoneStaysGone(table: Table, batch: Batch, tries: seq<Try>, id: int)
    requires |tries| == |batch| && id !in table
    ensures id !in Passed(table, batch, tries) && CountsRead(table, batch, tries, id) == []
    decreases |batch|
  {
    if batch != [] {
      var outcome := OutcomeOf(table, batch[0].0, tries[0]);
      var table' := Attempted(table, batch[0].0, batch[0].1, outcome, tries[0].at);
      GoneStaysGone(table', batch[1..], tries[1..], id);
    }
  }

  /** A notice leaves the table in a pass if and only if the pass reaches a successful send of it whose
    * deletion is stored. If it stays, its content does too, and its attempts grow by one for each
    * stored retry. */
  lemma {:induction false} PassDeliversIff(table: Table, batch: Batch, tries: seq<Try>, id: int)
    requires |tries| == |batch| && id in table
    ensures var t := Passed(table, batch, tries);
      && (id !in t <==> Delivered(table, batch, tries, id))
      && (id in t ==>
            && t[id].attempts == table[id].attempts + |CountsRead(table, batch, tries, id)|
            && t[id].pubkey == table[id].pubkey && t[id].deletedAt == table[id].deletedAt)
    decreases |batch|
  {
    if batch != [] {
      var outcome := OutcomeOf(table, batch[0].0, tries[0]);
      var table' := Attempted(table, batch[0].0, batch[0].1, outcome, tries[0].at);
      if !Aborts(outcome) {
        if id in table' {
          PassDeliversIff(table', batch[1..], tries[1..], id);
        } else {
          GoneStaysGone(table', batch[1..], tries[1..], id);
        }
      }
    }
  }

  ghost predicate EverDelivered(table: Table, passes: seq<Pass>, id: int)
    requires WellFormed(passes)
    decreases |passes|
  {
    passes != [] &&
    var p := passes[0];
    Delivered(table, p.batch, p.tries, id) || EverDelivered(Passed(table, p.batch, p.tries), passes[1..], id)
  }

  ghost function AllCountsRead(table: Table, passes: seq<Pass>, id: int): seq<int>
    requires WellFormed(passes)
    decreases |passes|
  {
    if passes == [] then []
    else
      var p := passes[0];
      CountsRead(table, p.batch, p.tries, id) + AllCountsRead(Passed(table, p.batch, p.tries), passes[1..], id)
  }

  lemma {:induction false} GoneForGood(table: Table, passes: seq<Pass>, id: int)
    requires WellFormed(passes) && id !in table
    ensures id !in Ran(table, passes) && AllCountsRead(table, passes, id) == []
    decreases |passes|
  {
    if passes != [] {
      var p := passes[0];
      GoneStaysGone(table, p.batch, p.tries, id);
      assert forall i :: 0 <= i < |passes[1..]| ==> passes[1..][i] == passes[i + 1];
      GoneForGood(Passed(table, p.batch, p.tries), passes[1..], id);
    }
  }

  /** Neither lost nor dropped early: over any run of passes with arbitrary failures a notice leaves the
    * table if and only if some pass has reached a successful send of it and stored the deletion.
    * Until then it keeps its content, and its attempts are exactly the failed sends whose retry was
    * stored. */
  lemma {:induction false} NoticeStaysUntilSent(table: Table, passes: seq<Pass>, id: int)
    requires WellFormed(passes) && id in table
    ensures var t := Ran(table, passes);
      && (id !in t <==> EverDelivered(table, passes, id))
      && (id in t ==>
            && t[id].attempts == table[id].attempts + |AllCountsRead(table, passes, id)|
            && t[id].pubkey == table[id].pubkey && t[id].deletedAt == table[id].deletedAt)
    decreases |passes|
  {
    if passes != [] {
      var p := passes[0];
      var next := Passed(table, p.batch, p.tries);
      PassDeliversIff(table, p.batch, p.tries, id);
      assert forall i :: 0 <= i < |passes[1..]| ==> passes[1..][i] == passes[i + 1];
      if id in next {
        NoticeStaysUntilSent(next, passes[1..], id);
      } else {
        GoneForGood(next, passes[1..], id);
      }
    }
  }

  // ---------------------------------------------------------------- delays over whole runs

  /** The delays that the stored retries of a notice set, in order. */
  ghost function Delays(table: Table, passes: seq<Pass>, id: int): (delays: seq<int>)
    requires WellFormed(passes)
    ensures |delays| == |AllCountsRead(table, passes, id)|
    ensures forall k :: 0 <= k < |delays| ==> delays[k] == Delay(AllCountsRead(table, passes, id)[k])
  {
    var counts := AllCountsRead(table, passes, id);
    seq(|counts|, k requires 0 <= k < |counts| => Delay(counts[k]))
  }

  /** One delay is shorter than another if and only if its count, taken as 0 if negative, is smaller and
    * below 6. */
  lemma ShorterDelayIff(count: int, other: int)
    ensures Delay(count) < Delay(other) <==>
            (if count < 0 then 0 else count) < (if other < 0 then 0 else other) && count < 6
  {
    DelaysAreBounded(count, other);
    DelaysAreBounded(other, count);
    if 0 <= count < other && count < 6 {
      Pow2Ascends(count + 1, Clamp(other));
      Pow2Ascends(count + 1, 6);
      Pow2AtSixteen();
      assert Pow2(count + 1) == 2 * Pow2(count);
      assert Pow2(count) <= 32;
    } else if count < 0 < other {
      Pow2Ascends(1, Clamp(other));
    }
  }

  /** So in any run a retry waits less long than the one before it if and only if it had read a smaller
    * count, below 6. */
  lemma DelayShrinksIff(table: Table, passes: seq<Pass>, id: int, k: nat)
    requires WellFormed(passes) && k + 1 < |AllCountsRead(table, passes, id)|
    ensures var counts, delays := AllCountsRead(table, passes, id), Delays(table, passes, id);
      delays[k + 1] < delays[k] <==>
        (if counts[k + 1] < 0 then 0 else counts[k + 1]) < (if counts[k] < 0 then 0 else counts[k])
        && counts[k + 1] < 6
  {
    var counts := AllCountsRead(table, passes, id);
    ShorterDelayIff(counts[k + 1], counts[k]);
  }

  /** Each pass works on rows as they were when it started. */
  ghost predicate FreshReads(table: Table, passes: seq<Pass>)
    requires WellFormed(passes)
    decreases |passes|
  {
    passes == [] || (
      var p := passes[0];
      Snapshot(table, p.batch) && FreshReads(Passed(table, p.batch, p.tries), passes[1..]))
  }

  lemma {:induction false} UnlistedReadsNothing(table: Table, batch: Batch, tries: seq<Try>, id: int)
    requires |tries| == |batch| && !Lists(batch, id)
    ensures CountsRead(table, batch, tries, id) == []
    decreases |batch|
  {
    if batch != [] {
      assert batch[0].0 != id;
      var outcome := OutcomeOf(table, batch[0].0, tries[0]);
      var table' := Attempted(table, batch[0].0, batch[0].1, outcome, tries[0].at);
      assert forall i :: 0 <= i < |batch[1..]| ==> batch[1..][i] == batch[i + 1];
      UnlistedReadsNothing(table', batch[1..], tries[1..], id);
    }
  }

  lemma {:induction false} FreshPassReads(table: Table, batch: Batch, tries: seq<Try>, id: int)
    requires |tries| == |batch| && Snapshot(table, batch) && id in table
    ensures || CountsRead(table, batch, tries, id) == []
            || CountsRead(table, batch, tries, id) == [table[id].attempts]
    decreases |batch|
  {
    if batch != [] {
      var outcome := OutcomeOf(table, batch[0].0, tries[0]);
      var table' := Attempted(table, batch[0].0, batch[0].1, outcome, tries[0].at);
      var b := batch[1..];
      assert forall i :: 0 <= i < |b| ==> b[i] == batch[i + 1];
      if batch[0].0 == id {
        assert !Lists(b, id);
        UnlistedReadsNothing(table', b, tries[1..], id);
        assert batch[0].1.attempts == table[id].attempts;
        assert CountsRead(table, batch, tries, id) == if outcome.RetryStored? then [table[id].attempts] else [];
      } else if !Aborts(outcome) {
        assert forall j :: 0 <= j < |b| ==> Row(table', b[j].0) == Row(table, b[j].0);
        assert Row(table', id) == Row(table, id);
        FreshPassReads(table', b, tries[1..], id);
        assert CountsRead(table, batch, tries, id) == CountsRead(table', b, tries[1..], id);
      }
    }
  }

  /** With fresh reads the k-th stored retry of a notice has read exactly k more attempts than there were
    * at the start. */
  lemma {:induction false} FreshRunCounts(table: Table, passes: seq<Pass>, id: int, k: nat)
    requires WellFormed(passes) && FreshReads(table, passes) && id in table
    requires k < |AllCountsRead(table, passes, id)|
    ensures AllCountsRead(table, passes, id)[k] == table[id].attempts + k
    decreases |passes|
  {
    var p, rest := passes[0], passes[1..];
    var next := Passed(table, p.batch, p.tries);
    var first := CountsRead(table, p.batch, p.tries, id);
    FreshPassReads(table, p.batch, p.tries, id);
    PassDeliversIff(table, p.batch, p.tries, id);
    assert forall i :: 0 <= i < |rest| ==> rest[i] == passes[i + 1];
    if |first| <= k {
      if id in next {
        FreshRunCounts(next, rest, id, k - |first|);
      } else {
        GoneForGood(next, rest, id);
      }
    }
  }

  /** So with fresh reads the delays of a notice follow the schedule, and never shrink. */
  lemma FreshDelaysNeverShrink(table: Table, passes: seq<Pass>, id: int, j: nat, k: nat)
    requires WellFormed(passes) && FreshReads(table, passes) && id in table
    requires j <= k < |AllCountsRead(table, passes, id)|
    ensures Delays(table, passes, id)[k] == Delay(table[id].attempts + k)
    ensures 1 <= Delays(table, passes, id)[j] <= Delays(table, passes, id)[k] <= MAX_DELAY
  {
    FreshRunCounts(table, passes, id, j);
    FreshRunCounts(table, passes, id, k);
    DelaysAreBounded(table[id].attempts + j, table[id].attempts + k);
    DelaysAreBounded(table[id].attempts + k, table[id].attempts + k);
  }

  /** A pass that tries one notice, not sent, as read with this many attempts. */
  function RetryOf(id: int, notice: Notice, attempts: int): Pass {
    Pass([(id, notice.(attempts := attempts))], [Try(false, true, 0)])
  }

  lemma OneRetry(table: Table, id: int, notice: Notice, attempts: int)
    requires id in table && table[id].attempts < MAX_INT32
    ensures var p := RetryOf(id, notice, attempts);
      && Passed(table, p.batch, p.tries)
         == table[id := table[id].(attempts := table[id].attempts + 1, nextAttemptAt := Delay(attempts))]
      && CountsRead(table, p.batch, p.tries, id) == [attempts]
  {
    var p := RetryOf(id, notice, attempts);
    assert p.batch[1..] == [] && p.tries[1..] == [];
  }

  /** Two delivery tasks at work: the second read the notice before the first had tried it twice, and
    * tries it last. The delays are one minute, two, and one again. */
  lemma StaleReadShortensTheDelay(id: int, notice: Notice)
    requires notice.attempts == 0
    ensures var passes := [RetryOf(id, notice, 0), RetryOf(id, notice, 1), RetryOf(id, notice, 0)];
      WellFormed(passes) && Delays(map[id := notice], passes, id) == [1, 2, 1]
  {
    var p0, p1 := RetryOf(id, notice, 0), RetryOf(id, notice, 1);
    var t0: Table := map[id := notice];
    var t1 := t0[id := notice.(attempts := 1, nextAttemptAt := Delay(0))];
    var t2 := t1[id := notice.(attempts := 2, nextAttemptAt := Delay(1))];
    OneRetry(t0, id, notice, 0);
    OneRetry(t1, id, notice, 1);
    OneRetry(t2, id, notice, 0);
    assert [p0, p1, p0][1..] == [p1, p0] && [p1, p0][1..] == [p0] && [p0][1..] == [];
    assert AllCountsRead(t2, [p0], id) == [0];
    assert AllCountsRead(t1, [p1, p0], id) == [1, 0];
    assert AllCountsRead(t0, [p0, p1, p0], id) == [0, 1, 0];
    assert Delay(0) == 1 && Delay(1) == 2;
  }
}
