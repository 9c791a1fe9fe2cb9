/** Retention of the query-event log: which rows may go, and the batched delete loop. */
module Retention {
  import opened Basics
  import opened EventLog
  import opened Delivery

  const BATCH_SIZE := 5_000
  const DAY: Time := 86_400 * SECOND

  /** Old enough, and at or below the slowest enabled sink's cursor, if there is one. */
  predicate Prunable(r: Row, cutoff: Time, floor: Option<int>) {
    r.occurredAt < cutoff && (floor.Some? ==> r.seqNo <= floor.value)
  }

  /** `floor` is what SELECT min(...) yields on these cursors: NULL when there are none. */
  predicate IsFloor(cursors: set<int>, floor: Option<int>) {
    match floor
    case None => cursors == {}
    case Some(m) => m in cursors && forall c :: c in cursors ==> m <= c
  }

  function EnabledCursors(sinks: seq<Sink>): set<int> {
    set s | s in sinks && s.enabled :: s.cursor
  }

  function MinDeliveredSeq(sinks: seq<Sink>): (floor: Option<int>)
    ensures IsFloor(EnabledCursors(sinks), floor)
  {
    if sinks == [] then None
    else
      var rest := MinDeliveredSeq(sinks[1..]);
      assert sinks == [sinks[0]] + sinks[1..];
      assert EnabledCursors(sinks) ==
        EnabledCursors(sinks[1..]) + if sinks[0].enabled then {sinks[0].cursor} else {};
      if sinks[0].enabled && (rest.None? || sinks[0].cursor < rest.value) then Some(sinks[0].cursor) else rest
  }

  function PrunableIds(rows: seq<Row>, cutoff: Time, floor: Option<int>): set<nat> {
    set r | r in rows && Prunable(r, cutoff, floor) :: r.seqNo
  }

  /** A finite set has a subset of every smaller size. */
  lemma {:induction false} SubsetOfSize(s: set<nat>, n: nat)
    requires n <= |s|
    ensures exists t :: t <= s && |t| == n
  {
    if n == |s| {
      assert s <= s;
    } else {
      var x :| x in s;
      SubsetOfSize(s - {x}, n);
      var t :| t <= s - {x} && |t| == n;
      assert t <= s;
    }
  }

  lemma SubsetOfSameSize(t: set<nat>, s: set<nat>)
    requires t <= s && |t| == |s|
    ensures t == s
  {
    assert |s - t| == 0;
  }

  /** A row may go exactly when it is old enough and no enabled sink has yet to pass it. */
  lemma PrunableIffPassed(r: Row, cutoff: Time, sinks: seq<Sink>)
    ensures Prunable(r, cutoff, MinDeliveredSeq(sinks)) <==>
            r.occurredAt < cutoff && forall s :: s in sinks && s.enabled ==> r.seqNo <= s.cursor
  {
    var floor := MinDeliveredSeq(sinks);
    assert forall s :: s in sinks && s.enabled ==> s.cursor in EnabledCursors(sinks);
    if floor.Some? {
      var s :| s in sinks && s.enabled && s.cursor == floor.value;
    }
  }

  class QueryEvents {
    var rows: seq<Row>

    constructor (rows: seq<Row>)
      ensures this.rows == rows
    {
      this.rows := rows;
    }

    /** One iteration: select up to a batch of prunable ids and delete them. Which ids is left
        to the database (LIMIT without ORDER BY), so any choice is allowed. */
    method PruneBatch(cutoff: Time, floor: Option<int>) returns (deleted: nat)
      requires Ordered(rows)
      modifies this
      ensures OnlyPruned(old(rows), rows, cutoff, floor)
      ensures |rows| + deleted == |old(rows)| && deleted <= BATCH_SIZE
      ensures deleted < BATCH_SIZE ==> forall r :: r in rows ==> !Prunable(r, cutoff, floor)
    {
      var found := PrunableIds(rows, cutoff, floor);
      PrunableById(rows, cutoff, floor);
      var limit := if |found| < BATCH_SIZE then |found| else BATCH_SIZE;
      SubsetOfSize(found, limit);
      var ids: set<nat> :| ids <= found && |ids| == limit;
      WithoutCount(rows, ids);
      rows := Without(rows, ids);
      deleted := |ids|;
      if deleted < BATCH_SIZE {
        SubsetOfSameSize(ids, found);
      }
    }

    /** Keeps exactly the rows that are recent enough or that some enabled sink has yet to pass, and
        returns how many it deleted. */
    method PruneQueryEvents(sinks: seq<Sink>, now: Time, retentionDays: int) returns (total: nat)
      requires Ordered(rows)
      modifies this
      ensures Ordered(rows) && total == |old(rows)| - |rows|
      ensures forall r :: r in rows <==>
                && r in old(rows)
                && (r.occurredAt >= now - retentionDays * 86_400 * SECOND || exists s :: s in sinks && s.enabled && s.cursor < r.seqNo)
      ensures total == |PrunableIds(old(rows), now - retentionDays * DAY, MinDeliveredSeq(sinks))|
    {
      var cutoff := now - retentionDays * DAY;
      var floor := MinDeliveredSeq(sinks);
      total := 0;
      while true
        invariant Ordered(rows) && OnlyPruned(old(rows), rows, cutoff, floor)
        invariant total + |rows| == |old(rows)|
        decreases |rows|
      {
        var deleted := PruneBatch(cutoff, floor);
        total := total + deleted;
        if deleted < BATCH_SIZE {
          break;
        }
      }
      PrunedCount(old(rows), rows, cutoff, floor);
      forall r: Row ensures Prunable(r, cutoff, floor) <==>
          r.occurredAt < cutoff && forall s :: s in sinks && s.enabled ==> r.seqNo <= s.cursor
      {
        PrunableIffPassed(r, cutoff, sinks);
      }
    }
  }

  /** Nothing was added, and nothing was removed but prunable rows. */
  predicate OnlyPruned(before: seq<Row>, after: seq<Row>, cutoff: Time, floor: Option<int>) {
    && Ordered(after)
    && (forall r :: r in after ==> r in before)
    && (forall r :: r in before && !Prunable(r, cutoff, floor) ==> r in after)
  }

  lemma PrunableById(rows: seq<Row>, cutoff: Time, floor: Option<int>)
    requires Ordered(rows)
    ensures forall r :: r in rows ==> (r.seqNo in PrunableIds(rows, cutoff, floor) <==> Prunable(r, cutoff, floor))
  {
    forall r | r in rows && r.seqNo in PrunableIds(rows, cutoff, floor) ensures Prunable(r, cutoff, floor) {
      var x :| x in rows && Prunable(x, cutoff, floor) && x.seqNo == r.seqNo;
      assert x == r;
    }
  }

  lemma PrunedCount(before: seq<Row>, after: seq<Row>, cutoff: Time, floor: Option<int>)
    requires Ordered(before) && Ordered(after)
    requires forall r :: r in after <==> r in before && !Prunable(r, cutoff, floor)
    ensures |PrunableIds(before, cutoff, floor)| + |after| == |before|
  {
    var ids := PrunableIds(before, cutoff, floor);
    PrunableById(before, cutoff, floor);
    SameRows(after, Without(before, ids));
    WithoutCount(before, ids);
  }
}
