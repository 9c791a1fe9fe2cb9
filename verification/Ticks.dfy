/** The tick the delivery engine performs in place is one run of the concurrent model: the one that
    nothing interrupts. */
module Ticks {
  import opened Basics
  import opened EventLog
  import opened Delivery
  import opened Retention
  import opened Pipeline

  /** `t` is `s` after the sink's runner finished its tick: only that sink changed, to `sink`, and
      it acknowledged `sent`. */
  predicate TickedTo(s: State, id: string, t: State, sink: Sink, sent: seq<Row>)
    requires id in s.workers
  {
    && id in t.workers && t == s.(workers := s.workers[id := t.workers[id]])
    && t.workers[id].phase.Idle? && t.workers[id].sink == sink && t.workers[id].delivered == s.workers[id].delivered + sent
  }

  /** A runner after reading a batch and resolving it, with nothing in between. */
  function Resolved(w: Worker, table: seq<Row>, attempt: Attempt): Worker
    requires w.phase.Ready? && w.sink.batchSize >= 1
  {
    var read := Selected(w, table);
    if read.phase.Scanned? then JumpedPast(read, table)
    else if attempt.ok then Acknowledged(read, attempt.late)
    else FailedSend(read, attempt.error, 0)
  }

  lemma ResolvedIsBatch(w: Worker, table: seq<Row>, attempt: Attempt)
    requires w.phase.Ready? && w.sink.batchSize >= 1
    ensures var r := DeliverBatch(w.sink, table, w.phase.now, attempt);
            var w' := Resolved(w, table, attempt);
            var over := r.raised || |r.sent| < w.sink.batchSize || attempt.late || w.phase.done + 1 >= MAX_BATCHES_PER_TICK;
            && w'.sink == r.sink && w'.sink.batchSize == w.sink.batchSize && w'.delivered == w.delivered + r.sent
            && w'.phase == if over then Idle else Ready(w.phase.now, w.phase.done + 1)
  {
    assert w.delivered + [] == w.delivered;
  }

  function Resolution(w: Worker, id: string, attempt: Attempt): Step {
    if w.phase.Scanned? then Jump(id) else if attempt.ok then Ack(id, attempt.late) else Fail(id, attempt.error, 0)
  }

  lemma BatchIsARun(s: State, id: string, attempt: Attempt, rest: seq<Step>)
    requires id in s.workers && s.workers[id].phase.Ready? && s.workers[id].sink.batchSize >= 1
    requires IsRun(s.(workers := s.workers[id := Resolved(s.workers[id], s.table, attempt)]), rest)
    ensures var steps := [Select(id)] + ([Resolution(Selected(s.workers[id], s.table), id, attempt)] + rest);
            && IsRun(s, steps)
            && Run(s, steps) == Run(s.(workers := s.workers[id := Resolved(s.workers[id], s.table, attempt)]), rest)
  {
    var read := Apply(s, Select(id));
    var next := Resolution(Selected(s.workers[id], s.table), id, attempt);
    var after := s.(workers := s.workers[id := Resolved(s.workers[id], s.table, attempt)]);
    assert CanStep(read, next);
    assert Apply(read, next).workers == after.workers;
    RunCons(read, next, rest);
    RunCons(s, Select(id), [next] + rest);
  }

  /** A runner after the rest of its tick. */
  function Drained(w: Worker, table: seq<Row>, net: seq<Attempt>): Worker
    requires w.phase.Ready? && w.sink.batchSize >= 1
    requires net != [] && |net| == MAX_BATCHES_PER_TICK - w.phase.done
    decreases |net|
  {
    var w' := Resolved(w, table, net[0]);
    ResolvedIsBatch(w, table, net[0]);
    if w'.phase.Ready? then Drained(w', table, net[1..]) else w'
  }

  lemma {:induction false} DrainedIsDrain(w: Worker, table: seq<Row>, net: seq<Attempt>)
    requires w.phase.Ready? && w.sink.batchSize >= 1
    requires net != [] && |net| == MAX_BATCHES_PER_TICK - w.phase.done
    ensures var d := Drain(w.sink, table, w.phase.now, net);
            var w' := Drained(w, table, net);
            w'.sink == d.0 && w'.delivered == w.delivered + d.1 && w'.phase.Idle?
    decreases |net|
  {
    var w', r := Resolved(w, table, net[0]), DeliverBatch(w.sink, table, w.phase.now, net[0]);
    ResolvedIsBatch(w, table, net[0]);
    if w'.phase.Ready? {
      DrainedIsDrain(w', table, net[1..]);
      DrainGoesOn(w, w', r.sent, Drain(r.sink, table, w.phase.now, net[1..]).1, Drained(w', table, net[1..]).delivered);
    } else {
      assert |net| == 1 ==> Drain(r.sink, table, w.phase.now, net[1..]) == (r.sink, []);
      assert r.sent + [] == r.sent;
    }
  }

  lemma DrainGoesOn(w: Worker, w': Worker, sent: seq<Row>, rest: seq<Row>, all: seq<Row>)
    requires w'.delivered == w.delivered + sent && all == w'.delivered + rest
    ensures all == w.delivered + (sent + rest)
  {}

  lemma {:induction false} DrainIsARun(s: State, id: string, net: seq<Attempt>) returns (steps: seq<Step>)
    requires id in s.workers && s.workers[id].phase.Ready? && s.workers[id].sink.batchSize >= 1
    requires net != [] && |net| == MAX_BATCHES_PER_TICK - s.workers[id].phase.done
    ensures IsRun(s, steps) && Run(s, steps) == s.(workers := s.workers[id := Drained(s.workers[id], s.table, net)])
    decreases |net|
  {
    var w := s.workers[id];
    var w' := Resolved(w, s.table, net[0]);
    var after := s.(workers := s.workers[id := w']);
    ResolvedIsBatch(w, s.table, net[0]);
    steps := [];
    if w'.phase.Ready? {
      steps := DrainIsARun(after, id, net[1..]);
      var drained := Drained(w', s.table, net[1..]);
      assert after.workers[id := drained] == s.workers[id := drained];
    }
    BatchIsARun(s, id, net[0], steps);
    steps := [Select(id)] + ([Resolution(Selected(w, s.table), id, net[0])] + steps);
  }

  /** The tick the delivery engine performs is one run of this model: the one nobody interrupts. */
  lemma TickIsARun(s: State, id: string, f: Firing) returns (steps: seq<Step>)
    requires id in s.workers && s.workers[id].phase.Idle? && s.workers[id].sink.batchSize >= 1
    requires f.Valid() && f.at == s.clock
    ensures IsRun(s, steps)
    ensures var d := Tick(s.workers[id].sink, s.table, f);
            TickedTo(s, id, Run(s, steps), d.0, d.1)
  {
    steps := [];
    var w := s.workers[id];
    if w.sink.enabled && Due(w.sink, f.at) {
      var begun := Apply(s, Begin(id));
      steps := DrainIsARun(begun, id, f.net);
      DrainedIsDrain(begun.workers[id], s.table, f.net);
      RunCons(s, Begin(id), steps);
      steps := [Begin(id)] + steps;
    }
  }

  function Cursors(workers: map<string, Worker>, ids: set<string>): set<int>
    requires ids <= workers.Keys
  {
    set id | id in ids :: workers[id].sink.cursor
  }

  /** The least of some sinks' cursors, as SELECT min(...) yields it. */
  lemma {:induction false} SomeFloor(workers: map<string, Worker>, ids: set<string>) returns (floor: Option<int>)
    requires ids <= workers.Keys
    ensures IsFloor(Cursors(workers, ids), floor)
    decreases |ids|
  {
    floor := None;
    if ids != {} {
      var id :| id in ids;
      var c := workers[id].sink.cursor;
      floor := SomeFloor(workers, ids - {id});
      if floor.None? || c < floor.value { floor := Some(c); }
      assert Cursors(workers, ids) == Cursors(workers, ids - {id}) + {c};
    }
  }

  /** Every row above some enabled sink's cursor, or not older than the cutoff. */
  ghost predicate Stays(s: State, r: Row, cutoff: Time) {
    r.occurredAt >= cutoff || exists id :: id in s.workers && s.workers[id].sink.enabled && s.workers[id].sink.cursor < r.seqNo
  }

  lemma PrunableIffGoes(s: State, r: Row, cutoff: Time, floor: Option<int>)
    requires IsFloor(EnabledAt(s.workers), floor)
    ensures Prunable(r, cutoff, floor) <==> !Stays(s, r, cutoff)
  {
    assert forall id :: id in s.workers && s.workers[id].sink.enabled ==> s.workers[id].sink.cursor in EnabledAt(s.workers);
    if floor.Some? {
      var id :| id in s.workers && s.workers[id].sink.enabled && s.workers[id].sink.cursor == floor.value;
    }
  }

  /** A prune that nothing interrupts is one run of this model too: it leaves exactly the rows that
      are recent enough or that some enabled sink has yet to pass. */
  lemma PruneIsARun(s: State, cutoff: Time) returns (steps: seq<Step>)
    requires s.pruner.Resting? && Ordered(s.table)
    ensures IsRun(s, steps)
    ensures var t := Run(s, steps);
            && t == s.(table := t.table) && Ordered(t.table)
            && forall r :: r in t.table <==> r in s.table && Stays(s, r, cutoff)
  {
    var enabled := set id | id in s.workers && s.workers[id].sink.enabled;
    var floor := SomeFloor(s.workers, enabled);
    assert EnabledAt(s.workers) == Cursors(s.workers, enabled);
    var ids := PrunableIds(s.table, cutoff, floor);
    PrunableById(s.table, cutoff, floor);
    forall r ensures Prunable(r, cutoff, floor) <==> !Stays(s, r, cutoff) {
      PrunableIffGoes(s, r, cutoff, floor);
    }
    var begun := Apply(s, PruneStart(cutoff, floor));
    var after := Apply(begun, PruneBatch(ids));
    RunCons(after, PruneEnd, []);
    RunConsTwice(s, PruneStart(cutoff, floor), PruneBatch(ids), [PruneEnd] + []);
    steps := [PruneStart(cutoff, floor)] + ([PruneBatch(ids)] + ([PruneEnd] + []));
  }
}
