/** What a collector receives. Acknowledgement is exact, arrival is not: a batch that is cut short
    by a failed send or a crash may have reached the collector in part, and is sent again. Over
    every run the collector still sees the wanted rows in order and without a gap, repetitions
    aside. An acknowledged send is taken to have arrived whole. */
module Collector {
  import opened Basics
  import opened EventLog
  import opened Replay
  import opened Delivery
  import opened Pipeline

  /** Every row the sink is configured to receive after its first cursor. */
  function Stream(w: Worker, history: seq<Row>): seq<Row> {
    Pick(history, Query(w.start, None, w.sink.tenant, w.sink.decision, None))
  }

  /** The collector has the head of the stream, at least up to what is acknowledged; the rows it has
      arrived acknowledged or on batches cut short; and every row it has is past the lag. */
  predicate SeenInv(w: Worker, clock: Time, history: seq<Row>) {
    && Heads(Stream(w, history), w.seen, |w.delivered|)
    && |w.seen| == |w.delivered| + w.stray && w.stray <= Rows(w.cuts, w.sink.batchSize)
    && forall r :: r in w.seen ==> r.ingestedAt <= clock - DELIVERY_LAG
  }

  // ---- Batches are stretches of the stream ----

  lemma DeliveredIsHead(w: Worker, clock: Time, history: seq<Row>, table: seq<Row>)
    requires LogInv(clock, history, table) && WorkerInv(w, clock, history, table)
    ensures w.delivered <= Stream(w, history)
  {
    var above := Pick(history, Query(w.sink.cursor, None, w.sink.tenant, w.sink.decision, None));
    SplitRows(Stream(w, history), w.delivered, above, w.sink.cursor);
  }

  /** A batch in flight continues the stream where acknowledgement stopped. */
  lemma BatchIsNext(w: Worker, clock: Time, history: seq<Row>, table: seq<Row>)
    requires LogInv(clock, history, table) && WorkerInv(w, clock, history, table) && w.phase.InFlight?
    ensures w.delivered + w.phase.rows <= Stream(w, history)
    ensures |w.phase.rows| <= w.sink.batchSize
    ensures forall r :: r in w.phase.rows ==> r.ingestedAt <= clock - DELIVERY_LAG
  {
    AckKeepsWorker(w, clock, history, table, false);
    DeliveredIsHead(Acknowledged(w, false), clock, history, table);
    assert forall r :: r in w.phase.rows ==> r in Pending(history, w.sink, w.phase.now);
  }

  /** Any first part of it keeps the collector at the head of the stream. */
  lemma ArrivalHeads(w: Worker, clock: Time, history: seq<Row>, table: seq<Row>, arrived: nat)
    requires LogInv(clock, history, table) && WorkerInv(w, clock, history, table) && w.phase.InFlight?
    requires SeenInv(w, clock, history) && arrived <= |w.phase.rows|
    ensures Heads(Stream(w, history), w.seen + w.phase.rows[..arrived], |w.delivered| + arrived)
  {
    BatchIsNext(w, clock, history, table);
    StretchHeads(Stream(w, history), w.seen, w.delivered, w.phase.rows, arrived);
  }

  lemma StretchHeads(stream: seq<Row>, seen: seq<Row>, delivered: seq<Row>, rows: seq<Row>, arrived: nat)
    requires Ordered(stream) && Heads(stream, seen, |delivered|) && delivered + rows <= stream && arrived <= |rows|
    ensures Heads(stream, seen + rows[..arrived], |delivered| + arrived)
  {
    var k := |delivered|;
    assert forall i :: 0 <= i < |rows| ==> rows[i] == (delivered + rows)[k + i] == stream[k + i];
    NextLines(stream, seen, k, rows[..arrived]);
  }

  lemma AckKeepsSeen(w: Worker, clock: Time, history: seq<Row>, table: seq<Row>, late: bool)
    requires LogInv(clock, history, table) && WorkerInv(w, clock, history, table) && w.phase.InFlight?
    requires SeenInv(w, clock, history)
    ensures SeenInv(Acknowledged(w, late), clock, history)
  {
    var rows := w.phase.rows;
    assert Heads(Stream(w, history), w.seen + rows, |w.delivered| + |rows|) by {
      ArrivalHeads(w, clock, history, table, |rows|);
      assert rows[..|rows|] == rows;
    }
    assert forall r :: r in rows ==> r.ingestedAt <= clock - DELIVERY_LAG by { BatchIsNext(w, clock, history, table); }
    assert Stream(Acknowledged(w, late), history) == Stream(w, history);
  }

  lemma CutInFlightKeepsSeen(w: Worker, clock: Time, history: seq<Row>, table: seq<Row>, arrived: nat)
    requires LogInv(clock, history, table) && WorkerInv(w, clock, history, table) && w.phase.InFlight?
    requires SeenInv(w, clock, history) && arrived <= |w.phase.rows|
    ensures SeenInv(Cut(w, arrived), clock, history)
  {
    BatchIsNext(w, clock, history, table);
    ArrivalHeads(w, clock, history, table, arrived);
    SeenAfterCut(w, clock, history, arrived);
  }

  lemma SeenAfterCut(w: Worker, clock: Time, history: seq<Row>, arrived: nat)
    requires SeenInv(w, clock, history) && w.phase.InFlight? && arrived <= |w.phase.rows| <= w.sink.batchSize
    requires Heads(Stream(w, history), w.seen + w.phase.rows[..arrived], |w.delivered| + arrived)
    requires forall r :: r in w.phase.rows ==> r.ingestedAt <= clock - DELIVERY_LAG
    ensures SeenInv(Cut(w, arrived), clock, history)
  {
    assert Rows(w.cuts + 1, w.sink.batchSize) == Rows(w.cuts, w.sink.batchSize) + w.sink.batchSize;
    assert forall r :: r in w.phase.rows[..arrived] ==> r in w.phase.rows;
  }

  lemma CutKeepsSeen(w: Worker, clock: Time, history: seq<Row>, table: seq<Row>, arrived: nat)
    requires LogInv(clock, history, table) && WorkerInv(w, clock, history, table)
    requires SeenInv(w, clock, history) && arrived <= |Sending(w)|
    ensures SeenInv(Cut(w, arrived), clock, history)
  {
    if w.phase.InFlight? {
      CutInFlightKeepsSeen(w, clock, history, table, arrived);
    } else {
      assert Cut(w, arrived) == w.(phase := Idle) by { assert w.seen + [] == w.seen; }
    }
  }

  // ---- A row becoming visible ----

  /** The lag again: a row that becomes visible within it comes after everything the collector has. */
  lemma CommitKeepsSeen(w: Worker, clock: Time, history: seq<Row>, row: Row)
    requires Ordered(history) && SeenInv(w, clock, history)
    requires forall r :: r in history ==> r.seqNo != row.seqNo && InStep(r, row)
    requires clock < row.ingestedAt + DELIVERY_LAG
    ensures SeenInv(w, clock, Insert(history, row))
  {
    var stream, after, seen := Stream(w, history), Stream(w, Insert(history, row)), Firsts(w.seen);
    FirstsAreLines(w.seen);
    assert forall i :: 0 <= i < |seen| ==> seen[i] == stream[i];
    forall x | x in seen ensures x in stream && x.seqNo < row.seqNo {
      assert InStep(x, row);
    }
    forall r, x | r in after && x in seen && r.seqNo <= x.seqNo ensures r in seen {
      InHead(stream, seen, r, x);
    }
    GapFreeIsPrefix(seen, after);
  }

  lemma InHead(stream: seq<Row>, head: seq<Row>, r: Row, x: Row)
    requires Ordered(stream) && head <= stream && r in stream && x in head && r.seqNo <= x.seqNo
    ensures r in head
  {
    var i :| 0 <= i < |stream| && stream[i] == r;
    var j :| 0 <= j < |head| && head[j] == x;
    assert stream[j] == x;
    assert head[i] == r;
  }

  // ---- Every run ----

  lemma StepKeepsSeen(s: State, step: Step, id: string)
    requires Inv(s) && CanStep(s, step) && id in s.workers && SeenInv(s.workers[id], s.clock, s.history)
    ensures id in Apply(s, step).workers && SeenInv(Apply(s, step).workers[id], Apply(s, step).clock, Apply(s, step).history)
  {
    var w := s.workers[id];
    match step
    case Commit(row) => CommitKeepsSeen(w, s.clock, s.history, row);
    case Ack(who, late) => if who == id { AckKeepsSeen(w, s.clock, s.history, s.table, late); }
    case Fail(who, error, arrived) => if who == id { CutKeepsSeen(w, s.clock, s.history, s.table, arrived); }
    case Crash(who, arrived) => if who == id { CutKeepsSeen(w, s.clock, s.history, s.table, arrived); }
    case _ =>
  }

  lemma {:induction false} RunKeepsSeen(s: State, steps: seq<Step>, id: string)
    requires Inv(s) && IsRun(s, steps) && id in s.workers && SeenInv(s.workers[id], s.clock, s.history)
    ensures Inv(Run(s, steps)) && id in Run(s, steps).workers
    ensures SeenInv(Run(s, steps).workers[id], Run(s, steps).clock, Run(s, steps).history)
    decreases |steps|
  {
    if steps != [] {
      StepKeepsSeen(s, steps[0], id);
      StepKeepsInv(s, steps[0]);
      RunKeepsSeen(Apply(s, steps[0]), steps[1..], id);
    }
  }

  /** In every run, the collector has received every acknowledged row; what it has received,
      repetitions aside, is a gap-free head of the rows the sink is configured for, in `seq` order,
      and starts with the acknowledged ones; every arrival beyond those came on a batch cut short, at
      most a batch each time; and once all it has is acknowledged, some row was repeated if and only if
      some row arrived on a batch cut short. */
  lemma CollectorSeesHead(init: State, steps: seq<Step>, id: string)
    requires Init(init) && IsRun(init, steps) && id in init.workers
    ensures var s := Run(init, steps);
            && id in s.workers
            && var w, first := s.workers[id], init.workers[id].sink;
            && (forall r :: r in w.delivered ==> r in w.seen)
            && w.delivered <= Firsts(w.seen)
            && Firsts(w.seen) <= Pick(s.history, Query(first.cursor, None, first.tenant, first.decision, None))
            && |w.seen| == |w.delivered| + w.stray && w.stray <= first.batchSize * w.cuts
            && (w.delivered == Firsts(w.seen) ==> (Firsts(w.seen) != w.seen <==> w.stray > 0))
  {
    InitHasInv(init);
    RunKeepsSeen(init, steps, id);
    RunExtends(init, steps);
    var s := Run(init, steps);
    SeenMeans(s.workers[id], s.clock, s.history, s.table);
  }

  lemma SeenMeans(w: Worker, clock: Time, history: seq<Row>, table: seq<Row>)
    requires LogInv(clock, history, table) && WorkerInv(w, clock, history, table) && SeenInv(w, clock, history)
    ensures (forall r :: r in w.delivered ==> r in w.seen) && w.delivered <= Firsts(w.seen) <= Stream(w, history)
    ensures |w.seen| == |w.delivered| + w.stray && w.stray <= w.sink.batchSize * w.cuts
    ensures w.delivered == Firsts(w.seen) ==> (Firsts(w.seen) != w.seen <==> w.stray > 0)
  {
    DeliveredIsHead(w, clock, history, table);
    FirstsAreLines(w.seen);
    RowsTimes(w.cuts, w.sink.batchSize);
    assert w.delivered <= Firsts(w.seen);
    assert forall r :: r in w.delivered ==> r in Firsts(w.seen);
    if w.stray == 0 { AllFirsts(w.seen); }
  }

  /** Nothing is repeated if there are as many first occurrences as lines. */
  lemma {:induction false} AllFirsts(lines: seq<Row>)
    ensures |Firsts(lines)| == |lines| ==> Firsts(lines) == lines
  {
    if lines != [] {
      var n := |lines| - 1;
      AllFirsts(lines[..n]);
      assert lines == lines[..n] + [lines[n]];
    }
  }

  /** The bound is met wherever a batch is due: a crash once it has arrived makes the collector
      receive all of it twice. */
  lemma CrashRepeatsBatch(s: State, id: string) returns (steps: seq<Step>)
    requires id in s.workers && s.workers[id].phase.Idle? && s.workers[id].sink.enabled && Due(s.workers[id].sink, s.clock)
    requires Batch(s.table, s.workers[id].sink, s.clock) != []
    ensures IsRun(s, steps) && id in Run(s, steps).workers
    ensures var w, w' := s.workers[id], Run(s, steps).workers[id];
            var batch := Batch(s.table, w.sink, s.clock);
            && w'.delivered == w.delivered + batch && w'.seen == w.seen + batch + batch
            && w'.cuts == w.cuts + 1 && w'.stray == w.stray + |batch|
  {
    var w := s.workers[id];
    var batch := Batch(s.table, w.sink, s.clock);
    var read := AfterRead(s, id, 0);
    var crashed := s.(workers := s.workers[id := w.(seen := w.seen + batch, cuts := w.cuts + 1, stray := w.stray + |batch|)]);
    assert batch[..|batch|] == batch;
    assert Apply(read, Crash(id, |batch|)).workers == crashed.workers;
    var again := AfterRead(crashed, id, 0);
    RunCons(again, Ack(id, false), []);
    ReadRun(crashed, id, 0, [Ack(id, false)] + []);
    var rest := [Advance(0)] + ([Begin(id)] + ([Select(id)] + ([Ack(id, false)] + [])));
    RunCons(read, Crash(id, |batch|), rest);
    ReadRun(s, id, 0, [Crash(id, |batch|)] + rest);
    steps := [Advance(0)] + ([Begin(id)] + ([Select(id)] + ([Crash(id, |batch|)] + rest)));
  }

  /** Such a run exists from a fresh start. */
  lemma FreshSinkCanRepeat() returns (init: State, steps: seq<Step>, row: Row)
    ensures Init(init) && "sink" in init.workers && IsRun(init, steps) && "sink" in Run(init, steps).workers
    ensures Run(init, steps).workers["sink"].delivered == [row] && Run(init, steps).workers["sink"].seen == [row, row]
  {
    row := Row(1, None, "block", 0, 0, "");
    var sink := Sink("", "all", 200, 30 * SECOND, 0, true, 0, None, None, None);
    init := State(DELIVERY_LAG, [row], [row], map["sink" := Worker(sink, Idle, 0, [], [], 0, 0)], Resting);
    assert Pick([row], PendingQuery(sink, DELIVERY_LAG)) == [row];
    steps := CrashRepeatsBatch(init, "sink");
  }
}
