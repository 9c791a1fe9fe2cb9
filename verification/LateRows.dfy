/** Rows that become visible late: exactly when a sink is bound to get them, when it still can, and why
    the delivery lag must outlast every insert. */
module LateRows {
  import opened Basics
  import opened EventLog
  import opened Delivery
  import opened Pipeline

  /** No continuation acknowledges the row to the sink. */
  ghost predicate Lost(s: State, id: string, row: Row) {
    forall more :: IsRun(s, more) ==> id in Run(s, more).workers && row !in Run(s, more).workers[id].delivered
  }

  // ---- A row below the cursor never comes back ----

  /** The cursor has passed the row, and the batch in flight lies above it. */
  predicate Passed(w: Worker, row: Row) {
    && row.seqNo <= w.sink.cursor && row !in w.delivered
    && forall r :: r in Sending(w) ==> row.seqNo < r.seqNo
  }

  lemma ReadIsAbove(w: Worker, table: seq<Row>, row: Row)
    requires w.phase.Ready? && Passed(w, row)
    ensures Passed(Selected(w, table), row)
  {
    var p := Pending(table, w.sink, w.phase.now);
    assert forall r :: r in Batch(table, w.sink, w.phase.now) ==> r in p;
  }

  lemma StepKeepsPassed(s: State, step: Step, id: string, row: Row)
    requires CanStep(s, step) && id in s.workers && Passed(s.workers[id], row)
    ensures id in Apply(s, step).workers && Passed(Apply(s, step).workers[id], row)
  {
    if step.Select? && step.id == id {
      ReadIsAbove(s.workers[id], s.table, row);
    }
  }

  lemma {:induction false} PassedForever(s: State, steps: seq<Step>, id: string, row: Row)
    requires IsRun(s, steps) && id in s.workers && Passed(s.workers[id], row)
    ensures id in Run(s, steps).workers && Passed(Run(s, steps).workers[id], row)
    decreases |steps|
  {
    if steps != [] {
      StepKeepsPassed(s, steps[0], id, row);
      PassedForever(Apply(s, steps[0]), steps[1..], id, row);
    }
  }

  lemma PassedIsLost(s: State, id: string, row: Row)
    requires id in s.workers && Passed(s.workers[id], row)
    ensures Lost(s, id, row)
  {
    forall more | IsRun(s, more) ensures id in Run(s, more).workers && row !in Run(s, more).workers[id].delivered {
      PassedForever(s, more, id, row);
    }
  }

  // ---- A row above the cursor can still be delivered ----

  /** A sink that can still read the row. */
  predicate Awaits(s: State, id: string, row: Row) {
    && Ordered(s.table) && row in s.table && id in s.workers
    && var w := s.workers[id];
       && w.sink.enabled && w.sink.batchSize >= 1 && Wanted(row, w.sink) && w.sink.cursor < row.seqNo
  }

  function Until(clock: Time, t: Time): nat { if clock < t then t - clock else 0 }

  /** Long enough for the sink to be due and the row to be past the lag. */
  function Wait(s: State, w: Worker, row: Row): nat {
    var due := if w.sink.retryAt.Some? then w.sink.retryAt.value
               else if w.sink.lastAt.Some? then w.sink.lastAt.value + w.sink.flushInterval else s.clock;
    Until(s.clock, due) + Until(s.clock, row.ingestedAt + DELIVERY_LAG)
  }

  /** The state after one batch, sent and acknowledged `Wait` from now. */
  function AfterBatch(s: State, id: string, wait: nat): State
    requires id in s.workers && Batch(s.table, s.workers[id].sink, s.clock + wait) != []
  {
    var read := AfterRead(s, id, wait);
    read.(workers := read.workers[id := Acknowledged(read.workers[id], true)])
  }

  function BatchSteps(id: string, wait: nat, rest: seq<Step>): seq<Step> {
    [Advance(wait)] + ([Begin(id)] + ([Select(id)] + ([Ack(id, true)] + rest)))
  }

  lemma BatchRun(s: State, id: string, row: Row, rest: seq<Step>)
    requires Awaits(s, id, row) && s.workers[id].phase.Idle?
    ensures var wait := Wait(s, s.workers[id], row);
            && row in Pending(s.table, s.workers[id].sink, s.clock + wait)
            && Batch(s.table, s.workers[id].sink, s.clock + wait) != []
            && (IsRun(AfterBatch(s, id, wait), rest) ==>
                  && IsRun(s, BatchSteps(id, wait, rest))
                  && Run(s, BatchSteps(id, wait, rest)) == Run(AfterBatch(s, id, wait), rest))
  {
    var wait := Wait(s, s.workers[id], row);
    assert row in Pending(s.table, s.workers[id].sink, s.clock + wait);
    if IsRun(AfterBatch(s, id, wait), rest) {
      RunCons(AfterRead(s, id, wait), Ack(id, true), rest);
      ReadRun(s, id, wait, [Ack(id, true)] + rest);
    }
  }

  /** One batch either contains the row or brings the cursor closer to it. */
  lemma BatchApproaches(s: State, id: string, row: Row)
    requires Awaits(s, id, row) && s.workers[id].phase.Idle?
    requires var at := s.clock + Wait(s, s.workers[id], row);
             row in Pending(s.table, s.workers[id].sink, at) && Batch(s.table, s.workers[id].sink, at) != []
    ensures var w' := AfterBatch(s, id, Wait(s, s.workers[id], row)).workers[id];
            && w'.phase.Idle? && s.workers[id].sink.cursor < w'.sink.cursor
            && (row in w'.delivered || Awaits(AfterBatch(s, id, Wait(s, s.workers[id], row)), id, row))
  {
    var at := s.clock + Wait(s, s.workers[id], row);
    var p, rows := Pending(s.table, s.workers[id].sink, at), Batch(s.table, s.workers[id].sink, at);
    assert Last(rows) in p;
    if row.seqNo <= Last(rows).seqNo {
      InPrefix(p, rows, row);
    }
  }

  lemma {:induction false} DeliverTill(s: State, id: string, row: Row) returns (steps: seq<Step>)
    requires Awaits(s, id, row) && s.workers[id].phase.Idle?
    ensures IsRun(s, steps) && id in Run(s, steps).workers && row in Run(s, steps).workers[id].delivered
    decreases row.seqNo - s.workers[id].sink.cursor
  {
    var wait := Wait(s, s.workers[id], row);
    BatchRun(s, id, row, []);
    BatchApproaches(s, id, row);
    var next := AfterBatch(s, id, wait);
    steps := [];
    if row !in next.workers[id].delivered {
      steps := DeliverTill(next, id, row);
    }
    BatchRun(s, id, row, steps);
    steps := BatchSteps(id, wait, steps);
  }

  lemma AwaitedIsNotLost(s: State, id: string, row: Row)
    requires Awaits(s, id, row)
    ensures !Lost(s, id, row)
  {
    var idle := Apply(s, Crash(id, 0));
    var rest := DeliverTill(idle, id, row);
    RunCons(s, Crash(id, 0), rest);
    assert IsRun(s, [Crash(id, 0)] + rest);
  }

  // ---- Exactly when a late row is safe ----

  /** Whatever happens next, the sink's cursor does not pass the row without acknowledging it. */
  ghost predicate Kept(s: State, id: string, row: Row) {
    forall more :: IsRun(s, more) ==>
      id in Run(s, more).workers
      && (row.seqNo <= Run(s, more).workers[id].sink.cursor ==> row in Run(s, more).workers[id].delivered)
  }

  /** What the runner has already read or passed excludes the row: its cursor lies at or above it, a
      batch in flight ends at or above it, or a read that found nothing should have found it. */
  predicate Overtaken(w: Worker, row: Row) {
    || row.seqNo <= w.sink.cursor
    || (w.phase.InFlight? && w.phase.rows != [] && row.seqNo <= Last(w.phase.rows).seqNo)
    || (w.phase.Scanned? && row.ingestedAt <= w.phase.now - DELIVERY_LAG)
  }

  /** The row is in the log, in step with all others. */
  predicate Logged(history: seq<Row>, table: seq<Row>, row: Row) {
    && Ordered(table) && row in history
    && (forall r :: r in table ==> r in history)
    && (forall r :: r in history ==> InStep(r, row) && (r.seqNo == row.seqNo ==> r == row))
  }

  /** What holds of a runner whatever is inserted and when. */
  predicate Steady(w: Worker, pruner: Pruner) {
    && w.sink.batchSize >= 1
    && (!w.phase.Idle? ==> w.sink.enabled)
    && (w.phase.InFlight? ==> w.phase.rows != [])
    && (forall r :: r in Sending(w) ==> w.sink.cursor < r.seqNo)
    && (w.sink.enabled && pruner.Pruning? ==> pruner.floor.Some? && pruner.floor.value <= w.sink.cursor)
  }

  /** The row is acknowledged, or the sink will still come to it. */
  predicate Coming(w: Worker, table: seq<Row>, row: Row) {
    || row in w.delivered
    || (&& w.sink.cursor < row.seqNo
        && (w.sink.enabled ==> row in table)
        && (w.phase.InFlight? && w.phase.rows != [] ==> row in w.phase.rows || Last(w.phase.rows).seqNo < row.seqNo)
        && (w.phase.Scanned? ==> w.phase.now - DELIVERY_LAG < row.ingestedAt))
  }

  predicate Safe(s: State, id: string, row: Row) {
    && Logged(s.history, s.table, row) && id in s.workers
    && Wanted(row, s.workers[id].sink) && Steady(s.workers[id], s.pruner) && Coming(s.workers[id], s.table, row)
  }

  /** Reading a batch: it contains the row, ends before it, or cannot yet see it. */
  lemma ReadKeepsComing(w: Worker, history: seq<Row>, table: seq<Row>, pruner: Pruner, row: Row)
    requires w.phase.Ready? && Logged(history, table, row) && Wanted(row, w.sink) && Steady(w, pruner) && Coming(w, table, row)
    ensures Steady(Selected(w, table), pruner) && Coming(Selected(w, table), table, row)
  {
    var p, rows := Pending(table, w.sink, w.phase.now), Batch(table, w.sink, w.phase.now);
    assert forall r :: r in rows ==> r in p;
    if row !in w.delivered {
      if row.ingestedAt <= w.phase.now - DELIVERY_LAG {
        assert row in p;
        if row.seqNo <= Last(rows).seqNo { InPrefix(p, rows, row); }
      } else if rows != [] {
        assert InStep(Last(rows), row);
      }
    }
  }

  /** Moving on after an empty read stays below a row that read could not yet see. */
  lemma JumpKeepsComing(w: Worker, history: seq<Row>, table: seq<Row>, pruner: Pruner, row: Row)
    requires w.phase.Scanned? && Logged(history, table, row) && Steady(w, pruner) && Coming(w, table, row)
    ensures Steady(JumpedPast(w, table), pruner) && Coming(JumpedPast(w, table), table, row)
  {
    var seen := Pick(table, SeenQuery(w.sink, w.phase.now));
    if seen != [] {
      assert Last(seen) in seen;
      assert InStep(Last(seen), row);
    }
  }

  lemma AckKeepsComing(w: Worker, table: seq<Row>, pruner: Pruner, row: Row, late: bool)
    requires w.phase.InFlight? && w.phase.rows != [] && Steady(w, pruner) && Coming(w, table, row)
    ensures Steady(Acknowledged(w, late), pruner) && Coming(Acknowledged(w, late), table, row)
  {
    assert Last(w.phase.rows) in Sending(w);
  }

  lemma RunnerKeepsSafe(s: State, step: Step, id: string, row: Row)
    requires Safe(s, id, row) && CanStep(s, step)
    requires step.Begin? || step.Select? || step.Jump? || step.Ack? || step.Fail? || step.Crash?
    ensures Safe(Apply(s, step), id, row)
  {
    var w := s.workers[id];
    if step.id == id {
      match step
      case Select(_) => ReadKeepsComing(w, s.history, s.table, s.pruner, row);
      case Jump(_) => JumpKeepsComing(w, s.history, s.table, s.pruner, row);
      case Ack(_, late) => AckKeepsComing(w, s.table, s.pruner, row, late);
      case _ =>
    }
  }

  lemma CommitKeepsSafe(s: State, other: Row, id: string, row: Row)
    requires Safe(s, id, row) && CanStep(s, Commit(other))
    ensures Safe(Apply(s, Commit(other)), id, row)
  {
    assert InStep(row, other) && row.seqNo != other.seqNo;
  }

  lemma PrunerKeepsSafe(s: State, step: Step, id: string, row: Row)
    requires Safe(s, id, row) && CanStep(s, step) && (step.PruneStart? || step.PruneBatch? || step.PruneEnd?)
    ensures Safe(Apply(s, step), id, row)
  {
    if step.PruneStart? && s.workers[id].sink.enabled {
      assert s.workers[id].sink.cursor in EnabledAt(s.workers);
    }
  }

  lemma StepKeepsSafe(s: State, step: Step, id: string, row: Row)
    requires Safe(s, id, row) && CanStep(s, step)
    ensures Safe(Apply(s, step), id, row)
  {
    match step
    case Advance(_) =>
    case Commit(other) => CommitKeepsSafe(s, other, id, row);
    case PruneStart(_, _) => PrunerKeepsSafe(s, step, id, row);
    case PruneBatch(_) => PrunerKeepsSafe(s, step, id, row);
    case PruneEnd => PrunerKeepsSafe(s, step, id, row);
    case _ => RunnerKeepsSafe(s, step, id, row);
  }

  lemma {:induction false} RunKeepsSafe(s: State, steps: seq<Step>, id: string, row: Row)
    requires Safe(s, id, row) && IsRun(s, steps)
    ensures Safe(Run(s, steps), id, row)
    decreases |steps|
  {
    if steps != [] {
      StepKeepsSafe(s, steps[0], id, row);
      RunKeepsSafe(Apply(s, steps[0]), steps[1..], id, row);
    }
  }

  lemma SafeIsKept(s: State, id: string, row: Row)
    requires Safe(s, id, row)
    ensures Kept(s, id, row)
  {
    forall more | IsRun(s, more)
      ensures id in Run(s, more).workers
      ensures row.seqNo <= Run(s, more).workers[id].sink.cursor ==> row in Run(s, more).workers[id].delivered
    {
      RunKeepsSafe(s, more, id, row);
    }
  }

  /** A run of one step in which the cursor passes the row without it. */
  lemma OneStepPasses(s: State, step: Step, id: string, row: Row)
    requires CanStep(s, step) && id in Apply(s, step).workers
    requires row.seqNo <= Apply(s, step).workers[id].sink.cursor && row !in Apply(s, step).workers[id].delivered
    ensures !Kept(s, id, row)
  {
    RunCons(s, step, []);
    assert IsRun(s, [step] + []);
  }

  lemma OvertakenIsNotKept(s: State, id: string, row: Row)
    requires Tabular(s) && row in s.table && id in s.workers && Wanted(row, s.workers[id].sink)
    requires row !in s.workers[id].delivered && row !in Sending(s.workers[id]) && Overtaken(s.workers[id], row)
    ensures !Kept(s, id, row)
  {
    var w := s.workers[id];
    if row.seqNo <= w.sink.cursor {
      assert IsRun(s, []);
    } else if w.phase.InFlight? {
      OneStepPasses(s, Ack(id, true), id, row);
    } else {
      assert row in Pick(s.table, SeenQuery(w.sink, w.phase.now));
      OneStepPasses(s, Jump(id), id, row);
    }
  }

  /** In every run, at whatever time a wanted row becomes visible: in every continuation the sink
      acknowledges the row before its cursor passes it, if and only if the runner has not overtaken
      the row; and a runner overtakes no row above its first cursor that becomes visible within the lag. */
  lemma LateRowIsKeptIff(init: State, steps: seq<Step>, id: string, row: Row)
    requires Init(init) && IsRun(init, steps) && Tabular(Run(init, steps)) && Insertable(Run(init, steps), row)
    requires id in Run(init, steps).workers && Wanted(row, Run(init, steps).workers[id].sink)
    ensures var s := Run(init, steps);
            && (Kept(Shown(s, row), id, row) <==> !Overtaken(s.workers[id], row))
            && (CanCommit(s, row) && s.workers[id].start < row.seqNo ==> !Overtaken(s.workers[id], row))
  {
    InitHasInv(init);
    RunKeepsInv(init, steps);
    var s := Run(init, steps);
    ShownIsKeptIff(s, id, row);
    if CanCommit(s, row) && s.workers[id].start < row.seqNo {
      NotOvertakenInTime(s, id, row);
    }
  }

  lemma ShownIsKeptIff(s: State, id: string, row: Row)
    requires Inv(s) && Tabular(s) && Insertable(s, row) && id in s.workers && Wanted(row, s.workers[id].sink)
    ensures Kept(Shown(s, row), id, row) <==> !Overtaken(s.workers[id], row)
  {
    assert row !in s.history;
    ReachedIsSteady(s, id);
    if Overtaken(s.workers[id], row) {
      OvertakenIsNotKept(Shown(s, row), id, row);
    } else {
      FreshRowIsLogged(s, row);
      SafeIsKept(Shown(s, row), id, row);
    }
  }

  lemma ReachedIsSteady(s: State, id: string)
    requires Inv(s) && id in s.workers
    ensures Steady(s.workers[id], s.pruner)
    ensures forall r :: r in Sending(s.workers[id]) || r in s.workers[id].delivered ==> r in s.history
    ensures forall r :: r in Sending(s.workers[id]) ==> r.ingestedAt <= s.clock - DELIVERY_LAG
  {
    var w := s.workers[id];
    assert WorkerInv(w, s.clock, s.history, s.table);
    assert forall r :: r in Sending(w) ==> r in Pending(s.history, w.sink, w.phase.now);
  }

  lemma FreshRowIsLogged(s: State, row: Row)
    requires Inv(s) && Tabular(s) && Insertable(s, row)
    ensures Logged(Shown(s, row).history, Shown(s, row).table, row) && row in Shown(s, row).table
  {}

  lemma NotOvertakenInTime(s: State, id: string, row: Row)
    requires Inv(s) && id in s.workers && CanCommit(s, row) && s.workers[id].start < row.seqNo && Wanted(row, s.workers[id].sink)
    ensures !Overtaken(s.workers[id], row)
  {
    var w := s.workers[id];
    ReachedIsSteady(s, id);
    assert WorkerInv(w, s.clock, s.history, s.table);
    assert w.sink.cursor < row.seqNo by { LateRowIsAhead(w, s.clock, s.history, row); }
    if w.phase.InFlight? {
      assert Last(w.phase.rows) in Sending(w);
      assert InStep(Last(w.phase.rows), row);
    }
  }

  /** Some continuation still acknowledges a late row to an enabled sink if and only if its cursor has
      not passed the row: a crash lets a runner that has overtaken it read again. */
  lemma LateRowCanArriveIff(init: State, steps: seq<Step>, id: string, row: Row)
    requires Init(init) && IsRun(init, steps) && Tabular(Run(init, steps)) && Insertable(Run(init, steps), row)
    requires id in Run(init, steps).workers && Run(init, steps).workers[id].sink.enabled
    requires Wanted(row, Run(init, steps).workers[id].sink)
    ensures !Lost(Shown(Run(init, steps), row), id, row) <==> Run(init, steps).workers[id].sink.cursor < row.seqNo
  {
    InitHasInv(init);
    RunKeepsInv(init, steps);
    var s := Run(init, steps);
    ReachedIsSteady(s, id);
    if row.seqNo <= s.workers[id].sink.cursor {
      assert row !in s.history;
      PassedIsLost(Shown(s, row), id, row);
    } else {
      assert WorkerInv(s.workers[id], s.clock, s.history, s.table);
      AwaitedIsNotLost(Shown(s, row), id, row);
    }
  }

  /** Visible exactly one lag after its ingestion, a row can be lost: it lands below a cursor that a
      complete, failure-free batch has already moved. */
  lemma LagMustBeStrict() returns (init: State, steps: seq<Step>, late: Row)
    ensures Init(init) && IsRun(init, steps)
    ensures var s := Run(init, steps);
            && Tabular(s) && Insertable(s, late) && s.clock == late.ingestedAt + DELIVERY_LAG
            && "sink" in s.workers && s.workers["sink"].sink.enabled
            && Wanted(late, s.workers["sink"].sink) && s.workers["sink"].start < late.seqNo
            && Lost(Shown(s, late), "sink", late)
  {
    late := Row(1, None, "block", 0, 0, "");
    init, steps := OneRowDelivered(Row(2, None, "block", 0, 0, ""));
    PassedIsLost(Shown(Run(init, steps), late), "sink", late);
  }

  /** A run that delivers the only row of the log as soon as it is past the lag. */
  lemma OneRowDelivered(row: Row) returns (init: State, steps: seq<Step>)
    requires row.ingestedAt == 0 && row.seqNo > 0
    ensures Init(init) && IsRun(init, steps)
    ensures var s := Run(init, steps);
            && s.history == [row] && s.table == [row] && s.clock == DELIVERY_LAG && "sink" in s.workers
            && var w := s.workers["sink"];
            && w.phase.Idle? && w.start == 0 && w.delivered == [row]
            && w.sink.enabled && w.sink.tenant == "" && w.sink.decision == "all" && w.sink.cursor == row.seqNo
  {
    var sink := Sink("", "all", 200, 30 * SECOND, 0, true, 0, None, None, None);
    init := State(DELIVERY_LAG, [row], [row], map["sink" := Worker(sink, Idle, 0, [], [], 0, 0)], Resting);
    assert Awaits(init, "sink", row) && Wait(init, init.workers["sink"], row) == 0;
    steps := DeliverOnlyRow(init, "sink", row);
  }

  lemma DeliverOnlyRow(s: State, id: string, row: Row) returns (steps: seq<Step>)
    requires Awaits(s, id, row) && s.workers[id].phase.Idle? && s.table == [row]
    ensures IsRun(s, steps)
    ensures var t := Run(s, steps);
            && t.history == s.history && t.table == s.table && t.clock == s.clock + Wait(s, s.workers[id], row)
            && id in t.workers
            && t.workers[id].delivered == s.workers[id].delivered + [row]
            && t.workers[id].sink.cursor == row.seqNo && t.workers[id].phase.Idle? && t.workers[id].sink.enabled
            && SameSettings(t.workers[id].sink, s.workers[id].sink) && t.workers[id].start == s.workers[id].start
  {
    var at := s.clock + Wait(s, s.workers[id], row);
    assert Fits(row, PendingQuery(s.workers[id].sink, at));
    assert Pending(s.table, s.workers[id].sink, at) == [row];
    BatchRun(s, id, row, []);
    steps := BatchSteps(id, Wait(s, s.workers[id], row), []);
  }
}
