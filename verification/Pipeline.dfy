/** Delivery, retention and ingestion running concurrently over one growing log.

    A delivery tick is not atomic here: reading a batch, sending it and committing the cursor
    are separate steps, with inserts, other sinks, prune batches and crashes in between. `now` is
    read once per tick, so every later batch of the tick uses an older clock than the wall.

    Assumptions, all in CanCommit and CanStep: `seq` and `ingested_at` grow together; a row
    becomes visible less than the delivery lag after its `ingested_at`; a sink has one runner;
    batch sizes are at least 1; sinks' settings do not change and no sink is re-enabled. */
module Pipeline {
  import opened Basics
  import opened EventLog
  import opened Delivery
  import opened Retention

  /** Where a sink's runner is. `now` is the time its tick started, `done` the batches it
      has acknowledged. */
  datatype Phase =
    | Idle
    | Ready(now: Time, done: nat)
    | Scanned(now: Time)                            // found no row, cursor not yet moved
    | InFlight(now: Time, done: nat, rows: seq<Row>) // read a batch, send not yet resolved

  /** A sink with its runner. `start` is its first cursor, `delivered` the rows acknowledged since,
      `seen` what the collector has received, repetitions included, `cuts` how many batches in flight
      were cut short and `stray` how many rows arrived on them. All but the first two are history the
      program does not store. */
  datatype Worker = Worker(
    sink: Sink, phase: Phase, start: int, delivered: seq<Row>, seen: seq<Row>, cuts: nat, stray: nat)

  datatype Pruner = Resting | Pruning(cutoff: Time, floor: Option<int>)

  /** `table` holds the rows a query can see; `history` all rows it has ever shown. */
  datatype State = State(clock: Time, history: seq<Row>, table: seq<Row>, workers: map<string, Worker>, pruner: Pruner)

  datatype Step =
    | Advance(elapsed: nat)
    | Commit(row: Row)
    | Begin(id: string)
    | Select(id: string)
    | Jump(id: string)
    | Ack(id: string, late: bool)
    | Fail(id: string, error: string, arrived: nat)
    | Crash(id: string, arrived: nat)
    | PruneStart(cutoff: Time, floor: Option<int>)
    | PruneBatch(victims: set<nat>)
    | PruneEnd

  // ---- The steps ----

  /** Two rows agree on the order of `seq` and `ingested_at`. */
  predicate InStep(a: Row, b: Row) {
    (a.seqNo < b.seqNo ==> a.ingestedAt <= b.ingestedAt) && (b.seqNo < a.seqNo ==> b.ingestedAt <= a.ingestedAt)
  }

  /** Everything the database guarantees about a row that becomes visible, except when. */
  predicate Insertable(s: State, row: Row) {
    && row.ingestedAt <= s.clock
    && (forall r :: r in s.history ==> r.seqNo != row.seqNo && InStep(r, row))
  }

  predicate CanCommit(s: State, row: Row) {
    Insertable(s, row) && s.clock < row.ingestedAt + DELIVERY_LAG
  }

  predicate Tabular(s: State) {
    Ordered(s.history) && Ordered(s.table) && forall r :: r in s.table ==> r in s.history
  }

  function EnabledAt(workers: map<string, Worker>): set<int> {
    set id | id in workers && workers[id].sink.enabled :: workers[id].sink.cursor
  }

  predicate CanStep(s: State, step: Step) {
    match step
    case Advance(_) => true
    case Commit(row) => Tabular(s) && CanCommit(s, row)
    case Begin(id) => id in s.workers && s.workers[id].phase.Idle? && s.workers[id].sink.enabled && Due(s.workers[id].sink, s.clock)
    case Select(id) => id in s.workers && s.workers[id].phase.Ready?
    case Jump(id) => id in s.workers && s.workers[id].phase.Scanned?
    case Ack(id, _) => id in s.workers && s.workers[id].phase.InFlight? && s.workers[id].phase.rows != []
    case Fail(id, _, arrived) => id in s.workers && s.workers[id].phase.InFlight? && arrived <= |s.workers[id].phase.rows|
    case Crash(id, arrived) => id in s.workers && arrived <= |Sending(s.workers[id])|
    case PruneStart(_, floor) => s.pruner.Resting? && IsFloor(EnabledAt(s.workers), floor)
    case PruneBatch(victims) =>
      && s.pruner.Pruning?
      && forall r :: r in s.table && r.seqNo in victims ==> Prunable(r, s.pruner.cutoff, s.pruner.floor)
    case PruneEnd => s.pruner.Pruning?
  }

  function Selected(w: Worker, table: seq<Row>): Worker
    requires w.phase.Ready?
  {
    var rows := Batch(table, w.sink, w.phase.now);
    w.(phase := if rows == [] then Scanned(w.phase.now) else InFlight(w.phase.now, w.phase.done, rows))
  }

  function JumpedPast(w: Worker, table: seq<Row>): Worker
    requires w.phase.Scanned?
  {
    w.(sink := Jumped(w.sink, table, w.phase.now), phase := Idle)
  }

  function Acknowledged(w: Worker, late: bool): Worker
    requires w.phase.InFlight? && w.phase.rows != []
  {
    var InFlight(now, done, rows) := w.phase;
    var over := |rows| < w.sink.batchSize || done + 1 >= MAX_BATCHES_PER_TICK || late;
    w.(sink := Acked(w.sink, rows, now),
       phase := if over then Idle else Ready(now, done + 1),
       delivered := w.delivered + rows,
       seen := w.seen + rows)
  }

  /** The batch in flight, if there is one. */
  function Sending(w: Worker): seq<Row> {
    if w.phase.InFlight? then w.phase.rows else []
  }

  /** A batch cut short after its first `arrived` rows reached the collector. */
  function Cut(w: Worker, arrived: nat): Worker
    requires arrived <= |Sending(w)|
  {
    w.(phase := Idle,
       seen := w.seen + Sending(w)[..arrived],
       cuts := if w.phase.InFlight? then w.cuts + 1 else w.cuts,
       stray := w.stray + arrived)
  }

  function FailedSend(w: Worker, error: string, arrived: nat): Worker
    requires w.phase.InFlight? && arrived <= |w.phase.rows|
  {
    Cut(w, arrived).(sink := Failed(w.sink, w.phase.now, error))
  }

  /** A row becoming visible. */
  function Shown(s: State, row: Row): State
    requires Tabular(s) && forall r :: r in s.history ==> r.seqNo != row.seqNo
  {
    s.(history := Insert(s.history, row), table := Insert(s.table, row))
  }

  function Apply(s: State, step: Step): State
    requires CanStep(s, step)
  {
    match step
    case Advance(elapsed) => s.(clock := s.clock + elapsed)
    case Commit(row) => Shown(s, row)
    case Begin(id) => s.(workers := s.workers[id := s.workers[id].(phase := Ready(s.clock, 0))])
    case Select(id) => s.(workers := s.workers[id := Selected(s.workers[id], s.table)])
    case Jump(id) => s.(workers := s.workers[id := JumpedPast(s.workers[id], s.table)])
    case Ack(id, late) => s.(workers := s.workers[id := Acknowledged(s.workers[id], late)])
    case Fail(id, error, arrived) => s.(workers := s.workers[id := FailedSend(s.workers[id], error, arrived)])
    case Crash(id, arrived) => s.(workers := s.workers[id := Cut(s.workers[id], arrived)])
    case PruneStart(cutoff, floor) => s.(pruner := Pruning(cutoff, floor))
    case PruneBatch(victims) => s.(table := Without(s.table, victims))
    case PruneEnd => s.(pruner := Resting)
  }

  predicate Init(s: State) {
    && Ordered(s.history) && s.table == s.history && s.pruner.Resting?
    && (forall a, b :: a in s.history && b in s.history ==> InStep(a, b))
    && (forall r :: r in s.history ==> r.ingestedAt <= s.clock)
    && (forall id :: id in s.workers ==> Fresh(s.workers[id]))
  }

  predicate Fresh(w: Worker) {
    && w.sink.batchSize >= 1 && w.sink.enabled && w.sink.failures == 0 && w.sink.retryAt.None?
    && w.phase.Idle? && w.start == w.sink.cursor && w.delivered == [] && w.seen == [] && w.cuts == 0 && w.stray == 0
  }

  predicate IsRun(s: State, steps: seq<Step>)
    decreases |steps|
  {
    steps == [] || (CanStep(s, steps[0]) && IsRun(Apply(s, steps[0]), steps[1..]))
  }

  function Run(s: State, steps: seq<Step>): State
    requires IsRun(s, steps)
    decreases |steps|
  {
    if steps == [] then s else Run(Apply(s, steps[0]), steps[1..])
  }

  // ---- What every run keeps ----

  /** The rows of the log the sink is configured to receive, after its start and up to its cursor. */
  function Owed(w: Worker): Query {
    Query(w.start, Some(w.sink.cursor), w.sink.tenant, w.sink.decision, None)
  }

  /** The acknowledged rows are exactly the owed rows, once each, in `seq` order. */
  predicate Exact(w: Worker, history: seq<Row>) {
    w.delivered == Pick(history, Owed(w))
  }

  /** The cursor stands at its start, or on a row that was past the lag. */
  predicate Settled(w: Worker, history: seq<Row>, clock: Time) {
    || w.sink.cursor == w.start
    || (w.start < w.sink.cursor && exists r :: r in history && r.seqNo == w.sink.cursor && r.ingestedAt <= clock - DELIVERY_LAG)
  }

  /** An enabled sink can still read every row above its cursor. */
  predicate Unpruned(w: Worker, history: seq<Row>, table: seq<Row>) {
    w.sink.enabled ==> forall r :: r in history && w.sink.cursor < r.seqNo ==> r in table
  }

  /** What a runner has read agrees with the whole log, pruned or late rows included. */
  predicate ReadRight(w: Worker, history: seq<Row>, clock: Time) {
    && (!w.phase.Idle? ==> w.phase.now <= clock && w.sink.enabled)
    && (w.phase.Scanned? ==> Pending(history, w.sink, w.phase.now) == [])
    && (w.phase.InFlight? ==> w.phase.rows != [] && w.phase.rows == Batch(history, w.sink, w.phase.now))
  }

  predicate WorkerInv(w: Worker, clock: Time, history: seq<Row>, table: seq<Row>) {
    && w.sink.batchSize >= 1
    && Settled(w, history, clock)
    && Unpruned(w, history, table)
    && ReadRight(w, history, clock)
    && Exact(w, history)
  }

  predicate LogInv(clock: Time, history: seq<Row>, table: seq<Row>) {
    && Ordered(history) && Ordered(table)
    && (forall r :: r in table ==> r in history)
    && (forall r :: r in history ==> r.ingestedAt <= clock)
    && (forall a, b :: a in history && b in history ==> InStep(a, b))
  }

  /** The floor read when the prune started is below every cursor that is still enabled. */
  predicate FloorInv(s: State) {
    s.pruner.Pruning? ==>
      forall id :: id in s.workers && s.workers[id].sink.enabled ==>
        s.pruner.floor.Some? && s.pruner.floor.value <= s.workers[id].sink.cursor
  }

  predicate Inv(s: State) {
    && LogInv(s.clock, s.history, s.table)
    && FloorInv(s)
    && (forall id :: id in s.workers ==> WorkerInv(s.workers[id], s.clock, s.history, s.table))
  }

  // ---- A row becoming visible ----

  /** The lag keeps a late row above every cursor that has moved. */
  lemma LateRowIsAhead(w: Worker, clock: Time, history: seq<Row>, row: Row)
    requires Settled(w, history, clock)
    requires clock < row.ingestedAt + DELIVERY_LAG
    requires forall r :: r in history ==> r.seqNo != row.seqNo && InStep(r, row)
    ensures !Fits(row, Owed(w))
  {
    if w.sink.cursor != w.start {
      var r :| r in history && r.seqNo == w.sink.cursor && r.ingestedAt <= clock - DELIVERY_LAG;
      assert InStep(r, row);
    }
  }

  lemma CommitKeepsWorker(w: Worker, clock: Time, history: seq<Row>, table: seq<Row>, row: Row)
    requires LogInv(clock, history, table) && WorkerInv(w, clock, history, table)
    requires row.ingestedAt <= clock < row.ingestedAt + DELIVERY_LAG
    requires forall r :: r in history ==> r.seqNo != row.seqNo && InStep(r, row)
    ensures WorkerInv(w, clock, Insert(history, row), Insert(table, row))
  {
    LateRowIsAhead(w, clock, history, row);
    PickInsert(history, row, Owed(w));
    if !w.phase.Idle? {
      PickInsert(history, row, PendingQuery(w.sink, w.phase.now));
    }
  }

  // ---- A runner's own steps ----

  /** Above an enabled sink's cursor, the table shows what the whole log shows. */
  lemma TableShowsPending(w: Worker, clock: Time, history: seq<Row>, table: seq<Row>, now: Time)
    requires LogInv(clock, history, table) && Unpruned(w, history, table) && w.sink.enabled
    ensures Pending(table, w.sink, now) == Pending(history, w.sink, now)
  {
    SameRows(Pending(table, w.sink, now), Pending(history, w.sink, now));
  }

  /** The empty-batch jump passes over no row the sink is owed. */
  lemma JumpKeepsWorker(w: Worker, clock: Time, history: seq<Row>, table: seq<Row>)
    requires LogInv(clock, history, table) && WorkerInv(w, clock, history, table) && w.phase.Scanned?
    ensures WorkerInv(JumpedPast(w, table), clock, history, table)
    ensures w.sink.cursor <= JumpedPast(w, table).sink.cursor
  {
    var w' := JumpedPast(w, table);
    var seen := Pick(table, SeenQuery(w.sink, w.phase.now));
    if w'.sink.cursor != w.sink.cursor {
      var top := Last(seen);
      forall r | r in history && Fits(r, Owed(w')) ensures Fits(r, Owed(w)) {
        assert InStep(r, top);
        assert r !in Pending(history, w.sink, w.phase.now);
      }
      SameRows(Pick(history, Owed(w')), Pick(history, Owed(w)));
    }
  }

  lemma InPrefix(p: seq<Row>, rows: seq<Row>, r: Row)
    requires Ordered(p) && rows <= p && rows != [] && r in p && r.seqNo <= Last(rows).seqNo
    ensures r in rows
  {
    var i :| 0 <= i < |p| && p[i] == r;
    assert p[|rows| - 1] == Last(rows);
    assert rows[i] == r;
  }

  /** Rows at or below the last row of a batch, and above the cursor, are the batch. */
  lemma BatchIsInterval(w: Worker, clock: Time, history: seq<Row>, table: seq<Row>, r: Row)
    requires LogInv(clock, history, table) && WorkerInv(w, clock, history, table) && w.phase.InFlight?
    requires r in history && Fits(r, PendingQuery(w.sink, w.phase.now).(cutoff := None))
    ensures r in w.phase.rows <==> r.seqNo <= Last(w.phase.rows).seqNo
  {
    var rows, p := w.phase.rows, Pending(history, w.sink, w.phase.now);
    assert Last(rows) in p;
    if r.seqNo <= Last(rows).seqNo {
      assert InStep(r, Last(rows));
      InPrefix(p, rows, r);
    }
  }

  lemma AckKeepsWorker(w: Worker, clock: Time, history: seq<Row>, table: seq<Row>, late: bool)
    requires LogInv(clock, history, table) && WorkerInv(w, clock, history, table) && w.phase.InFlight?
    ensures WorkerInv(Acknowledged(w, late), clock, history, table)
    ensures w.sink.cursor < Acknowledged(w, late).sink.cursor
  {
    var w', rows := Acknowledged(w, late), w.phase.rows;
    assert Last(rows) in Pending(history, w.sink, w.phase.now);
    var all := w.delivered + rows;
    forall i, j | 0 <= i < j < |all| ensures all[i].seqNo < all[j].seqNo {
      if i < |w.delivered| <= j {
        assert all[i] in w.delivered && all[j] in rows;
        assert all[j] in Pending(history, w.sink, w.phase.now);
      }
    }
    forall r ensures r in all <==> r in Pick(history, Owed(w')) {
      if r in history && Fits(r, PendingQuery(w.sink, w.phase.now).(cutoff := None)) {
        BatchIsInterval(w, clock, history, table, r);
      }
      if r in rows {
        assert r in Pending(history, w.sink, w.phase.now);
      }
    }
    SameRows(all, Pick(history, Owed(w')));
  }

  // ---- Every step keeps the invariant ----

  /** A runner's step leaves the log alone and never moves a cursor back. */
  lemma RunnerKeepsInv(s: State, id: string, w': Worker)
    requires Inv(s) && id in s.workers
    requires WorkerInv(w', s.clock, s.history, s.table)
    requires s.workers[id].sink.cursor <= w'.sink.cursor
    requires w'.sink.enabled ==> s.workers[id].sink.enabled
    ensures Inv(s.(workers := s.workers[id := w']))
  {}

  lemma PruneKeepsInv(s: State, victims: set<nat>)
    requires Inv(s) && CanStep(s, PruneBatch(victims))
    ensures Inv(Apply(s, PruneBatch(victims)))
  {}

  lemma CommitKeepsInv(s: State, row: Row)
    requires Inv(s) && CanStep(s, Commit(row))
    ensures Inv(Apply(s, Commit(row)))
  {
    forall id | id in s.workers ensures WorkerInv(s.workers[id], s.clock, Insert(s.history, row), Insert(s.table, row)) {
      CommitKeepsWorker(s.workers[id], s.clock, s.history, s.table, row);
    }
  }

  lemma RunnerStepKeepsWorker(s: State, step: Step)
    requires Inv(s) && CanStep(s, step)
    requires step.Begin? || step.Select? || step.Jump? || step.Ack? || step.Fail? || step.Crash?
    ensures var w, w' := s.workers[step.id], Apply(s, step).workers[step.id];
            WorkerInv(w', s.clock, s.history, s.table) && w'.sink.cursor >= w.sink.cursor
  {
    var w := s.workers[step.id];
    if step.Select? {
      TableShowsPending(w, s.clock, s.history, s.table, w.phase.now);
    } else if step.Jump? {
      JumpKeepsWorker(w, s.clock, s.history, s.table);
    } else if step.Ack? {
      AckKeepsWorker(w, s.clock, s.history, s.table, step.late);
    }
  }

  lemma RunnerStepKeepsInv(s: State, step: Step)
    requires Inv(s) && CanStep(s, step)
    requires step.Begin? || step.Select? || step.Jump? || step.Ack? || step.Fail? || step.Crash?
    ensures Inv(Apply(s, step))
  {
    RunnerStepKeepsWorker(s, step);
    RunnerKeepsInv(s, step.id, Apply(s, step).workers[step.id]);
  }

  lemma AdvanceKeepsInv(s: State, elapsed: nat)
    requires Inv(s)
    ensures Inv(Apply(s, Advance(elapsed)))
  {}

  lemma PrunerKeepsInv(s: State, step: Step)
    requires Inv(s) && CanStep(s, step) && (step.PruneStart? || step.PruneEnd?)
    ensures Inv(Apply(s, step))
  {
    assert forall id :: id in s.workers && s.workers[id].sink.enabled ==> s.workers[id].sink.cursor in EnabledAt(s.workers);
  }

  lemma StepKeepsInv(s: State, step: Step)
    requires Inv(s) && CanStep(s, step)
    ensures Inv(Apply(s, step))
  {
    match step
    case Commit(row) => CommitKeepsInv(s, row);
    case PruneBatch(victims) => PruneKeepsInv(s, victims);
    case Advance(elapsed) => AdvanceKeepsInv(s, elapsed);
    case PruneStart(_, _) => PrunerKeepsInv(s, step);
    case PruneEnd => PrunerKeepsInv(s, step);
    case _ => RunnerStepKeepsInv(s, step);
  }

  lemma InitHasInv(s: State)
    requires Init(s)
    ensures Inv(s)
  {
    forall id | id in s.workers ensures Exact(s.workers[id], s.history) {
      assert Pick(s.history, Owed(s.workers[id])) == [] by {
        SameRows(Pick(s.history, Owed(s.workers[id])), []);
      }
    }
  }

  lemma {:induction false} RunKeepsInv(s: State, steps: seq<Step>)
    requires Inv(s) && IsRun(s, steps)
    ensures Inv(Run(s, steps))
    decreases |steps|
  {
    if steps != [] {
      StepKeepsInv(s, steps[0]);
      RunKeepsInv(Apply(s, steps[0]), steps[1..]);
    }
  }

  // ---- The guarantees ----

  /** A run keeps the sinks, where they started and their settings, moves cursors forward only,
      never re-enables a sink and never takes an acknowledgement back. */
  predicate Extends(s: State, t: State) {
    t.workers.Keys == s.workers.Keys && forall id :: id in s.workers ==> Continues(s.workers[id], t.workers[id])
  }

  predicate Continues(w: Worker, v: Worker) {
    && v.start == w.start && SameSettings(v.sink, w.sink)
    && w.sink.cursor <= v.sink.cursor && w.delivered <= v.delivered
    && (v.sink.enabled ==> w.sink.enabled)
  }

  lemma RunnerContinues(w: Worker, clock: Time, history: seq<Row>, table: seq<Row>, late: bool)
    requires LogInv(clock, history, table) && WorkerInv(w, clock, history, table)
    ensures w.phase.Scanned? ==> Continues(w, JumpedPast(w, table))
    ensures w.phase.InFlight? ==> Continues(w, Acknowledged(w, late))
  {
    if w.phase.Scanned? {
      JumpKeepsWorker(w, clock, history, table);
    } else if w.phase.InFlight? {
      AckKeepsWorker(w, clock, history, table, late);
    }
  }

  lemma OthersContinue(s: State, step: Step)
    requires CanStep(s, step)
    requires step.Jump? ==> Continues(s.workers[step.id], JumpedPast(s.workers[step.id], s.table))
    requires step.Ack? ==> Continues(s.workers[step.id], Acknowledged(s.workers[step.id], step.late))
    ensures Extends(s, Apply(s, step))
  {}

  lemma StepExtends(s: State, step: Step)
    requires Inv(s) && CanStep(s, step)
    ensures Extends(s, Apply(s, step))
  {
    if step.Jump? || step.Ack? {
      RunnerContinues(s.workers[step.id], s.clock, s.history, s.table, step.Ack? && step.late);
    }
    OthersContinue(s, step);
  }

  lemma {:induction false} RunExtends(s: State, steps: seq<Step>)
    requires Inv(s) && IsRun(s, steps)
    ensures Extends(s, Run(s, steps))
    decreases |steps|
  {
    if steps != [] {
      StepExtends(s, steps[0]);
      StepKeepsInv(s, steps[0]);
      RunExtends(Apply(s, steps[0]), steps[1..]);
    }
  }

  /** A row the sink is configured to receive. */
  predicate Wanted(r: Row, s: Sink) {
    (s.tenant == "" || r.tenant == Some(s.tenant)) && (s.decision == "all" || r.decision == s.decision)
  }

  /** In every interleaving, the rows acknowledged to a sink are exactly the wanted rows ever
      visible between its first cursor and its current one, once each and in order; and as long
      as it is enabled, every wanted row above its first cursor is acknowledged or still stored. */
  lemma EveryRunDeliversExactly(init: State, steps: seq<Step>, id: string)
    requires Init(init) && IsRun(init, steps) && id in init.workers
    ensures var s := Run(init, steps);
            && id in s.workers
            && var w, first := s.workers[id], init.workers[id].sink;
            && SameSettings(w.sink, first)
            && Ordered(w.delivered)
            && (forall r :: r in w.delivered <==>
                  r in s.history && Wanted(r, first) && first.cursor < r.seqNo <= w.sink.cursor)
            && (w.sink.enabled ==> forall r :: r in s.history && Wanted(r, first) && first.cursor < r.seqNo ==>
                  r in w.delivered || r in s.table)
  {
    InitHasInv(init);
    RunKeepsInv(init, steps);
    RunExtends(init, steps);
  }

  /** In every run the log can grow: a row later than all others, in `seq` and in time, becomes
      visible if and only if it was ingested less than five seconds ago. */
  lemma LogGrowsIff(init: State, steps: seq<Step>, row: Row)
    requires Init(init) && IsRun(init, steps) && row.ingestedAt <= Run(init, steps).clock
    requires forall r :: r in Run(init, steps).history ==> r.seqNo < row.seqNo && r.ingestedAt <= row.ingestedAt
    ensures var s := Run(init, steps);
            && (CanStep(s, Commit(row)) <==> s.clock < row.ingestedAt + 5 * SECOND)
            && (CanStep(s, Commit(row)) ==> row in Apply(s, Commit(row)).table)
  {
    InitHasInv(init);
    RunKeepsInv(init, steps);
  }

  /** No prune batch of any run deletes a row an enabled sink still has to send, although the
      floor was read once and cursors have moved since. */
  lemma PruneLosesNothing(init: State, steps: seq<Step>, victims: set<nat>, r: Row, id: string)
    requires Init(init) && IsRun(init, steps) && CanStep(Run(init, steps), PruneBatch(victims))
    requires id in init.workers && id in Run(init, steps).workers && Run(init, steps).workers[id].sink.enabled
    requires r in Run(init, steps).table && r !in Apply(Run(init, steps), PruneBatch(victims)).table
    ensures var s := Run(init, steps);
            && r.seqNo <= s.workers[id].sink.cursor
            && (Wanted(r, init.workers[id].sink) && init.workers[id].sink.cursor < r.seqNo ==> r in s.workers[id].delivered)
  {
    InitHasInv(init);
    RunKeepsInv(init, steps);
    RunExtends(init, steps);
  }

  // ---- Composing runs ----

  lemma RunCons(s: State, step: Step, rest: seq<Step>)
    requires CanStep(s, step) && IsRun(Apply(s, step), rest)
    ensures IsRun(s, [step] + rest) && Run(s, [step] + rest) == Run(Apply(s, step), rest)
  {
    assert ([step] + rest)[1..] == rest;
  }

  lemma RunConsTwice(s: State, a: Step, b: Step, rest: seq<Step>)
    requires CanStep(s, a) && CanStep(Apply(s, a), b) && IsRun(Apply(Apply(s, a), b), rest)
    ensures IsRun(s, [a] + ([b] + rest)) && Run(s, [a] + ([b] + rest)) == Run(Apply(Apply(s, a), b), rest)
  {
    RunCons(Apply(s, a), b, rest);
    RunCons(s, a, [b] + rest);
  }

  /** The state once the sink's tick, `wait` from now, has read its batch. */
  function AfterRead(s: State, id: string, wait: nat): State
    requires id in s.workers
  {
    var ready := s.workers[id].(phase := Ready(s.clock + wait, 0));
    s.(clock := s.clock + wait, workers := s.workers[id := Selected(ready, s.table)])
  }

  lemma ReadRun(s: State, id: string, wait: nat, rest: seq<Step>)
    requires id in s.workers && s.workers[id].phase.Idle? && s.workers[id].sink.enabled && Due(s.workers[id].sink, s.clock + wait)
    requires IsRun(AfterRead(s, id, wait), rest)
    ensures var steps := [Advance(wait)] + ([Begin(id)] + ([Select(id)] + rest));
            IsRun(s, steps) && Run(s, steps) == Run(AfterRead(s, id, wait), rest)
  {
    var a := Apply(s, Advance(wait));
    assert Apply(Apply(a, Begin(id)), Select(id)).workers == AfterRead(s, id, wait).workers;
    RunConsTwice(a, Begin(id), Select(id), rest);
    RunCons(s, Advance(wait), [Begin(id)] + ([Select(id)] + rest));
  }
}
