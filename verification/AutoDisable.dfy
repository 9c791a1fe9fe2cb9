/** Backoff and auto-disable: how long a sink's failures must last before it is switched off. */
module AutoDisable {
  import opened Basics
  import opened EventLog
  import opened Delivery
  import opened Pipeline

  /** The backoff accumulated by `n` failures in a row. */
  function Waited(n: nat): Time {
    if n == 0 then 0 else Waited(n - 1) + Backoff(n)
  }

  // ---- What the steps of a run show of one sink ----

  function Counted(n: nat, step: Step, id: string): nat {
    match step
    case Ack(i, _) => if i == id then 0 else n
    case Fail(i, _, _) => if i == id then n + 1 else n
    case _ => n
  }

  /** The failures of a sink since its last acknowledged batch, from the steps alone. */
  function StreakFrom(n: nat, steps: seq<Step>, id: string): nat
    decreases |steps|
  {
    if steps == [] then n else StreakFrom(Counted(n, steps[0], id), steps[1..], id)
  }

  /** What an observer of the steps notes about one sink: the time, when its latest tick started,
      when the tick of its last acknowledged batch started, the text of its last failure and when
      that failure's tick started, and for its streak of failures the start of the first tick and
      the time of the first failure. */
  datatype Notes = Notes(
    clock: Time, tick: Time, ackedTick: Option<Time>, error: Option<string>, failedTick: Time,
    streakTick: Option<Time>, streakAt: Option<Time>)

  function Noted(o: Notes, step: Step, id: string): Notes {
    match step
    case Advance(elapsed) => o.(clock := o.clock + elapsed)
    case Begin(i) => if i == id then o.(tick := o.clock) else o
    case Ack(i, _) =>
      if i == id then o.(ackedTick := Some(o.tick), error := None, streakTick := None, streakAt := None) else o
    case Fail(i, text, _) =>
      if i != id then o
      else o.(error := Some(if |text| <= 2000 then text else text[..2000]), failedTick := o.tick,
              streakTick := if o.streakTick.None? then Some(o.tick) else o.streakTick,
              streakAt := if o.streakAt.None? then Some(o.clock) else o.streakAt)
    case _ => o
  }

  function Watched(o: Notes, steps: seq<Step>, id: string): Notes
    decreases |steps|
  {
    if steps == [] then o else Watched(Noted(o, steps[0], id), steps[1..], id)
  }

  function Blank(clock: Time, sink: Sink): Notes {
    Notes(clock, clock, sink.lastAt, sink.lastError, clock, None, None)
  }

  // ---- The sink agrees with them, in every run ----

  /** The columns of a sink that has failed `n` times since its last acknowledged batch. */
  predicate Recorded(sink: Sink, n: nat, o: Notes) {
    && sink.failures == n <= MAX_CONSECUTIVE_FAILURES
    && (sink.enabled <==> n < MAX_CONSECUTIVE_FAILURES)
    && sink.retryAt == (if n == 0 then None else Some(o.failedTick + Backoff(n)))
    && sink.lastAt == o.ackedTick && sink.lastError == o.error
    && (n > 0 <==> o.streakTick.Some?) && (n > 0 <==> o.streakAt.Some?)
  }

  /** How far apart the failures of a streak are. */
  predicate Spaced(n: nat, o: Notes) {
    && o.tick <= o.clock
    && (n > 0 && o.streakTick.Some? && o.streakAt.Some? ==>
          && o.streakTick.value <= o.streakAt.value <= o.clock
          && o.streakTick.value + Waited(n) <= o.failedTick + Backoff(n))
    && (n > 1 && o.streakAt.Some? ==> o.streakAt.value + Waited(n) - Waited(1) <= o.failedTick + Backoff(n))
  }

  predicate StreakInv(w: Worker, n: nat, o: Notes) {
    && Recorded(w.sink, n, o) && Spaced(n, o)
    && (!w.phase.Idle? ==>
          && w.sink.enabled && w.phase.now == o.tick
          && (n > 0 ==> w.sink.retryAt.value <= o.tick && o.streakAt.value <= o.tick))
  }

  lemma FailureKeepsStreak(w: Worker, n: nat, o: Notes, id: string, error: string, arrived: nat)
    requires w.phase.InFlight? && StreakInv(w, n, o) && arrived <= |w.phase.rows|
    ensures StreakInv(FailedSend(w, error, arrived), n + 1, Noted(o, Fail(id, error, arrived), id))
  {
    assert Waited(n + 1) == Waited(n) + Backoff(n + 1);
    if n == 0 { assert Waited(0) == 0; }
  }

  lemma AckKeepsStreak(w: Worker, n: nat, o: Notes, id: string, late: bool)
    requires w.phase.InFlight? && w.phase.rows != [] && StreakInv(w, n, o)
    ensures StreakInv(Acknowledged(w, late), 0, Noted(o, Ack(id, late), id))
  {}

  /** Later, a streak is still what it was. */
  lemma WaitingKeepsStreak(w: Worker, n: nat, o: Notes, elapsed: nat)
    requires StreakInv(w, n, o)
    ensures StreakInv(w, n, o.(clock := o.clock + elapsed))
  {}

  /** The steps of one sink's runner. */
  predicate Runs(step: Step, id: string) {
    (step.Begin? || step.Select? || step.Jump? || step.Ack? || step.Fail? || step.Crash?) && step.id == id
  }

  lemma RunnerKeepsStreak(s: State, step: Step, n: nat, o: Notes, id: string)
    requires CanStep(s, step) && Runs(step, id) && o.clock == s.clock && StreakInv(s.workers[id], n, o)
    ensures StreakInv(Apply(s, step).workers[id], Counted(n, step, id), Noted(o, step, id))
  {
    var w := s.workers[id];
    if step.Fail? {
      FailureKeepsStreak(w, n, o, id, step.error, step.arrived);
    } else if step.Ack? {
      AckKeepsStreak(w, n, o, id, step.late);
    } else {
      assert Recorded(Apply(s, step).workers[id].sink, n, Noted(o, step, id));
    }
  }

  lemma OthersLeaveStreak(s: State, step: Step, n: nat, o: Notes, id: string)
    requires CanStep(s, step) && id in s.workers && !Runs(step, id)
    ensures var t := Apply(s, step);
            && id in t.workers && t.workers[id] == s.workers[id] && Counted(n, step, id) == n
            && t.clock >= s.clock && Noted(o, step, id) == o.(clock := o.clock + (t.clock - s.clock))
  {}

  lemma StepKeepsStreak(s: State, step: Step, id: string, n: nat, o: Notes)
    requires CanStep(s, step) && id in s.workers && o.clock == s.clock && StreakInv(s.workers[id], n, o)
    ensures var t := Apply(s, step);
            && id in t.workers && Noted(o, step, id).clock == t.clock
            && StreakInv(t.workers[id], Counted(n, step, id), Noted(o, step, id))
  {
    if Runs(step, id) {
      RunnerKeepsStreak(s, step, n, o, id);
    } else {
      OthersLeaveStreak(s, step, n, o, id);
      WaitingKeepsStreak(s.workers[id], n, o, Apply(s, step).clock - s.clock);
    }
  }

  lemma {:induction false} RunKeepsStreak(s: State, steps: seq<Step>, id: string, n: nat, o: Notes)
    requires IsRun(s, steps) && id in s.workers && o.clock == s.clock && StreakInv(s.workers[id], n, o)
    ensures var t := Run(s, steps);
            && id in t.workers && Watched(o, steps, id).clock == t.clock
            && StreakInv(t.workers[id], StreakFrom(n, steps, id), Watched(o, steps, id))
    decreases |steps|
  {
    if steps != [] {
      StepKeepsStreak(s, steps[0], id, n, o);
      RunKeepsStreak(Apply(s, steps[0]), steps[1..], id, Counted(n, steps[0], id), Noted(o, steps[0], id));
    }
  }

  /** Five, 30, 120, 600 seconds, then an hour. */
  function Delay(n: nat): Time {
    if n <= 1 then 5 * SECOND else if n == 2 then 30 * SECOND else if n == 3 then 120 * SECOND
    else if n == 4 then 600 * SECOND else 3600 * SECOND
  }

  /** The columns of a sink after `n` failures since its last acknowledged batch. */
  predicate Columns(sink: Sink, n: nat, o: Notes) {
    && n <= 6 && sink.failures == n && (sink.enabled <==> n < 6)
    && sink.retryAt == (if n == 0 then None else Some(o.failedTick + Delay(n)))
    && sink.lastAt == o.ackedTick && sink.lastError == o.error
  }

  /** The time at which such a sink may start a tick has come. */
  predicate MayStart(interval: Time, n: nat, o: Notes) {
    && n < 6
    && (n == 0 && o.ackedTick.Some? ==> o.ackedTick.value + interval <= o.clock)
    && (n > 0 ==> o.failedTick + Delay(n) <= o.clock)
  }

  lemma RecordedColumns(sink: Sink, n: nat, o: Notes)
    requires Recorded(sink, n, o)
    ensures Columns(sink, n, o) && (sink.enabled && Due(sink, o.clock) <==> MayStart(sink.flushInterval, n, o))
  {}

  /** In every run a sink's columns are what the steps say: its counter is the number of failures
      since its last acknowledged batch, its retry time the start of the last failed tick plus 5, 30,
      120, 600 or 3600 seconds by their number, its last delivery the start of the last tick that was
      acknowledged, and it is enabled exactly while the failures are fewer than 6. An idle sink can
      start a tick exactly when that retry time has come or, without failures, the flush interval
      has passed. */
  lemma SinkIsWhatTheStepsSay(init: State, steps: seq<Step>, id: string)
    requires Init(init) && IsRun(init, steps) && id in init.workers
    ensures id in Run(init, steps).workers
    ensures var s := Run(init, steps);
            var w, n := s.workers[id], StreakFrom(0, steps, id);
            var o := Watched(Blank(init.clock, init.workers[id].sink), steps, id);
            && o.clock == s.clock && Columns(w.sink, n, o)
            && (CanStep(s, Begin(id)) <==> w.phase.Idle? && MayStart(w.sink.flushInterval, n, o))
  {
    var o := Blank(init.clock, init.workers[id].sink);
    RunKeepsStreak(init, steps, id, 0, o);
    RecordedColumns(Run(init, steps).workers[id].sink, StreakFrom(0, steps, id), Watched(o, steps, id));
  }

  lemma WaitedFive()
    ensures Waited(1) == 5 * SECOND && Waited(5) == 4355 * SECOND
  {
    assert Waited(1) == 5 * SECOND && Waited(2) == 35 * SECOND && Waited(3) == 155 * SECOND && Waited(4) == 755 * SECOND;
  }

  /** The least time from the first failure of a streak to the one that disables the sink, if the
      first failure came `delay` after the start of its tick: the first retry time counts from there. */
  function LeastGap(delay: Time): Time { 4355 * SECOND - Min(delay, 5 * SECOND) }

  /** In every run a failure disables the sink exactly when the steps show five failures since its
      last acknowledged batch; it then comes at least 5 + 30 + 120 + 600 + 3600 seconds after the
      start of the tick in which its streak began, and at least that much, less the smaller of 5
      seconds and the time from that start to the first failure, after the first failure. */
  lemma AutoDisableTakes4355Seconds(init: State, steps: seq<Step>, id: string, error: string, arrived: nat)
    requires Init(init) && IsRun(init, steps) && id in init.workers && CanStep(Run(init, steps), Fail(id, error, arrived))
    ensures var s := Run(init, steps);
            var n := StreakFrom(0, steps, id);
            var o := Watched(Blank(init.clock, init.workers[id].sink), steps, id);
            && (!Apply(s, Fail(id, error, arrived)).workers[id].sink.enabled <==> n == 5)
            && (n == 5 ==>
                  && o.streakTick.Some? && o.streakAt.Some? && o.streakTick.value <= o.streakAt.value
                  && s.clock >= o.streakTick.value + 4355 * SECOND
                  && s.clock >= o.streakAt.value + LeastGap(o.streakAt.value - o.streakTick.value))
  {
    RunKeepsStreak(init, steps, id, 0, Blank(init.clock, init.workers[id].sink));
    WaitedFive();
  }

  // ---- How sharp that is ----

  /** An idle, enabled sink that has a row to send whenever it is due. */
  predicate Owing(s: State, id: string, row: Row) {
    && id in s.workers && s.workers[id].phase.Idle? && s.workers[id].sink.enabled && s.workers[id].sink.batchSize >= 1
    && row in s.table && Fits(row, PendingQuery(s.workers[id].sink, s.clock))
  }

  /** The state after `wait`, when the sink's tick fails `delay` after it started. */
  function AfterFailure(s: State, id: string, wait: nat, delay: nat): State
    requires id in s.workers
  {
    var w, at := s.workers[id], s.clock + wait;
    var failed := w.(sink := Failed(w.sink, at, ""), cuts := w.cuts + 1);
    s.(clock := at + delay, workers := s.workers[id := failed])
  }

  function FailureSteps(id: string, wait: nat, delay: nat, rest: seq<Step>): seq<Step> {
    [Advance(wait)] + ([Begin(id)] + ([Select(id)] + ([Advance(delay)] + ([Fail(id, "", 0)] + rest))))
  }

  lemma WatchedCons(o: Notes, step: Step, rest: seq<Step>, id: string)
    ensures Watched(o, [step] + rest, id) == Watched(Noted(o, step, id), rest, id)
  {
    assert ([step] + rest)[1..] == rest;
  }

  lemma WatchedConsTwice(o: Notes, a: Step, b: Step, rest: seq<Step>, id: string)
    ensures Watched(o, [a] + ([b] + rest), id) == Watched(Noted(Noted(o, a, id), b, id), rest, id)
  {
    WatchedCons(o, a, [b] + rest, id);
    WatchedCons(Noted(o, a, id), b, rest, id);
  }

  lemma WatchedFive(o: Notes, a: Step, b: Step, c: Step, d: Step, e: Step, rest: seq<Step>, id: string)
    ensures Watched(o, [a] + ([b] + ([c] + ([d] + ([e] + rest)))), id) ==
            Watched(Noted(Noted(Noted(Noted(Noted(o, a, id), b, id), c, id), d, id), e, id), rest, id)
  {
    WatchedConsTwice(o, a, b, [c] + ([d] + ([e] + rest)), id);
    WatchedConsTwice(Noted(Noted(o, a, id), b, id), c, d, [e] + rest, id);
    WatchedCons(Noted(Noted(Noted(Noted(o, a, id), b, id), c, id), d, id), e, rest, id);
  }

  /** What is noted of a tick `wait` from now that fails `delay` after it started. */
  function NotedFailure(o: Notes, id: string, wait: nat, delay: nat): Notes {
    Noted(o.(tick := o.clock + wait, clock := o.clock + wait + delay), Fail(id, "", 0), id)
  }

  lemma NotedOneByOne(o: Notes, id: string, wait: nat, delay: nat)
    ensures Noted(Noted(Noted(Noted(Noted(o, Advance(wait), id), Begin(id), id), Select(id), id), Advance(delay), id), Fail(id, "", 0), id)
            == NotedFailure(o, id, wait, delay)
  {}

  lemma WatchedFailure(o: Notes, id: string, wait: nat, delay: nat, rest: seq<Step>)
    ensures Watched(o, FailureSteps(id, wait, delay, rest), id) == Watched(NotedFailure(o, id, wait, delay), rest, id)
  {
    WatchedFive(o, Advance(wait), Begin(id), Select(id), Advance(delay), Fail(id, "", 0), rest, id);
    NotedOneByOne(o, id, wait, delay);
  }

  predicate NoAck(steps: seq<Step>) { forall step :: step in steps ==> !step.Ack? }

  lemma FailureHasNoAck(id: string, wait: nat, delay: nat, rest: seq<Step>)
    requires NoAck(rest)
    ensures NoAck(FailureSteps(id, wait, delay, rest))
  {}

  /** Without an acknowledged batch a streak has its first failure where it had it. */
  lemma {:induction false} StreakGoesOn(o: Notes, steps: seq<Step>, id: string)
    requires NoAck(steps) && o.streakTick.Some? && o.streakAt.Some?
    ensures Watched(o, steps, id).streakTick == o.streakTick && Watched(o, steps, id).streakAt == o.streakAt
    decreases |steps|
  {
    if steps != [] {
      assert steps[0] in steps;
      StreakGoesOn(Noted(o, steps[0], id), steps[1..], id);
    }
  }

  lemma FailureRun(s: State, id: string, row: Row, wait: nat, delay: nat, rest: seq<Step>)
    requires Owing(s, id, row) && Due(s.workers[id].sink, s.clock + wait)
    requires IsRun(AfterFailure(s, id, wait, delay), rest)
    ensures IsRun(s, FailureSteps(id, wait, delay, rest))
    ensures Run(s, FailureSteps(id, wait, delay, rest)) == Run(AfterFailure(s, id, wait, delay), rest)
  {
    var read := AfterRead(s, id, wait);
    ReadThenFail(s, id, row, wait, delay);
    RunConsTwice(read, Advance(delay), Fail(id, "", 0), rest);
    ReadRun(s, id, wait, [Advance(delay)] + ([Fail(id, "", 0)] + rest));
  }

  lemma ReadThenFail(s: State, id: string, row: Row, wait: nat, delay: nat)
    requires Owing(s, id, row)
    ensures var read := Apply(AfterRead(s, id, wait), Advance(delay));
            CanStep(read, Fail(id, "", 0)) && Apply(read, Fail(id, "", 0)) == AfterFailure(s, id, wait, delay)
  {
    assert row in Pending(s.table, s.workers[id].sink, s.clock + wait);
    var read := Apply(AfterRead(s, id, wait), Advance(delay));
    var w := read.workers[id];
    assert w.phase.InFlight? && w.seen + w.phase.rows[..0] == w.seen;
    assert Apply(read, Fail(id, "", 0)).workers == AfterFailure(s, id, wait, delay).workers;
  }

  /** A collector that stays down, with every tick on time, disables the sink at its fifth retry. */
  lemma {:induction false} FailingTillDisabled(s: State, id: string, row: Row) returns (steps: seq<Step>)
    requires Owing(s, id, row) && 1 <= s.workers[id].sink.failures < MAX_CONSECUTIVE_FAILURES
    requires s.workers[id].sink.retryAt.Some?
    ensures NoAck(steps) && IsRun(s, steps) && id in Run(s, steps).workers && !Run(s, steps).workers[id].sink.enabled
    ensures var sink := s.workers[id].sink;
            var retry := if s.clock < sink.retryAt.value then sink.retryAt.value else s.clock;
            Run(s, steps).clock == retry + Waited(5) - Waited(sink.failures)
    decreases MAX_CONSECUTIVE_FAILURES - s.workers[id].sink.failures
  {
    var sink := s.workers[id].sink;
    var wait := if s.clock < sink.retryAt.value then sink.retryAt.value - s.clock else 0;
    var next := AfterFailure(s, id, wait, 0);
    FailedAgain(s, id, row, wait);
    var rest := [];
    if next.workers[id].sink.enabled {
      rest := FailingTillDisabled(next, id, row);
    }
    FailureRun(s, id, row, wait, 0, rest);
    FailureHasNoAck(id, wait, 0, rest);
    steps := FailureSteps(id, wait, 0, rest);
  }

  /** One more failure moves the retry time by the next backoff, and the sixth disables. */
  lemma FailedAgain(s: State, id: string, row: Row, wait: nat)
    requires Owing(s, id, row) && 1 <= s.workers[id].sink.failures < MAX_CONSECUTIVE_FAILURES
    ensures var next, n := AfterFailure(s, id, wait, 0), s.workers[id].sink.failures;
            && next.clock == s.clock + wait && next.workers[id].sink.failures == n + 1
            && (next.workers[id].sink.enabled <==> n < 5)
            && next.workers[id].sink.retryAt == Some(s.clock + wait + (Waited(n + 1) - Waited(n)))
            && (n < 5 ==> Owing(next, id, row))
  {
    var n := s.workers[id].sink.failures;
    assert Waited(n + 1) == Waited(n) + Backoff(n + 1);
  }

  /** That least time is met, whatever the delay: so "4355 seconds after the first failure" can fail
      as soon as the first failure comes later than the start of its tick. */
  lemma LeastGapIsMet(delay: nat) returns (init: State, steps: seq<Step>)
    ensures Init(init) && IsRun(init, steps) && "sink" in init.workers && "sink" in Run(init, steps).workers
    ensures var s := Run(init, steps);
            var o := Watched(Blank(init.clock, init.workers["sink"].sink), steps, "sink");
            && !s.workers["sink"].sink.enabled && o.streakTick.Some? && o.streakAt.Some?
            && o.streakAt.value - o.streakTick.value == delay && s.clock == o.streakAt.value + LeastGap(delay)
  {
    var row := Row(1, None, "block", 0, 0, "");
    var sink := Sink("", "all", 200, 30 * SECOND, 0, true, 0, None, None, None);
    init := State(DELIVERY_LAG, [row], [row], map["sink" := Worker(sink, Idle, 0, [], [], 0, 0)], Resting);
    var failed := AfterFailure(init, "sink", 0, delay);
    var o := Blank(init.clock, sink);
    var rest := FailingTillDisabled(failed, "sink", row);
    FailureRun(init, "sink", row, 0, delay, rest);
    WatchedFailure(o, "sink", 0, delay, rest);
    StreakGoesOn(NotedFailure(o, "sink", 0, delay), rest, "sink");
    steps := FailureSteps("sink", 0, delay, rest);
    WaitedFive();
  }
}
