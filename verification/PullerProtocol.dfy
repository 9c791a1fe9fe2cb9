/** The pull script over many runs: the log grows between any two of its steps, and a crash can
    come after any line it writes. Lines are written whole and the cursor file is replaced
    atomically; a crash loses only what the process had in memory. */
module PullerProtocol {
  import opened Basics
  import opened EventLog
  import opened Replay
  import opened WazuhPuller

  /** `Holding` is a fetched page of which `written` lines have reached the output file. */
  datatype Phase = Idle | Asking | Holding(page: seq<Row>, more: bool, written: nat)

  datatype State = State(table: seq<Row>, output: seq<Row>, cursor: int, phase: Phase, crashes: nat)

  datatype Step = Commit(row: Row) | Start | Fetch | WriteLine | Persist | Stop | Crash

  predicate CanStep(s: State, step: Step) {
    match step
    case Commit(row) => Ordered(s.table) && forall r :: r in s.table ==> r.seqNo != row.seqNo
    case Start => s.phase.Idle?
    case Fetch => s.phase.Asking?
    case WriteLine => s.phase.Holding? && s.phase.written < |s.phase.page|
    case Persist => s.phase.Holding? && s.phase.page != [] && s.phase.written == |s.phase.page|
    case Stop => s.phase.Asking?
    case Crash => true
  }

  function Apply(f: Settings, s: State, step: Step): State
    requires CanStep(s, step)
  {
    match step
    case Commit(row) => s.(table := Insert(s.table, row))
    case Start => s.(phase := Asking)
    case Fetch =>
      var (page, more) := Page(s.table, f, s.cursor);
      s.(phase := if page == [] then Idle else Holding(page, more, 0))
    case WriteLine =>
      s.(output := s.output + [s.phase.page[s.phase.written]], phase := s.phase.(written := s.phase.written + 1))
    case Persist => s.(cursor := Last(s.phase.page).seqNo, phase := if s.phase.more then Asking else Idle)
    case Stop => s.(phase := Idle)
    case Crash => s.(phase := Idle, crashes := s.crashes + 1)
  }

  /** Rows become visible in `seq` order. */
  predicate InOrder(s: State, step: Step) {
    step.Commit? ==> forall r :: r in s.table ==> r.seqNo < step.row.seqNo
  }

  predicate IsRun(f: Settings, s: State, steps: seq<Step>)
    decreases |steps|
  {
    steps == [] || (CanStep(s, steps[0]) && IsRun(f, Apply(f, s, steps[0]), steps[1..]))
  }

  function Run(f: Settings, s: State, steps: seq<Step>): State
    requires IsRun(f, s, steps)
    decreases |steps|
  {
    if steps == [] then s else Run(f, Apply(f, s, steps[0]), steps[1..])
  }

  predicate RunInOrder(f: Settings, s: State, steps: seq<Step>)
    requires IsRun(f, s, steps)
    decreases |steps|
  {
    steps == [] || (InOrder(s, steps[0]) && RunInOrder(f, Apply(f, s, steps[0]), steps[1..]))
  }

  predicate Init(s: State) {
    Ordered(s.table) && s.output == [] && s.cursor == NO_CURSOR && s.phase.Idle? && s.crashes == 0
  }

  // ---- What every in-order run keeps ----

  /** Everything the script is configured to pull, in `seq` order. */
  function Stream(table: seq<Row>, f: Settings): seq<Row> {
    Remaining(table, f, NO_CURSOR)
  }

  /** How much of the stream lies at or below the stored cursor. */
  function Done(table: seq<Row>, f: Settings, cursor: int): nat {
    |Pick(table, AfterQuery(f, NO_CURSOR).(upTo := Some(cursor)))|
  }

  function Written(phase: Phase): nat {
    if phase.Holding? then phase.written else 0
  }

  /** `done` rows of the stream are at or below the cursor; the held page, if any, is the stream
      from there on; the output starts with the stream up to what is written, repetitions aside;
      and repetitions are at most one page per crash. */
  predicate Follows(limit: nat, stream: seq<Row>, done: nat, s: State) {
    && (s.phase.Holding? ==>
          && 0 < |s.phase.page| <= limit && s.phase.written <= |s.phase.page|
          && done + |s.phase.page| <= |stream|
          && s.phase.page == stream[done..done + |s.phase.page|])
    && Heads(stream, s.output, done + Written(s.phase))
    && |s.output| <= done + Written(s.phase) + Rows(s.crashes, limit)
  }

  predicate Inv(f: Settings, s: State) {
    && Ordered(s.table)
    && (s.cursor == NO_CURSOR || exists r :: r in s.table && r.seqNo == s.cursor)
    && Follows(f.limit, Stream(s.table, f), Done(s.table, f, s.cursor), s)
  }

  // ---- Steps ----

  lemma StreamAtCursor(f: Settings, table: seq<Row>, cursor: int)
    requires Ordered(table) && NO_CURSOR <= cursor
    ensures var d, stream := Done(table, f, cursor), Stream(table, f);
            && d <= |stream|
            && (forall i :: 0 <= i < |stream| ==> (i < d <==> stream[i].seqNo <= cursor))
            && Remaining(table, f, cursor) == stream[d..]
  {
    var stream, low := Stream(table, f), Pick(table, AfterQuery(f, NO_CURSOR).(upTo := Some(cursor)));
    var high := Remaining(table, f, cursor);
    SplitRows(stream, low, high, cursor);
  }

  /** A row committed above all others extends the stream at its end, or not at all. */
  lemma CommitExtends(f: Settings, table: seq<Row>, row: Row, cursor: int)
    requires Ordered(table) && forall r :: r in table ==> r.seqNo < row.seqNo
    requires cursor == NO_CURSOR || exists r :: r in table && r.seqNo == cursor
    ensures Stream(table, f) <= Stream(Insert(table, row), f)
    ensures Done(Insert(table, row), f, cursor) == Done(table, f, cursor)
  {
    var q := AfterQuery(f, NO_CURSOR);
    PickInsert(table, row, q.(upTo := Some(cursor)));
    if Fits(row, q) {
      PickAppend(table, row, q);
    } else {
      PickInsert(table, row, q);
    }
  }

  lemma CommitKeepsInv(f: Settings, s: State, row: Row)
    requires Inv(f, s) && CanStep(s, Commit(row)) && InOrder(s, Commit(row))
    ensures Inv(f, Apply(f, s, Commit(row)))
  {
    CommitExtends(f, s.table, row, s.cursor);
    FollowsLonger(f.limit, Stream(s.table, f), Stream(Insert(s.table, row), f), Done(s.table, f, s.cursor), s, Insert(s.table, row));
  }

  lemma FollowsLonger(limit: nat, stream: seq<Row>, longer: seq<Row>, done: nat, s: State, table: seq<Row>)
    requires Follows(limit, stream, done, s) && stream <= longer
    ensures Follows(limit, longer, done, s.(table := table))
  {
    var d := |Firsts(s.output)|;
    assert longer[..d] == stream[..d];
    if s.phase.Holding? {
      var n := done + |s.phase.page|;
      assert longer[done..n] == stream[done..n];
    }
  }

  lemma FetchKeepsInv(f: Settings, s: State)
    requires Inv(f, s) && CanStep(s, Fetch)
    ensures Inv(f, Apply(f, s, Fetch))
  {
    StreamAtCursor(f, s.table, s.cursor);
  }

  lemma LineFollows(f: Settings, stream: seq<Row>, done: nat, s: State)
    requires Ordered(stream) && Follows(f.limit, stream, done, s) && CanStep(s, WriteLine)
    ensures Follows(f.limit, stream, done, Apply(f, s, WriteLine))
  {
    var k := done + s.phase.written;
    assert s.phase.page[s.phase.written] == stream[k];
    NextLine(stream, s.output, k);
  }

  lemma WriteLineKeepsInv(f: Settings, s: State)
    requires Inv(f, s) && CanStep(s, WriteLine)
    ensures Inv(f, Apply(f, s, WriteLine))
  {
    LineFollows(f, Stream(s.table, f), Done(s.table, f, s.cursor), s);
  }

  lemma PersistFollows(f: Settings, stream: seq<Row>, done: nat, s: State)
    requires Follows(f.limit, stream, done, s) && CanStep(s, Persist)
    ensures Last(s.phase.page) == stream[done + |s.phase.page| - 1]
    ensures Follows(f.limit, stream, done + |s.phase.page|, Apply(f, s, Persist))
  {}

  lemma PersistKeepsInv(f: Settings, s: State)
    requires Inv(f, s) && CanStep(s, Persist)
    ensures Inv(f, Apply(f, s, Persist))
  {
    var stream, done := Stream(s.table, f), Done(s.table, f, s.cursor);
    PersistFollows(f, stream, done, s);
    var s' := Apply(f, s, Persist);
    CursorOnStream(f, s.table, done + |s.phase.page| - 1, s'.cursor);
  }

  lemma CursorOnStream(f: Settings, table: seq<Row>, k: nat, cursor: int)
    requires Ordered(table) && k < |Stream(table, f)| && cursor == Stream(table, f)[k].seqNo
    ensures (exists r :: r in table && r.seqNo == cursor) && Done(table, f, cursor) == k + 1
  {
    DoneAt(f, table, k);
    assert Stream(table, f)[k] in Stream(table, f);
  }

  /** With the cursor on a row of the stream, everything up to that row is done. */
  lemma DoneAt(f: Settings, table: seq<Row>, k: nat)
    requires Ordered(table) && k < |Stream(table, f)|
    ensures Done(table, f, Stream(table, f)[k].seqNo) == k + 1
  {
    PickFirst(table, AfterQuery(f, NO_CURSOR), k + 1);
  }

  lemma StepKeepsInv(f: Settings, s: State, step: Step)
    requires Inv(f, s) && CanStep(s, step) && InOrder(s, step)
    ensures Inv(f, Apply(f, s, step))
  {
    match step
    case Commit(row) => CommitKeepsInv(f, s, row);
    case Fetch => FetchKeepsInv(f, s);
    case WriteLine => WriteLineKeepsInv(f, s);
    case Persist => PersistKeepsInv(f, s);
    case _ => QuietKeepsInv(f, s, step);
  }

  /** Starting, stopping and crashing leave both files as they are. */
  lemma QuietKeepsInv(f: Settings, s: State, step: Step)
    requires Inv(f, s) && CanStep(s, step) && (step.Start? || step.Stop? || step.Crash?)
    ensures Inv(f, Apply(f, s, step))
  {
    if step.Crash? {
      CrashFollows(f, Stream(s.table, f), Done(s.table, f, s.cursor), s);
    }
  }

  lemma CrashFollows(f: Settings, stream: seq<Row>, done: nat, s: State)
    requires Follows(f.limit, stream, done, s)
    ensures Follows(f.limit, stream, done, Apply(f, s, Crash))
  {}

  lemma {:induction false} RunKeepsInv(f: Settings, s: State, steps: seq<Step>)
    requires Inv(f, s) && IsRun(f, s, steps) && RunInOrder(f, s, steps)
    ensures Inv(f, Run(f, s, steps))
    decreases |steps|
  {
    if steps != [] {
      StepKeepsInv(f, s, steps[0]);
      RunKeepsInv(f, Apply(f, s, steps[0]), steps[1..]);
    }
  }

  lemma InitHasInv(f: Settings, s: State)
    requires Init(s)
    ensures Inv(f, s)
  {
    SameRows(Pick(s.table, AfterQuery(f, NO_CURSOR).(upTo := Some(NO_CURSOR))), []);
  }

  // ---- The guarantees ----

  /** Across any runs and crashes, as long as rows become visible in order: every wanted row up to
      the stored cursor is in the output; the output without repetitions is a gap-free prefix of
      the stream; and repetitions are at most one page of lines per crash. */
  lemma EveryRunPulls(f: Settings, init: State, steps: seq<Step>)
    requires Init(init) && IsRun(f, init, steps) && RunInOrder(f, init, steps)
    ensures var s := Run(f, init, steps);
            && (forall r :: r in Stream(s.table, f) && r.seqNo <= s.cursor ==> r in s.output)
            && Firsts(s.output) <= Stream(s.table, f)
            && |s.output| <= |Firsts(s.output)| + f.limit * s.crashes
  {
    InitHasInv(f, init);
    RunKeepsInv(f, init, steps);
    InvMeans(f, Run(f, init, steps));
    RowsTimes(Run(f, init, steps).crashes, f.limit);
  }

  lemma InvMeans(f: Settings, s: State)
    requires Inv(f, s)
    ensures forall r :: r in Stream(s.table, f) && r.seqNo <= s.cursor ==> r in s.output
    ensures Firsts(s.output) <= Stream(s.table, f)
    ensures |s.output| <= |Firsts(s.output)| + Rows(s.crashes, f.limit)
  {
    var stream, done := Stream(s.table, f), Done(s.table, f, s.cursor);
    assert Heads(stream, s.output, done);
    assert forall i :: 0 <= i < |stream| && stream[i].seqNo <= s.cursor ==> i < done by {
      StreamAtCursor(f, s.table, s.cursor);
    }
    HeadIsWritten(stream, s.output, done, s.cursor);
  }

  lemma HeadIsWritten(stream: seq<Row>, output: seq<Row>, done: nat, cursor: int)
    requires Heads(stream, output, done)
    requires forall i :: 0 <= i < |stream| && stream[i].seqNo <= cursor ==> i < done
    ensures forall r :: r in stream && r.seqNo <= cursor ==> r in output
  {
    FirstsAreLines(output);
    forall r | r in stream && r.seqNo <= cursor ensures r in Firsts(output) {
      var i :| 0 <= i < |stream| && stream[i] == r;
      assert Firsts(output)[i] == r;
    }
  }

  // ---- The pull API applies no delivery lag ----

  /** The highest `seq` asked for or stored: the last row of a held page, or the cursor. */
  function Frontier(s: State): int {
    if s.phase.Holding? && s.phase.page != [] && Last(s.phase.page).seqNo > s.cursor then Last(s.phase.page).seqNo else s.cursor
  }

  /** Whatever happens next, the cursor does not pass the row without it being in the output. */
  ghost predicate Kept(f: Settings, s: State, row: Row) {
    forall more :: IsRun(f, s, more) ==> (row.seqNo <= Run(f, s, more).cursor ==> row in Run(f, s, more).output)
  }

  /** What every run keeps, in whatever order rows become visible. */
  predicate Steady(s: State) {
    && Ordered(s.table)
    && (forall r :: r in s.output ==> r in s.table)
    && (s.phase.Holding? ==>
          && s.phase.page != [] && s.phase.written <= |s.phase.page| && Ordered(s.phase.page)
          && (forall r :: r in s.phase.page ==> r in s.table && s.cursor < r.seqNo)
          && (forall i :: 0 <= i < s.phase.written ==> s.phase.page[i] in s.output))
  }

  lemma StepKeepsSteady(f: Settings, s: State, step: Step)
    requires Steady(s) && CanStep(s, step)
    ensures Steady(Apply(f, s, step))
  {
    if step.Fetch? {
      PageIsHead(f, s.table, s.cursor);
    }
  }

  /** A page is ordered, lies in the table above the cursor, and leaves out no wanted row below its end. */
  lemma PageIsHead(f: Settings, table: seq<Row>, cursor: int)
    requires Ordered(table)
    ensures var page := Page(table, f, cursor).0;
            && Ordered(page) && (forall r :: r in page ==> r in table && cursor < r.seqNo)
            && (f.limit >= 1 && page == [] ==> Remaining(table, f, cursor) == [])
            && (page != [] ==> forall r :: r in Remaining(table, f, cursor) && r.seqNo <= Last(page).seqNo ==> r in page)
  {
    var p, page := Remaining(table, f, cursor), Page(table, f, cursor).0;
    assert forall r :: r in page ==> r in p;
    if page != [] {
      forall r | r in p && r.seqNo <= Last(page).seqNo ensures r in page {
        var i :| 0 <= i < |p| && p[i] == r;
        assert p[|page| - 1] == Last(page);
        assert page[i] == r;
      }
    }
  }

  /** The row is written, or the script will still come to it. */
  predicate Coming(s: State, row: Row) {
    || row in s.output
    || (s.cursor < row.seqNo && (s.phase.Holding? && s.phase.page != [] ==> row in s.phase.page || Last(s.phase.page).seqNo < row.seqNo))
  }

  lemma StepKeepsComing(f: Settings, s: State, step: Step, row: Row)
    requires Steady(s) && row in s.table && Fits(row, AfterQuery(f, NO_CURSOR)) && Coming(s, row) && CanStep(s, step)
    ensures Coming(Apply(f, s, step), row) && row in Apply(f, s, step).table
  {
    if step.Fetch? {
      PageIsHead(f, s.table, s.cursor);
    } else if step.Persist? && row in s.phase.page {
      var i :| 0 <= i < |s.phase.page| && s.phase.page[i] == row;
    }
  }

  lemma {:induction false} RunKeepsComing(f: Settings, s: State, steps: seq<Step>, row: Row)
    requires Steady(s) && row in s.table && Fits(row, AfterQuery(f, NO_CURSOR)) && Coming(s, row) && IsRun(f, s, steps)
    ensures Coming(Run(f, s, steps), row)
    decreases |steps|
  {
    if steps != [] {
      StepKeepsComing(f, s, steps[0], row);
      StepKeepsSteady(f, s, steps[0]);
      RunKeepsComing(f, Apply(f, s, steps[0]), steps[1..], row);
    }
  }

  lemma {:induction false} RunKeepsSteady(f: Settings, s: State, steps: seq<Step>)
    requires Steady(s) && IsRun(f, s, steps)
    ensures Steady(Run(f, s, steps))
    decreases |steps|
  {
    if steps != [] {
      StepKeepsSteady(f, s, steps[0]);
      RunKeepsSteady(f, Apply(f, s, steps[0]), steps[1..]);
    }
  }

  /** Storing the held page moves the cursor to its end, and writes nothing but its rows. */
  lemma FinishPage(f: Settings, s: State) returns (steps: seq<Step>)
    requires Steady(s) && s.phase.Holding?
    ensures IsRun(f, s, steps) && Run(f, s, steps).cursor == Last(s.phase.page).seqNo
    ensures forall r :: r in Run(f, s, steps).output ==> r in s.output || r in s.phase.page
  {
    if s.phase.written < |s.phase.page| {
      steps := LinesAreARun(f, s);
      assert forall r :: r in s.phase.page[s.phase.written..] ==> r in s.phase.page;
    } else {
      RunCons(f, s, Persist, []);
      steps := [Persist] + [];
    }
  }

  lemma PassedIsNotKept(f: Settings, s: State, row: Row)
    requires Steady(s) && row !in s.output && (s.phase.Holding? ==> row !in s.phase.page) && row.seqNo <= Frontier(s)
    ensures !Kept(f, s, row)
  {
    if row.seqNo <= s.cursor {
      assert IsRun(f, s, []);
    } else {
      var steps := FinishPage(f, s);
      assert IsRun(f, s, steps);
    }
  }

  /** In every run, with rows becoming visible in any order: in every continuation the script writes a
      wanted row before its cursor passes it, if and only if the row became visible above everything
      the script had asked for by then. */
  lemma LateRowIsKeptIff(f: Settings, init: State, steps: seq<Step>, row: Row)
    requires Init(init) && IsRun(f, init, steps) && CanStep(Run(f, init, steps), Commit(row))
    requires Fits(row, AfterQuery(f, NO_CURSOR))
    ensures var s := Run(f, init, steps);
            Kept(f, Apply(f, s, Commit(row)), row) <==> Frontier(s) < row.seqNo
  {
    RunKeepsSteady(f, init, steps);
    var s := Run(f, init, steps);
    var t := Apply(f, s, Commit(row));
    StepKeepsSteady(f, s, Commit(row));
    assert row !in s.table;
    if Frontier(s) < row.seqNo {
      forall more | IsRun(f, t, more) ensures row.seqNo <= Run(f, t, more).cursor ==> row in Run(f, t, more).output {
        RunKeepsComing(f, t, more, row);
      }
    } else {
      PassedIsNotKept(f, t, row);
    }
  }

  /** The row is not in the output, and nothing the script will ask for again contains it. */
  predicate Missed(s: State, row: Row) {
    && row !in s.output && row.seqNo <= s.cursor
    && (s.phase.Holding? ==> forall r :: r in s.phase.page ==> row.seqNo < r.seqNo)
  }

  /** A missed row stays missed, whatever the script does afterwards. */
  lemma {:induction false} MissedForever(f: Settings, s: State, steps: seq<Step>, row: Row)
    requires Ordered(s.table) && Missed(s, row) && IsRun(f, s, steps)
    ensures row !in Run(f, s, steps).output
    decreases |steps|
  {
    if steps != [] {
      assert forall r :: r in Page(s.table, f, s.cursor).0 ==> r in Remaining(s.table, f, s.cursor);
      MissedForever(f, Apply(f, s, steps[0]), steps[1..], row);
    }
  }

  /** So one late insert suffices, whatever the settings: a single page, no crash, and a lower `seq`
      visible after it. */
  lemma LateInsertIsMissed(f: Settings) returns (init: State, steps: seq<Step>, late: Row)
    requires f.limit >= 1
    ensures Init(init) && IsRun(f, init, steps)
    ensures var s := Run(f, init, steps);
            && s.crashes == 0 && CanStep(s, Commit(late)) && Missed(Apply(f, s, Commit(late)), late)
            && late in Stream(Apply(f, s, Commit(late)).table, f)
  {
    var row := Row(2, Some(f.tenant), f.decision, 0, 0, "");
    late := Row(1, Some(f.tenant), f.decision, 0, 0, "");
    init, steps := OnePageRun(f, row);
  }

  lemma OnePageRun(f: Settings, row: Row) returns (init: State, steps: seq<Step>)
    requires f.limit >= 1 && Fits(row, AfterQuery(f, NO_CURSOR))
    ensures Init(init) && IsRun(f, init, steps) && Run(f, init, steps) == State([row], [row], row.seqNo, Idle, 0)
  {
    init := State([row], [], NO_CURSOR, Idle, 0);
    SameRows(Stream([row], f), [row]);
    assert Page([row], f, NO_CURSOR) == ([row], false);
    var rest := PageIsARun(f, init.(phase := Asking));
    RunCons(f, init, Start, rest);
    steps := [Start] + rest;
  }

  lemma RunCons(f: Settings, s: State, step: Step, rest: seq<Step>)
    requires CanStep(s, step) && IsRun(f, Apply(f, s, step), rest)
    ensures IsRun(f, s, [step] + rest) && Run(f, s, [step] + rest) == Run(f, Apply(f, s, step), rest)
  {
    assert ([step] + rest)[1..] == rest;
  }

  // ---- An iteration on its own is a run ----

  lemma {:induction false} LinesAreARun(f: Settings, s: State) returns (steps: seq<Step>)
    requires s.phase.Holding? && s.phase.written < |s.phase.page|
    ensures IsRun(f, s, steps)
    ensures Run(f, s, steps) == s.(output := s.output + s.phase.page[s.phase.written..], cursor := Last(s.phase.page).seqNo,
                                   phase := if s.phase.more then Asking else Idle)
    decreases |s.phase.page| - s.phase.written
  {
    var next := Apply(f, s, WriteLine);
    var n, page := s.phase.written, s.phase.page;
    if n + 1 == |page| {
      RunCons(f, next, Persist, []);
      steps := [Persist] + [];
      assert page[n..] == [page[n]];
    } else {
      steps := LinesAreARun(f, next);
      assert s.output + [page[n]] + page[n + 1..] == s.output + page[n..];
    }
    RunCons(f, s, WriteLine, steps);
    steps := [WriteLine] + steps;
  }

  /** The iteration the script performs is one run of this model: the one nobody interrupts. */
  lemma PageIsARun(f: Settings, s: State) returns (steps: seq<Step>)
    requires s.phase.Asking? && f.limit >= 1
    ensures IsRun(f, s, steps)
    ensures var rows := Remaining(s.table, f, s.cursor);
            var pulled := Pulled(s.table, f, s.output, s.cursor, Min(f.limit, |rows|));
            Run(f, s, steps) == s.(output := pulled.0, cursor := pulled.1, phase := if |rows| > f.limit then Asking else Idle)
  {
    var next := Apply(f, s, Fetch);
    steps := [];
    if next.phase.Holding? {
      steps := LinesAreARun(f, next);
      assert next.phase.page[0..] == next.phase.page;
    }
    RunCons(f, s, Fetch, steps);
    steps := [Fetch] + steps;
  }
}
