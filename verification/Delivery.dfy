/** The syslog delivery engine: one batch, one scheduler tick, and how fast a backlog drains.
    Every transition of a sink is a function on values, used both as the specification of
    the in-place methods below and as a step of the concurrent model in module Pipeline. */
module Delivery {
  import opened Basics
  import opened EventLog

  const BACKOFF_SECONDS: seq<int> := [5, 30, 120, 600, 3600]
  const MAX_CONSECUTIVE_FAILURES := 6
  const DELIVERY_LAG: Time := 5 * SECOND
  const MAX_BATCHES_PER_TICK := 20
  const MAX_ERROR_LENGTH := 2000

  /** The columns of a `siem_syslogs` row that delivery reads or writes. */
  datatype Sink = Sink(
    tenant: string, decision: string, batchSize: nat, flushInterval: Time,
    cursor: int, enabled: bool, failures: nat,
    retryAt: Option<Time>, lastAt: Option<Time>, lastError: Option<string>)

  /** What the network and the wall clock do to one batch: whether the send succeeds, the error
      text if it does not, and whether the drain deadline has passed when it returns. */
  datatype Attempt = Attempt(ok: bool, error: string, late: bool)

  datatype BatchResult = BatchResult(sink: Sink, sent: seq<Row>, raised: bool)

  // ---- Transitions of a sink ----

  function PendingQuery(s: Sink, now: Time): Query {
    Query(s.cursor, None, s.tenant, s.decision, Some(now - DELIVERY_LAG))
  }

  /** Every row the sink still has to send, as of `now`. */
  function Pending(table: seq<Row>, s: Sink, now: Time): seq<Row> {
    Pick(table, PendingQuery(s, now))
  }

  function Batch(table: seq<Row>, s: Sink, now: Time): seq<Row> {
    Take(Pending(table, s, now), s.batchSize)
  }

  /** The rows whose largest `seq` the cursor jumps to when nothing matches: the decision
      filter is not applied, and neither is the cursor. */
  function SeenQuery(s: Sink, now: Time): Query {
    Query(-1, None, s.tenant, "all", Some(now - DELIVERY_LAG))
  }

  function Jumped(s: Sink, table: seq<Row>, now: Time): Sink {
    var seen := Pick(table, SeenQuery(s, now));
    if seen != [] && Last(seen).seqNo > s.cursor then s.(cursor := Last(seen).seqNo) else s
  }

  function Acked(s: Sink, rows: seq<Row>, now: Time): Sink
    requires rows != []
  {
    s.(cursor := Last(rows).seqNo, lastAt := Some(now), failures := 0, lastError := None, retryAt := None)
  }

  function Backoff(failures: nat): Time
    requires failures >= 1
  {
    BACKOFF_SECONDS[if failures - 1 < 4 then failures - 1 else 4] * SECOND
  }

  function Failed(s: Sink, now: Time, error: string): Sink {
    var n := s.failures + 1;
    s.(failures := n,
       lastError := Some(Take(error, MAX_ERROR_LENGTH)),
       retryAt := Some(now + Backoff(n)),
       enabled := s.enabled && n < MAX_CONSECUTIVE_FAILURES)
  }

  predicate Due(s: Sink, now: Time) {
    if s.retryAt.Some? then s.retryAt.value <= now
    else s.lastAt.Some? ==> s.flushInterval <= now - s.lastAt.value
  }

  function DeliverBatch(s: Sink, table: seq<Row>, now: Time, attempt: Attempt): BatchResult {
    var rows := Batch(table, s, now);
    if rows == [] then BatchResult(Jumped(s, table, now), [], false)
    else if attempt.ok then BatchResult(Acked(s, rows, now), rows, false)
    else BatchResult(Failed(s, now, attempt.error), [], true)
  }

  /** The drain loop of one tick, given the attempts it has left. */
  function Drain(s: Sink, table: seq<Row>, now: Time, net: seq<Attempt>): (Sink, seq<Row>)
    decreases |net|
  {
    if net == [] then (s, [])
    else
      var r := DeliverBatch(s, table, now, net[0]);
      if r.raised || |r.sent| < s.batchSize || net[0].late then (r.sink, r.sent)
      else
        var rest := Drain(r.sink, table, now, net[1..]);
        (rest.0, r.sent + rest.1)
  }

  lemma DrainUnfolds(s: Sink, table: seq<Row>, now: Time, net: seq<Attempt>, k: nat)
    requires k < |net|
    ensures var r := DeliverBatch(s, table, now, net[k]);
            var rest := Drain(r.sink, table, now, net[k + 1..]);
            Drain(s, table, now, net[k..]) ==
              if r.raised || |r.sent| < s.batchSize || net[k].late then (r.sink, r.sent) else (rest.0, r.sent + rest.1)
  {
    assert net[k..][1..] == net[k + 1..];
  }

  /** One scheduler tick: the time it fires and what the network does to each of its batches. */
  datatype Firing = Firing(at: Time, net: seq<Attempt>) {
    predicate Valid() { |net| == MAX_BATCHES_PER_TICK }
  }

  function Tick(s: Sink, table: seq<Row>, f: Firing): (Sink, seq<Row>) {
    if s.enabled && Due(s, f.at) then Drain(s, table, f.at, f.net) else (s, [])
  }

  // ---- The engine, updating a sink in place ----

  class SyslogSink {
    const tenant: string
    const decision: string
    const batchSize: nat
    const flushInterval: Time
    var cursor: int
    var enabled: bool
    var failures: nat
    var retryAt: Option<Time>
    var lastAt: Option<Time>
    var lastError: Option<string>

    function View(): Sink
      reads this
    {
      Sink(tenant, decision, batchSize, flushInterval, cursor, enabled, failures, retryAt, lastAt, lastError)
    }

    /** A new sink starts with its cursor at 0 and no failure history. */
    constructor (tenant: string, decision: string, batchSize: nat, flushInterval: Time, enabled: bool)
      ensures View() == Sink(tenant, decision, batchSize, flushInterval, 0, enabled, 0, None, None, None)
    {
      this.tenant, this.decision, this.batchSize, this.flushInterval := tenant, decision, batchSize, flushInterval;
      cursor, this.enabled, failures := 0, enabled, 0;
      retryAt, lastAt, lastError := None, None, None;
    }

    method DeliverOneBatch(table: seq<Row>, now: Time, attempt: Attempt) returns (sent: seq<Row>, raised: bool)
      modifies this
      ensures BatchResult(View(), sent, raised) == DeliverBatch(old(View()), table, now, attempt)
      ensures sent != [] ==> cursor == Last(sent).seqNo && failures == 0 && retryAt.None? && lastError.None? && lastAt == Some(now)
      ensures raised ==> failures == old(failures) + 1 && cursor == old(cursor) && lastAt == old(lastAt)
    {
      var safeCutoff := now - DELIVERY_LAG;
      var rows := Take(Pick(table, Query(cursor, None, tenant, decision, Some(safeCutoff))), batchSize);
      if rows == [] {
        var seen := Pick(table, Query(-1, None, tenant, "all", Some(safeCutoff)));
        if seen != [] && Last(seen).seqNo > cursor {
          cursor := Last(seen).seqNo;
        }
        return [], false;
      }
      if !attempt.ok {
        failures := failures + 1;
        lastError := Some(Take(attempt.error, MAX_ERROR_LENGTH));
        var backoffIdx := if failures - 1 < |BACKOFF_SECONDS| - 1 then failures - 1 else |BACKOFF_SECONDS| - 1;
        retryAt := Some(now + BACKOFF_SECONDS[backoffIdx] * SECOND);
        if failures >= MAX_CONSECUTIVE_FAILURES {
          enabled := false;
        }
        return [], true;
      }
      cursor := Last(rows).seqNo;
      lastAt := Some(now);
      failures := 0;
      lastError := None;
      retryAt := None;
      return rows, false;
    }

    /** The drain loop of a tick, one attempt per batch. */
    method DrainBatches(table: seq<Row>, now: Time, net: seq<Attempt>) returns (sent: seq<Row>)
      modifies this
      ensures (View(), sent) == Drain(old(View()), table, now, net)
    {
      ghost var first := View();
      sent := [];
      assert net[0..] == net;
      for k := 0 to |net|
        invariant Drain(first, table, now, net).0 == Drain(View(), table, now, net[k..]).0
        invariant Drain(first, table, now, net).1 == sent + Drain(View(), table, now, net[k..]).1
      {
        DrainUnfolds(View(), table, now, net, k);
        ghost var acked := sent;
        var rows, raised := DeliverOneBatch(table, now, net[k]);
        sent := sent + rows;
        if raised || |rows| < batchSize || net[k].late {
          return;
        }
        ghost var rest := Drain(View(), table, now, net[k + 1..]).1;
        assert acked + (rows + rest) == sent + rest;
      }
      assert net[|net|..] == [] && sent + [] == sent;
    }

    /** One scheduler tick. The rows are those acknowledged by the collector's socket. */
    method ProcessDeliverySink(table: seq<Row>, f: Firing) returns (sent: seq<Row>)
      requires f.Valid()
      modifies this
      ensures (View(), sent) == Tick(old(View()), table, f)
    {
      if !enabled {
        return [];
      }
      if retryAt.Some? {
        if retryAt.value > f.at { return []; }
      } else if lastAt.Some? {
        if f.at - lastAt.value < flushInterval { return []; }
      }
      sent := DrainBatches(table, f.at, f.net);
    }
  }

  // ---- What one batch and one tick achieve ----

  predicate SameSettings(a: Sink, b: Sink) {
    a.tenant == b.tenant && a.decision == b.decision && a.batchSize == b.batchSize && a.flushInterval == b.flushInterval
  }

  predicate AllGood(net: seq<Attempt>) {
    forall a :: a in net ==> a.ok && !a.late
  }

  /** Acknowledging `sent` takes the sink from `s` to `t`: the head of what was pending was sent,
      exactly the rest is still pending, the cursor did not move back, the settings did not change. */
  predicate Sends(s: Sink, table: seq<Row>, now: Time, t: Sink, sent: seq<Row>) {
    && SameSettings(t, s)
    && s.cursor <= t.cursor
    && sent <= Pending(table, s, now)
    && Pending(table, t, now) == Pending(table, s, now)[|sent|..]
  }

  lemma SendsCompose(s: Sink, table: seq<Row>, now: Time, t: Sink, a: seq<Row>, u: Sink, b: seq<Row>)
    requires Sends(s, table, now, t, a) && Sends(t, table, now, u, b)
    ensures Sends(s, table, now, u, a + b)
  {
    var p := Pending(table, s, now);
    assert a + b <= p && p[|a + b|..] == p[|a|..][|b|..];
  }

  /** When a batch is empty, jumping the cursor skips nothing that is pending. */
  lemma JumpSkipsNothing(s: Sink, table: seq<Row>, now: Time)
    requires Ordered(table) && Pending(table, s, now) == []
    ensures Sends(s, table, now, Jumped(s, table, now), [])
  {
    var after := Pending(table, Jumped(s, table, now), now);
    assert forall r :: r in after ==> r in Pending(table, s, now);
    SameRows(after, []);
  }

  /** The row is of the sink's tenant, if it has one, and was ingested at least five seconds ago. */
  predicate SettledFor(r: Row, s: Sink, now: Time) {
    (s.tenant == "" || r.tenant == Some(s.tenant)) && r.ingestedAt + 5 * SECOND <= now
  }

  /** Pending are the settled rows above the cursor that the decision filter lets through; and when
      there are none, a batch moves the cursor onto the last settled row, whatever its decision, if
      that is ahead, and changes nothing else. */
  lemma EmptyBatchCatchesUp(s: Sink, table: seq<Row>, now: Time, attempt: Attempt)
    requires Ordered(table)
    ensures forall r :: r in Pending(table, s, now) <==>
              r in table && SettledFor(r, s, now) && s.cursor < r.seqNo && (s.decision == "all" || r.decision == s.decision)
    ensures Pending(table, s, now) == [] ==>
              var d := DeliverBatch(s, table, now, attempt);
              && d.sent == [] && !d.raised && d.sink == s.(cursor := d.sink.cursor) && s.cursor <= d.sink.cursor
              && (forall r :: r in table && SettledFor(r, s, now) ==> r.seqNo <= d.sink.cursor)
              && (d.sink.cursor != s.cursor ==> exists r :: r in table && SettledFor(r, s, now) && r.seqNo == d.sink.cursor)
  {
    var seen := Pick(table, SeenQuery(s, now));
    assert forall r :: r in seen <==> r in table && SettledFor(r, s, now);
    if seen != [] {
      assert Last(seen) in seen;
      assert forall r :: r in seen ==> r.seqNo <= Last(seen).seqNo;
    }
  }

  /** A batch sends the head of what is pending, and leaves exactly the rest pending. */
  lemma BatchAdvances(s: Sink, table: seq<Row>, now: Time, attempt: Attempt)
    requires Ordered(table) && s.batchSize >= 1
    ensures var r := DeliverBatch(s, table, now, attempt);
            && Sends(s, table, now, r.sink, r.sent)
            && |r.sent| == (if attempt.ok then Min(s.batchSize, |Pending(table, s, now)|) else 0)
            && (r.raised <==> !attempt.ok && Pending(table, s, now) != [])
  {
    var p, rows := Pending(table, s, now), Batch(table, s, now);
    if rows == [] {
      JumpSkipsNothing(s, table, now);
    } else if attempt.ok {
      PickRest(table, PendingQuery(s, now), |rows|);
      assert Last(rows) == p[|rows| - 1];
      assert Last(rows) in p;
    }
  }

  /** Any tick acknowledges a prefix of what is pending and leaves the rest pending. */
  lemma {:induction false} DrainSends(s: Sink, table: seq<Row>, now: Time, net: seq<Attempt>)
    requires Ordered(table) && s.batchSize >= 1
    ensures Sends(s, table, now, Drain(s, table, now, net).0, Drain(s, table, now, net).1)
    decreases |net|
  {
    if net != [] {
      BatchAdvances(s, table, now, net[0]);
      var r := DeliverBatch(s, table, now, net[0]);
      if !(r.raised || |r.sent| < s.batchSize || net[0].late) {
        DrainSends(r.sink, table, now, net[1..]);
        var rest := Drain(r.sink, table, now, net[1..]);
        SendsCompose(s, table, now, r.sink, r.sent, rest.0, rest.1);
      }
    }
  }

  /** That prefix is at most one batch per attempt; without a failed send and without a missed
      deadline it is the first min(attempts * batch size, pending) rows, so min(20 * batch size,
      pending) for a whole tick. */
  lemma {:induction false} DrainCount(s: Sink, table: seq<Row>, now: Time, net: seq<Attempt>)
    requires Ordered(table) && s.batchSize >= 1
    ensures |Drain(s, table, now, net).1| <= |net| * s.batchSize
    ensures AllGood(net) ==> |Drain(s, table, now, net).1| == Min(|net| * s.batchSize, |Pending(table, s, now)|)
    decreases |net|
  {
    if net != [] {
      BatchAdvances(s, table, now, net[0]);
      var r := DeliverBatch(s, table, now, net[0]);
      TimesNext(|net|, s.batchSize);
      if !(r.raised || |r.sent| < s.batchSize || net[0].late) {
        DrainCount(r.sink, table, now, net[1..]);
      }
    }
  }

  lemma TimesNext(n: nat, b: nat)
    requires n > 0
    ensures n * b == (n - 1) * b + b && 0 <= (n - 1) * b
  {}

  // ---- When a tick does anything ----

  /** A tick on which every send succeeds sends the first min(20 * batch size, pending) rows if the
      sink is enabled and either its retry time has come or, when none is set, its flush interval
      has passed since its last delivery; otherwise it sends nothing and changes nothing. */
  lemma TickSendsIffDue(s: Sink, table: seq<Row>, f: Firing)
    requires Ordered(table) && s.batchSize >= 1 && f.Valid() && AllGood(f.net)
    ensures var (t, sent) := Tick(s, table, f);
            if !s.enabled || (s.retryAt.Some? && f.at < s.retryAt.value)
               || (s.retryAt.None? && s.lastAt.Some? && f.at < s.lastAt.value + s.flushInterval) then
              t == s && sent == []
            else
              && Sends(s, table, f.at, t, sent)
              && |sent| == Min(20 * s.batchSize, |Pending(table, s, f.at)|)
  {
    DrainSends(s, table, f.at, f.net);
    DrainCount(s, table, f.at, f.net);
  }

  lemma {:induction false} GoodDrainIsRecorded(s: Sink, table: seq<Row>, now: Time, net: seq<Attempt>)
    requires AllGood(net)
    ensures var (t, sent) := Drain(s, table, now, net);
            sent != [] ==> t.failures == 0 && t.retryAt.None? && t.lastError.None? && t.lastAt == Some(now)
    decreases |net|
  {
    if net != [] {
      var r := DeliverBatch(s, table, now, net[0]);
      if !(|r.sent| < s.batchSize || net[0].late) {
        GoodDrainIsRecorded(r.sink, table, now, net[1..]);
      }
    }
  }

  /** A tick that sent something ends any streak of failures, and no tick within the flush interval
      after its start does anything, whatever has arrived meanwhile. */
  lemma SentThenRests(s: Sink, table: seq<Row>, f: Firing, later: seq<Row>, g: Firing)
    requires AllGood(f.net) && Tick(s, table, f).1 != []
    ensures var t := Tick(s, table, f).0;
            && t.failures == 0 && t.retryAt.None? && t.lastError.None?
            && (g.at < f.at + t.flushInterval ==> Tick(t, later, g) == (t, []))
  {
    GoodDrainIsRecorded(s, table, f.at, f.net);
  }

  // ---- A fixed backlog drains in a computable number of ticks ----

  /** The ticks of a sink against an unchanging table, and all rows they acknowledge. */
  function Ticks(s: Sink, table: seq<Row>, firings: seq<Firing>): (Sink, seq<Row>)
    decreases |firings|
  {
    if firings == [] then (s, [])
    else
      var first := Tick(s, table, firings[0]);
      var rest := Ticks(first.0, table, firings[1..]);
      (rest.0, first.1 + rest.1)
  }

  /** A good tick leaves an enabled sink enabled and due again one flush interval later. */
  lemma {:induction false} GoodDrainStaysDue(s: Sink, table: seq<Row>, now: Time, net: seq<Attempt>, next: Time)
    requires AllGood(net) && s.enabled && 0 <= s.flushInterval <= next - now
    requires if s.retryAt.Some? then s.retryAt.value <= now else s.lastAt.Some? ==> s.lastAt.value <= now
    ensures var s' := Drain(s, table, now, net).0; s'.enabled && Due(s', next)
    decreases |net|
  {
    if net != [] {
      var r := DeliverBatch(s, table, now, net[0]);
      if !(|r.sent| < s.batchSize || net[0].late) {
        GoodDrainStaysDue(r.sink, table, now, net[1..], next);
      }
    }
  }

  /** Ticks a flush interval apart on which every send succeeds in time. */
  predicate GoodFirings(firings: seq<Firing>, interval: Time) {
    && (forall f :: f in firings ==> f.Valid() && AllGood(f.net))
    && (forall i, j :: 0 <= i < j < |firings| ==> interval <= firings[j].at - firings[i].at)
  }

  lemma SettledBacklog(s: Sink, table: seq<Row>, a: Time, b: Time)
    requires Ordered(table)
    requires forall r :: r in table ==> r.ingestedAt <= a - DELIVERY_LAG && r.ingestedAt <= b - DELIVERY_LAG
    ensures Pending(table, s, a) == Pending(table, s, b)
  {
    SameRows(Pending(table, s, a), Pending(table, s, b));
  }

  /** What a backlog lemma assumes: every row is past the lag when the first tick fires. */
  predicate Backlogged(s: Sink, table: seq<Row>, firings: seq<Firing>) {
    && Ordered(table) && s.batchSize >= 1 && s.enabled && 0 <= s.flushInterval
    && firings != [] && Due(s, firings[0].at) && GoodFirings(firings, s.flushInterval)
    && (forall r :: r in table ==> r.ingestedAt <= firings[0].at - DELIVERY_LAG)
  }

  lemma GoodFirst(s: Sink, table: seq<Row>, firings: seq<Firing>)
    requires Backlogged(s, table, firings)
    ensures var d := Tick(s, table, firings[0]);
            var p := Pending(table, s, firings[0].at);
            && Sends(s, table, firings[0].at, d.0, d.1)
            && |d.1| == Min(MAX_BATCHES_PER_TICK * s.batchSize, |p|)
            && (|firings| > 1 ==> Backlogged(d.0, table, firings[1..]))
  {
    var f := firings[0];
    assert f in firings;
    DrainSends(s, table, f.at, f.net);
    DrainCount(s, table, f.at, f.net);
    if |firings| > 1 {
      GoodDrainStaysDue(s, table, f.at, f.net, firings[1].at);
      assert 0 <= s.flushInterval <= firings[1].at - f.at;
    }
  }

  /** If every row of the table is past the lag, `n` good ticks a flush interval apart send the
      first min(n * 20 * batch size, pending) pending rows in order and leave the rest pending. */
  lemma {:induction false} BacklogDrains(s: Sink, table: seq<Row>, firings: seq<Firing>)
    requires Backlogged(s, table, firings)
    ensures var d := Ticks(s, table, firings);
            var p := Pending(table, s, firings[0].at);
            && Sends(s, table, firings[0].at, d.0, d.1)
            && |d.1| == Min(|firings| * (MAX_BATCHES_PER_TICK * s.batchSize), |p|)
    decreases |firings|
  {
    var now, quota := firings[0].at, MAX_BATCHES_PER_TICK * s.batchSize;
    GoodFirst(s, table, firings);
    var first := Tick(s, table, firings[0]);
    var rest := Ticks(first.0, table, firings[1..]);
    if |firings| == 1 {
      assert rest == (first.0, []) && first.1 + [] == first.1;
    } else {
      BacklogDrains(first.0, table, firings[1..]);
      SettledBacklog(first.0, table, now, firings[1].at);
      SettledBacklog(rest.0, table, now, firings[1].at);
      SendsCompose(s, table, now, first.0, first.1, rest.0, rest.1);
      TimesNext(|firings|, quota);
    }
  }

  /** Hence `ceil(pending / (20 * batch size))` such ticks empty the backlog. */
  lemma BacklogIsEmptied(s: Sink, table: seq<Row>, firings: seq<Firing>)
    requires Backlogged(s, table, firings)
    requires |Pending(table, s, firings[0].at)| <= |firings| * (MAX_BATCHES_PER_TICK * s.batchSize)
    ensures Ticks(s, table, firings).1 == Pending(table, s, firings[0].at)
    ensures Pending(table, Ticks(s, table, firings).0, firings[0].at) == []
  {
    BacklogDrains(s, table, firings);
  }
}
