/** The query-event log: rows, the WHERE clauses the exporters put on it, and the
    facts about ordered row sequences that the delivery, retention and pull models share. */
module EventLog {
  import opened Basics

  /** Instants and durations, in microseconds (the resolution of the database's timestamps). */
  type Time = int

  const SECOND: Time := 1_000_000

  /** One `query_events` row. `seqNo` is the identity column used as a cursor. */
  datatype Row = Row(
    seqNo: nat, tenant: Option<string>, decision: string,
    occurredAt: Time, ingestedAt: Time, payload: string)

  /** A WHERE clause: `seq > after`, optionally `seq <= upTo`, a tenant ("" selects all),
      a decision ("all" selects all) and optionally `ingested_at <= cutoff`. */
  datatype Query = Query(after: int, upTo: Option<int>, tenant: string, decision: string, cutoff: Option<Time>)

  predicate Fits(r: Row, q: Query) {
    && q.after < r.seqNo
    && (q.upTo.Some? ==> r.seqNo <= q.upTo.value)
    && (q.tenant == "" || r.tenant == Some(q.tenant))
    && (q.decision == "all" || r.decision == q.decision)
    && (q.cutoff.Some? ==> r.ingestedAt <= q.cutoff.value)
  }

  function Min(a: int, b: int): int { if a < b then a else b }

  /** The rows in `n` full batches. */
  function Rows(n: nat, size: nat): nat {
    if n == 0 then 0 else Rows(n - 1, size) + size
  }

  lemma {:induction false} RowsTimes(n: nat, size: nat)
    ensures Rows(n, size) == n * size
  {
    if n > 0 { RowsTimes(n - 1, size); }
  }

  lemma {:induction false} RowsGrow(a: nat, b: nat, size: nat)
    requires a <= b
    ensures Rows(a, size) <= Rows(b, size)
  {
    if a < b { RowsGrow(a, b - 1, size); }
  }

  /** Rows in ascending `seq` order; the column is unique, so strictly ascending. */
  predicate Ordered(rows: seq<Row>) {
    forall i, j :: 0 <= i < j < |rows| ==> rows[i].seqNo < rows[j].seqNo
  }

  lemma OrderedCons(rows: seq<Row>, rest: seq<Row>)
    requires rows != [] && forall r :: r in rest ==> r in rows[1..]
    ensures Ordered(rows) && Ordered(rest) ==> Ordered([rows[0]] + rest)
    ensures Ordered(rows) ==> Ordered(rows[1..])
  {
    if Ordered(rows) && Ordered(rest) {
      forall i | 0 <= i < |rest| ensures rows[0].seqNo < rest[i].seqNo {
        assert rest[i] in rest;
      }
    }
  }

  /** The result of a query with ORDER BY seq ASC. */
  function Pick(rows: seq<Row>, q: Query): (picked: seq<Row>)
    ensures forall r :: r in picked <==> r in rows && Fits(r, q)
    ensures Ordered(rows) ==> Ordered(picked)
    ensures |picked| <= |rows|
  {
    if rows == [] then []
    else
      var rest := Pick(rows[1..], q);
      OrderedCons(rows, rest);
      if Fits(rows[0], q) then [rows[0]] + rest else rest
  }

  function Take<T>(s: seq<T>, n: nat): (t: seq<T>)
    ensures t <= s
    ensures |t| == if n < |s| then n else |s|
  {
    if n < |s| then s[..n] else s
  }

  function Last(rows: seq<Row>): (r: Row)
    requires rows != []
    ensures r in rows
    ensures Ordered(rows) ==> forall x :: x in rows ==> x.seqNo <= r.seqNo
  {
    rows[|rows| - 1]
  }

  /** An ordered sequence is determined by its elements. */
  lemma {:induction false} SameRows(a: seq<Row>, b: seq<Row>)
    requires Ordered(a) && Ordered(b)
    requires forall r :: r in a <==> r in b
    ensures a == b
  {
    assert b != [] ==> b[0] in a;
    if a != [] {
      assert a[0] in b;
      assert a[0] == b[0];
      forall r ensures r in a[1..] <==> r in b[1..] {
        if r in a[1..] { assert r in b && r != b[0]; }
        if r in b[1..] { assert r in a && r != a[0]; }
      }
      SameRows(a[1..], b[1..]);
      assert a == [a[0]] + a[1..] && b == [b[0]] + b[1..];
    }
  }

  /** Insertion of a committed row at its place in `seq` order. */
  function Insert(rows: seq<Row>, r: Row): (out: seq<Row>)
    requires Ordered(rows)
    requires forall x :: x in rows ==> x.seqNo != r.seqNo
    ensures Ordered(out)
    ensures forall x :: x in out <==> x in rows || x == r
  {
    if rows == [] || r.seqNo < rows[0].seqNo then [r] + rows
    else
      var rest := Insert(rows[1..], r);
      assert forall i :: 0 <= i < |rest| ==> rest[i] in rest;
      [rows[0]] + rest
  }

  /** A query does not see a row that does not fit it. */
  lemma PickInsert(rows: seq<Row>, r: Row, q: Query)
    requires Ordered(rows)
    requires forall x :: x in rows ==> x.seqNo != r.seqNo
    requires !Fits(r, q)
    ensures Pick(Insert(rows, r), q) == Pick(rows, q)
  {
    SameRows(Pick(Insert(rows, r), q), Pick(rows, q));
  }

  /** A fitting row above all others comes last. */
  lemma PickAppend(rows: seq<Row>, r: Row, q: Query)
    requires Ordered(rows) && (forall x :: x in rows ==> x.seqNo < r.seqNo) && Fits(r, q)
    ensures Pick(Insert(rows, r), q) == Pick(rows, q) + [r]
  {
    var p := Pick(rows, q);
    assert forall i :: 0 <= i < |p| ==> p[i] in p;
    SameRows(Pick(Insert(rows, r), q), p + [r]);
  }

  /** Taking the first `n` picked rows moves the query's lower bound to the last of them. */
  lemma PickRest(rows: seq<Row>, q: Query, n: nat)
    requires Ordered(rows)
    requires 0 < n <= |Pick(rows, q)|
    ensures Pick(rows, q.(after := Pick(rows, q)[n - 1].seqNo)) == Pick(rows, q)[n..]
  {
    var p := Pick(rows, q);
    assert p[n - 1] in p;
    DropIsAbove(p, n);
    SameRows(Pick(rows, q.(after := p[n - 1].seqNo)), p[n..]);
  }

  lemma DropIsAbove(p: seq<Row>, n: nat)
    requires Ordered(p) && 0 < n <= |p|
    ensures forall r :: r in p[n..] <==> r in p && p[n - 1].seqNo < r.seqNo
  {
    forall r | r in p && p[n - 1].seqNo < r.seqNo ensures r in p[n..] {
      var i :| 0 <= i < |p| && p[i] == r;
      assert r == p[n..][i - n];
    }
  }

  /** The first `n` picked rows are the query with its upper bound at the last of them. */
  lemma PickFirst(rows: seq<Row>, q: Query, n: nat)
    requires Ordered(rows) && q.upTo.None?
    requires 0 < n <= |Pick(rows, q)|
    ensures Pick(rows, q.(upTo := Some(Pick(rows, q)[n - 1].seqNo))) == Pick(rows, q)[..n]
  {
    var p := Pick(rows, q);
    TakeIsBelow(p, n);
    SameRows(Pick(rows, q.(upTo := Some(p[n - 1].seqNo))), p[..n]);
  }

  lemma TakeIsBelow(p: seq<Row>, n: nat)
    requires Ordered(p) && 0 < n <= |p|
    ensures forall r :: r in p[..n] <==> r in p && r.seqNo <= p[n - 1].seqNo
  {
    forall r | r in p && r.seqNo <= p[n - 1].seqNo ensures r in p[..n] {
      var i :| 0 <= i < |p| && p[i] == r;
      assert r == p[..n][i];
    }
  }

  /** Splitting an ordered sequence at a value. */
  lemma SplitRows(all: seq<Row>, low: seq<Row>, high: seq<Row>, cut: int)
    requires Ordered(all) && Ordered(low) && Ordered(high)
    requires forall r :: r in low <==> r in all && r.seqNo <= cut
    requires forall r :: r in high <==> r in all && cut < r.seqNo
    ensures all == low + high && |low| <= |all| && high == all[|low|..]
    ensures forall i :: 0 <= i < |all| ==> (i < |low| <==> all[i].seqNo <= cut)
  {
    var both := low + high;
    forall i, j | 0 <= i < j < |both| ensures both[i].seqNo < both[j].seqNo {
      if i < |low| <= j {
        assert both[i] in low && both[j] in high;
      }
    }
    SameRows(all, both);
    forall i | 0 <= i < |all| ensures i < |low| <==> all[i].seqNo <= cut {
      if i < |low| { assert low[i] in low; } else { assert high[i - |low|] in high; }
    }
  }

  /** An ordered part of an ordered sequence that leaves no gap is a prefix of it. */
  lemma GapFreeIsPrefix(part: seq<Row>, all: seq<Row>)
    requires Ordered(part) && Ordered(all) && forall r :: r in part ==> r in all
    requires forall r, x :: r in all && x in part && r.seqNo <= x.seqNo ==> r in part
    ensures part <= all
  {
    if part != [] {
      var cut := Last(part).seqNo;
      SplitRows(all, part, Pick(all, Query(cut, None, "", "all", None)), cut);
    }
  }

  /** The rows left after deleting those with the given `seq` values. */
  function Without(rows: seq<Row>, ids: set<nat>): (left: seq<Row>)
    ensures forall r :: r in left <==> r in rows && r.seqNo !in ids
    ensures Ordered(rows) ==> Ordered(left)
  {
    if rows == [] then []
    else
      var rest := Without(rows[1..], ids);
      OrderedCons(rows, rest);
      if rows[0].seqNo in ids then rest else [rows[0]] + rest
  }

  /** Deleting rows that exist removes one row per identifier. */
  lemma {:induction false} WithoutCount(rows: seq<Row>, ids: set<nat>)
    requires Ordered(rows)
    requires forall id :: id in ids ==> exists r :: r in rows && r.seqNo == id
    ensures |Without(rows, ids)| + |ids| == |rows|
  {
    if rows == [] {
      assert ids == {};
    } else {
      var ids' := ids - {rows[0].seqNo};
      assert Without(rows[1..], ids) == Without(rows[1..], ids') by {
        SameRows(Without(rows[1..], ids), Without(rows[1..], ids'));
      }
      WithoutCount(rows[1..], ids');
    }
  }
}
