/** One run of the Wazuh pull script: it appends pages of the SIEM pull API to a log file and
    checkpoints its cursor after each page, until it is done or a request raises. */
module WazuhPuller {
  import opened Basics
  import opened EventLog

  /** The script's settings. "" as tenant and "all" as decision mean no filter. */
  datatype Settings = Settings(tenant: string, decision: string, limit: nat)

  /** No cursor stored yet: below every `seq`. */
  const NO_CURSOR: int := -1

  // ---- The pull API ----

  function AfterQuery(f: Settings, cursor: int): Query {
    Query(cursor, None, f.tenant, f.decision, None)
  }

  /** Everything the API would ever page out after the cursor. */
  function Remaining(table: seq<Row>, f: Settings, cursor: int): seq<Row> {
    Pick(table, AfterQuery(f, cursor))
  }

  /** A page, and whether the API reports that more follow (it looks one row further). */
  function Page(table: seq<Row>, f: Settings, cursor: int): (seq<Row>, bool) {
    var rows := Remaining(table, f, cursor);
    (Take(rows, f.limit), |rows| > f.limit)
  }

  // ---- One run of the script ----

  /** How the server answers a page request: with the page, with 401, or with any other failure (another
      HTTP status, a broken connection, a body that is not JSON). */
  datatype Answer = Served | Unauthorised | Broken

  /** What happens around a run: the answers to its requests in order (past the end all are served),
      whether a static token is used, and whether the first login and the login after a 401 succeed. */
  datatype World = World(answers: seq<Answer>, staticToken: bool, firstLogin: bool, secondLogin: bool)

  function AnswerTo(w: World, i: nat): Answer { if i < |w.answers| then w.answers[i] else Served }

  /** The outcome of asking for one page: whether it was obtained, the requests made so far and
      whether the one re-login is spent. */
  datatype Asked = Asked(ok: bool, requests: nat, relogin: bool)

  /** Asking for a page: a first 401 without a static token is met by one re-login and a repeated
      request; anything else that is not the page raises. */
  function Ask(w: World, requests: nat, relogin: bool): (a: Asked)
    decreases !relogin
  {
    match AnswerTo(w, requests)
    case Served => Asked(true, requests + 1, relogin)
    case Broken => Asked(false, requests + 1, relogin)
    case Unauthorised =>
      if w.staticToken || relogin then Asked(false, requests + 1, relogin)
      else if !w.secondLogin then Asked(false, requests + 1, true)
      else Ask(w, requests + 1, true)
  }

  /** How many of the next `n` pages can be obtained before a request raises. */
  function Obtained(w: World, n: nat, requests: nat, relogin: bool): (pages: nat)
    ensures pages <= n
  {
    if n == 0 then 0
    else
      var a := Ask(w, requests, relogin);
      if a.ok then 1 + Obtained(w, n - 1, a.requests, a.relogin) else 0
  }

  /** At least one page is asked for. */
  function MostPages(maxPages: int): nat { if maxPages > 1 then maxPages else 1 }

  /** The pages a run can obtain: it logs in first unless a static token is used. */
  function Obtainable(w: World, maxPages: int): (pages: nat)
    ensures pages <= MostPages(maxPages)
  {
    if !w.staticToken && !w.firstLogin then 0 else Obtained(w, MostPages(maxPages), 0, false)
  }

  class PullerFiles {
    var output: seq<Row>
    var cursor: int

    constructor ()
      ensures output == [] && cursor == NO_CURSOR
    {
      output, cursor := [], NO_CURSOR;
    }

    /** One page request, repeated once after a re-login. */
    method FetchPage(table: seq<Row>, f: Settings, at: int, w: World, requests: nat, relogin: bool)
      returns (page: (seq<Row>, bool), a: Asked)
      ensures a == Ask(w, requests, relogin)
      ensures a.ok ==> page == Page(table, f, at)
    {
      page := ([], false);
      var requests', relogin' := requests, relogin;
      while true
        invariant Ask(w, requests', relogin') == Ask(w, requests, relogin)
        decreases !relogin'
      {
        var answer := AnswerTo(w, requests');
        requests' := requests' + 1;
        if answer.Served? {
          return Page(table, f, at), Asked(true, requests', relogin');
        }
        if answer.Broken? || w.staticToken || relogin' {
          return page, Asked(false, requests', relogin');
        }
        relogin' := true;
        if !w.secondLogin {
          return page, Asked(false, requests', relogin');
        }
      }
    }

    /** One iteration: request a page, append its events, then store its last `seq`. */
    method PullPage(table: seq<Row>, f: Settings, w: World, requests: nat, relogin: bool)
      returns (count: nat, more: bool, a: Asked)
      modifies this
      ensures a == Ask(w, requests, relogin)
      ensures count == if a.ok then Min(f.limit, |Remaining(table, f, old(cursor))|) else 0
      ensures a.ok ==> (more <==> |Remaining(table, f, old(cursor))| > f.limit)
      ensures (output, cursor) == Pulled(table, f, old(output), old(cursor), count)
    {
      var page;
      page, a := FetchPage(table, f, cursor, w, requests, relogin);
      if !a.ok {
        return 0, false, a;
      }
      var (events, next) := page;
      assert events == Remaining(table, f, cursor)[..|events|];
      if events != [] {
        output := output + events;
        cursor := Last(events).seqNo;
      }
      return |events|, next, a;
    }

    /** The same iteration, seen from the start of the run: `done` rows are there already. */
    method PullNext(table: seq<Row>, f: Settings, w: World, requests: nat, relogin: bool,
                    ghost before: seq<Row>, ghost start: int, ghost done: nat)
      returns (count: nat, more: bool, a: Asked)
      requires Ordered(table) && done <= |Remaining(table, f, start)| && (output, cursor) == Pulled(table, f, before, start, done)
      modifies this
      ensures a == Ask(w, requests, relogin)
      ensures count == if a.ok then Min(f.limit, |Remaining(table, f, start)| - done) else 0
      ensures a.ok ==> (more <==> |Remaining(table, f, start)| - done > f.limit)
      ensures done + count <= |Remaining(table, f, start)|
      ensures (output, cursor) == Pulled(table, f, before, start, done + count)
    {
      PulledRest(table, f, before, start, done);
      count, more, a := PullPage(table, f, w, requests, relogin);
      PulledTwice(table, f, before, start, done, count);
    }

    /** The loop over pages: it stops at a request that raises, at a page that is not full, or at the
        limit on pages. `full` is the number of full pages before the last request. */
    method PullPages(table: seq<Row>, f: Settings, maxPages: int, w: World) returns (total: nat, raised: bool, ghost full: nat)
      requires Ordered(table) && f.limit >= 1
      modifies this
      ensures total <= |Remaining(table, f, old(cursor))|
      ensures (output, cursor) == Pulled(table, f, old(output), old(cursor), total)
      ensures Ends(Obtained(w, MostPages(maxPages), 0, false), MostPages(maxPages), f.limit,
                   |Remaining(table, f, old(cursor))|, total, raised, full)
    {
      ghost var start, before, size := cursor, output, |Remaining(table, f, cursor)|;
      ghost var most := MostPages(maxPages);
      var pages: nat, requests: nat, relogin := 0, 0, false;
      total, full := 0, 0;
      while true
        invariant total == Rows(pages, f.limit) && total <= size && (output, cursor) == Pulled(table, f, before, start, total)
        invariant pages < most && (pages > 0 ==> total < size)
        invariant Obtained(w, most, 0, false) == pages + Obtained(w, most - pages, requests, relogin)
        decreases size - total
      {
        full := pages;
        var count, more, a;
        count, more, a := PullNext(table, f, w, requests, relogin, before, start, total);
        requests, relogin := a.requests, a.relogin;
        total := total + count;
        if !a.ok {
          return total, true, full;
        }
        if !more {
          break;
        }
        pages := pages + 1;
        if pages >= maxPages {
          break;
        }
      }
      return total, false, full;
    }

    /** A run pulls the rows of the pages it can obtain, or all there is, and leaves the cursor on the
        last of them. It raises exactly when it could not obtain a page it still needed, and then
        keeps what it has. */
    method Run(table: seq<Row>, f: Settings, maxPages: int, w: World) returns (total: nat, raised: bool)
      requires Ordered(table) && f.limit >= 1
      modifies this
      ensures var p, size := Obtainable(w, maxPages), |Remaining(table, f, old(cursor))|;
              && total == Min(p * f.limit, size)
              && (raised <==> p < MostPages(maxPages) && (p == 0 || p * f.limit < size))
      ensures total <= |Remaining(table, f, old(cursor))|
      ensures (output, cursor) == Pulled(table, f, old(output), old(cursor), total)
    {
      if !w.staticToken && !w.firstLogin {
        return 0, true;
      }
      ghost var size, full := |Remaining(table, f, cursor)|, 0;
      total, raised, full := PullPages(table, f, maxPages, w);
      EndsRight(Obtainable(w, maxPages), MostPages(maxPages), f.limit, size, total, raised, full);
    }
  }

  /** How the loop ends, with `full` full pages pulled before the last request, out of `p` that can be
      obtained and `most` that may be asked for. */
  predicate Ends(p: nat, most: nat, limit: nat, size: nat, total: nat, raised: bool, full: nat) {
    && full < most && (full > 0 ==> Rows(full, limit) < size)
    && if raised then p == full && total == Rows(full, limit)
       else full < p && total == Min(Rows(full + 1, limit), size) && (size <= Rows(full + 1, limit) || (full + 1 == most == p))
  }

  lemma EndsRight(p: nat, most: nat, limit: nat, size: nat, total: nat, raised: bool, full: nat)
    requires p <= most && Ends(p, most, limit, size, total, raised, full)
    ensures total == Min(p * limit, size) && (raised <==> p < most && (p == 0 || p * limit < size))
  {
    RowsTimes(p, limit);
    if !raised { RowsGrow(full + 1, p, limit); }
  }

  /** The output and the cursor once the next `n` rows of the stream have been pulled. */
  function Pulled(table: seq<Row>, f: Settings, output: seq<Row>, cursor: int, n: nat): (seq<Row>, int)
    requires n <= |Remaining(table, f, cursor)|
  {
    var p := Remaining(table, f, cursor);
    if n == 0 then (output, cursor) else (output + p[..n], p[n - 1].seqNo)
  }

  /** After `n` rows, exactly the others remain. */
  lemma PulledRest(table: seq<Row>, f: Settings, output: seq<Row>, cursor: int, n: nat)
    requires Ordered(table) && n <= |Remaining(table, f, cursor)|
    ensures Remaining(table, f, Pulled(table, f, output, cursor, n).1) == Remaining(table, f, cursor)[n..]
  {
    if n > 0 {
      PickRest(table, AfterQuery(f, cursor), n);
    }
  }

  lemma PulledTwice(table: seq<Row>, f: Settings, output: seq<Row>, cursor: int, n: nat, k: nat)
    requires Ordered(table) && n + k <= |Remaining(table, f, cursor)|
    requires k <= |Remaining(table, f, Pulled(table, f, output, cursor, n).1)|
    ensures var at := Pulled(table, f, output, cursor, n);
            Pulled(table, f, at.0, at.1, k) == Pulled(table, f, output, cursor, n + k)
  {
    PulledRest(table, f, output, cursor, n);
    Appended(output, Remaining(table, f, cursor), n, k);
  }

  lemma Appended(output: seq<Row>, p: seq<Row>, n: nat, k: nat)
    requires n + k <= |p|
    ensures output + p[..n] + p[n..][..k] == output + p[..n + k]
    ensures n == 0 ==> p[n..][..k] == p[..n + k]
  {}

  /** With no failed answer, every page is obtained. */
  lemma {:induction false} AllServed(w: World, n: nat, requests: nat, relogin: bool)
    requires forall i :: requests <= i < |w.answers| ==> w.answers[i].Served?
    ensures Obtained(w, n, requests, relogin) == n
  {
    if n > 0 {
      AllServed(w, n - 1, requests + 1, relogin);
    }
  }

  /** A session that expires once in a run is survived: one 401, whenever it comes, costs a re-login
      and no page. */
  lemma {:induction false} OneExpiryIsSurvived(w: World, n: nat, requests: nat)
    requires !w.staticToken && w.secondLogin
    requires forall i :: requests <= i < |w.answers| ==> !w.answers[i].Broken?
    requires forall i, j :: requests <= i < j < |w.answers| ==> !(w.answers[i].Unauthorised? && w.answers[j].Unauthorised?)
    ensures Obtained(w, n, requests, false) == n
  {
    if n > 0 {
      var a := Ask(w, requests, false);
      if a.relogin {
        AllServed(w, n - 1, a.requests, true);
      } else {
        OneExpiryIsSurvived(w, n - 1, a.requests);
      }
    }
  }

  /** The i-th answer ends the run: any failure but a 401, a 401 with a static token or without a
      second login, and every 401 after the first. */
  predicate Fatal(w: World, i: nat) {
    && i < |w.answers|
    && (w.answers[i].Broken? || (w.answers[i].Unauthorised? && (w.staticToken || !w.secondLogin || Expired(w, i))))
  }

  /** One of the first `i` answers was a 401. */
  predicate Expired(w: World, i: nat) {
    exists j :: 0 <= j < i && j < |w.answers| && w.answers[j].Unauthorised?
  }

  /** How many of the answers from `a` up to `b` were pages. */
  function PagesAmong(w: World, a: nat, b: nat): nat
    requires a <= b
    decreases b - a
  {
    if a == b then 0 else (if AnswerTo(w, a).Served? then 1 else 0) + PagesAmong(w, a + 1, b)
  }

  lemma ExpiredNext(w: World, i: nat)
    ensures Expired(w, i + 1) <==> Expired(w, i) || AnswerTo(w, i).Unauthorised?
  {}

  /** A run obtains exactly the pages among the answers before the first fatal one. */
  lemma {:induction false} ObtainedExactly(w: World, n: nat, requests: nat, fatal: nat)
    requires requests <= fatal && Fatal(w, fatal) && forall i: nat :: i < fatal ==> !Fatal(w, i)
    ensures Obtained(w, n, requests, Expired(w, requests)) == Min(n, PagesAmong(w, requests, fatal))
    decreases fatal - requests
  {
    ExpiredNext(w, requests);
    if n > 0 && requests < fatal {
      assert !Fatal(w, requests);
      if AnswerTo(w, requests).Served? {
        ObtainedExactly(w, n - 1, requests + 1, fatal);
      } else {
        ObtainedExactly(w, n, requests + 1, fatal);
      }
    }
  }

  /** A run obtains nothing if it has no static token and its first login fails. Otherwise it obtains
      the pages among the answers before the first fatal one, and all it asks for, which is at least
      one, if none is fatal. */
  lemma PagesObtained(w: World, maxPages: int)
    ensures !w.staticToken && !w.firstLogin ==> Obtainable(w, maxPages) == 0
    ensures (w.staticToken || w.firstLogin) && (forall i: nat :: !Fatal(w, i)) ==>
              Obtainable(w, maxPages) == if maxPages > 1 then maxPages else 1
    ensures forall fatal: nat :: (w.staticToken || w.firstLogin) && Fatal(w, fatal) && (forall i: nat :: i < fatal ==> !Fatal(w, i)) ==>
              Obtainable(w, maxPages) == Min(if maxPages > 1 then maxPages else 1, PagesAmong(w, 0, fatal))
  {
    var n := MostPages(maxPages);
    assert !Expired(w, 0);
    if forall i: nat :: !Fatal(w, i) {
      NeverFatal(w, n, 0);
    }
    forall fatal: nat | Fatal(w, fatal) && (forall i: nat :: i < fatal ==> !Fatal(w, i))
      ensures Obtained(w, n, 0, false) == Min(n, PagesAmong(w, 0, fatal))
    {
      ObtainedExactly(w, n, 0, fatal);
    }
  }

  lemma {:induction false} NeverFatal(w: World, n: nat, requests: nat)
    requires forall i: nat :: !Fatal(w, i)
    ensures Obtained(w, n, requests, Expired(w, requests)) == n
    decreases n, !Expired(w, requests)
  {
    ExpiredNext(w, requests);
    if n > 0 {
      assert !Fatal(w, requests);
      if AnswerTo(w, requests).Served? {
        NeverFatal(w, n - 1, requests + 1);
      } else {
        NeverFatal(w, n, requests + 1);
      }
    }
  }

  /** A second 401 is not, nor a 401 with a static token, nor any other failure. */
  lemma SecondFailureRaises(w: World, requests: nat, relogin: bool)
    ensures Ask(w, requests, relogin).ok <==>
            || AnswerTo(w, requests).Served?
            || (AnswerTo(w, requests).Unauthorised? && !w.staticToken && !relogin && w.secondLogin
                && AnswerTo(w, requests + 1).Served?)
  {}
}
