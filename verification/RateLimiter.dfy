/** The in-memory sliding-window rate limiter. Its per-key lists are pruned in place and whole
    keys are swept away now and then; over any run with a clock that does not go back it still
    answers like a limiter that remembers every accepted call for ever. */
module RateLimiter {
  import opened Basics

  const SWEEP_EVERY_N_CALLS := 1000

  datatype Call = Call(key: string, now: real)

  datatype Store = Store(stamps: map<string, seq<real>>, sinceSweep: nat)

  datatype Limit = Limit(max: int, window: real)

  // ---- One call, on values ----

  function DropOld(ts: seq<real>, cutoff: real): (left: seq<real>)
    ensures |left| <= |ts|
  {
    if ts != [] && ts[0] < cutoff then DropOld(ts[1..], cutoff) else ts
  }

  predicate Stale(ts: seq<real>, cutoff: real) {
    ts == [] || ts[|ts| - 1] < cutoff
  }

  function Swept(stamps: map<string, seq<real>>, cutoff: real): map<string, seq<real>> {
    map k | k in stamps && !Stale(stamps[k], cutoff) :: stamps[k]
  }

  function Stored(s: Store, key: string): seq<real> {
    if key in s.stamps then s.stamps[key] else []
  }

  /** The store after a call, and whether the call is let through. */
  function Checked(l: Limit, s: Store, c: Call): (Store, bool) {
    var cutoff := c.now - l.window;
    var ts := DropOld(Stored(s, c.key), cutoff);
    if |ts| >= l.max then (s.(stamps := s.stamps[c.key := ts]), false)
    else
      var stamps := s.stamps[c.key := ts + [c.now]];
      if s.sinceSweep + 1 >= SWEEP_EVERY_N_CALLS then (Store(Swept(stamps, cutoff), 0), true)
      else (Store(stamps, s.sinceSweep + 1), true)
  }

  // ---- The limiter, updating its dictionary in place ----

  class SlidingWindowLimiter {
    const limit: Limit
    var timestamps: map<string, seq<real>>
    var callsSinceSweep: nat

    function View(): Store
      reads this
    {
      Store(timestamps, callsSinceSweep)
    }

    constructor (max: int, window: real)
      ensures limit == Limit(max, window) && View() == Store(map[], 0)
    {
      limit := Limit(max, window);
      timestamps, callsSinceSweep := map[], 0;
    }

    method Check(key: string, now: real) returns (ok: bool)
      modifies this
      ensures (View(), ok) == Checked(limit, old(View()), Call(key, now))
    {
      var cutoff := now - limit.window;
      var ts := if key in timestamps then timestamps[key] else [];
      ghost var all := ts;
      while ts != [] && ts[0] < cutoff
        invariant DropOld(ts, cutoff) == DropOld(all, cutoff)
        decreases |ts|
      {
        ts := ts[1..];
      }
      timestamps := timestamps[key := ts];
      if |ts| >= limit.max {
        return false;
      }
      timestamps := timestamps[key := ts + [now]];
      assert timestamps == old(timestamps)[key := ts + [now]];
      callsSinceSweep := callsSinceSweep + 1;
      if callsSinceSweep >= SWEEP_EVERY_N_CALLS {
        callsSinceSweep := 0;
        SweepStale(cutoff);
      }
      return true;
    }

    /** Deletes the stale keys one by one. */
    method SweepStale(cutoff: real)
      modifies this
      ensures timestamps == Swept(old(timestamps), cutoff) && callsSinceSweep == old(callsSinceSweep)
    {
      ghost var before := timestamps;
      var stale := set k | k in timestamps && Stale(timestamps[k], cutoff);
      while stale != {}
        invariant callsSinceSweep == old(callsSinceSweep)
        invariant forall k :: k in stale ==> k in before && Stale(before[k], cutoff)
        invariant forall k :: k in timestamps ==> k in before && timestamps[k] == before[k]
        invariant forall k :: k in before ==> (k in timestamps <==> !Stale(before[k], cutoff) || k in stale)
        decreases |stale|
      {
        var k :| k in stale;
        timestamps := map x | x in timestamps && x != k :: timestamps[x];
        stale := stale - {k};
      }
    }
  }

  // ---- Runs, and the reference that never forgets ----

  function Run(l: Limit, s: Store, calls: seq<Call>): (Store, seq<bool>)
    decreases |calls|
  {
    if calls == [] then (s, [])
    else
      var (s', ok) := Checked(l, s, calls[0]);
      var rest := Run(l, s', calls[1..]);
      (rest.0, [ok] + rest.1)
  }

  /** How many calls of `key` were accepted at a time in the closed interval [lo, hi]. */
  function Recent(accepted: seq<Call>, key: string, lo: real, hi: real): nat {
    if accepted == [] then 0
    else
      var n := |accepted| - 1;
      var c := accepted[n];
      Recent(accepted[..n], key, lo, hi) + if c.key == key && lo <= c.now <= hi then 1 else 0
  }

  predicate Admits(l: Limit, accepted: seq<Call>, c: Call) {
    Recent(accepted, c.key, c.now - l.window, c.now) < l.max
  }

  /** The accepted calls after one more call. */
  function Next(l: Limit, accepted: seq<Call>, c: Call): seq<Call> {
    if Admits(l, accepted, c) then accepted + [c] else accepted
  }

  /** The reference: all calls accepted so far, and the answers. */
  function Reference(l: Limit, accepted: seq<Call>, calls: seq<Call>): (seq<Call>, seq<bool>)
    decreases |calls|
  {
    if calls == [] then (accepted, [])
    else
      var ok := Admits(l, accepted, calls[0]);
      var rest := Reference(l, Next(l, accepted, calls[0]), calls[1..]);
      (rest.0, [ok] + rest.1)
  }

  predicate Chronological(calls: seq<Call>) {
    forall i, j :: 0 <= i < j < |calls| ==> calls[i].now <= calls[j].now
  }

  // ---- Counting ----

  predicate Ascending(ts: seq<real>) {
    forall i, j :: 0 <= i < j < |ts| ==> ts[i] <= ts[j]
  }

  /** The times at which `key` was accepted. */
  function Times(accepted: seq<Call>, key: string): seq<real> {
    if accepted == [] then []
    else
      var n := |accepted| - 1;
      var ts := Times(accepted[..n], key);
      if accepted[n].key == key then ts + [accepted[n].now] else ts
  }

  predicate NoLaterThan(accepted: seq<Call>, now: real) {
    forall i :: 0 <= i < |accepted| ==> accepted[i].now <= now
  }

  lemma {:induction false} TimesAscend(accepted: seq<Call>, key: string, now: real)
    requires Chronological(accepted) && NoLaterThan(accepted, now)
    ensures Ascending(Times(accepted, key))
    ensures forall i :: 0 <= i < |Times(accepted, key)| ==> Times(accepted, key)[i] <= now
  {
    if accepted != [] {
      var n := |accepted| - 1;
      TimesAscend(accepted[..n], key, accepted[n].now);
    }
  }

  lemma {:induction false} DropOldSnoc(ts: seq<real>, t: real, cutoff: real)
    requires Ascending(ts + [t])
    ensures DropOld(ts + [t], cutoff) == if t < cutoff then [] else DropOld(ts, cutoff) + [t]
  {
    var all := ts + [t];
    if ts == [] {
      assert all[1..] == [];
    } else {
      assert all[1..] == ts[1..] + [t];
      assert ts[0] == all[0] && t == all[|ts|];
      if ts[0] < cutoff {
        DropOldSnoc(ts[1..], t, cutoff);
      }
    }
  }

  /** Counting the recent accepted calls is what is left after dropping the old ones. */
  lemma {:induction false} RecentIsDropOld(accepted: seq<Call>, key: string, lo: real, hi: real)
    requires Chronological(accepted) && NoLaterThan(accepted, hi)
    ensures Recent(accepted, key, lo, hi) == |DropOld(Times(accepted, key), lo)|
  {
    if accepted != [] {
      var n := |accepted| - 1;
      var c, before := accepted[n], accepted[..n];
      RecentIsDropOld(before, key, lo, hi);
      if c.key == key {
        TimesAscend(before, key, c.now);
        DropOldSnoc(Times(before, key), c.now, lo);
        if c.now < lo { NothingRecent(before, key, lo, hi, c.now); }
      }
    }
  }

  lemma {:induction false} NothingRecent(accepted: seq<Call>, key: string, lo: real, hi: real, last: real)
    requires last < lo && NoLaterThan(accepted, last)
    ensures Recent(accepted, key, lo, hi) == 0
  {
    if accepted != [] {
      NothingRecent(accepted[..|accepted| - 1], key, lo, hi, last);
    }
  }

  lemma {:induction false} DropOldSkips(ts: seq<real>, n: nat, cutoff: real)
    requires n <= |ts| && forall i :: 0 <= i < n ==> ts[i] < cutoff
    ensures DropOld(ts, cutoff) == DropOld(ts[n..], cutoff)
  {
    if n > 0 {
      assert ts[n..] == ts[1..][n - 1..];
      DropOldSkips(ts[1..], n - 1, cutoff);
    } else {
      assert ts[n..] == ts;
    }
  }

  // ---- The limiter refines the reference ----

  /** The store keeps, per key, a suffix of the accepted times, and what it has forgotten is too
      old to count at any time from `now` on. */
  ghost predicate Remembers(l: Limit, s: Store, accepted: seq<Call>, now: real) {
    && Chronological(accepted) && NoLaterThan(accepted, now)
    && (forall key :: Suffix(Times(accepted, key), Stored(s, key), now - l.window))
  }

  predicate Suffix(all: seq<real>, kept: seq<real>, cutoff: real) {
    && |kept| <= |all|
    && (forall i :: 0 <= i < |kept| ==> kept[i] == all[|all| - |kept| + i])
    && forall i :: 0 <= i < |all| - |kept| ==> all[i] < cutoff
  }

  /** Pruning a key's list keeps a suffix, and its length is the reference's count. */
  lemma PruneCounts(l: Limit, s: Store, accepted: seq<Call>, before: real, c: Call)
    requires Remembers(l, s, accepted, before) && before <= c.now
    ensures var kept := DropOld(Stored(s, c.key), c.now - l.window);
            && |kept| == Recent(accepted, c.key, c.now - l.window, c.now)
            && Suffix(Times(accepted, c.key), kept, c.now - l.window)
  {
    RecentIsDropOld(accepted, c.key, c.now - l.window, c.now);
    SuffixDrop(Times(accepted, c.key), Stored(s, c.key), before - l.window, c.now - l.window);
  }

  lemma SuffixDrop(all: seq<real>, kept: seq<real>, a: real, b: real)
    requires Suffix(all, kept, a) && a <= b
    ensures DropOld(kept, b) == DropOld(all, b)
    ensures Suffix(all, DropOld(all, b), b)
  {
    assert kept == all[|all| - |kept|..];
    DropOldSkips(all, |all| - |kept|, b);
    DropsOnlyOld(all, b);
  }

  lemma SuffixSnoc(all: seq<real>, kept: seq<real>, t: real, cutoff: real)
    requires Suffix(all, kept, cutoff)
    ensures Suffix(all + [t], kept + [t], cutoff)
  {}

  lemma SuffixCons(t: real, rest: seq<real>, kept: seq<real>, cutoff: real)
    requires Suffix(rest, kept, cutoff) && t < cutoff
    ensures Suffix([t] + rest, kept, cutoff)
  {}

  lemma {:induction false} DropsOnlyOld(ts: seq<real>, cutoff: real)
    ensures Suffix(ts, DropOld(ts, cutoff), cutoff)
  {
    if ts != [] && ts[0] < cutoff {
      DropsOnlyOld(ts[1..], cutoff);
      SuffixCons(ts[0], ts[1..], DropOld(ts[1..], cutoff), cutoff);
      assert [ts[0]] + ts[1..] == ts;
    }
  }

  lemma TimesSnoc(accepted: seq<Call>, c: Call, key: string)
    ensures Times(accepted + [c], key) == if c.key == key then Times(accepted, key) + [c.now] else Times(accepted, key)
  {
    assert (accepted + [c])[..|accepted|] == accepted;
  }

  /** A later time forgets no less. */
  lemma SuffixLater(all: seq<real>, kept: seq<real>, a: real, b: real)
    requires Suffix(all, kept, a) && a <= b
    ensures Suffix(all, kept, b)
  {}

  /** A swept key held only times too old to count. */
  lemma SweptIsSuffix(all: seq<real>, kept: seq<real>, after: seq<real>, cutoff: real)
    requires Suffix(all, kept, cutoff) && Ascending(all)
    requires after == kept || (after == [] && Stale(kept, cutoff))
    ensures Suffix(all, after, cutoff)
  {
    if kept != [] {
      assert kept[|kept| - 1] == all[|all| - 1];
    }
  }

  lemma CheckAgrees(l: Limit, s: Store, accepted: seq<Call>, before: real, c: Call)
    requires Remembers(l, s, accepted, before) && before <= c.now
    ensures Checked(l, s, c).1 == Admits(l, accepted, c)
    ensures Remembers(l, Checked(l, s, c).0, Next(l, accepted, c), c.now)
  {
    PruneCounts(l, s, accepted, before, c);
    var s', accepted' := Checked(l, s, c).0, Next(l, accepted, c);
    forall key ensures Suffix(Times(accepted', key), Stored(s', key), c.now - l.window) {
      CheckKeepsKey(l, s, accepted, before, c, key);
    }
  }

  /** What a call makes of each key's list, before a sweep may remove it. */
  function Touched(l: Limit, s: Store, c: Call, key: string): seq<real> {
    var kept := DropOld(Stored(s, c.key), c.now - l.window);
    if key != c.key then Stored(s, key) else if |kept| < l.max then kept + [c.now] else kept
  }

  lemma StoredAfter(l: Limit, s: Store, c: Call, key: string)
    ensures var after := Stored(Checked(l, s, c).0, key);
            after == Touched(l, s, c, key) || (after == [] && Stale(Touched(l, s, c, key), c.now - l.window))
  {}

  lemma OwnKeyIsSuffix(l: Limit, s: Store, accepted: seq<Call>, before: real, c: Call)
    requires Remembers(l, s, accepted, before) && before <= c.now
    ensures Suffix(Times(Next(l, accepted, c), c.key), Touched(l, s, c, c.key), c.now - l.window)
  {
    var cutoff, ts, kept := c.now - l.window, Times(accepted, c.key), DropOld(Stored(s, c.key), c.now - l.window);
    assert Suffix(ts, kept, cutoff) && (|kept| < l.max <==> Admits(l, accepted, c)) by {
      PruneCounts(l, s, accepted, before, c);
    }
    assert Times(accepted + [c], c.key) == ts + [c.now] by { TimesSnoc(accepted, c, c.key); }
    SuffixSnoc(ts, kept, c.now, cutoff);
  }

  lemma TouchedIsSuffix(l: Limit, s: Store, accepted: seq<Call>, before: real, c: Call, key: string)
    requires Remembers(l, s, accepted, before) && before <= c.now
    ensures Suffix(Times(Next(l, accepted, c), key), Touched(l, s, c, key), c.now - l.window)
  {
    if key == c.key {
      OwnKeyIsSuffix(l, s, accepted, before, c);
    } else {
      assert Times(Next(l, accepted, c), key) == Times(accepted, key) by { TimesSnoc(accepted, c, key); }
      SuffixLater(Times(accepted, key), Stored(s, key), before - l.window, c.now - l.window);
    }
  }

  lemma NextAscends(l: Limit, accepted: seq<Call>, c: Call, key: string)
    requires Chronological(accepted) && NoLaterThan(accepted, c.now)
    ensures Ascending(Times(Next(l, accepted, c), key))
  {
    TimesAscend(accepted, key, c.now);
    TimesSnoc(accepted, c, key);
  }

  lemma CheckKeepsKey(l: Limit, s: Store, accepted: seq<Call>, before: real, c: Call, key: string)
    requires Remembers(l, s, accepted, before) && before <= c.now
    ensures Suffix(Times(Next(l, accepted, c), key), Stored(Checked(l, s, c).0, key), c.now - l.window)
  {
    var cutoff := c.now - l.window;
    var all := Times(Next(l, accepted, c), key);
    var touched, after := Touched(l, s, c, key), Stored(Checked(l, s, c).0, key);
    assert Ascending(all) by { NextAscends(l, accepted, c, key); }
    assert Suffix(all, touched, cutoff) by { TouchedIsSuffix(l, s, accepted, before, c, key); }
    assert after == touched || (after == [] && Stale(touched, cutoff)) by { StoredAfter(l, s, c, key); }
    SweptIsSuffix(all, touched, after, cutoff);
  }

  function LastTime(before: real, calls: seq<Call>): real
    decreases |calls|
  {
    if calls == [] then before else LastTime(calls[0].now, calls[1..])
  }

  /** Whatever the calls, the limiter answers like the reference and remembers its history. */
  lemma {:induction false} RunAgrees(l: Limit, s: Store, accepted: seq<Call>, before: real, calls: seq<Call>)
    requires Remembers(l, s, accepted, before) && Chronological(calls)
    requires calls != [] ==> before <= calls[0].now
    ensures Run(l, s, calls).1 == Reference(l, accepted, calls).1
    ensures Remembers(l, Run(l, s, calls).0, Reference(l, accepted, calls).0, LastTime(before, calls))
    decreases |calls|
  {
    if calls != [] {
      var c, s' := calls[0], Checked(l, s, calls[0]).0;
      var accepted' := Next(l, accepted, c);
      assert Checked(l, s, c).1 == Admits(l, accepted, c) && Remembers(l, s', accepted', c.now) by {
        CheckAgrees(l, s, accepted, before, c);
      }
      RunAgrees(l, s', accepted', c.now, calls[1..]);
    }
  }

  const EMPTY: Store := Store(map[], 0)

  /** From an empty limiter, for every sequence of calls with nondecreasing times. */
  lemma LimiterRefinesReference(l: Limit, calls: seq<Call>)
    requires Chronological(calls)
    ensures Run(l, EMPTY, calls).1 == Reference(l, [], calls).1
  {
    if calls != [] {
      assert forall key :: Times([], key) == [];
      RunAgrees(l, EMPTY, [], calls[0].now, calls);
    }
  }

  // ---- No window holds more than the limit ----

  /** The accepted calls of a key in the closed interval of window length that starts at `x`. */
  function InWindow(l: Limit, accepted: seq<Call>, key: string, x: real): nat {
    Recent(accepted, key, x, x + l.window)
  }

  ghost predicate Bounded(l: Limit, accepted: seq<Call>) {
    forall key, x :: InWindow(l, accepted, key, x) <= if l.max > 0 then l.max else 0
  }

  /** A wider interval, up to the last accepted call, holds no fewer calls. */
  lemma {:induction false} RecentWidens(accepted: seq<Call>, key: string, lo: real, hi: real, lo': real, hi': real)
    requires lo' <= lo && NoLaterThan(accepted, hi')
    ensures Recent(accepted, key, lo, hi) <= Recent(accepted, key, lo', hi')
  {
    if accepted != [] {
      var n := |accepted| - 1;
      RecentWidens(accepted[..n], key, lo, hi, lo', hi');
    }
  }

  lemma AdmitKeepsBound(l: Limit, accepted: seq<Call>, c: Call)
    requires Bounded(l, accepted) && Admits(l, accepted, c)
    requires NoLaterThan(accepted, c.now)
    ensures Bounded(l, accepted + [c])
  {
    var all := accepted + [c];
    assert all[..|accepted|] == accepted;
    forall key, x ensures InWindow(l, all, key, x) <= if l.max > 0 then l.max else 0 {
      assert InWindow(l, accepted, key, x) <= if l.max > 0 then l.max else 0;
      if key == c.key && x <= c.now <= x + l.window {
        RecentWidens(accepted, key, x, x + l.window, c.now - l.window, c.now);
      }
    }
  }

  lemma {:induction false} ReferenceKeepsBound(l: Limit, accepted: seq<Call>, calls: seq<Call>)
    requires Bounded(l, accepted) && Chronological(calls)
    requires calls != [] ==> NoLaterThan(accepted, calls[0].now)
    ensures Bounded(l, Reference(l, accepted, calls).0)
    decreases |calls|
  {
    if calls != [] {
      var ok := Admits(l, accepted, calls[0]);
      if ok {
        AdmitKeepsBound(l, accepted, calls[0]);
      }
      ReferenceKeepsBound(l, if ok then accepted + [calls[0]] else accepted, calls[1..]);
    }
  }

  /** The calls that were let through. */
  function LetThrough(calls: seq<Call>, answers: seq<bool>): seq<Call>
    requires |calls| == |answers|
  {
    if calls == [] then [] else (if answers[0] then [calls[0]] else []) + LetThrough(calls[1..], answers[1..])
  }

  lemma {:induction false} ReferenceAccepts(l: Limit, accepted: seq<Call>, calls: seq<Call>)
    ensures |Reference(l, accepted, calls).1| == |calls|
    ensures Reference(l, accepted, calls).0 == accepted + LetThrough(calls, Reference(l, accepted, calls).1)
    decreases |calls|
  {
    if calls != [] {
      var ok := Admits(l, accepted, calls[0]);
      var rest := if ok then accepted + [calls[0]] else accepted;
      ReferenceAccepts(l, rest, calls[1..]);
      var later := Reference(l, rest, calls[1..]).1;
      assert ([ok] + later)[1..] == later;
      var more := LetThrough(calls[1..], later);
      assert rest + more == accepted + ((if ok then [calls[0]] else []) + more);
    }
  }

  /** In every run, every closed interval of window length holds at most `max` accepted calls
      of a key (none at all when `max` is not positive). */
  lemma WindowNeverExceeded(l: Limit, calls: seq<Call>, key: string, x: real)
    requires Chronological(calls)
    ensures |Run(l, EMPTY, calls).1| == |calls|
    ensures InWindow(l, LetThrough(calls, Run(l, EMPTY, calls).1), key, x) <= if l.max > 0 then l.max else 0
  {
    LimiterRefinesReference(l, calls);
    ReferenceAccepts(l, [], calls);
    assert [] + LetThrough(calls, Reference(l, [], calls).1) == LetThrough(calls, Reference(l, [], calls).1);
    ReferenceKeepsBound(l, [], calls);
  }

  // ---- A rejected call leaves no trace in the answers ----

  lemma {:induction false} ReferenceConcat(l: Limit, accepted: seq<Call>, a: seq<Call>, b: seq<Call>)
    ensures Reference(l, accepted, a + b).1 ==
              Reference(l, accepted, a).1 + Reference(l, Reference(l, accepted, a).0, b).1
    decreases |a|
  {
    if a == [] {
      assert a + b == b;
    } else {
      assert (a + b)[0] == a[0] && (a + b)[1..] == a[1..] + b;
      ReferenceConcat(l, Next(l, accepted, a[0]), a[1..], b);
    }
  }

  /** If `c` is rejected after `first`, the calls after it get the answers they would have had
      if it had never been made. */
  lemma RejectionLeavesNoTrace(l: Limit, first: seq<Call>, c: Call, rest: seq<Call>) returns (answers: seq<bool>)
    requires Chronological(first + ([c] + rest))
    requires Run(l, EMPTY, first + [c]).1 == Run(l, EMPTY, first).1 + [false]
    ensures Run(l, EMPTY, first + ([c] + rest)).1 == Run(l, EMPTY, first).1 + ([false] + answers)
    ensures Run(l, EMPTY, first + rest).1 == Run(l, EMPTY, first).1 + answers
  {
    PartsAreChronological(first, c, rest);
    LimiterRefinesReference(l, first);
    LimiterRefinesReference(l, first + [c]);
    LimiterRefinesReference(l, first + ([c] + rest));
    LimiterRefinesReference(l, first + rest);
    var accepted, before := Reference(l, [], first).0, Reference(l, [], first).1;
    answers := Reference(l, accepted, rest).1;
    ReferenceConcat(l, [], first, [c]);
    ReferenceConcat(l, [], first, [c] + rest);
    ReferenceConcat(l, [], first, rest);
    assert (before + Reference(l, accepted, [c]).1)[|before|..] == (before + [false])[|before|..];
    assert [c][1..] == [] && ([c] + rest)[1..] == rest;
    assert Reference(l, accepted, [c]).1 == [Admits(l, accepted, c)];
    assert !Admits(l, accepted, c);
  }

  lemma PartsAreChronological(first: seq<Call>, c: Call, rest: seq<Call>)
    requires Chronological(first + ([c] + rest))
    ensures Chronological(first) && Chronological(first + [c]) && Chronological(first + rest)
  {
    var all := first + ([c] + rest);
    assert forall i :: 0 <= i < |first| ==> all[i] == first[i];
    assert all[|first|] == c;
    forall i | 0 <= i < |rest| ensures all[|first| + 1 + i] == rest[i] {}
    forall i, j | 0 <= i < j < |first + rest| ensures (first + rest)[i].now <= (first + rest)[j].now {
      var i', j' := if i < |first| then i else i + 1, if j < |first| then j else j + 1;
      assert all[i'] == (first + rest)[i] && all[j'] == (first + rest)[j];
    }
  }

  // ---- How large the dictionary gets ----

  /** The keys with an accepted call in the closed interval [lo, hi]. */
  function Active(accepted: seq<Call>, lo: real, hi: real): set<string> {
    set c | c in accepted && lo <= c.now <= hi :: c.key
  }

  /** The keys active when the last sweep happened: every 1000th accepted call sweeps. */
  function ActiveAtSweep(l: Limit, accepted: seq<Call>): set<string> {
    var k := |accepted| - |accepted| % 1000;
    if k == 0 then {} else Active(accepted[..k], accepted[k - 1].now - l.window, accepted[k - 1].now)
  }

  lemma {:induction false} RecentIsActive(accepted: seq<Call>, key: string, lo: real, hi: real)
    ensures Recent(accepted, key, lo, hi) > 0 <==> key in Active(accepted, lo, hi)
  {
    if accepted != [] {
      var n := |accepted| - 1;
      RecentIsActive(accepted[..n], key, lo, hi);
      assert accepted == accepted[..n] + [accepted[n]];
    }
  }

  lemma CheckAddsKey(l: Limit, s: Store, c: Call)
    ensures Checked(l, s, c).0.stamps.Keys <= s.stamps.Keys + {c.key}
    ensures l.max >= 1 && !Checked(l, s, c).1 ==> Checked(l, s, c).0.stamps.Keys == s.stamps.Keys
  {}

  lemma KeyCount(a: set<string>, b: set<string>, key: string)
    requires a <= b + {key}
    ensures |a| <= |b| + 1
    ensures a <= b ==> |a| <= |b|
  {
    SubsetSize(a, b + {key});
    if a <= b { SubsetSize(a, b); }
  }

  lemma SweepLeavesKey(l: Limit, s: Store, accepted: seq<Call>, before: real, c: Call, key: string)
    requires Remembers(l, s, accepted, before) && before <= c.now
    requires Admits(l, accepted, c) && s.sinceSweep + 1 >= SWEEP_EVERY_N_CALLS
    ensures key in Checked(l, s, c).0.stamps <==> key in Active(accepted + [c], c.now - l.window, c.now)
  {
    var cutoff := c.now - l.window;
    var all, kept := Times(accepted + [c], key), Stored(Checked(l, s, c).0, key);
    assert Suffix(all, kept, cutoff) by { CheckKeepsKey(l, s, accepted, before, c, key); }
    assert Recent(accepted + [c], key, cutoff, c.now) == |DropOld(all, cutoff)| by {
      RecentIsDropOld(accepted + [c], key, cutoff, c.now);
    }
    assert DropOld(all, cutoff) == DropOld(kept, cutoff) by { SuffixDrop(all, kept, cutoff, cutoff); }
    assert Checked(l, s, c).1 by { PruneCounts(l, s, accepted, before, c); }
    SweptKeySurvives(l, s, c, key);
    RecentIsActive(accepted + [c], key, cutoff, c.now);
  }

  lemma SweptKeySurvives(l: Limit, s: Store, c: Call, key: string)
    requires Checked(l, s, c).1 && s.sinceSweep + 1 >= SWEEP_EVERY_N_CALLS
    ensures key in Checked(l, s, c).0.stamps <==> DropOld(Stored(Checked(l, s, c).0, key), c.now - l.window) != []
  {
    var after := Checked(l, s, c).0.stamps;
    if key in after {
      assert !Stale(after[key], c.now - l.window);
      LastSurvives(after[key], c.now - l.window);
    }
  }

  lemma {:induction false} LastSurvives(ts: seq<real>, cutoff: real)
    requires ts != [] && ts[|ts| - 1] >= cutoff
    ensures DropOld(ts, cutoff) != []
  {
    if ts[0] < cutoff {
      LastSurvives(ts[1..], cutoff);
    }
  }

  /** How the store's size and counter follow from the accepted calls. */
  predicate Sized(l: Limit, s: Store, accepted: seq<Call>) {
    && s.sinceSweep == |accepted| % SWEEP_EVERY_N_CALLS
    && |s.stamps| <= |ActiveAtSweep(l, accepted)| + s.sinceSweep
  }

  lemma NextCount(n: nat)
    ensures (n + 1) % SWEEP_EVERY_N_CALLS ==
              if n % SWEEP_EVERY_N_CALLS + 1 >= SWEEP_EVERY_N_CALLS then 0 else n % SWEEP_EVERY_N_CALLS + 1
  {}

  /** One more accepted call is the last sweep, or leaves it where it was. */
  lemma NextSweep(l: Limit, accepted: seq<Call>, c: Call)
    ensures ActiveAtSweep(l, accepted + [c]) ==
              if |accepted| % SWEEP_EVERY_N_CALLS + 1 >= SWEEP_EVERY_N_CALLS
              then Active(accepted + [c], c.now - l.window, c.now) else ActiveAtSweep(l, accepted)
  {
    var all := accepted + [c];
    NextCount(|accepted|);
    if |accepted| % SWEEP_EVERY_N_CALLS + 1 >= SWEEP_EVERY_N_CALLS {
      assert all[..|all|] == all;
    } else {
      var k := |accepted| - |accepted| % 1000;
      assert all[..k] == accepted[..k];
    }
  }

  /** The sweep leaves exactly the keys with an accepted call inside the window. */
  lemma SweepLeavesActiveKeys(l: Limit, s: Store, accepted: seq<Call>, before: real, c: Call)
    requires Remembers(l, s, accepted, before) && before <= c.now
    requires Admits(l, accepted, c) && s.sinceSweep + 1 >= SWEEP_EVERY_N_CALLS
    ensures Checked(l, s, c).0.stamps.Keys == Active(accepted + [c], c.now - l.window, c.now)
  {
    forall key ensures key in Checked(l, s, c).0.stamps <==> key in Active(accepted + [c], c.now - l.window, c.now) {
      SweepLeavesKey(l, s, accepted, before, c, key);
    }
  }

  lemma AdmitCounts(l: Limit, s: Store, c: Call)
    requires Checked(l, s, c).1
    ensures Checked(l, s, c).0.sinceSweep == if s.sinceSweep + 1 >= SWEEP_EVERY_N_CALLS then 0 else s.sinceSweep + 1
    ensures |Checked(l, s, c).0.stamps| <= |s.stamps| + 1
  {
    CheckAddsKey(l, s, c);
    var s' := Checked(l, s, c).0;
    KeyCount(s'.stamps.Keys, s.stamps.Keys, c.key);
    assert |s'.stamps| == |s'.stamps.Keys| && |s.stamps| == |s.stamps.Keys|;
  }

  /** An accepted call sweeps, or adds at most its own key. */
  lemma AdmitKeepsSized(l: Limit, s: Store, accepted: seq<Call>, before: real, c: Call)
    requires Remembers(l, s, accepted, before) && before <= c.now && Sized(l, s, accepted) && Admits(l, accepted, c)
    ensures Sized(l, Checked(l, s, c).0, accepted + [c])
  {
    var s' := Checked(l, s, c).0;
    assert Checked(l, s, c).1 by { PruneCounts(l, s, accepted, before, c); }
    AdmitCounts(l, s, c);
    NextCount(|accepted|);
    NextSweep(l, accepted, c);
    if s.sinceSweep + 1 >= SWEEP_EVERY_N_CALLS {
      SweepLeavesActiveKeys(l, s, accepted, before, c);
      assert |s'.stamps| == |s'.stamps.Keys|;
    }
  }

  lemma RejectKeepsSized(l: Limit, s: Store, accepted: seq<Call>, c: Call)
    requires Sized(l, s, accepted) && l.max >= 1 && !Checked(l, s, c).1
    ensures Sized(l, Checked(l, s, c).0, accepted)
  {
    CheckAddsKey(l, s, c);
    assert |Checked(l, s, c).0.stamps| == |Checked(l, s, c).0.stamps.Keys| && |s.stamps| == |s.stamps.Keys|;
  }

  lemma CheckKeepsSized(l: Limit, s: Store, accepted: seq<Call>, before: real, c: Call)
    requires Remembers(l, s, accepted, before) && before <= c.now && Sized(l, s, accepted) && l.max >= 1
    ensures Sized(l, Checked(l, s, c).0, Next(l, accepted, c))
  {
    if Admits(l, accepted, c) {
      AdmitKeepsSized(l, s, accepted, before, c);
    } else {
      PruneCounts(l, s, accepted, before, c);
      RejectKeepsSized(l, s, accepted, c);
    }
  }

  lemma {:induction false} RunKeepsSized(l: Limit, s: Store, accepted: seq<Call>, before: real, calls: seq<Call>)
    requires Remembers(l, s, accepted, before) && Chronological(calls) && Sized(l, s, accepted) && l.max >= 1
    requires calls != [] ==> before <= calls[0].now
    ensures Sized(l, Run(l, s, calls).0, Reference(l, accepted, calls).0)
    decreases |calls|
  {
    if calls != [] {
      var c, s' := calls[0], Checked(l, s, calls[0]).0;
      var accepted' := Next(l, accepted, c);
      assert Checked(l, s, c).1 == Admits(l, accepted, c) && Remembers(l, s', accepted', c.now) by {
        CheckAgrees(l, s, accepted, before, c);
      }
      assert Sized(l, s', accepted') by { CheckKeepsSized(l, s, accepted, before, c); }
      RunKeepsSized(l, s', accepted', c.now, calls[1..]);
    }
  }

  /** In every run with a positive limit, the stored keys are at most the keys active at the last
      sweep plus the calls accepted since, which are fewer than 1000. */
  lemma StoredKeysBounded(l: Limit, calls: seq<Call>)
    requires Chronological(calls) && l.max >= 1
    ensures |Run(l, EMPTY, calls).1| == |calls|
    ensures var accepted := LetThrough(calls, Run(l, EMPTY, calls).1);
            |Run(l, EMPTY, calls).0.stamps| <= |ActiveAtSweep(l, accepted)| + |accepted| % 1000
  {
    LimiterRefinesReference(l, calls);
    ReferenceAccepts(l, [], calls);
    assert [] + LetThrough(calls, Reference(l, [], calls).1) == LetThrough(calls, Reference(l, [], calls).1);
    if calls != [] {
      assert forall key :: Times([], key) == [];
      RunKeepsSized(l, EMPTY, [], calls[0].now, calls);
    }
  }

  function CalledKeys(calls: seq<Call>): set<string> {
    if calls == [] then {} else {calls[0].key} + CalledKeys(calls[1..])
  }

  lemma NonPositiveRejects(l: Limit, s: Store, c: Call)
    requires l.max <= 0
    ensures !Checked(l, s, c).1 && Checked(l, s, c).0.stamps.Keys == s.stamps.Keys + {c.key}
  {}

  /** The bound needs a positive limit: with `max <= 0` no call is accepted and nothing is ever
      swept, yet every key that was ever called is stored. */
  lemma {:induction false} NonPositiveLimitKeepsEveryKey(l: Limit, s: Store, calls: seq<Call>)
    requires l.max <= 0
    ensures true !in Run(l, s, calls).1
    ensures Run(l, s, calls).0.stamps.Keys == s.stamps.Keys + CalledKeys(calls)
    decreases |calls|
  {
    if calls != [] {
      NonPositiveRejects(l, s, calls[0]);
      NonPositiveLimitKeepsEveryKey(l, Checked(l, s, calls[0]).0, calls[1..]);
    }
  }
}
