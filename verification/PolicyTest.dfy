/** The "test a domain" tool: one scan over a group's overrides, category toggles and feeds that
    must agree with the precedence the filter applies. */
module PolicyTest {
  import opened Basics
  import opened Names

  datatype Override = Override(kind: string, domain: string)

  datatype Toggle = Toggle(category: string, action: string)

  /** A feed with its stored domain list; `ingested` says that a domain count was ever recorded.
      Ids stand for their place in the database's order. */
  datatype Feed = Feed(id: int, category: string, enabled: bool, ingested: bool, domains: set<string>)

  datatype Policy = Policy(overrides: seq<Override>, toggles: seq<Toggle>, feeds: seq<Feed>)

  datatype Decision = Allow | Block

  /** The `matched` field: which tier of the precedence decided. */
  datatype Tier = OverrideAllow | OverrideDeny | Category | CategoryLogOnly | Default

  datatype Result = Result(domain: string, decision: Decision, matched: Tier, category: Option<string>, feed: Option<int>)

  const BLOCK := "ACTION_BLOCK"
  const LOG_ONLY := "ACTION_LOG_ONLY"

  function NormalizeDomain(domain: string): string {
    var d := Owner(domain);
    if "www." <= d then d[4..] else d
  }

  lemma Www(d: string)
    requires LabelSequence(d)
    ensures LabelSequence("www." + d) && "www." <= "www." + d && ("www." + d)[4..] == d
  {
    assert LabelSequence("www");
    PartLabels("www", d);
    assert "www" + "." + d == "www." + d;
  }

  lemma Normalized(d: string)
    requires LabelSequence(d)
    ensures NormalizeDomain(d) == if "www." <= d then d[4..] else d
  {
    assert Owner(d) == d by { NormalForm(d); }
  }

  lemma NormalizedDot(d: string)
    requires LabelSequence(d)
    ensures NormalizeDomain(d + ".") == NormalizeDomain(d)
  {
    assert Owner(d + ".") == d by { FinalDot(d); }
    assert Owner(d) == d by { NormalForm(d); }
  }

  /** A domain, with a final dot and with a leading "www.", is one domain to the policy. */
  lemma SpellingsOfOneDomain(d: string)
    requires LabelSequence(d) && !("www." <= d)
    ensures NormalizeDomain(d) == d && NormalizeDomain(d + ".") == d && NormalizeDomain("www." + d) == d
  {
    Normalized(d);
    NormalizedDot(d);
    Www(d);
    Normalized("www." + d);
  }

  // ---- The precedence, declaratively ----

  predicate Overrides(o: Override, kind: string, domain: string) {
    o.kind == kind && NormalizeDomain(o.domain) == domain
  }

  predicate HasOverride(p: Policy, kind: string, domain: string) {
    exists o :: o in p.overrides && Overrides(o, kind, domain)
  }

  /** The feed is part of the category and lists the domain. */
  predicate Lists(f: Feed, category: string, domain: string) {
    f.category == category && f.enabled && f.ingested && domain in f.domains
  }

  /** The category's domains are the union of its enabled, ingested feeds. */
  predicate InCategory(p: Policy, category: string, domain: string) {
    exists f :: f in p.feeds && Lists(f, category, domain)
  }

  predicate Hits(p: Policy, t: Toggle, action: string, domain: string) {
    t.action == action && InCategory(p, t.category, domain)
  }

  predicate HasCategory(p: Policy, action: string, domain: string) {
    exists t :: t in p.toggles && Hits(p, t, action, domain)
  }

  /** The decision and the tier that gave it. */
  function Decide(p: Policy, domain: string): (Decision, Tier) {
    if HasOverride(p, "allow", domain) then (Allow, OverrideAllow)
    else if HasOverride(p, "deny", domain) then (Block, OverrideDeny)
    else if HasCategory(p, BLOCK, domain) then (Block, Category)
    else if HasCategory(p, LOG_ONLY, domain) then (Allow, CategoryLogOnly)
    else (Allow, Default)
  }

  /** An override of this kind names the domain, in whatever spelling. */
  predicate Named(p: Policy, kind: string, domain: string) {
    exists i :: 0 <= i < |p.overrides| && p.overrides[i].kind == kind && NormalizeDomain(p.overrides[i].domain) == domain
  }

  /** A toggle with this action is of a category of which an enabled feed that was ingested lists the domain. */
  predicate Listed(p: Policy, action: string, domain: string) {
    exists i, j :: 0 <= i < |p.toggles| && 0 <= j < |p.feeds|
      && p.toggles[i].action == action && p.feeds[j].category == p.toggles[i].category
      && p.feeds[j].enabled && p.feeds[j].ingested && domain in p.feeds[j].domains
  }

  lemma ListedIff(p: Policy, action: string, domain: string)
    ensures Listed(p, action, domain) <==> HasCategory(p, action, domain)
  {
    if HasCategory(p, action, domain) {
      var t :| t in p.toggles && Hits(p, t, action, domain);
      var f :| f in p.feeds && Lists(f, t.category, domain);
      var i :| 0 <= i < |p.toggles| && p.toggles[i] == t;
      var j :| 0 <= j < |p.feeds| && p.feeds[j] == f;
    }
    if i, j :| 0 <= i < |p.toggles| && 0 <= j < |p.feeds|
               && p.toggles[i].action == action && p.feeds[j].category == p.toggles[i].category
               && p.feeds[j].enabled && p.feeds[j].ingested && domain in p.feeds[j].domains {
      var t, f := p.toggles[i], p.feeds[j];
      assert f in p.feeds && Lists(f, t.category, domain);
      assert t in p.toggles && Hits(p, t, action, domain);
    }
  }

  lemma NamedIff(p: Policy, kind: string, domain: string)
    ensures Named(p, kind, domain) <==> HasOverride(p, kind, domain)
  {
    if i :| 0 <= i < |p.overrides| && p.overrides[i].kind == kind && NormalizeDomain(p.overrides[i].domain) == domain {
      assert p.overrides[i] in p.overrides && Overrides(p.overrides[i], kind, domain);
    }
  }

  /** A domain is blocked if and only if no allow override names it and a deny override or a blocked
      category does; the tier reported is the first of the five that applies. */
  lemma BlockedIff(p: Policy, domain: string)
    ensures Decide(p, domain).0.Block? <==>
            !Named(p, "allow", domain) && (Named(p, "deny", domain) || Listed(p, "ACTION_BLOCK", domain))
    ensures var tier := Decide(p, domain).1;
            && (tier.OverrideAllow? <==> Named(p, "allow", domain))
            && (tier.OverrideDeny? <==> Named(p, "deny", domain) && !Named(p, "allow", domain))
            && (tier.Category? || tier.CategoryLogOnly? ==> !Named(p, "allow", domain) && !Named(p, "deny", domain))
            && (tier.CategoryLogOnly? ==> !Listed(p, "ACTION_BLOCK", domain) && Listed(p, "ACTION_LOG_ONLY", domain))
            && (tier.Default? ==> !Listed(p, "ACTION_BLOCK", domain) && !Listed(p, "ACTION_LOG_ONLY", domain))
            && (tier.Category? ==> Listed(p, "ACTION_BLOCK", domain))
  {
    NamedIff(p, "allow", domain);
    NamedIff(p, "deny", domain);
    ListedIff(p, "ACTION_BLOCK", domain);
    ListedIff(p, "ACTION_LOG_ONLY", domain);
  }

  /** The toggle at `i` is the first one to hit with this action. */
  predicate FirstHit(p: Policy, i: nat, action: string, domain: string) {
    && i < |p.toggles| && Hits(p, p.toggles[i], action, domain)
    && forall j :: 0 <= j < i ==> !Hits(p, p.toggles[j], action, domain)
  }

  predicate LeastFeed(p: Policy, category: string, domain: string, id: int) {
    && (exists f :: f in p.feeds && Lists(f, category, domain) && f.id == id)
    && forall f :: f in p.feeds && Lists(f, category, domain) ==> id <= f.id
  }

  /** A category result names the first toggle that hit and the least feed that listed the domain. */
  ghost predicate Explains(p: Policy, r: Result, action: string, domain: string) {
    && r.category.Some? && r.feed.Some?
    && (exists i: nat :: FirstHit(p, i, action, domain) && r.category.value == p.toggles[i].category)
    && LeastFeed(p, r.category.value, domain, r.feed.value)
  }

  // ---- The scan ----

  predicate ById(feeds: seq<Feed>) {
    forall i, j :: 0 <= i < j < |feeds| ==> feeds[i].id <= feeds[j].id
  }

  function Place(f: Feed, feeds: seq<Feed>): (placed: seq<Feed>)
    requires ById(feeds)
    ensures ById(placed) && forall g :: g in placed <==> g == f || g in feeds
  {
    if feeds == [] || f.id <= feeds[0].id then [f] + feeds
    else
      var rest := Place(f, feeds[1..]);
      assert forall g :: g in rest ==> feeds[0].id <= g.id;
      [feeds[0]] + rest
  }

  /** The enabled, ingested feeds of a category, ordered by id. */
  function FeedsOf(feeds: seq<Feed>, category: string): (found: seq<Feed>)
    ensures ById(found)
    ensures forall f :: f in found <==> f in feeds && f.category == category && f.enabled && f.ingested
  {
    if feeds == [] then []
    else
      var rest := FeedsOf(feeds[1..], category);
      if feeds[0].category == category && feeds[0].enabled && feeds[0].ingested then Place(feeds[0], rest) else rest
  }

  /** The first feed that lists the domain, the length of the list if there is none. */
  method FirstListing(feeds: seq<Feed>, domain: string) returns (k: nat)
    ensures k <= |feeds| && (k < |feeds| ==> domain in feeds[k].domains)
    ensures forall j :: 0 <= j < k ==> domain !in feeds[j].domains
  {
    for i := 0 to |feeds|
      invariant forall j :: 0 <= j < i ==> domain !in feeds[j].domains
    {
      if domain in feeds[i].domains { return i; }
    }
    return |feeds|;
  }

  /** In the list ordered by id, the first feed that lists the domain is the least. */
  lemma FirstIsLeast(p: Policy, category: string, domain: string, feeds: seq<Feed>, k: nat)
    requires ById(feeds) && forall f :: f in feeds <==> f in p.feeds && f.category == category && f.enabled && f.ingested
    requires k <= |feeds| && (k < |feeds| ==> domain in feeds[k].domains)
    requires forall j :: 0 <= j < k ==> domain !in feeds[j].domains
    ensures k < |feeds| <==> InCategory(p, category, domain)
    ensures k < |feeds| ==> LeastFeed(p, category, domain, feeds[k].id)
  {
    if k < |feeds| {
      assert feeds[k] in feeds;
      assert Lists(feeds[k], category, domain);
    }
    assert forall f :: f in p.feeds && Lists(f, category, domain) ==> f in feeds;
  }

  /** The first feed of the category, by id, that lists the domain. */
  method MatchFeed(p: Policy, category: string, domain: string) returns (id: Option<int>)
    ensures id.None? <==> !InCategory(p, category, domain)
    ensures id.Some? ==> LeastFeed(p, category, domain, id.value)
  {
    var feeds := FeedsOf(p.feeds, category);
    var k := FirstListing(feeds, domain);
    FirstIsLeast(p, category, domain, feeds, k);
    return if k < |feeds| then Some(feeds[k].id) else None;
  }

  method FindOverride(p: Policy, kind: string, domain: string) returns (found: bool)
    ensures found <==> HasOverride(p, kind, domain)
  {
    for i := 0 to |p.overrides|
      invariant forall j :: 0 <= j < i ==> !Overrides(p.overrides[j], kind, domain)
    {
      if Overrides(p.overrides[i], kind, domain) { return true; }
    }
    return false;
  }

  method TestCategories(p: Policy, domain: string) returns (r: Result)
    ensures r.domain == domain
    ensures (r.decision, r.matched) ==
              if HasCategory(p, BLOCK, domain) then (Block, Category)
              else if HasCategory(p, LOG_ONLY, domain) then (Allow, CategoryLogOnly)
              else (Allow, Default)
    ensures r.matched.Category? ==> Explains(p, r, BLOCK, domain)
    ensures r.matched.CategoryLogOnly? ==> Explains(p, r, LOG_ONLY, domain)
    ensures r.matched.Default? ==> r.category == None && r.feed == None
  {
    var logOnly: Option<Result> := None;
    for i := 0 to |p.toggles|
      invariant forall j :: 0 <= j < i ==> !Hits(p, p.toggles[j], BLOCK, domain)
      invariant logOnly.None? ==> forall j :: 0 <= j < i ==> !Hits(p, p.toggles[j], LOG_ONLY, domain)
      invariant logOnly.Some? ==>
                  && HasCategory(p, LOG_ONLY, domain) && Explains(p, logOnly.value, LOG_ONLY, domain)
                  && logOnly.value == Result(domain, Allow, CategoryLogOnly, logOnly.value.category, logOnly.value.feed)
    {
      var t := p.toggles[i];
      if t.action != BLOCK && t.action != LOG_ONLY { continue; }
      var id := MatchFeed(p, t.category, domain);
      if id.Some? {
        assert InCategory(p, t.category, domain) && t in p.toggles;
        if t.action == BLOCK {
          assert FirstHit(p, i, BLOCK, domain);
          return Result(domain, Block, Category, Some(t.category), id);
        }
        if logOnly.None? {
          assert FirstHit(p, i, LOG_ONLY, domain);
          logOnly := Some(Result(domain, Allow, CategoryLogOnly, Some(t.category), id));
        }
      }
    }
    if logOnly.Some? {
      return logOnly.value;
    }
    return Result(domain, Allow, Default, None, None);
  }

  method TestDomain(p: Policy, domain: string) returns (r: Result)
    ensures r.domain == domain && (r.decision, r.matched) == Decide(p, domain)
    ensures r.matched.Category? ==> Explains(p, r, BLOCK, domain)
    ensures r.matched.CategoryLogOnly? ==> Explains(p, r, LOG_ONLY, domain)
    ensures !r.matched.Category? && !r.matched.CategoryLogOnly? ==> r.category == None && r.feed == None
  {
    var found := FindOverride(p, "allow", domain);
    if found {
      return Result(domain, Allow, OverrideAllow, None, None);
    }
    found := FindOverride(p, "deny", domain);
    if found {
      return Result(domain, Block, OverrideDeny, None, None);
    }
    r := TestCategories(p, domain);
  }

  // ---- Order does not matter ----

  /** The same rows in some order. */
  ghost predicate Permuted(p: Policy, q: Policy) {
    && multiset(p.overrides) == multiset(q.overrides)
    && multiset(p.toggles) == multiset(q.toggles)
    && multiset(p.feeds) == multiset(q.feeds)
  }

  lemma SameMembers<T>(a: seq<T>, b: seq<T>)
    requires multiset(a) == multiset(b)
    ensures forall x :: x in a <==> x in b
  {
    forall x ensures x in a <==> x in b {
      assert x in a <==> x in multiset(a);
    }
  }

  /** Decision and tier do not depend on the order of overrides, toggles or feeds. */
  lemma OrderDoesNotMatter(p: Policy, q: Policy, domain: string)
    requires Permuted(p, q)
    ensures Decide(p, domain) == Decide(q, domain)
  {
    SameMembers(p.overrides, q.overrides);
    SameMembers(p.toggles, q.toggles);
    SameMembers(p.feeds, q.feeds);
    forall category: string ensures InCategory(p, category, domain) <==> InCategory(q, category, domain) {}
    forall action: string ensures HasCategory(p, action, domain) <==> HasCategory(q, action, domain) {
      assert forall t :: Hits(p, t, action, domain) <==> Hits(q, t, action, domain);
    }
    forall kind: string ensures HasOverride(p, kind, domain) <==> HasOverride(q, kind, domain) {}
  }

  // ---- When the named category does ----

  /** All toggles that hit with this action are of one category. */
  predicate OneCategory(p: Policy, action: string, domain: string) {
    forall t, u :: t in p.toggles && u in p.toggles && Hits(p, t, action, domain) && Hits(p, u, action, domain) ==>
      t.category == u.category
  }

  /** Every order of the rows names the same category. */
  ghost predicate SameInEveryOrder(p: Policy, action: string, domain: string) {
    forall q, i: nat, j: nat ::
      Permuted(p, q) && FirstHit(p, i, action, domain) && FirstHit(q, j, action, domain) ==>
        p.toggles[i].category == q.toggles[j].category
  }

  /** The policy with the toggle at `k` moved to the front. */
  function ToFront(p: Policy, k: nat): Policy
    requires k < |p.toggles|
  {
    p.(toggles := [p.toggles[k]] + (p.toggles[..k] + p.toggles[k + 1..]))
  }

  lemma ToFrontPermutes(p: Policy, k: nat)
    requires k < |p.toggles|
    ensures Permuted(p, ToFront(p, k))
  {
    assert p.toggles == p.toggles[..k] + ([p.toggles[k]] + p.toggles[k + 1..]);
  }

  lemma HitsAlike(p: Policy, q: Policy, t: Toggle, action: string, domain: string)
    requires Permuted(p, q)
    ensures Hits(p, t, action, domain) <==> Hits(q, t, action, domain)
  {
    SameMembers(p.feeds, q.feeds);
  }

  lemma SomeFirstHit(p: Policy, k: nat, action: string, domain: string) returns (i: nat)
    requires k < |p.toggles| && Hits(p, p.toggles[k], action, domain)
    ensures FirstHit(p, i, action, domain)
  {
    i := 0;
    while !Hits(p, p.toggles[i], action, domain)
      invariant i <= k && forall j :: 0 <= j < i ==> !Hits(p, p.toggles[j], action, domain)
      decreases k - i
    {
      i := i + 1;
    }
  }

  lemma FrontIsFirst(p: Policy, k: nat, action: string, domain: string)
    requires k < |p.toggles| && Hits(p, p.toggles[k], action, domain)
    ensures FirstHit(ToFront(p, k), 0, action, domain) && ToFront(p, k).toggles[0] == p.toggles[k]
  {
    ToFrontPermutes(p, k);
    HitsAlike(p, ToFront(p, k), p.toggles[k], action, domain);
  }

  /** The category named is the same in every order if and only if all toggles that hit with that
      action are of one category; otherwise moving a toggle to the front changes it. */
  lemma CategoryIndependentOfOrderIff(p: Policy, action: string, domain: string)
    ensures SameInEveryOrder(p, action, domain) <==> OneCategory(p, action, domain)
  {
    if OneCategory(p, action, domain) {
      forall q, i: nat, j: nat | Permuted(p, q) && FirstHit(p, i, action, domain) && FirstHit(q, j, action, domain)
        ensures p.toggles[i].category == q.toggles[j].category
      {
        SameMembers(p.toggles, q.toggles);
        HitsAlike(p, q, q.toggles[j], action, domain);
        assert p.toggles[i] in p.toggles && q.toggles[j] in q.toggles;
      }
    } else {
      var t, u :| t in p.toggles && u in p.toggles && Hits(p, t, action, domain) && Hits(p, u, action, domain)
                  && t.category != u.category;
      var k: nat :| k < |p.toggles| && p.toggles[k] == t;
      var l: nat :| l < |p.toggles| && p.toggles[l] == u;
      var i := SomeFirstHit(p, k, action, domain);
      var m := if p.toggles[i].category == t.category then l else k;
      ToFrontPermutes(p, m);
      FrontIsFirst(p, m, action, domain);
    }
  }

  /** A policy has one toggle per category. */
  predicate UniqueCategories(p: Policy) {
    forall i, j :: 0 <= i < j < |p.toggles| ==> p.toggles[i].category != p.toggles[j].category
  }

  predicate OneToggle(p: Policy, action: string, domain: string) {
    forall i, j :: 0 <= i < j < |p.toggles| ==>
      !(Hits(p, p.toggles[i], action, domain) && Hits(p, p.toggles[j], action, domain))
  }

  /** With one toggle per category, as the database demands, that is: at most one toggle hits. */
  lemma OneCategoryIsOneToggle(p: Policy, action: string, domain: string)
    requires UniqueCategories(p)
    ensures OneCategory(p, action, domain) <==> OneToggle(p, action, domain)
  {
    assert forall i :: 0 <= i < |p.toggles| ==> p.toggles[i] in p.toggles;
  }

  /** Such a policy exists: two categories that list the same domain. */
  lemma CategoryDependsOnOrder()
    ensures exists p, q, i: nat, j: nat ::
              && UniqueCategories(p) && Permuted(p, q)
              && FirstHit(p, i, BLOCK, "x.test") && FirstHit(q, j, BLOCK, "x.test")
              && p.toggles[i].category != q.toggles[j].category
  {
    var ads, scam := Toggle("ads", BLOCK), Toggle("scam", BLOCK);
    var feeds := [Feed(1, "ads", true, true, {"x.test"}), Feed(2, "scam", true, true, {"x.test"})];
    var p, q := Policy([], [ads, scam], feeds), Policy([], [scam, ads], feeds);
    assert feeds[0] in feeds && Lists(feeds[0], "ads", "x.test");
    assert feeds[1] in feeds && Lists(feeds[1], "scam", "x.test");
    assert Permuted(p, q) && FirstHit(p, 0, BLOCK, "x.test") && FirstHit(q, 0, BLOCK, "x.test");
  }
}
