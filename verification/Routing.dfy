/** Which group a client belongs to: the matching VPN subnet with the longest prefix. */
module Routing {
  import opened Basics

  datatype Family = V4 | V6

  datatype Address = Address(family: Family, value: nat)

  /** A parsed CIDR; with host bits allowed, `address` may lie anywhere in the network. */
  datatype Cidr = Cidr(family: Family, address: nat, prefixLen: nat)

  type Network = n: Cidr | n.prefixLen <= Bits(n.family) witness Cidr(V4, 0, 0)

  /** A group whose `vpn_subnet` is set; None if the text does not parse. */
  datatype Group = Group(id: string, subnet: Option<Network>)

  function Bits(f: Family): nat { if f.V4? then 32 else 128 }

  function Pow2(n: nat): (p: nat)
    ensures p > 0
  {
    if n == 0 then 1 else 2 * Pow2(n - 1)
  }

  /** How many addresses the network has. */
  function Size(n: Network): (size: nat)
    ensures size > 0
  {
    Pow2(Bits(n.family) - n.prefixLen)
  }

  /** The network address: the host bits cleared. */
  function Base(n: Network): int { n.address - n.address % Size(n) }

  /** The prefix bits of the client equal those of the network. */
  predicate Contains(n: Network, a: Address) {
    n.family == a.family && a.value / Size(n) == n.address / Size(n)
  }

  predicate Matches(g: Group, a: Address) { g.subnet.Some? && Contains(g.subnet.value, a) }

  /** The network as a range of addresses. */
  predicate InRange(n: Network, a: Address) {
    n.family == a.family && Base(n) <= a.value < Base(n) + Size(n)
  }

  /** A quotient is determined by its defining equation. */
  lemma Quotient(x: nat, q: nat, r: nat, d: nat)
    requires x == q * d + r && r < d
    ensures x / d == q
  {
    var q' := x / d;
    assert q' * d + x % d == x;
    assert q' < q ==> (q' + 1) * d <= q * d;
    assert q < q' ==> (q + 1) * d <= q' * d;
  }

  /** Containing an address is lying in the range from the network address to the broadcast address. */
  lemma ContainsIsRange(n: Network, a: Address)
    ensures Contains(n, a) <==> InRange(n, a)
  {
    SameBlock(a.value, n.address, Size(n));
  }

  lemma {:induction false} Pow2Add(m: nat, n: nat)
    ensures Pow2(m + n) == Pow2(m) * Pow2(n)
  {
    if m > 0 {
      Pow2Add(m - 1, n);
      assert Pow2(m + n) == 2 * Pow2(m - 1 + n) && Pow2(m) == 2 * Pow2(m - 1);
      DoubleTimes(Pow2(m - 1), Pow2(n));
    }
  }

  lemma DoubleTimes(a: nat, b: nat)
    ensures 2 * a * b == 2 * (a * b)
  {}

  lemma Pow2Squared(n: nat, p: nat)
    requires Pow2(n) == p
    ensures Pow2(2 * n) == p * p
  {
    Pow2Add(n, n);
  }

  lemma Pow2Words(n: nat)
    requires n == 8
    ensures Pow2(4 * n) == 0x1_0000_0000 && Pow2(16 * n) == 0x1_0000_0000_0000_0000_0000_0000_0000_0000
  {
    assert Pow2(8) == 0x100;
    Pow2Squared(n, 0x100);
    Pow2Squared(2 * n, 0x1_0000);
    Pow2Squared(4 * n, 0x1_0000_0000);
    Pow2Squared(8 * n, 0x1_0000_0000_0000_0000);
  }

  /** A network of prefix length 0 has 2^32 or 2^128 addresses, each further bit of prefix halves it,
      and one of prefix length 32 or 128 has its own address alone. */
  lemma PrefixSizes(n: Network)
    ensures n.prefixLen == 0 ==> Size(n) == if n.family.V4? then 0x1_0000_0000 else 0x1_0000_0000_0000_0000_0000_0000_0000_0000
    ensures n.prefixLen > 0 ==> Size(n.(prefixLen := n.prefixLen - 1)) == 2 * Size(n)
    ensures n.prefixLen == (if n.family.V4? then 32 else 128) ==>
              forall a: Address :: Contains(n, a) <==> a == Address(n.family, n.address)
  {
    Pow2Words(8);
  }

  lemma SameBlock(x: nat, y: nat, d: nat)
    requires d > 0
    ensures x / d == y / d <==> y - y % d <= x < y - y % d + d
  {
    var q := y / d;
    assert y - y % d == q * d;
    assert x == x / d * d + x % d;
    if q * d <= x < q * d + d {
      Quotient(x, q, x - q * d, d);
    }
  }

  lemma Halve(x: nat, d: nat)
    requires d > 0
    ensures x / (2 * d) == x / d / 2
  {
    var q, r := x / d, x % d;
    var h := q / 2;
    assert x == q * d + r;
    if q % 2 == 0 {
      assert q * d == h * (2 * d) by { assert q == 2 * h; }
      Quotient(x, h, r, 2 * d);
    } else {
      assert q * d == h * (2 * d) + d by { assert q == 2 * h + 1; }
      Quotient(x, h, r + d, 2 * d);
    }
  }

  /** Numbers that agree above their lowest `m` bits agree above any more. */
  lemma {:induction false} Coarser(x: nat, y: nat, m: nat, n: nat)
    requires m <= n && x / Pow2(m) == y / Pow2(m)
    ensures x / Pow2(n) == y / Pow2(n)
  {
    if m < n {
      Coarser(x, y, m, n - 1);
      Halve(x, Pow2(n - 1));
      Halve(y, Pow2(n - 1));
    }
  }

  /** Two networks that contain one address nest: the longer prefix lies inside the shorter one. */
  lemma Nested(outer: Network, inner: Network, a: Address, b: Address)
    requires outer.prefixLen <= inner.prefixLen && Contains(outer, a) && Contains(inner, a) && Contains(inner, b)
    ensures Contains(outer, b)
  {
    Coarser(a.value, b.value, Bits(inner.family) - inner.prefixLen, Bits(outer.family) - outer.prefixLen);
  }

  /** Of two networks that contain one address, one has all of its addresses in the other. */
  lemma OneContainsOther(m: Network, n: Network, a: Address)
    requires Contains(m, a) && Contains(n, a)
    ensures (forall b :: Contains(m, b) ==> Contains(n, b)) || (forall b :: Contains(n, b) ==> Contains(m, b))
  {
    if m.prefixLen <= n.prefixLen {
      forall b | Contains(n, b) ensures Contains(m, b) { Nested(m, n, a, b); }
    } else {
      forall b | Contains(m, b) ensures Contains(n, b) { Nested(n, m, a, b); }
    }
  }

  // ---- The choice ----

  /** The group at `i` is the one chosen: it matches, no match has a longer prefix, and every
      earlier match has a shorter one. */
  predicate Chosen(groups: seq<Group>, a: Address, i: nat) {
    && i < |groups| && Matches(groups[i], a)
    && (forall j :: 0 <= j < |groups| && Matches(groups[j], a) ==>
          groups[j].subnet.value.prefixLen <= groups[i].subnet.value.prefixLen)
    && (forall j :: 0 <= j < i && Matches(groups[j], a) ==>
          groups[j].subnet.value.prefixLen < groups[i].subnet.value.prefixLen)
  }

  /** The positions of the matching groups, in order; subnets that do not parse are skipped. */
  method MatchingGroups(groups: seq<Group>, a: Address) returns (matches: seq<nat>)
    ensures forall k :: 0 <= k < |matches| ==> matches[k] < |groups| && Matches(groups[matches[k]], a)
    ensures forall k, l :: 0 <= k < l < |matches| ==> matches[k] < matches[l]
    ensures forall j :: 0 <= j < |groups| && Matches(groups[j], a) ==> j in matches
  {
    matches := [];
    for i := 0 to |groups|
      invariant forall k :: 0 <= k < |matches| ==> matches[k] < i && Matches(groups[matches[k]], a)
      invariant forall k, l :: 0 <= k < l < |matches| ==> matches[k] < matches[l]
      invariant forall j :: 0 <= j < i && Matches(groups[j], a) ==> j in matches
    {
      if Matches(groups[i], a) {
        matches := matches + [i];
      }
    }
  }

  method Route(groups: seq<Group>, a: Address) returns (choice: Option<nat>)
    ensures choice.Some? ==> Chosen(groups, a, choice.value)
    ensures choice.None? ==> forall g :: g in groups ==> !Matches(g, a)
  {
    var matches := MatchingGroups(groups, a);
    if matches == [] {
      return None;
    }
    var best := 0;
    for k := 1 to |matches|
      invariant best < k
      invariant forall l :: 0 <= l < k ==>
                  groups[matches[l]].subnet.value.prefixLen <= groups[matches[best]].subnet.value.prefixLen
      invariant forall l :: 0 <= l < best ==>
                  groups[matches[l]].subnet.value.prefixLen < groups[matches[best]].subnet.value.prefixLen
    {
      if groups[matches[k]].subnet.value.prefixLen > groups[matches[best]].subnet.value.prefixLen {
        best := k;
      }
    }
    return Some(matches[best]);
  }

  /** The chosen network lies inside every other matching one. */
  lemma ChosenIsInnermost(groups: seq<Group>, a: Address, i: nat, j: nat, b: Address)
    requires Chosen(groups, a, i) && j < |groups| && Matches(groups[j], a) && Contains(groups[i].subnet.value, b)
    ensures Contains(groups[j].subnet.value, b)
  {
    Nested(groups[j].subnet.value, groups[i].subnet.value, a, b);
  }

  /** The chosen network does not depend on the order of the groups. */
  lemma NetworkIndependentOfOrder(groups: seq<Group>, others: seq<Group>, a: Address, i: nat, j: nat)
    requires multiset(groups) == multiset(others) && Chosen(groups, a, i) && Chosen(others, a, j)
    ensures var m, n := groups[i].subnet.value, others[j].subnet.value;
            m.family == n.family && m.prefixLen == n.prefixLen && Base(m) == Base(n)
  {
    assert groups[i] in multiset(others) && others[j] in multiset(groups);
    var m, n := groups[i].subnet.value, others[j].subnet.value;
    SameBase(m.address, n.address, Size(m));
  }

  lemma SameBase(x: nat, y: nat, d: nat)
    requires d > 0 && x / d == y / d
    ensures x - x % d == y - y % d
  {
    assert x - x % d == x / d * d && y - y % d == y / d * d;
  }

  // ---- When the group does not depend on the order ----

  /** A matching group with the longest prefix among the matching ones. */
  predicate IsLongest(groups: seq<Group>, a: Address, g: Group) {
    && g in groups && Matches(g, a)
    && forall h :: h in groups && Matches(h, a) ==> h.subnet.value.prefixLen <= g.subnet.value.prefixLen
  }

  predicate OneLongest(groups: seq<Group>, a: Address) {
    forall g, h :: g in groups && h in groups && IsLongest(groups, a, g) && IsLongest(groups, a, h) ==> g == h
  }

  ghost predicate SameGroupInEveryOrder(groups: seq<Group>, a: Address) {
    forall others, i: nat, j: nat ::
      multiset(groups) == multiset(others) && Chosen(groups, a, i) && Chosen(others, a, j) ==> groups[i] == others[j]
  }

  lemma ChosenIsLongest(groups: seq<Group>, a: Address, i: nat)
    requires Chosen(groups, a, i)
    ensures IsLongest(groups, a, groups[i])
  {}

  lemma SameLongest(groups: seq<Group>, others: seq<Group>, a: Address, g: Group)
    requires multiset(groups) == multiset(others) && IsLongest(groups, a, g)
    ensures IsLongest(others, a, g)
  {
    assert g in multiset(groups);
    forall h | h in others ensures h in groups { assert h in multiset(others); }
  }

  lemma ToFront(groups: seq<Group>, k: nat) returns (others: seq<Group>)
    requires k < |groups|
    ensures multiset(others) == multiset(groups) && others != [] && others[0] == groups[k]
  {
    others := [groups[k]] + (groups[..k] + groups[k + 1..]);
    assert groups == groups[..k] + ([groups[k]] + groups[k + 1..]);
  }

  lemma LongestFirst(groups: seq<Group>, a: Address)
    requires groups != [] && IsLongest(groups, a, groups[0])
    ensures Chosen(groups, a, 0)
  {
    assert forall j :: 0 <= j < |groups| ==> groups[j] in groups;
  }

  /** Moved to the front, a group with the longest prefix is the one chosen. */
  lemma FrontIsChosen(groups: seq<Group>, a: Address, g: Group) returns (others: seq<Group>)
    requires IsLongest(groups, a, g)
    ensures multiset(others) == multiset(groups) && Chosen(others, a, 0) && others[0] == g
  {
    var k :| 0 <= k < |groups| && groups[k] == g;
    others := ToFront(groups, k);
    SameLongest(groups, others, a, g);
    LongestFirst(others, a);
  }

  /** The group itself is the same in every order if and only if no two different matching groups share
      the longest prefix. */
  lemma GroupIndependentOfOrderIff(groups: seq<Group>, a: Address)
    ensures SameGroupInEveryOrder(groups, a) <==> OneLongest(groups, a)
  {
    if OneLongest(groups, a) {
      forall others, i: nat, j: nat | multiset(groups) == multiset(others) && Chosen(groups, a, i) && Chosen(others, a, j)
        ensures groups[i] == others[j]
      {
        ChosenIsLongest(groups, a, i);
        ChosenIsLongest(others, a, j);
        SameLongest(others, groups, a, others[j]);
      }
    } else {
      var g, h :| IsLongest(groups, a, g) && IsLongest(groups, a, h) && g != h;
      TwoLongestDiffer(groups, a, g, h);
    }
  }

  lemma TwoLongestDiffer(groups: seq<Group>, a: Address, g: Group, h: Group)
    requires IsLongest(groups, a, g) && IsLongest(groups, a, h) && g != h
    ensures !SameGroupInEveryOrder(groups, a)
  {
    var first := FirstLongest(groups, a, g);
    var other := if groups[first] == g then h else g;
    var others := FrontIsChosen(groups, a, other);
    assert Chosen(groups, a, first) && Chosen(others, a, 0) && groups[first] != others[0];
  }

  lemma FirstLongest(groups: seq<Group>, a: Address, g: Group) returns (i: nat)
    requires IsLongest(groups, a, g)
    ensures Chosen(groups, a, i)
  {
    i := 0;
    while !IsLongest(groups, a, groups[i])
      invariant i < |groups| && forall j :: 0 <= j < i ==> !IsLongest(groups, a, groups[j])
      decreases |groups| - i
    {
      i := i + 1;
      if i == |groups| {
        var k :| 0 <= k < |groups| && groups[k] == g;
        assert false;
      }
    }
    forall j | 0 <= j < i && Matches(groups[j], a)
      ensures groups[j].subnet.value.prefixLen < groups[i].subnet.value.prefixLen
    {
      assert groups[j] in groups && !IsLongest(groups, a, groups[j]);
    }
    assert forall j :: 0 <= j < |groups| ==> groups[j] in groups;
  }
}
