/** Ownership as filter nodes see it. The table keeps one owner per stored name, nodes serve flattened
    names: when two stored names are one served name, and when the register carries over. */
module ServedNames {
  import opened Basics
  import opened Names
  import opened Ddns
  import opened DdnsOwnership

  // ---- When two stored names are served alike ----

  lemma AbsoluteInjective(a: string, b: string, zone: string)
    ensures Absolute(a, zone) == Absolute(b, zone) <==> a == b
  {
    if a != "@" && b != "@" && Absolute(a, zone) == Absolute(b, zone) {
      assert a == Absolute(a, zone)[..|a|] && |a| == |b| && b == Absolute(b, zone)[..|b|];
    }
  }

  /** "@" only stands for the apex. */
  predicate AtIsApex(name: string) { name == "@" || '@' !in name }

  /** The second name is the first one with the zone appended. */
  predicate Spells(rel: string, full: string, zone: string) {
    full == Absolute(rel, zone) && !InZone(rel, zone)
  }

  /** The name with the zone, whether it was spelled with it or not. */
  function Full(name: string, zone: string): string {
    if InZone(name, zone) then name else Absolute(name, zone)
  }

  lemma FullOfRelative(name: string, zone: string)
    requires AtIsApex(name) && zone != "@"
    ensures Absolute(Relative(name, zone), zone) == Full(name, zone)
  {
    if EndsWith(name, "." + zone) {
      Join(name, zone);
      assert forall i :: 0 <= i < |name| ==> name[i] in name;
    }
  }

  lemma AbsoluteInZone(name: string, zone: string)
    ensures InZone(Absolute(name, zone), zone)
  {
    if name != "@" { Split(name, zone); }
  }

  lemma FullAlikeIff(x: string, y: string, zone: string)
    ensures Full(x, zone) == Full(y, zone) <==> x == y || Spells(x, y, zone) || Spells(y, x, zone)
  {
    AbsoluteInjective(x, y, zone);
    AbsoluteInZone(x, zone);
    AbsoluteInZone(y, zone);
  }

  lemma RelativeAlikeIff(x: string, y: string, zone: string)
    requires AtIsApex(x) && AtIsApex(y) && zone != "@"
    ensures Relative(x, zone) == Relative(y, zone) <==> x == y || Spells(x, y, zone) || Spells(y, x, zone)
  {
    AbsoluteInjective(Relative(x, zone), Relative(y, zone), zone);
    FullOfRelative(x, zone);
    FullOfRelative(y, zone);
    FullAlikeIff(x, y, zone);
  }

  /** Two stored names are one served name if and only if, lower-cased, they are the same or one is the
      other, itself outside the zone, with the zone appended. */
  lemma ServedAlikeIff(a: string, b: string, zone: string)
    requires AtIsApex(Owner(a)) && AtIsApex(Owner(b)) && zone != "@"
    ensures Flatten(a, zone) == Flatten(b, zone) <==>
            Owner(a) == Owner(b) || Spells(Owner(a), Owner(b), zone) || Spells(Owner(b), Owner(a), zone)
  {
    AbsoluteInjective(Relative(Owner(a), zone), Relative(Owner(b), zone), zone);
    RelativeAlikeIff(Owner(a), Owner(b), zone);
  }

  // ---- The records a node serves at one name ----

  predicate IsServedAt(r: Record, z: Zone, f: Family, fqdn: string) {
    r.zone == z.id && r.rtype == RType(f) && Flatten(r.name, z.name) == fqdn
  }

  function ServedAt(records: seq<Record>, z: Zone, f: Family, fqdn: string): (served: seq<Record>)
    ensures forall r :: r in served <==> r in records && IsServedAt(r, z, f, fqdn)
  {
    if records == [] then []
    else if IsServedAt(records[0], z, f, fqdn) then [records[0]] + ServedAt(records[1..], z, f, fqdn)
    else ServedAt(records[1..], z, f, fqdn)
  }

  /** No other stored name of the table is served where this one is. */
  predicate Alone(records: seq<Record>, z: Zone, k: Key) {
    forall r :: r in records && IsServedAt(r, z, k.f, Flatten(k.name, z.name)) ==> r.name == k.name
  }

  /** A node serves exactly the records of the stored name if and only if it is alone. */
  lemma ServedIsSliceIff(records: seq<Record>, z: Zone, k: Key)
    requires k.zone == z.id
    ensures ServedAt(records, z, k.f, Flatten(k.name, z.name)) == Slice(records, k) <==> Alone(records, z, k)
  {
    var served := ServedAt(records, z, k.f, Flatten(k.name, z.name));
    if Alone(records, z, k) {
      AloneIsSlice(records, z, k);
    } else {
      var r :| r in records && IsServedAt(r, z, k.f, Flatten(k.name, z.name)) && r.name != k.name;
      assert r in served && r !in Slice(records, k);
    }
  }

  lemma {:induction false} AloneIsSlice(records: seq<Record>, z: Zone, k: Key)
    requires k.zone == z.id && Alone(records, z, k)
    ensures ServedAt(records, z, k.f, Flatten(k.name, z.name)) == Slice(records, k)
  {
    if records != [] {
      assert records[0] in records;
      AloneIsSlice(records[1..], z, k);
    }
  }

  // ---- The register carries over ----

  /** A claim that is served where `k` is, is a claim of `k`. */
  predicate Respects(q: Request, z: Zone, k: Key) {
    q.Add? && q.zone.id == z.id && q.f == k.f ==>
      var name := Strip(RelHostname(q.hostname, q.zone.name));
      Flatten(name, z.name) == Flatten(k.name, z.name) ==> name == k.name
  }

  lemma ServedKeepsAlone(records: seq<Record>, q: Request, z: Zone, k: Key)
    requires k.zone == z.id && Alone(records, z, k) && Respects(q, z, k)
    ensures Alone(Served(records, q).0, z, k)
  {
    if q.Expire? {
      ReleasedMembers(records, Key(q.zone.id, RelHostname(q.hostname, q.zone.name), q.f), q.ip, q.owner);
    } else if q.Add? {
      var k0 := Key(q.zone.id, Strip(RelHostname(q.hostname, q.zone.name)), q.f);
      ClaimKeepsAlone(records, k0, Strip(q.ip), q.ttl, q.owner, z, k);
    }
  }

  lemma ClaimKeepsAlone(records: seq<Record>, k0: Key, data: string, ttl: int, owner: Option<string>, z: Zone, k: Key)
    requires Alone(records, z, k)
    requires k0.zone == z.id && k0.f == k.f && Flatten(k0.name, z.name) == Flatten(k.name, z.name) ==> k0.name == k.name
    ensures Alone(Claimed(records, k0, data, ttl, owner).0, z, k)
  {
    var after := Claimed(records, k0, data, ttl, owner).0;
    forall i | 0 <= i < |after| && IsServedAt(after[i], z, k.f, Flatten(k.name, z.name)) ensures after[i].name == k.name {
      if i < |records| {
        assert records[i] in records && records[i].name == after[i].name;
      }
    }
  }

  lemma {:induction false} RunKeepsAlone(records: seq<Record>, c: Config, events: seq<DhcpEvent>, z: Zone, k: Key)
    requires k.zone == z.id && Alone(records, z, k) && forall e :: e in events ==> Respects(Decode(c, e), z, k)
    ensures Alone(Run(records, c, events), z, k)
    decreases |events|
  {
    if events != [] {
      assert events[0] in events;
      ServedKeepsAlone(records, Decode(c, events[0]), z, k);
      RunKeepsAlone(Served(records, Decode(c, events[0])).0, c, events[1..], z, k);
    }
  }

  /** Over every run in which nobody claims another spelling of the served name, a node sees the
      register's owner at that name, and no second record. */
  lemma ServedNameIsRegister(records: seq<Record>, c: Config, events: seq<DhcpEvent>, z: Zone, k: Key)
    requires k.zone == z.id && HeadOk(Slice(records, k), k.f) && Alone(records, z, k)
    requires forall e :: e in events ==> Respects(Decode(c, e), z, k)
    ensures var served := ServedAt(Run(records, c, events), z, k.f, Flatten(k.name, z.name));
            && Holder(served, k.f) == RegisterRun(Holder(Slice(records, k), k.f), OpsAt(c, events, k))
            && |served| <= if Slice(records, k) == [] then 1 else |Slice(records, k)|
  {
    RunKeepsAlone(records, c, events, z, k);
    AloneIsSlice(Run(records, c, events), z, k);
    RunRefinesRegister(records, c, events, k);
  }

  // ---- Why the condition is needed ----

  /** A claim of another spelling adds a record beside the one that is there, whoever owns that. */
  lemma OtherSpellingIsServedToo(
      records: seq<Record>, z: Zone, k: Key, r: Record, hostname: string, ip: string, ttl: int, owner: Option<string>)
    requires r in records && At(r, k) && k.zone == z.id && z.enabled
    requires var name := RelHostname(hostname, z.name);
             && name != "" && FieldOk(name) && FieldOk(ip) && NameOk(Strip(name))
             && Slice(records, Key(z.id, Strip(name), k.f)) == [] && Flatten(Strip(name), z.name) == Flatten(k.name, z.name)
    ensures var name := Strip(RelHostname(hostname, z.name));
            var served := ServedAt(Served(records, Add(z, k.f, hostname, ip, ttl, owner)).0, z, k.f, Flatten(k.name, z.name));
            r in served && NewRecord(Key(z.id, name, k.f), Strip(ip), ttl, owner) in served
  {
    var name := Strip(RelHostname(hostname, z.name));
    SliceFind(records, Key(z.id, name, k.f));
    var added := NewRecord(Key(z.id, name, k.f), Strip(ip), ttl, owner);
    assert Served(records, Add(z, k.f, hostname, ip, ttl, owner)).0 == records + [added];
    assert IsServedAt(r, z, k.f, Flatten(k.name, z.name)) && IsServedAt(added, z, k.f, Flatten(k.name, z.name));
  }

  /** "pc" and "PC" are two stored names and one served name. */
  lemma UpperCaseIsServedAlike()
    ensures Flatten("PC", "lan") == Flatten("pc", "lan") && NameOk("PC") && "PC" != "pc"
  {
    Unpadded("PC");
    Unpadded("pc");
    assert Lower("PC") == "pc" && Lower("pc") == "pc";
    assert FirstDot("PC") == 2 by { assert "PC"[1..] == "C" && "C"[1..] == ""; }
    assert "PC"[..2] == "PC";
  }
}
