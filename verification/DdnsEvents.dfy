/** What one lease event does to the record table, from the event's own fields and the configuration:
    which scope table it is looked up in, when it is ignored, and the record it adds, moves or releases. */
module DdnsEvents {
  import opened Basics
  import opened Names
  import opened Ddns

  /** The event belongs to this scope with DDNS on and to this zone of it, and names its client. */
  predicate Concerns(c: Config, e: DhcpEvent, s: Scope, z: Zone) {
    && (if e.family == "6" then e.scopeId in c.scopes6 && c.scopes6[e.scopeId] == s
        else e.scopeId in c.scopes && c.scopes[e.scopeId] == s)
    && s.ddnsEnabled && s.zone != "" && s.zone in c.zones && c.zones[s.zone] == z
    && Strip(e.hostname) != ""
  }

  /** The client's name relative to the zone. */
  function NameIn(e: DhcpEvent, z: Zone): string { RelHostname(Strip(e.hostname), z.name) }

  /** Where the event's record lives: in this zone under this name, as an A record or, for IPv6, as an AAAA record. */
  predicate Lives(r: Record, e: DhcpEvent, z: Zone, name: string) {
    r.zone == z.id && r.name == name && r.rtype == if e.family == "6" then "AAAA" else "A"
  }

  /** The record carries the identity of the event's client: the DUID for IPv6, the MAC address otherwise. */
  predicate Theirs(r: Record, e: DhcpEvent) {
    if e.family == "6" then r.ownerDuid.Some? && r.ownerDuid == DuidFmt(e.duid) else r.ownerMac.Some? && r.ownerMac == MacFmt(e.mac)
  }

  /** The name is a label sequence or the apex, and the address neither blank nor a directive. */
  predicate Claimable(name: string, ip: string) { NameOk(name) && Strip(ip) != "" && Strip(ip)[0] != '$' }

  predicate FirstOf(records: seq<Record>, i: nat, e: DhcpEvent, z: Zone, name: string) {
    && i < |records| && Lives(records[i], e, z, name)
    && forall j :: 0 <= j < i ==> !Lives(records[j], e, z, name)
  }

  /** The record is the client's, at the event's name and address. */
  predicate Freed(r: Record, e: DhcpEvent, z: Zone) {
    Lives(r, e, z, NameIn(e, z)) && r.data == e.ip && Theirs(r, e)
  }

  /** The records that are not, in order. */
  function Kept(records: seq<Record>, e: DhcpEvent, z: Zone): seq<Record> {
    if records == [] then []
    else (if Freed(records[0], e, z) then [] else [records[0]]) + Kept(records[1..], e, z)
  }

  /** The event changes the table to `after` and flags the zone for refresh, or neither. */
  predicate Does(records: seq<Record>, c: Config, e: DhcpEvent, after: seq<Record>, flagged: bool) {
    Run(records, c, [e]) == after && Served(records, Decode(c, e)) == (after, flagged)
  }

  lemma RunOfOne(records: seq<Record>, c: Config, e: DhcpEvent)
    ensures Run(records, c, [e]) == Served(records, Decode(c, e)).0
  {
    assert [e][1..] == [];
  }

  lemma FirstLabelMakes(name: string)
    requires NameOk(name)
    ensures name != "" && name[0] != '$'
  {
    if name != "@" {
      assert IsLabel(name[..FirstDot(name)]) && name[..FirstDot(name)][0] == name[0];
    }
  }

  lemma UpsertedIs(records: seq<Record>, z: Zone, f: Family, hostname: string, ip: string, ttl: int, owner: Option<string>)
    ensures var name := Strip(RelHostname(hostname, z.name));
            Upserted(records, z, f, hostname, ip, ttl, owner) ==
              if z.enabled && Claimable(name, ip) then Claimed(records, Key(z.id, name, f), Strip(ip), ttl, owner)
              else (records, false)
  {
    var name := RelHostname(hostname, z.name);
    if NameOk(Strip(name)) {
      FirstLabelMakes(Strip(name));
    }
  }

  /** An "add" event of a zone that is disabled, or for a name or address that cannot be a record, does
      nothing. Any other adds a record of its family for a free name, moves the record of the same
      client to the new address, and leaves anybody else's record, or one without an owner, alone. */
  lemma AddEvent(records: seq<Record>, c: Config, e: DhcpEvent, s: Scope, z: Zone)
    requires Concerns(c, e, s, z) && e.event == "add"
    ensures var name := Strip(NameIn(e, z));
            && (!z.enabled || !Claimable(name, e.ip) ==> Does(records, c, e, records, false))
            && (z.enabled && Claimable(name, e.ip) && (forall r :: r in records ==> !Lives(r, e, z, name)) ==>
                  Does(records, c, e,
                       records + [if e.family == "6" then Record(z.id, name, "AAAA", Strip(e.ip), s.ttl, None, DuidFmt(e.duid))
                                  else Record(z.id, name, "A", Strip(e.ip), s.ttl, MacFmt(e.mac), None)],
                       true))
            && (z.enabled && Claimable(name, e.ip) ==>
                  forall i: nat :: FirstOf(records, i, e, z, name) ==>
                    if Theirs(records[i], e) then Does(records, c, e, records[i := records[i].(data := Strip(e.ip))], true)
                    else Does(records, c, e, records, false))
  {
    var f := if e.family == "6" then V6 else V4;
    var owner := if e.family == "6" then DuidFmt(e.duid) else MacFmt(e.mac);
    var name := Strip(NameIn(e, z));
    var k := Key(z.id, name, f);
    RunOfOne(records, c, e);
    UpsertedIs(records, z, f, Strip(e.hostname), e.ip, s.ttl, owner);
    assert forall r :: At(r, k) <==> Lives(r, e, z, name);
    var n := Find(records, k);
    forall i: nat | FirstOf(records, i, e, z, name) ensures i == n {
      assert At(records[i], k);
    }
    if n < |records| {
      assert records[n] in records;
    }
  }

  lemma {:induction false} ReleasedIsKept(records: seq<Record>, e: DhcpEvent, z: Zone, k: Key, owner: Option<string>)
    requires forall r :: Freed(r, e, z) <==> Releases(r, k, e.ip, owner)
    ensures Released(records, k, e.ip, owner) == Kept(records, e, z)
  {
    if records != [] {
      ReleasedIsKept(records[1..], e, z, k, owner);
    }
  }

  /** An "expire" or a "delete" event removes exactly its client's records of its family at that name
      and address, and flags the zone if there were any; one without an identity or a name does nothing. */
  lemma ReleaseEvent(records: seq<Record>, c: Config, e: DhcpEvent, s: Scope, z: Zone)
    requires Concerns(c, e, s, z) && (e.event == "expire" || e.event == "delete")
    ensures var identity := if e.family == "6" then DuidFmt(e.duid) else MacFmt(e.mac);
            if NameIn(e, z) == "" || identity == None || identity == Some("") then Does(records, c, e, records, false)
            else Does(records, c, e, Kept(records, e, z), |Kept(records, e, z)| < |records|)
  {
    var f := if e.family == "6" then V6 else V4;
    var identity := if e.family == "6" then DuidFmt(e.duid) else MacFmt(e.mac);
    var k := Key(z.id, NameIn(e, z), f);
    RunOfOne(records, c, e);
    if identity.Some? {
      ReleasedIsKept(records, e, z, k, identity);
    }
  }

  /** An event that concerns no scope and zone, or that is none of the three kinds, does nothing. */
  lemma OtherEvent(records: seq<Record>, c: Config, e: DhcpEvent)
    requires (forall s, z :: !Concerns(c, e, s, z)) || (e.event != "add" && e.event != "expire" && e.event != "delete")
    ensures Does(records, c, e, records, false)
  {
    RunOfOne(records, c, e);
    var q := Decode(c, e);
    if q.Add? || q.Expire? {
      var s := (if e.family == "6" then c.scopes6 else c.scopes)[e.scopeId];
      assert Concerns(c, e, s, q.zone);
    }
  }
}
