/** Who owns a DDNS name: every run of lease events, seen one name at a time, is a run of a
    simple register with one owner and one address. */
module DdnsOwnership {
  import opened Basics
  import opened Names
  import opened Ddns

  // ---- The records at one name ----

  function Slice(records: seq<Record>, k: Key): (slice: seq<Record>)
    ensures forall r :: r in slice <==> r in records && At(r, k)
  {
    if records == [] then []
    else if At(records[0], k) then [records[0]] + Slice(records[1..], k)
    else Slice(records[1..], k)
  }

  lemma {:induction false} SliceAppend(records: seq<Record>, r: Record, k: Key)
    ensures Slice(records + [r], k) == if At(r, k) then Slice(records, k) + [r] else Slice(records, k)
  {
    if records == [] {
      assert records + [r] == [r] && [r][1..] == [];
    } else {
      SliceAppend(records[1..], r, k);
      assert (records + [r])[1..] == records[1..] + [r];
    }
  }

  lemma {:induction false} SliceFind(records: seq<Record>, k: Key)
    ensures Find(records, k) == |records| <==> Slice(records, k) == []
    ensures Find(records, k) < |records| ==> Slice(records, k)[0] == records[Find(records, k)]
  {
    if records != [] && !At(records[0], k) {
      SliceFind(records[1..], k);
    }
  }

  /** Changing the address of the first record at a name. */
  lemma {:induction false} SliceUpdate(records: seq<Record>, data: string, k0: Key, k: Key)
    requires Find(records, k0) < |records|
    ensures var i := Find(records, k0);
            var changed := records[i := records[i].(data := data)];
            Slice(changed, k) == if k == k0 then [records[i].(data := data)] + Slice(records, k)[1..] else Slice(records, k)
  {
    var i := Find(records, k0);
    var changed := records[i := records[i].(data := data)];
    if i == 0 {
      assert changed[1..] == records[1..];
      assert At(records[0], k) <==> k == k0;
    } else {
      assert changed[1..] == records[1..][i - 1 := records[i].(data := data)];
      SliceUpdate(records[1..], data, k0, k);
    }
  }

  lemma {:induction false} SliceReleased(records: seq<Record>, k0: Key, ip: string, owner: Option<string>, k: Key)
    ensures Slice(Released(records, k0, ip, owner), k) ==
              if k == k0 then Released(Slice(records, k), k0, ip, owner) else Slice(records, k)
  {
    if records != [] {
      SliceReleased(records[1..], k0, ip, owner, k);
    }
  }

  // ---- What a request means at one name ----

  datatype Op = Grab(owner: Option<string>, address: string, ttl: int) | Drop(client: string, address: string)

  /** An expiry comes from a client with an identity. */
  predicate Real(op: Option<Op>) { op.Some? && op.value.Drop? ==> op.value.client != "" }

  function OpAt(q: Request, k: Key): (op: Option<Op>)
    ensures Real(op)
  {
    match q
    case Nothing => None
    case Add(z, f, hostname, ip, ttl, owner) =>
      var name := RelHostname(hostname, z.name);
      if z.enabled && name != "" && FieldOk(name) && FieldOk(ip) && NameOk(Strip(name)) && k == Key(z.id, Strip(name), f)
      then Some(Grab(owner, Strip(ip), ttl)) else None
    case Expire(z, f, hostname, ip, owner) =>
      var name := RelHostname(hostname, z.name);
      if name != "" && owner.Some? && owner.value != "" && k == Key(z.id, name, f)
      then Some(Drop(owner.value, ip)) else None
  }

  function SliceAfter(slice: seq<Record>, op: Option<Op>, k: Key): seq<Record> {
    match op
    case None => slice
    case Some(Grab(owner, address, ttl)) =>
      if slice == [] then [NewRecord(k, address, ttl, owner)]
      else if OwnerOf(slice[0], k.f) == None || OwnerOf(slice[0], k.f) != owner then slice
      else [slice[0].(data := address)] + slice[1..]
    case Some(Drop(owner, address)) => Released(slice, k, address, Some(owner))
  }

  lemma ClaimedAtOneName(records: seq<Record>, k0: Key, data: string, ttl: int, owner: Option<string>, k: Key)
    ensures Slice(Claimed(records, k0, data, ttl, owner).0, k) ==
              SliceAfter(Slice(records, k), if k == k0 then Some(Grab(owner, data, ttl)) else None, k)
  {
    var r := NewRecord(k0, data, ttl, owner);
    assert At(r, k) <==> k == k0;
    SliceFind(records, k0);
    if Find(records, k0) < |records| {
      SliceUpdate(records, data, k0, k);
    } else {
      SliceAppend(records, r, k);
    }
  }

  /** A request touches the records of one name only, and what it does there depends on them only. */
  lemma ServedAtOneName(records: seq<Record>, q: Request, k: Key)
    ensures Slice(Served(records, q).0, k) == SliceAfter(Slice(records, k), OpAt(q, k), k)
  {
    match q
    case Nothing =>
    case Add(z, f, hostname, ip, ttl, owner) =>
      ClaimedAtOneName(records, Key(z.id, Strip(RelHostname(hostname, z.name)), f), Strip(ip), ttl, owner, k);
    case Expire(z, f, hostname, ip, owner) =>
      SliceReleased(records, Key(z.id, RelHostname(hostname, z.name), f), ip, owner, k);
  }

  // ---- The register ----

  datatype Claim = Fixed | Owned(owner: string, address: string)

  /** Who holds the name: nobody, a record without an owner, or a client. */
  function Holder(slice: seq<Record>, f: Family): Option<Claim> {
    if slice == [] then None
    else match OwnerOf(slice[0], f)
      case None => Some(Fixed)
      case Some(owner) => Some(Owned(owner, slice[0].data))
  }

  function Register(c: Option<Claim>, op: Option<Op>): Option<Claim> {
    match op
    case None => c
    case Some(Grab(owner, address, _)) =>
      (match c
       case None => Some(if owner.Some? then Owned(owner.value, address) else Fixed)
       case Some(Fixed) => c
       case Some(Owned(o, _)) => if owner == Some(o) then Some(Owned(o, address)) else c)
    case Some(Drop(owner, address)) => if c == Some(Owned(owner, address)) then None else c
  }

  function SliceRun(slice: seq<Record>, ops: seq<Option<Op>>, k: Key): seq<Record>
    decreases |ops|
  {
    if ops == [] then slice else SliceRun(SliceAfter(slice, ops[0], k), ops[1..], k)
  }

  function RegisterRun(claim: Option<Claim>, ops: seq<Option<Op>>): Option<Claim>
    decreases |ops|
  {
    if ops == [] then claim else RegisterRun(Register(claim, ops[0]), ops[1..])
  }

  /** Of several records at a name, the first one is not owned by a client, or by one whose identity
      is blank, so that no expiry can remove it. */
  predicate HeadOk(slice: seq<Record>, f: Family) {
    |slice| > 1 ==> OwnerOf(slice[0], f) == None || OwnerOf(slice[0], f) == Some("")
  }

  predicate AllReal(ops: seq<Option<Op>>) { forall i :: 0 <= i < |ops| ==> Real(ops[i]) }

  predicate AllAt(slice: seq<Record>, k: Key) { forall r :: r in slice ==> At(r, k) }

  lemma RegisterRefined(slice: seq<Record>, op: Option<Op>, k: Key)
    requires HeadOk(slice, k.f) && AllAt(slice, k) && Real(op)
    ensures HeadOk(SliceAfter(slice, op, k), k.f) && AllAt(SliceAfter(slice, op, k), k)
    ensures Holder(SliceAfter(slice, op, k), k.f) == Register(Holder(slice, k.f), op)
    ensures |SliceAfter(slice, op, k)| <= if slice == [] then 1 else |slice|
  {
    if op.Some? && op.value.Drop? {
      ReleasedMembers(slice, k, op.value.address, Some(op.value.client));
    }
    if slice != [] {
      assert slice[0] in slice;
      if |slice| == 1 { assert slice[1..] == []; }
    }
  }

  lemma {:induction false} RegisterRunRefined(slice: seq<Record>, ops: seq<Option<Op>>, k: Key)
    requires HeadOk(slice, k.f) && AllAt(slice, k) && AllReal(ops)
    ensures Holder(SliceRun(slice, ops, k), k.f) == RegisterRun(Holder(slice, k.f), ops)
    ensures |SliceRun(slice, ops, k)| <= if slice == [] then 1 else |slice|
    decreases |ops|
  {
    if ops != [] {
      RegisterRefined(slice, ops[0], k);
      RegisterRunRefined(SliceAfter(slice, ops[0], k), ops[1..], k);
    }
  }

  /** Some request asks this at the name. */
  ghost predicate Asked(op: Option<Op>, k: Key) { exists q: Request :: OpAt(q, k) == op }

  /** Whatever requests ask at the name, its records behave like the register. */
  ghost predicate IsRegister(slice: seq<Record>, k: Key) {
    forall ops :: AllAsked(ops, k) ==> Agrees(slice, ops, k)
  }

  ghost predicate AllAsked(ops: seq<Option<Op>>, k: Key) { forall i :: 0 <= i < |ops| ==> Asked(ops[i], k) }

  predicate Agrees(slice: seq<Record>, ops: seq<Option<Op>>, k: Key) {
    Holder(SliceRun(slice, ops, k), k.f) == RegisterRun(Holder(slice, k.f), ops)
  }

  /** The records at a claimable name behave like the register if and only if there is at most one of
      them, or the first of them is not owned or owned by a blank identity. An owned record in front of
      another one, which only an edit by hand can make, is the exception: once its owner lets go, the
      other one takes the name. */
  lemma RegisterIff(slice: seq<Record>, k: Key)
    requires AllAt(slice, k) && NameOk(k.name)
    ensures IsRegister(slice, k) <==> HeadOk(slice, k.f)
  {
    if HeadOk(slice, k.f) {
      forall ops | AllAsked(ops, k) ensures Agrees(slice, ops, k) {
        assert AllReal(ops) by { assert forall i :: 0 <= i < |ops| ==> Asked(ops[i], k); }
        RegisterRunRefined(slice, ops, k);
      }
    } else {
      OwnedInFront(slice, k);
    }
  }

  lemma OwnedInFront(slice: seq<Record>, k: Key)
    requires AllAt(slice, k) && !HeadOk(slice, k.f) && NameOk(k.name)
    ensures !IsRegister(slice, k)
  {
    var owner := OwnerOf(slice[0], k.f).value;
    var address := OtherAddress(slice[1].data);
    var ops := [Some(Grab(Some(owner), address, 0)), Some(Drop(owner, address))];
    assert AllAsked(ops, k) by { CanBeAsked(k, owner, address); }
    assert !Agrees(slice, ops, k) by { GrabThenDrop(slice, k, owner, address); }
  }

  lemma OtherAddress(taken: string) returns (address: string)
    ensures address != taken && Strip(address) == address && FieldOk(address)
  {
    address := if taken == "1" then "2" else "1";
    Unpadded(address);
  }

  lemma GrabThenDrop(slice: seq<Record>, k: Key, owner: string, address: string)
    requires |slice| > 1 && OwnerOf(slice[0], k.f) == Some(owner) && slice[1].data != address
    ensures var ops := [Some(Grab(Some(owner), address, 0)), Some(Drop(owner, address))];
            !Agrees(slice, ops, k)
  {
    var grab, drop := Some(Grab(Some(owner), address, 0)), Some(Drop(owner, address));
    var ops := [grab, drop];
    assert ops[1..] == [drop] && [drop][1..] == [];
    var grabbed := [slice[0].(data := address)] + slice[1..];
    assert SliceAfter(slice, grab, k) == grabbed;
    assert grabbed[1] in grabbed && !Releases(grabbed[1], k, address, Some(owner));
    assert SliceRun(slice, ops, k) == SliceRun(grabbed, [drop], k) == SliceRun(SliceAfter(grabbed, drop, k), [], k);
    ReleasedMembers(grabbed, k, address, Some(owner));
    assert grabbed[1] in SliceRun(slice, ops, k);
    var claim := Holder(slice, k.f);
    assert RegisterRun(claim, ops) == RegisterRun(Register(claim, grab), [drop]) == RegisterRun(None, []);
  }

  /** At a name that may be claimed, a client with an identity can ask for an address and give it up. */
  lemma CanBeAsked(k: Key, owner: string, address: string)
    requires NameOk(k.name) && owner != "" && Strip(address) == address && FieldOk(address)
    ensures Asked(Some(Grab(Some(owner), address, 0)), k) && Asked(Some(Drop(owner, address)), k)
  {
    var z := Zone(k.zone, k.name + "x", true);
    assert RelHostname(k.name, z.name) == k.name && Strip(k.name) == k.name && FieldOk(k.name) by { ClaimableName(k.name); }
    assert OpAt(Add(z, k.f, k.name, address, 0, Some(owner)), k) == Some(Grab(Some(owner), address, 0));
    assert OpAt(Expire(z, k.f, k.name, address, Some(owner)), k) == Some(Drop(owner, address));
  }

  lemma {:induction false} LabelsEnds(s: string)
    requires Labels(s)
    ensures s != "" && s[0] != '.' && s[|s| - 1] != '.'
    decreases |s|
  {
    var n := FirstDot(s);
    if n < |s| { LabelsEnds(s[n + 1..]); }
  }

  lemma ClaimableName(name: string)
    requires NameOk(name)
    ensures Strip(name) == name && FieldOk(name) && TrimDots(name) == name && RelHostname(name, name + "x") == name
  {
    if Labels(name) {
      LabelsEnds(name);
      LabelsArePlain(name);
    }
    Unpadded(name);
    assert TrimDots(name + "x") == name + "x";
  }

  // ---- Runs of lease events ----

  function OpsAt(c: Config, events: seq<DhcpEvent>, k: Key): (ops: seq<Option<Op>>)
    ensures |ops| == |events| && AllReal(ops)
  {
    if events == [] then [] else [OpAt(Decode(c, events[0]), k)] + OpsAt(c, events[1..], k)
  }

  /** What a run does at one name depends on the records at that name only. */
  lemma {:induction false} RunAtOneName(records: seq<Record>, c: Config, events: seq<DhcpEvent>, k: Key)
    ensures Slice(Run(records, c, events), k) == SliceRun(Slice(records, k), OpsAt(c, events, k), k)
    decreases |events|
  {
    if events != [] {
      var q := Decode(c, events[0]);
      ServedAtOneName(records, q, k);
      RunAtOneName(Served(records, q).0, c, events[1..], k);
      assert OpsAt(c, events, k)[1..] == OpsAt(c, events[1..], k);
    }
  }

  /** Over every run, each name is a register: its holder is the register's, and a taken name never
      gets another record. */
  lemma RunRefinesRegister(records: seq<Record>, c: Config, events: seq<DhcpEvent>, k: Key)
    requires HeadOk(Slice(records, k), k.f)
    ensures Holder(Slice(Run(records, c, events), k), k.f) == RegisterRun(Holder(Slice(records, k), k.f), OpsAt(c, events, k))
    ensures |Slice(Run(records, c, events), k)| <= if Slice(records, k) == [] then 1 else |Slice(records, k)|
  {
    RunAtOneName(records, c, events, k);
    RegisterRunRefined(Slice(records, k), OpsAt(c, events, k), k);
  }

  // ---- Which record a lookup finds ----

  /** A name with several records has none that a client owns. */
  predicate SliceOk(slice: seq<Record>, f: Family) {
    |slice| > 1 ==> forall r :: r in slice ==> OwnerOf(r, f) == None
  }

  lemma {:induction false} SliceStaysOk(slice: seq<Record>, ops: seq<Option<Op>>, k: Key)
    requires SliceOk(slice, k.f) && AllAt(slice, k) && AllReal(ops)
    ensures SliceOk(SliceRun(slice, ops, k), k.f)
    decreases |ops|
  {
    if ops != [] {
      if slice != [] { assert slice[0] in slice; }
      RegisterRefined(slice, ops[0], k);
      if ops[0].Some? && ops[0].value.Drop? {
        ReleasedMembers(slice, k, ops[0].value.address, Some(ops[0].value.client));
      }
      assert forall r :: r in SliceAfter(slice, ops[0], k) && |slice| > 1 ==> r in slice;
      SliceStaysOk(SliceAfter(slice, ops[0], k), ops[1..], k);
    }
  }

  /** If a name with several records starts without an owned one, then after every run it makes no
      difference which of its records an unordered lookup returns. */
  lemma AnyMatchWillDo(records: seq<Record>, c: Config, events: seq<DhcpEvent>, k: Key, r: Record)
    requires SliceOk(Slice(records, k), k.f) && r in Run(records, c, events) && At(r, k)
    ensures Holder([r], k.f) == Holder(Slice(Run(records, c, events), k), k.f)
  {
    RunAtOneName(records, c, events, k);
    SliceStaysOk(Slice(records, k), OpsAt(c, events, k), k);
    var slice := Slice(Run(records, c, events), k);
    assert r in slice && slice[0] in slice;
    if |slice| == 1 { assert slice[0] == r; }
  }

  // ---- The first claim wins ----

  /** The address the owner asked for last. */
  function LastAsked(ops: seq<Option<Op>>, owner: string, first: string): string {
    if ops == [] then first
    else
      var asked := ops[0].Some? && ops[0].value.Grab? && ops[0].value.owner == Some(owner);
      LastAsked(ops[1..], owner, if asked then ops[0].value.address else first)
  }

  /** The n-th request is the owner's expiry of the address it asked for last. */
  predicate OwnExpiry(ops: seq<Option<Op>>, owner: string, first: string, n: nat) {
    n < |ops| && ops[n] == Some(Drop(owner, LastAsked(ops[..n], owner, first)))
  }

  /** Before its first own expiry, a holder keeps the name at the address it asked for last,
      whatever others ask and whatever stale expiries arrive; at that expiry the name is free. */
  lemma {:induction false} FirstClaimWins(owner: string, first: string, ops: seq<Option<Op>>)
    requires forall n: nat :: n + 1 < |ops| ==> !OwnExpiry(ops, owner, first, n)
    ensures RegisterRun(Some(Owned(owner, first)), ops) ==
              if ops != [] && OwnExpiry(ops, owner, first, |ops| - 1) then None
              else Some(Owned(owner, LastAsked(ops, owner, first)))
    decreases |ops|
  {
    if ops != [] {
      assert ops[..0] == [];
      if |ops| > 1 {
        assert !OwnExpiry(ops, owner, first, 0);
        var asked := ops[0].Some? && ops[0].value.Grab? && ops[0].value.owner == Some(owner);
        var next := if asked then ops[0].value.address else first;
        assert Register(Some(Owned(owner, first)), ops[0]) == Some(Owned(owner, next));
        forall n: nat | n < |ops| - 1 ensures OwnExpiry(ops[1..], owner, next, n) <==> OwnExpiry(ops, owner, first, n + 1) {
          assert ops[..n + 1][0] == ops[0] && ops[..n + 1][1..] == ops[1..][..n];
        }
        FirstClaimWins(owner, next, ops[1..]);
      } else {
        assert ops[1..] == [];
      }
    }
  }

  /** The same over the table and its events: a client that holds a name keeps it, at the address it
      asked for last, exactly until its own expiry of that address. */
  lemma OwnerKeepsName(records: seq<Record>, c: Config, events: seq<DhcpEvent>, k: Key, owner: string, first: string)
    requires HeadOk(Slice(records, k), k.f) && Holder(Slice(records, k), k.f) == Some(Owned(owner, first))
    requires forall n: nat :: n + 1 < |events| ==> !OwnExpiry(OpsAt(c, events, k), owner, first, n)
    ensures var ops := OpsAt(c, events, k);
            Holder(Slice(Run(records, c, events), k), k.f) ==
              if events != [] && OwnExpiry(ops, owner, first, |ops| - 1) then None
              else Some(Owned(owner, LastAsked(ops, owner, first)))
  {
    RunRefinesRegister(records, c, events, k);
    FirstClaimWins(owner, first, OpsAt(c, events, k));
  }

  /** A client whose identity is blank holds a name for good: no event is its own expiry. */
  lemma BlankIdentityStays(records: seq<Record>, c: Config, events: seq<DhcpEvent>, k: Key, first: string)
    requires HeadOk(Slice(records, k), k.f) && Holder(Slice(records, k), k.f) == Some(Owned("", first))
    ensures Holder(Slice(Run(records, c, events), k), k.f) == Some(Owned("", LastAsked(OpsAt(c, events, k), "", first)))
  {
    var ops := OpsAt(c, events, k);
    forall n: nat ensures !OwnExpiry(ops, "", first, n) {
      if n < |ops| { assert Real(ops[n]); }
    }
    OwnerKeepsName(records, c, events, k, "", first);
  }

  /** A DUID of blanks is such an identity. */
  lemma BlankDuid()
    ensures DuidFmt(" ") == Some("")
  {
    assert " "[1..] == "";
    assert Strip(" ") == "" && Lower("") == "";
  }

  // ---- What lease events never touch ----

  /** No client owns the record: it was made by hand, by an anonymous client, or is of another type. */
  predicate Unowned(r: Record) {
    (r.rtype == "A" ==> r.ownerMac == None) && (r.rtype == "AAAA" ==> r.ownerDuid == None)
  }

  lemma ServedKeepsUnowned(records: seq<Record>, q: Request, r: Record)
    requires r in records && Unowned(r)
    ensures r in Served(records, q).0
  {
    if q.Expire? {
      ReleasedMembers(records, Key(q.zone.id, RelHostname(q.hostname, q.zone.name), q.f), q.ip, q.owner);
    } else if q.Add? {
      var after := Served(records, q).0;
      var j :| 0 <= j < |records| && records[j] == r;
      assert after[j] == r;
    }
  }

  /** An unowned record is never changed nor removed by any run of lease events. */
  lemma {:induction false} RunKeepsUnowned(records: seq<Record>, c: Config, events: seq<DhcpEvent>, r: Record)
    requires r in records && Unowned(r)
    ensures r in Run(records, c, events)
    decreases |events|
  {
    if events != [] {
      ServedKeepsUnowned(records, Decode(c, events[0]), r);
      RunKeepsUnowned(Served(records, Decode(c, events[0])).0, c, events[1..], r);
    }
  }

  /** So a client without an identity that claims a free name makes a record for good. */
  lemma AnonymousClaimStays(
      records: seq<Record>, z: Zone, f: Family, hostname: string, ip: string, ttl: int, c: Config, events: seq<DhcpEvent>)
    requires var name := RelHostname(hostname, z.name);
             && z.enabled && name != "" && FieldOk(name) && FieldOk(ip) && NameOk(Strip(name))
             && Slice(records, Key(z.id, Strip(name), f)) == []
    ensures var k := Key(z.id, Strip(RelHostname(hostname, z.name)), f);
            NewRecord(k, Strip(ip), ttl, None) in Run(Served(records, Add(z, f, hostname, ip, ttl, None)).0, c, events)
  {
    var k := Key(z.id, Strip(RelHostname(hostname, z.name)), f);
    SliceFind(records, k);
    RunKeepsUnowned(Served(records, Add(z, f, hostname, ip, ttl, None)).0, c, events, NewRecord(k, Strip(ip), ttl, None));
  }

  /** The events of one address family. */
  function OfFamily(events: seq<DhcpEvent>, f: Family): seq<DhcpEvent> {
    if events == [] then []
    else if (events[0].family == "6") == f.V6? then [events[0]] + OfFamily(events[1..], f)
    else OfFamily(events[1..], f)
  }

  /** In every run, however mixed, a name's records are what they would be without the events of the
      other address family. */
  lemma OtherFamilyUntouched(records: seq<Record>, c: Config, events: seq<DhcpEvent>, k: Key)
    ensures Slice(Run(records, c, events), k) == Slice(Run(records, c, OfFamily(events, k.f)), k)
  {
    RunAtOneName(records, c, events, k);
    RunAtOneName(records, c, OfFamily(events, k.f), k);
    OtherFamilySkipped(Slice(records, k), c, events, k);
  }

  lemma {:induction false} OtherFamilySkipped(slice: seq<Record>, c: Config, events: seq<DhcpEvent>, k: Key)
    ensures SliceRun(slice, OpsAt(c, events, k), k) == SliceRun(slice, OpsAt(c, OfFamily(events, k.f), k), k)
    decreases |events|
  {
    if events != [] {
      var op := OpAt(Decode(c, events[0]), k);
      OtherFamilySkipped(SliceAfter(slice, op, k), c, events[1..], k);
      assert OpsAt(c, events, k)[1..] == OpsAt(c, events[1..], k);
      var kept := OfFamily(events, k.f);
      if (events[0].family == "6") == k.f.V6? {
        assert kept[1..] == OfFamily(events[1..], k.f);
        assert OpsAt(c, kept, k)[1..] == OpsAt(c, kept[1..], k);
      } else {
        assert op == None;
      }
    }
  }

  /** The zone is flagged for refresh whenever a request changes the table. */
  lemma ChangesAreSignalled(records: seq<Record>, q: Request)
    ensures Served(records, q).0 != records ==> Served(records, q).1
  {
    if q.Expire? {
      ReleasedAll(records, Key(q.zone.id, RelHostname(q.hostname, q.zone.name), q.f), q.ip, q.owner);
    }
  }

  // ---- What names lease events may write ----

  /** "@", or nothing but letters, digits, hyphens and dots: one field of a zone-file line. */
  predicate Plain(name: string) {
    name == "@" || forall i :: 0 <= i < |name| ==>
      'a' <= name[i] <= 'z' || 'A' <= name[i] <= 'Z' || '0' <= name[i] <= '9' || name[i] == '-' || name[i] == '.'
  }

  lemma {:induction false} FirstDotIsDot(s: string)
    requires FirstDot(s) < |s|
    ensures s[FirstDot(s)] == '.'
  {
    if s[0] != '.' { FirstDotIsDot(s[1..]); }
  }

  lemma {:induction false} LabelsArePlain(s: string)
    requires Labels(s)
    ensures Plain(s)
    decreases |s|
  {
    var n := FirstDot(s);
    if n < |s| {
      FirstDotIsDot(s);
      LabelsArePlain(s[n + 1..]);
      assert s == s[..n] + "." + s[n + 1..];
    } else {
      assert s == s[..n];
    }
  }

  /** Whatever hostnames clients send, every name in the table stays a single plain field. */
  lemma {:induction false} NamesStayPlain(records: seq<Record>, c: Config, events: seq<DhcpEvent>)
    requires forall r :: r in records ==> Plain(r.name)
    ensures forall r :: r in Run(records, c, events) ==> Plain(r.name)
    decreases |events|
  {
    if events != [] {
      var q := Decode(c, events[0]);
      ServedKeepsPlain(records, q);
      NamesStayPlain(Served(records, q).0, c, events[1..]);
    }
  }

  lemma ServedKeepsPlain(records: seq<Record>, q: Request)
    requires forall r :: r in records ==> Plain(r.name)
    ensures forall r :: r in Served(records, q).0 ==> Plain(r.name)
  {
    if q.Expire? {
      ReleasedMembers(records, Key(q.zone.id, RelHostname(q.hostname, q.zone.name), q.f), q.ip, q.owner);
    } else if q.Add? {
      var name := Strip(RelHostname(q.hostname, q.zone.name));
      if NameOk(name) {
        if Labels(name) { LabelsArePlain(name); }
        ClaimKeepsPlain(records, Key(q.zone.id, name, q.f), Strip(q.ip), q.ttl, q.owner);
      }
    }
  }

  lemma ClaimKeepsPlain(records: seq<Record>, k: Key, data: string, ttl: int, owner: Option<string>)
    requires (forall r :: r in records ==> Plain(r.name)) && Plain(k.name)
    ensures forall r :: r in Claimed(records, k, data, ttl, owner).0 ==> Plain(r.name)
  {
    var after := Claimed(records, k, data, ttl, owner).0;
    forall i | 0 <= i < |after| ensures Plain(after[i].name) {
      if i < |records| { assert records[i] in records; }
    }
  }

  // ---- A claim and its expiry ----

  lemma {:induction false} ReleasedSnoc(records: seq<Record>, r: Record, k: Key, ip: string, owner: Option<string>)
    ensures Released(records + [r], k, ip, owner) ==
              if Releases(r, k, ip, owner) then Released(records, k, ip, owner) else Released(records, k, ip, owner) + [r]
  {
    if records == [] {
      assert records + [r] == [r] && [r][1..] == [];
    } else {
      ReleasedSnoc(records[1..], r, k, ip, owner);
      assert (records + [r])[1..] == records[1..] + [r];
    }
  }

  /** Releasing a record just added at a free name, by the name and address of the request. */
  lemma ReleaseUndoesIff(records: seq<Record>, k: Key, name: string, data: string, ip: string, ttl: int, client: string)
    requires Slice(records, k) == []
    ensures Released(records + [NewRecord(k, data, ttl, Some(client))], k.(name := name), ip, Some(client)) == records
            <==> name == k.name && ip == data
  {
    var r := NewRecord(k, data, ttl, Some(client));
    assert At(r, k) && r !in Slice(records, k);
    ReleasedSnoc(records, r, k.(name := name), ip, Some(client));
    if name == k.name && ip == data {
      NothingToRelease(records, k, ip, Some(client));
    } else {
      assert r in Released(records + [r], k.(name := name), ip, Some(client));
    }
  }

  /** Expiring a lease with the very values that claimed a free name undoes the claim if and only
      if the client has an identity that is not blank, and neither the name nor the address had blanks
      around it: claiming strips them, expiring compares them as sent and refuses a blank identity. */
  lemma ExpiryUndoesClaimIff(
      records: seq<Record>, z: Zone, f: Family, hostname: string, ip: string, ttl: int, owner: Option<string>)
    requires var name := RelHostname(hostname, z.name);
             && z.enabled && name != "" && FieldOk(name) && FieldOk(ip) && NameOk(Strip(name))
             && Slice(records, Key(z.id, Strip(name), f)) == []
    ensures var name := RelHostname(hostname, z.name);
            var claimed := Served(records, Add(z, f, hostname, ip, ttl, owner)).0;
            Served(claimed, Expire(z, f, hostname, ip, owner)).0 == records
            <==> owner.Some? && owner.value != "" && Strip(name) == name && Strip(ip) == ip
  {
    var name := RelHostname(hostname, z.name);
    var k := Key(z.id, Strip(name), f);
    SliceFind(records, k);
    if owner.Some? && owner.value != "" {
      ReleaseUndoesIff(records, k, name, Strip(ip), ip, ttl, owner.value);
    } else {
      assert |Served(records, Add(z, f, hostname, ip, ttl, owner)).0| == |records| + 1;
    }
  }

  lemma {:induction false} NothingToRelease(records: seq<Record>, k: Key, ip: string, owner: Option<string>)
    requires Slice(records, k) == []
    ensures Released(records, k, ip, owner) == records
  {
    if records != [] {
      assert records[0] in records;
      NothingToRelease(records[1..], k, ip, owner);
    }
  }

  lemma RunOfTwo(records: seq<Record>, c: Config, a: DhcpEvent, b: DhcpEvent)
    ensures Run(records, c, [a, b]) == Served(Served(records, Decode(c, a)).0, Decode(c, b)).0
  {
    var first := Served(records, Decode(c, a)).0;
    assert [a, b][1..] == [b] && [b][1..] == [];
    assert Run(records, c, [a, b]) == Run(first, c, [b]);
    assert Run(first, c, [b]) == Run(Served(first, Decode(c, b)).0, c, []);
  }

  /** The same for events: an add event of a free, valid name and the expire event of the same lease. */
  lemma ExpireEventUndoesAddIff(records: seq<Record>, c: Config, e: DhcpEvent)
    requires var q := Decode(c, e);
             && q.Add? && q.zone.enabled
             && var name := RelHostname(q.hostname, q.zone.name);
             && name != "" && FieldOk(name) && FieldOk(q.ip) && NameOk(Strip(name))
             && Slice(records, Key(q.zone.id, Strip(name), q.f)) == []
    ensures var q := Decode(c, e);
            var name := RelHostname(q.hostname, q.zone.name);
            Run(records, c, [e, e.(event := "expire")]) == records
            <==> q.owner.Some? && q.owner.value != "" && Strip(name) == name && Strip(q.ip) == q.ip
  {
    var q := Decode(c, e);
    assert Decode(c, e.(event := "expire")) == Expire(q.zone, q.f, q.hostname, q.ip, q.owner);
    RunOfTwo(records, c, e, e.(event := "expire"));
    ExpiryUndoesClaimIff(records, q.zone, q.f, q.hostname, q.ip, q.ttl, q.owner);
  }

  /** A lease whose address came with a blank leaves its record behind: the expiry of the very same
      lease removes nothing. */
  lemma PaddedAddressIsLeftBehind() returns (c: Config, e: DhcpEvent)
    ensures e.event == "add" && Run([], c, [e, e.(event := "expire")]) != []
  {
    c, e := PaddedLease();
    assert Slice([], Key("z", "pc", V6)) == [];
    ExpireEventUndoesAddIff([], c, e);
  }

  lemma PaddedLease() returns (c: Config, e: DhcpEvent)
    ensures e.event == "add"
    ensures var q := Decode(c, e);
            && q.Add? && q.f == V6 && q.owner == Some("d1") && q.zone.id == "z" && q.zone.enabled
            && RelHostname(q.hostname, q.zone.name) == "pc" && Strip("pc") == "pc" && FieldOk("pc") && NameOk("pc")
            && FieldOk(q.ip) && Strip(q.ip) != q.ip
  {
    c := Config(map["z" := Zone("z", "lan", true)], map[], map["s" := Scope(true, "z", 300)]);
    e := DhcpEvent("add", " fd00::5", "pc", "6", "", "d1", "s");
    Unpadded("pc");
    PaddedExample();
    assert DuidFmt("d1") == Some("d1") by {
      Unpadded("d1");
      assert Lower("d1") == "d1";
    }
  }

  lemma Unpadded(s: string)
    requires s != "" && !IsSpace(s[0]) && !IsSpace(s[|s| - 1])
    ensures Strip(s) == s
  {}

  lemma PaddedExample()
    ensures Strip(" fd00::5") == "fd00::5" && RelHostname("pc", "lan") == "pc"
    ensures FieldOk("pc") && NameOk("pc") && FieldOk(" fd00::5")
  {
    assert " fd00::5"[1..] == "fd00::5";
    Unpadded("pc");
    assert TrimDots("pc") == "pc" && TrimDots("lan") == "lan";
    assert FirstDot("pc") == 2 by { assert "pc"[1..] == "c" && "c"[1..] == ""; }
    assert "pc"[..2] == "pc";
  }
}
