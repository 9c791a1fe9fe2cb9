/** The DDNS bridge: DHCP lease events claim and release A and AAAA records. */
module Ddns {
  import opened Basics
  import opened Names

  datatype Family = V4 | V6

  datatype Record = Record(
    zone: string, name: string, rtype: string, data: string, ttl: int,
    ownerMac: Option<string>, ownerDuid: Option<string>)

  datatype Zone = Zone(id: string, name: string, enabled: bool)

  /** A DHCP scope; `zone` is the id of its DDNS zone, "" if it has none. */
  datatype Scope = Scope(ddnsEnabled: bool, zone: string, ttl: int)

  /** What the lease events are interpreted against; DHCP events do not change it. */
  datatype Config = Config(zones: map<string, Zone>, scopes: map<string, Scope>, scopes6: map<string, Scope>)

  datatype DhcpEvent = DhcpEvent(
    event: string, ip: string, hostname: string, family: string, mac: string, duid: string, scopeId: string)

  function RType(f: Family): string { if f.V4? then "A" else "AAAA" }

  /** The column that says who owns a record of this family. */
  function OwnerOf(r: Record, f: Family): Option<string> { if f.V4? then r.ownerMac else r.ownerDuid }

  // ---- Normalising the client's identity ----

  function Without(s: string, drop: char): string {
    if s == [] then [] else if s[0] == drop then Without(s[1..], drop) else [s[0]] + Without(s[1..], drop)
  }

  function Digits(raw: string): string { Lower(Without(Without(raw, ':'), '-')) }

  /** The characters in pairs, with colons between the pairs. */
  function Colons(h: string): string {
    if |h| <= 2 then h else h[..2] + ":" + Colons(h[2..])
  }

  function MacFmt(raw: string): Option<string> {
    if raw == "" then None
    else if |Digits(raw)| != 12 then Some(raw)
    else Some(Colons(Digits(raw)))
  }

  function DuidFmt(raw: string): Option<string> {
    if raw == "" then None else Some(Lower(Strip(raw)))
  }

  lemma {:induction false} WithoutAbsent(s: string, drop: char)
    requires drop !in s
    ensures Without(s, drop) == s
  {
    if s != [] { WithoutAbsent(s[1..], drop); }
  }

  lemma {:induction false} WithoutKeepsOut(s: string, drop: char, c: char)
    requires c == drop || c !in s
    ensures c !in Without(s, drop)
  {
    if s != [] { WithoutKeepsOut(s[1..], drop, c); }
  }

  lemma WithoutCons(c: char, s: string, drop: char)
    ensures Without([c] + s, drop) == if c == drop then Without(s, drop) else [c] + Without(s, drop)
  {
    assert ([c] + s)[1..] == s;
  }

  lemma {:induction false} ColonsVanish(h: string)
    requires ':' !in h && '-' !in h
    ensures Without(Colons(h), ':') == h && '-' !in Colons(h)
  {
    WithoutAbsent(h, ':');
    if |h| > 2 {
      var rest := Colons(h[2..]);
      ColonsVanish(h[2..]);
      WithoutCons(':', rest, ':');
      WithoutCons(h[1], [':'] + rest, ':');
      WithoutCons(h[0], [h[1]] + ([':'] + rest), ':');
      assert Colons(h) == [h[0]] + ([h[1]] + ([':'] + rest));
      assert h == [h[0]] + ([h[1]] + h[2..]);
    }
  }

  lemma LowerKeepsOut(s: string, c: char)
    requires c !in s && (c == ':' || c == '-')
    ensures c !in Lower(s)
  {
    forall i | 0 <= i < |s| ensures Lower(s)[i] != c {
      assert s[i] in s;
    }
  }

  lemma LowerTwice(s: string)
    ensures Lower(Lower(s)) == Lower(s)
  {
    forall i | 0 <= i < |s| ensures Lower(Lower(s))[i] == Lower(s)[i] {}
  }

  lemma DigitsArePlain(raw: string)
    ensures ':' !in Digits(raw) && '-' !in Digits(raw) && Lower(Digits(raw)) == Digits(raw)
  {
    var t := Without(Without(raw, ':'), '-');
    WithoutKeepsOut(raw, ':', ':');
    WithoutKeepsOut(Without(raw, ':'), '-', ':');
    WithoutKeepsOut(Without(raw, ':'), '-', '-');
    LowerKeepsOut(t, ':');
    LowerKeepsOut(t, '-');
    LowerTwice(t);
  }

  lemma DigitsOfColons(raw: string)
    ensures Digits(Colons(Digits(raw))) == Digits(raw)
  {
    DigitsArePlain(raw);
    ColonsVanish(Digits(raw));
    WithoutAbsent(Digits(raw), '-');
  }

  /** Two spellings of a hardware address name the same owner if and only if they are the same text
      or have the same twelve digits; and the stored form is itself stable. */
  lemma MacSpellingsAgreeIff(a: string, b: string)
    ensures MacFmt(a) == MacFmt(b) <==> a == b || (|Digits(a)| == 12 && Digits(a) == Digits(b))
    ensures MacFmt(a).Some? ==> MacFmt(MacFmt(a).value) == MacFmt(a)
  {
    DigitsOfColons(a);
    DigitsOfColons(b);
    assert Digits("") == "";
  }

  /** The digits of a text are its characters in lower case, colons and hyphens dropped. */
  lemma DigitsOfEach(c: char, s: string)
    ensures Digits("") == "" && Digits([c] + s) == if c == ':' || c == '-' then Digits(s) else [LowerChar(c)] + Digits(s)
  {
    WithoutCons(c, s, ':');
    WithoutCons(c, Without(s, ':'), '-');
    var t := Without(Without(s, ':'), '-');
    assert Lower([c] + t) == [LowerChar(c)] + Lower(t);
  }

  /** The i-th of `n` pairs, and the colon after it. */
  lemma {:induction false} PairAt(h: string, n: nat, i: nat)
    requires |h| == 2 * n && i < n
    ensures |Colons(h)| == 3 * n - 1
    ensures Colons(h)[3 * i] == h[2 * i] && Colons(h)[3 * i + 1] == h[2 * i + 1] && (i + 1 < n ==> Colons(h)[3 * i + 2] == ':')
  {
    if n > 1 {
      PairAt(h[2..], n - 1, if i == 0 then 0 else i - 1);
    }
  }

  /** Twelve digits are stored as six pairs separated by colons, any other text as it is. */
  lemma MacIsStoredAs(raw: string)
    ensures raw != "" && |Digits(raw)| != 12 ==> MacFmt(raw) == Some(raw)
    ensures |Digits(raw)| == 12 ==>
              && MacFmt(raw).Some? && |MacFmt(raw).value| == 17
              && forall i :: 0 <= i < 6 ==>
                   && MacFmt(raw).value[3 * i] == Digits(raw)[2 * i] && MacFmt(raw).value[3 * i + 1] == Digits(raw)[2 * i + 1]
                   && (i < 5 ==> MacFmt(raw).value[3 * i + 2] == ':')
  {
    if |Digits(raw)| == 12 {
      assert Digits("") == "";
      PairAt(Digits(raw), 6, 0);
      forall i | 0 <= i < 6
        ensures Colons(Digits(raw))[3 * i] == Digits(raw)[2 * i] && Colons(Digits(raw))[3 * i + 1] == Digits(raw)[2 * i + 1]
        ensures i < 5 ==> Colons(Digits(raw))[3 * i + 2] == ':'
      {
        PairAt(Digits(raw), 6, i);
      }
    }
  }

  lemma {:induction false} TrimRightLower(s: string)
    ensures TrimRight(Lower(s), IsSpace) == Lower(TrimRight(s, IsSpace))
  {
    if s != [] && IsSpace(s[|s| - 1]) {
      TrimRightLower(s[..|s| - 1]);
      assert Lower(s[..|s| - 1]) == Lower(s)[..|s| - 1];
    }
  }

  lemma {:induction false} TrimLeftLower(s: string)
    ensures TrimLeft(Lower(s), IsSpace) == Lower(TrimLeft(s, IsSpace))
  {
    if s != [] && IsSpace(s[0]) {
      TrimLeftLower(s[1..]);
      assert Lower(s[1..]) == Lower(s)[1..];
    }
  }

  /** Case never tells two spellings of a DUID apart. */
  lemma DuidIgnoresCase(a: string, b: string)
    requires Lower(a) == Lower(b)
    ensures DuidFmt(a) == DuidFmt(b)
  {
    TrimLeftLower(a);
    TrimLeftLower(b);
    TrimRightLower(TrimLeft(a, IsSpace));
    TrimRightLower(TrimLeft(b, IsSpace));
  }

  lemma {:induction false} TrimLeftBlanks(pre: string, s: string)
    requires forall i :: 0 <= i < |pre| ==> IsSpace(pre[i])
    ensures TrimLeft(pre + s, IsSpace) == TrimLeft(s, IsSpace)
  {
    if pre == [] {
      assert pre + s == s;
    } else {
      TrimLeftBlanks(pre[1..], s);
      assert (pre + s)[1..] == pre[1..] + s;
    }
  }

  lemma {:induction false} TrimRightBlanks(s: string, post: string)
    requires forall i :: 0 <= i < |post| ==> IsSpace(post[i])
    ensures TrimRight(s + post, IsSpace) == TrimRight(s, IsSpace)
  {
    if post == [] {
      assert s + post == s;
    } else {
      TrimRightBlanks(s, post[..|post| - 1]);
      assert (s + post)[..|s + post| - 1] == s + post[..|post| - 1];
    }
  }

  /** Blanks around a text are stripped, and nothing else. */
  lemma StripsTo(pre: string, s: string, post: string)
    requires forall i :: 0 <= i < |pre| ==> IsSpace(pre[i])
    requires forall i :: 0 <= i < |post| ==> IsSpace(post[i])
    requires s != "" && !IsSpace(s[0]) && !IsSpace(s[|s| - 1])
    ensures Strip(pre + (s + post)) == s
  {
    TrimLeftBlanks(pre, s + post);
    TrimRightBlanks(s, post);
  }

  /** A DUID is stored in lower case without the blanks around it. */
  lemma DuidIsStoredAs(pre: string, duid: string, post: string)
    requires forall i :: 0 <= i < |pre| ==> IsSpace(pre[i])
    requires forall i :: 0 <= i < |post| ==> IsSpace(post[i])
    requires duid != "" && !IsSpace(duid[0]) && !IsSpace(duid[|duid| - 1])
    ensures DuidFmt(pre + (duid + post)) == Some(Lower(duid))
  {
    StripsTo(pre, duid, post);
  }

  // ---- Which names may be claimed ----

  predicate IsLabel(s: string) {
    && 1 <= |s| <= 63 && s[0] != '-' && s[|s| - 1] != '-'
    && forall i :: 0 <= i < |s| ==> 'a' <= s[i] <= 'z' || 'A' <= s[i] <= 'Z' || '0' <= s[i] <= '9' || s[i] == '-'
  }

  function FirstDot(s: string): (n: nat)
    ensures n <= |s|
  {
    if s == [] || s[0] == '.' then 0 else 1 + FirstDot(s[1..])
  }

  predicate Labels(s: string)
    decreases |s|
  {
    var n := FirstDot(s);
    IsLabel(s[..n]) && (n == |s| || Labels(s[n + 1..]))
  }

  predicate Alphanumeric(c: char) { 'a' <= c <= 'z' || 'A' <= c <= 'Z' || '0' <= c <= '9' }

  function Joined(labels: seq<string>): string
    requires labels != []
  {
    if |labels| == 1 then labels[0] else labels[0] + "." + Joined(labels[1..])
  }

  lemma {:induction false} FirstDotAfter(part: string, rest: string)
    requires '.' !in part
    ensures FirstDot(part) == |part| && FirstDot(part + "." + rest) == |part|
  {
    if part != [] {
      FirstDotAfter(part[1..], rest);
      assert (part + "." + rest)[1..] == part[1..] + "." + rest;
    }
  }

  /** 1 to 63 letters, digits and hyphens, the first and the last a letter or digit (section 2.1 of RFC 1123). */
  predicate HostLabel(s: string) {
    1 <= |s| <= 63 && Alphanumeric(s[0]) && Alphanumeric(s[|s| - 1]) && forall c :: c in s ==> Alphanumeric(c) || c == '-'
  }

  lemma IsLabelIff(s: string)
    ensures IsLabel(s) <==> HostLabel(s)
  {
    assert |s| > 0 ==> s[0] in s && s[|s| - 1] in s;
    assert HostLabel(s) ==> forall i :: 0 <= i < |s| ==> s[i] in s;
  }

  /** A dotted text is a host name exactly when each part is a label. */
  lemma {:induction false} LabelsIff(labels: seq<string>)
    requires labels != [] && forall l :: l in labels ==> '.' !in l
    ensures Labels(Joined(labels)) <==> forall l :: l in labels ==> HostLabel(l)
    decreases |labels|
  {
    var s, l := Joined(labels), labels[0];
    assert l in labels && labels == [l] + labels[1..];
    IsLabelIff(l);
    if |labels| == 1 {
      FirstDotAfter(l, "");
      assert l[..|l|] == l;
    } else {
      LabelsIff(labels[1..]);
      FirstDotAfter(l, Joined(labels[1..]));
      assert s[..|l|] == l && s[|l| + 1..] == Joined(labels[1..]);
    }
  }

  /** A stripped, non-empty field that does not start a zone-file directive. */
  predicate FieldOk(v: string) { Strip(v) != "" && Strip(v)[0] != '$' }

  predicate NameOk(v: string) { v == "@" || Labels(v) }

  // ---- The record table, on values ----

  /** What a DDNS name is: A and AAAA records of one name are separate. */
  datatype Key = Key(zone: string, name: string, f: Family)

  predicate At(r: Record, k: Key) {
    r.zone == k.zone && r.name == k.name && r.rtype == RType(k.f)
  }

  /** The index of the first record at a name; the length of the table if there is none. */
  function Find(records: seq<Record>, k: Key): (i: nat)
    ensures i <= |records|
    ensures i < |records| ==> At(records[i], k)
    ensures forall j :: 0 <= j < i ==> !At(records[j], k)
  {
    if records == [] || At(records[0], k) then 0 else 1 + Find(records[1..], k)
  }

  function NewRecord(k: Key, data: string, ttl: int, owner: Option<string>): Record {
    Record(k.zone, k.name, RType(k.f), data, ttl, if k.f.V4? then owner else None, if k.f.V6? then owner else None)
  }

  /** The table after claiming `name` for `owner`, and whether the zone is flagged for refresh. */
  function Claimed(records: seq<Record>, k: Key, data: string, ttl: int, owner: Option<string>): (seq<Record>, bool) {
    var i := Find(records, k);
    if i == |records| then (records + [NewRecord(k, data, ttl, owner)], true)
    else if OwnerOf(records[i], k.f) == None || OwnerOf(records[i], k.f) != owner then (records, false)
    else (records[i := records[i].(data := data)], true)
  }

  function Upserted(
    records: seq<Record>, z: Zone, f: Family, hostname: string, ip: string, ttl: int, owner: Option<string>): (seq<Record>, bool)
  {
    var name := RelHostname(hostname, z.name);
    if !z.enabled || name == "" || !FieldOk(name) || !FieldOk(ip) || !NameOk(Strip(name)) then (records, false)
    else Claimed(records, Key(z.id, Strip(name), f), Strip(ip), ttl, owner)
  }

  predicate Releases(r: Record, k: Key, ip: string, owner: Option<string>) {
    At(r, k) && r.data == ip && OwnerOf(r, k.f) == owner
  }

  function Released(records: seq<Record>, k: Key, ip: string, owner: Option<string>): (left: seq<Record>)
    ensures |left| <= |records|
  {
    if records == [] then []
    else
      var rest := Released(records[1..], k, ip, owner);
      if Releases(records[0], k, ip, owner) then rest else [records[0]] + rest
  }

  lemma {:induction false} ReleasedMembers(records: seq<Record>, k: Key, ip: string, owner: Option<string>)
    ensures forall r :: r in Released(records, k, ip, owner) <==> r in records && !Releases(r, k, ip, owner)
  {
    if records != [] {
      ReleasedMembers(records[1..], k, ip, owner);
      assert records == [records[0]] + records[1..];
    }
  }

  function Deleted(records: seq<Record>, z: Zone, f: Family, hostname: string, ip: string, owner: Option<string>): (seq<Record>, bool) {
    var name := RelHostname(hostname, z.name);
    if name == "" || owner == None || owner == Some("") then (records, false)
    else
      var left := Released(records, Key(z.id, name, f), ip, owner);
      (left, |left| < |records|)
  }

  // ---- Lease events ----

  datatype Request = Nothing | Add(zone: Zone, f: Family, hostname: string, ip: string, ttl: int, owner: Option<string>)
                             | Expire(zone: Zone, f: Family, hostname: string, ip: string, owner: Option<string>)

  /** What a lease event asks of the record table. */
  function Decode(c: Config, e: DhcpEvent): Request {
    var f := if e.family == "6" then V6 else V4;
    var scopes := if f.V6? then c.scopes6 else c.scopes;
    var owner := if f.V6? then DuidFmt(e.duid) else MacFmt(e.mac);
    var hostname := Strip(e.hostname);
    if e.scopeId !in scopes then Nothing
    else
      var s := scopes[e.scopeId];
      if !s.ddnsEnabled || s.zone == "" || hostname == "" || s.zone !in c.zones then Nothing
      else if e.event == "add" then Add(c.zones[s.zone], f, hostname, e.ip, s.ttl, owner)
      else if e.event == "expire" || e.event == "delete" then Expire(c.zones[s.zone], f, hostname, e.ip, owner)
      else Nothing
  }

  function Served(records: seq<Record>, q: Request): (seq<Record>, bool) {
    match q
    case Nothing => (records, false)
    case Add(z, f, hostname, ip, ttl, owner) => Upserted(records, z, f, hostname, ip, ttl, owner)
    case Expire(z, f, hostname, ip, owner) => Deleted(records, z, f, hostname, ip, owner)
  }

  function Run(records: seq<Record>, c: Config, events: seq<DhcpEvent>): seq<Record>
    decreases |events|
  {
    if events == [] then records else Run(Served(records, Decode(c, events[0])).0, c, events[1..])
  }

  // ---- The table, updated in place ----

  class RecordTable {
    var records: seq<Record>
    var refreshed: set<string>

    constructor (records: seq<Record>)
      ensures this.records == records && refreshed == {}
    {
      this.records, refreshed := records, {};
    }

    /** One function serves A and AAAA records: they differ in type and owner column only. */
    method UpsertRecord(z: Zone, f: Family, hostname: string, ip: string, ttl: int, owner: Option<string>)
      modifies this
      ensures records == Upserted(old(records), z, f, hostname, ip, ttl, owner).0
      ensures refreshed == old(refreshed) + if Upserted(old(records), z, f, hostname, ip, ttl, owner).1 then {z.id} else {}
    {
      if !z.enabled { return; }
      var name := RelHostname(hostname, z.name);
      if name == "" || !FieldOk(name) || !FieldOk(ip) || !NameOk(Strip(name)) { return; }
      var k := Key(z.id, Strip(name), f);
      var i := 0;
      while i < |records| && !At(records[i], k)
        invariant i <= |records| && records == old(records) && refreshed == old(refreshed)
        invariant forall j :: 0 <= j < i ==> !At(records[j], k)
      {
        i := i + 1;
      }
      if i < |records| {
        if OwnerOf(records[i], f) == None { return; }
        if OwnerOf(records[i], f) != owner { return; }
        records := records[i := records[i].(data := Strip(ip))];
      } else {
        records := records + [NewRecord(k, Strip(ip), ttl, owner)];
      }
      refreshed := refreshed + {z.id};
    }

    method DeleteRecord(z: Zone, f: Family, hostname: string, ip: string, owner: Option<string>)
      modifies this
      ensures records == Deleted(old(records), z, f, hostname, ip, owner).0
      ensures refreshed == old(refreshed) + if Deleted(old(records), z, f, hostname, ip, owner).1 then {z.id} else {}
    {
      var name := RelHostname(hostname, z.name);
      if name == "" { return; }
      if owner == None || owner == Some("") { return; }
      var k := Key(z.id, name, f);
      var left: seq<Record> := [];
      var i := |records|;
      while i > 0
        invariant 0 <= i <= |records| && records == old(records) && refreshed == old(refreshed)
        invariant left == Released(records[i..], k, ip, owner)
      {
        i := i - 1;
        assert records[i..][0] == records[i] && records[i..][1..] == records[i + 1..];
        if !Releases(records[i], k, ip, owner) {
          left := [records[i]] + left;
        }
      }
      assert records[0..] == records;
      if |left| < |records| {
        refreshed := refreshed + {z.id};
      }
      ReleasedAll(records, k, ip, owner);
      records := left;
    }

    method HandleEvent(c: Config, e: DhcpEvent)
      modifies this
      ensures records == Served(old(records), Decode(c, e)).0 == Run(old(records), c, [e])
      ensures refreshed == old(refreshed) + if Served(old(records), Decode(c, e)).1 then {Decode(c, e).zone.id} else {}
    {
      var q := Decode(c, e);
      assert [e][1..] == [];
      match q
      case Nothing =>
      case Add(z, f, hostname, ip, ttl, owner) => UpsertRecord(z, f, hostname, ip, ttl, owner);
      case Expire(z, f, hostname, ip, owner) => DeleteRecord(z, f, hostname, ip, owner);
    }
  }

  /** Nothing is removed exactly when nothing matches. */
  lemma {:induction false} ReleasedAll(records: seq<Record>, k: Key, ip: string, owner: Option<string>)
    ensures |Released(records, k, ip, owner)| == |records| ==> Released(records, k, ip, owner) == records
  {
    if records != [] {
      ReleasedAll(records[1..], k, ip, owner);
    }
  }
}
