/** Owner names: how DDNS derives a record name from a client's hostname, how the zone export
    flattens it into the name a filter node serves, and when the two meet. */
module Names {

  // ---- The string operations the source uses ----

  predicate IsSpace(c: char) {
    || 0x09 as char <= c <= 0x0D as char || 0x1C as char <= c <= 0x20 as char
    || c in {0x85 as char, 0xA0 as char, 0x1680 as char, 0x2028 as char, 0x2029 as char, 0x202F as char, 0x205F as char, 0x3000 as char}
    || 0x2000 as char <= c <= 0x200A as char
  }

  function TrimRight(s: string, drop: char -> bool): (t: string)
    ensures t <= s && (t != [] ==> !drop(t[|t| - 1]))
  {
    if s != [] && drop(s[|s| - 1]) then TrimRight(s[..|s| - 1], drop) else s
  }

  function TrimLeft(s: string, drop: char -> bool): (t: string)
    ensures |t| <= |s| && (t != [] ==> !drop(t[0]))
  {
    if s != [] && drop(s[0]) then TrimLeft(s[1..], drop) else s
  }

  function Strip(s: string): string { TrimRight(TrimLeft(s, IsSpace), IsSpace) }

  function TrimDots(s: string): string { TrimRight(s, c => c == '.') }

  function LowerChar(c: char): char { if 'A' <= c <= 'Z' then c - 'A' + 'a' else c }

  /** Lower case of the ASCII letters. */
  function Lower(s: string): (t: string)
    ensures |t| == |s|
    ensures forall i :: 0 <= i < |s| ==> t[i] == LowerChar(s[i])
  {
    seq(|s|, i requires 0 <= i < |s| => LowerChar(s[i]))
  }

  predicate EndsWith(s: string, t: string) {
    |t| <= |s| && s[|s| - |t|..] == t
  }

  // ---- The two directions ----

  predicate InZone(name: string, zone: string) {
    name == zone || EndsWith(name, "." + zone)
  }

  /** The name relative to the zone: "@" for the apex, the part in front of the zone, or the name. */
  function Relative(name: string, zone: string): string {
    if EndsWith(name, "." + zone) then name[..|name| - |zone| - 1]
    else if name == zone then "@"
    else name
  }

  function Absolute(rel: string, zone: string): string {
    if rel == "@" then zone else rel + "." + zone
  }

  /** The record name DDNS gives a hostname in a zone. */
  function RelHostname(hostname: string, zone: string): string {
    Relative(TrimDots(hostname), TrimDots(zone))
  }

  function Owner(name: string): string {
    TrimDots(Lower(Strip(name)))
  }

  /** The fully qualified name under which a record is served. */
  function Flatten(name: string, zone: string): string {
    Absolute(Relative(Owner(name), zone), zone)
  }

  /** A stored record, as far as the name it is served under goes. */
  datatype ZoneRecord = ZoneRecord(name: string, enabled: bool)

  /** The names a filter node is given for a zone's records: the enabled ones, flattened, in order. */
  function ServedNames(records: seq<ZoneRecord>, zone: string): seq<string> {
    if records == [] then []
    else
      var last := records[|records| - 1];
      var before := ServedNames(records[..|records| - 1], zone);
      if last.enabled then before + [Flatten(last.name, zone)] else before
  }

  predicate Serves(r: ZoneRecord, zone: string, fqdn: string) { r.enabled && Flatten(r.name, zone) == fqdn }

  lemma {:induction false} ServedFrom(records: seq<ZoneRecord>, zone: string, fqdn: string) returns (r: ZoneRecord)
    requires fqdn in ServedNames(records, zone)
    ensures r in records && Serves(r, zone, fqdn)
  {
    var n := |records| - 1;
    if fqdn in ServedNames(records[..n], zone) {
      r := ServedFrom(records[..n], zone, fqdn);
    } else {
      r := records[n];
    }
  }

  lemma {:induction false} EnabledIsServed(records: seq<ZoneRecord>, zone: string, i: nat)
    requires i < |records| && records[i].enabled
    ensures Flatten(records[i].name, zone) in ServedNames(records, zone)
  {
    var n := |records| - 1;
    if i < n {
      EnabledIsServed(records[..n], zone, i);
    }
  }

  /** A name is served exactly when some enabled record flattens to it. */
  lemma ServedIffEnabled(records: seq<ZoneRecord>, zone: string, fqdn: string)
    ensures fqdn in ServedNames(records, zone) <==> exists r :: r in records && Serves(r, zone, fqdn)
  {
    if fqdn in ServedNames(records, zone) {
      var r := ServedFrom(records, zone, fqdn);
    }
    if r :| r in records && Serves(r, zone, fqdn) {
      var i :| 0 <= i < |records| && records[i] == r;
      EnabledIsServed(records, zone, i);
    }
  }

  method FlattenOwner(name: string, zone: string) returns (fqdn: string)
    ensures fqdn == Flatten(name, zone)
  {
    var owner := Owner(name);
    var suffix := "." + zone;
    if owner == zone {
      owner := "@";
    } else if EndsWith(owner, suffix) {
      owner := owner[..|owner| - |suffix|];
    }
    return if owner == "@" then zone else owner + "." + zone;
  }

  method LocalZoneNames(records: seq<ZoneRecord>, zone: string) returns (out: seq<string>)
    ensures out == ServedNames(records, zone)
  {
    out := [];
    for i := 0 to |records|
      invariant out == ServedNames(records[..i], zone)
    {
      assert records[..i + 1][..i] == records[..i];
      if !records[i].enabled { continue; }
      var fqdn := FlattenOwner(records[i].name, zone);
      out := out + [fqdn];
    }
    assert records[..|records|] == records;
  }

  /** Lower-case labels separated by single dots. */
  predicate LabelSequence(s: string) {
    && s != [] && s[0] != '.' && s[|s| - 1] != '.'
    && (forall i :: 0 <= i < |s| ==> 'a' <= s[i] <= 'z' || '0' <= s[i] <= '9' || s[i] == '-' || s[i] == '.')
    && (forall i :: 0 < i < |s| ==> !(s[i - 1] == '.' && s[i] == '.'))
  }

  // ---- Normal forms ----

  /** A lower-case name without blanks is only ever stripped of final dots. */
  lemma NoBlanks(s: string)
    requires forall i :: 0 <= i < |s| ==> !IsSpace(s[i]) && !('A' <= s[i] <= 'Z')
    ensures Lower(Strip(s)) == s
  {
    assert Lower(s) == s;
  }

  lemma NormalForm(s: string)
    requires s != [] && s[|s| - 1] != '.'
    requires forall i :: 0 <= i < |s| ==> !IsSpace(s[i]) && !('A' <= s[i] <= 'Z')
    ensures TrimDots(s) == s && Owner(s) == s
  {
    NoBlanks(s);
  }

  /** One final dot does not matter. */
  lemma FinalDot(s: string)
    requires LabelSequence(s)
    ensures Owner(s + ".") == s
  {
    NormalForm(s);
    NoBlanks(s + ".");
    assert (s + ".")[..|s|] == s;
  }

  lemma Split(front: string, zone: string)
    ensures EndsWith(front + "." + zone, "." + zone) && Relative(front + "." + zone, zone) == front
  {
    var full := front + "." + zone;
    assert full[|front|..] == "." + zone && full[..|front|] == front;
  }

  lemma Join(name: string, zone: string)
    requires EndsWith(name, "." + zone)
    ensures name == Relative(name, zone) + "." + zone
  {}

  lemma PartLabels(front: string, zone: string)
    requires LabelSequence(zone)
    ensures LabelSequence(front) ==> LabelSequence(front + "." + zone)
    ensures LabelSequence(front + "." + zone) ==> LabelSequence(front)
  {
    var full := front + "." + zone;
    assert full[..|front|] == front && full[|front|] == '.' && full[|front| + 1..] == zone;
    if LabelSequence(full) && front != [] {
      assert full[|front| - 1] == front[|front| - 1];
    }
  }

  /** Going to the relative name and back serves a name in the zone at itself, any other below it. */
  lemma AbsoluteOfRelative(name: string, zone: string)
    requires LabelSequence(name) && LabelSequence(zone)
    ensures Absolute(Relative(name, zone), zone) == if InZone(name, zone) then name else name + "." + zone
  {
    if EndsWith(name, "." + zone) {
      Join(name, zone);
      PartLabels(Relative(name, zone), zone);
    }
  }

  /** The relative name of a label sequence is "@" or a label sequence. */
  lemma RelativeLabels(name: string, zone: string)
    requires LabelSequence(name) && LabelSequence(zone)
    ensures Relative(name, zone) == "@" || LabelSequence(Relative(name, zone))
    ensures Owner(Relative(name, zone)) == Relative(name, zone)
  {
    if EndsWith(name, "." + zone) {
      Join(name, zone);
      PartLabels(Relative(name, zone), zone);
    }
    NormalForm(Relative(name, zone));
  }

  lemma RelativeTwiceIff(name: string, zone: string)
    requires LabelSequence(name) && LabelSequence(zone)
    ensures var rel := Relative(name, zone);
            Absolute(Relative(rel, zone), zone) == (if InZone(name, zone) then name else name + "." + zone)
            <==> !InZone(rel, zone)
  {
    var rel := Relative(name, zone);
    RelativeLabels(name, zone);
    if rel == "@" {
      assert zone[0] != '@';
    } else {
      AbsoluteOfRelative(rel, zone);
      if EndsWith(name, "." + zone) { Join(name, zone); }
    }
  }

  // ---- The results ----

  /** A DDNS record is served at the client's own name if that is in the zone, and at hostname.zone
      if not, if and only if the part in front of the zone is not itself in the zone. */
  lemma ServedAtHostnameIff(hostname: string, zone: string)
    requires LabelSequence(hostname) && LabelSequence(zone)
    ensures Flatten(RelHostname(hostname, zone), zone) == (if InZone(hostname, zone) then hostname else hostname + "." + zone)
            <==> !InZone(RelHostname(hostname, zone), zone)
  {
    NormalForm(hostname);
    NormalForm(zone);
    RelativeLabels(hostname, zone);
    RelativeTwiceIff(hostname, zone);
  }

  /** A name in the zone is served as it is, with or without a final dot. */
  lemma AbsoluteIsServed(full: string, zone: string)
    requires LabelSequence(full) && LabelSequence(zone) && InZone(full, zone)
    ensures Flatten(full, zone) == full && Flatten(full + ".", zone) == full
  {
    assert Owner(full) == full by { NormalForm(full); }
    assert Owner(full + ".") == full by { FinalDot(full); }
    AbsoluteOfRelative(full, zone);
  }

  lemma RelativeServedIff(owner: string, zone: string)
    requires LabelSequence(owner) && LabelSequence(zone)
    ensures Flatten(owner, zone) == owner + "." + zone <==> !InZone(owner, zone)
  {
    assert Owner(owner) == owner by { NormalForm(owner); }
    AbsoluteOfRelative(owner, zone);
  }

  /** The relative and the absolute spelling of an owner are served at the same name if and only
      if the relative one is not itself in the zone; a final dot never matters. */
  lemma SpellingsAgreeIff(owner: string, zone: string)
    requires LabelSequence(owner) && LabelSequence(zone)
    ensures var full := owner + "." + zone;
            && Flatten(full, zone) == full
            && Flatten(full + ".", zone) == full
            && (Flatten(owner, zone) == full <==> !InZone(owner, zone))
  {
    PartLabels(owner, zone);
    Split(owner, zone);
    AbsoluteIsServed(owner + "." + zone, zone);
    RelativeServedIff(owner, zone);
  }

  /** The whole failing family: a hostname with the zone twice at its end is served with it once. */
  lemma DoubledZoneIsServedOnce(front: string, zone: string)
    requires LabelSequence(front) && LabelSequence(zone)
    ensures var once := front + "." + zone;
            && Flatten(RelHostname(once + "." + zone, zone), zone) == once
            && InZone(once + "." + zone, zone) && once + "." + zone != once
  {
    var once := front + "." + zone;
    PartLabels(front, zone);
    PartLabels(once, zone);
    NormalForm(once + "." + zone);
    NormalForm(zone);
    Split(once, zone);
    SpellingsAgreeIff(front, zone);
  }

  lemma HostInDoubledZone()
    ensures Flatten(RelHostname("host.a.b.a.b", "a.b"), "a.b") == "host.a.b"
  {
    assert "host" + "." + "a.b" == "host.a.b" && "host.a.b" + "." + "a.b" == "host.a.b.a.b";
    DoubledZoneIsServedOnce("host", "a.b");
  }
}
