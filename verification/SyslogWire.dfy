/** Syslog lines: the RFC 5424 header, the cap on a line's bytes, and a receiver that reads the
    fields back. */
module SyslogWire {
  import opened Basics
  import opened Utf8

  const MAX_LINE_BYTES := 32_768
  const TRUNCATION_SUFFIX: string := "...[truncated]"
  const SPACE: Byte := 0x20

  // ---- Decimal numbers ----

  function Decimal(n: nat): (s: string)
    ensures s != []
  {
    if n < 10 then ['0' + n as char] else Decimal(n / 10) + ['0' + (n % 10) as char]
  }

  predicate IsDigit(b: Byte) { 0x30 <= b <= 0x39 }

  /** The number a receiver reads off the front, continuing from `acc`, and what follows it. */
  function ReadNumber(b: seq<Byte>, acc: nat): (r: (nat, seq<Byte>))
    ensures |r.1| <= |b|
  {
    if b != [] && IsDigit(b[0]) then ReadNumber(b[1..], acc * 10 + (b[0] - 0x30)) else (acc, b)
  }

  predicate StartsNoDigit(b: seq<Byte>) { b == [] || !IsDigit(b[0]) }

  lemma {:induction false} DecimalIsAscii(n: nat)
    ensures IsAscii(Decimal(n))
    ensures forall i :: 0 <= i < |Decimal(n)| ==> '0' <= Decimal(n)[i] <= '9'
    ensures n > 0 ==> Decimal(n)[0] != '0'
  {
    if n >= 10 {
      DecimalIsAscii(n / 10);
    }
  }

  /** Reading digits first and the rest afterwards is reading them all. */
  lemma {:induction false} ReadDigits(d: seq<Byte>, rest: seq<Byte>, acc: nat)
    requires forall i :: 0 <= i < |d| ==> IsDigit(d[i])
    ensures ReadNumber(d, acc).1 == []
    ensures ReadNumber(d + rest, acc) == ReadNumber(rest, ReadNumber(d, acc).0)
  {
    if d == [] {
      assert d + rest == rest;
    } else {
      ReadDigits(d[1..], rest, acc * 10 + (d[0] - 0x30));
      assert (d + rest)[1..] == d[1..] + rest;
    }
  }

  lemma EncodedDecimal(n: nat)
    ensures Encode(Decimal(n)) != [] && |Encode(Decimal(n))| == |Decimal(n)|
    ensures forall i :: 0 <= i < |Encode(Decimal(n))| ==> IsDigit(Encode(Decimal(n))[i])
    ensures n > 0 ==> Encode(Decimal(n))[0] != 0x30
  {
    DecimalIsAscii(n);
    EncodeAscii(Decimal(n));
  }

  /** Printing a number and reading it back. */
  lemma {:induction false} ReadDecimal(n: nat)
    ensures ReadNumber(Encode(Decimal(n)), 0) == (n, [])
  {
    EncodedDecimal(n);
    if n < 10 {
      EncodeAscii(Decimal(n));
      var d := Encode(Decimal(n));
      assert d[0] == 0x30 + n;
      assert d[1..] == [];
    } else {
      ReadDecimal(n / 10);
      EncodedDecimal(n / 10);
      LastDigit(n % 10);
      EncodeConcat(Decimal(n / 10), ['0' + (n % 10) as char]);
      ReadDigits(Encode(Decimal(n / 10)), [0x30 + n % 10], 0);
    }
  }

  lemma LastDigit(d: nat)
    requires d < 10
    ensures Encode(['0' + d as char]) == [0x30 + d]
    ensures forall acc: nat :: ReadNumber([0x30 + d], acc) == (acc * 10 + d, [])
  {
    EncodeAscii(['0' + d as char]);
    assert [0x30 + d][1..] == [];
  }

  lemma ReadDecimalThen(n: nat, rest: seq<Byte>)
    requires StartsNoDigit(rest)
    ensures ReadNumber(Encode(Decimal(n)) + rest, 0) == (n, rest)
  {
    EncodedDecimal(n);
    ReadDecimal(n);
    ReadDigits(Encode(Decimal(n)), rest, 0);
  }

  // ---- The line ----

  /** What a line needs of the sink and the event. `msg` is the CEF or JSON rendering. */
  datatype Event = Event(facility: nat, appName: string, timestamp: string, decision: string, msg: string)

  function Severity(decision: string): nat {
    if decision == "block" then 4 else 6
  }

  function AppName(e: Event): string {
    if e.appName == "" then "mantis-dns" else e.appName
  }

  function Header(e: Event): string {
    "<" + Decimal(e.facility * 8 + Severity(e.decision)) + ">1 " + e.timestamp + " - " + AppName(e) + " - - - "
  }

  predicate Oversize(header: string, msg: string) {
    |Encode(header)| + |Encode(msg)| > MAX_LINE_BYTES
  }

  /** The bytes of the message that a truncated line keeps, before dropping a split character. */
  function Room(header: string, suffix: string): nat {
    var room := MAX_LINE_BYTES - |Encode(header)| - |Encode(suffix)|;
    if room > 0 then room else 0
  }

  /** The message part of the line: cut at a byte budget, decoded with errors ignored, marked. */
  function Body(header: string, msg: string, suffix: string): string {
    if Oversize(header, msg) then
      var keep := Room(header, suffix);
      DecodeIgnore(if keep < |Encode(msg)| then Encode(msg)[..keep] else Encode(msg)) + suffix
    else msg
  }

  function ToSyslogLine(e: Event): string {
    Header(e) + Body(Header(e), e.msg, TRUNCATION_SUFFIX)
  }

  lemma LineLength(header: string, text: string, suffix: string)
    ensures |Encode(header + (text + suffix))| == |Encode(header)| + |Encode(text)| + |Encode(suffix)|
  {
    EncodeConcat(header, text + suffix);
    EncodeConcat(text, suffix);
  }

  /** A message whose line is within 32768 bytes is unchanged. Any other becomes a prefix of it and
      the marker: the longest prefix with which the line is within the limit, or none of it if
      header and marker alone exceed it. */
  lemma BodyIsLongestFit(header: string, msg: string, suffix: string) returns (n: nat)
    ensures n <= |msg|
    ensures |Encode(header + msg)| <= 32_768 ==> Body(header, msg, suffix) == msg
    ensures |Encode(header + msg)| > 32_768 ==>
              && Body(header, msg, suffix) == msg[..n] + suffix
              && (|Encode(header + (msg[..n] + suffix))| <= 32_768 || (n == 0 && |Encode(header + suffix)| > 32_768))
              && forall m :: n < m <= |msg| ==> |Encode(header + (msg[..m] + suffix))| > 32_768
  {
    n := 0;
    EncodeConcat(header, msg);
    if Oversize(header, msg) {
      var keep := Room(header, suffix);
      n := Fit(msg, keep);
      CutKeepsWholeCharacters(msg, keep);
      FitIsLongest(msg, keep);
      assert keep == |Encode(msg)| ==> Encode(msg)[..keep] == Encode(msg);
      EncodeConcat(header, suffix);
      LineLength(header, msg[..n], suffix);
      forall m | n < m <= |msg| ensures |Encode(header + (msg[..m] + suffix))| > 32_768 {
        LineLength(header, msg[..m], suffix);
      }
    }
  }

  /** The line fits the limit exactly when it fitted before, or header and marker leave room. */
  lemma LineFitsIff(header: string, msg: string, suffix: string)
    ensures |Encode(header + Body(header, msg, suffix))| <= MAX_LINE_BYTES
            <==> !Oversize(header, msg) || |Encode(header)| + |Encode(suffix)| <= MAX_LINE_BYTES
  {
    var n := BodyIsLongestFit(header, msg, suffix);
    EncodeConcat(header, msg);
    EncodeConcat(header, suffix);
    LineLength(header, msg[..n], suffix);
  }

  /** Without a bound on the header the limit can be exceeded. */
  lemma LongHeaderExceedsLimit() returns (header: string, msg: string)
    ensures |Encode(header + Body(header, msg, TRUNCATION_SUFFIX))| > MAX_LINE_BYTES
  {
    header, msg := seq(MAX_LINE_BYTES, _ => 'a'), "b";
    EncodeAscii(header);
    EncodeAscii(msg);
    EncodeAscii(TRUNCATION_SUFFIX);
    LineFitsIff(header, msg, TRUNCATION_SUFFIX);
  }

  // ---- The configuration API's bounds keep every line within the limit ----

  /** What the sink API accepts (facility 0..23, printable ASCII name of at most 48 characters)
      and the fixed timestamp shape, 27 ASCII characters without a space. */
  predicate Configured(e: Event) {
    && e.facility <= 23
    && |e.appName| <= 48 && Printable(e.appName)
    && |e.timestamp| == 27 && Printable(e.timestamp)
  }

  predicate Printable(s: string) {
    forall i :: 0 <= i < |s| ==> '!' <= s[i] <= '~'
  }

  lemma ThreeDigits(n: nat)
    requires n < 1000
    ensures |Decimal(n)| <= 3 && IsAscii(Decimal(n))
  {
    DecimalIsAscii(n);
    assert |Decimal(n / 10)| <= 2;
  }

  lemma HeaderIsShort(e: Event)
    requires Configured(e)
    ensures IsAscii(Header(e)) && |Encode(Header(e))| <= 100
  {
    ThreeDigits(e.facility * 8 + Severity(e.decision));
    AsciiParts(Decimal(e.facility * 8 + Severity(e.decision)), e.timestamp, AppName(e));
    EncodeAscii(Header(e));
  }

  lemma AsciiParts(pri: string, timestamp: string, appName: string)
    requires IsAscii(pri) && Printable(timestamp) && Printable(appName)
    ensures var header := "<" + pri + ">1 " + timestamp + " - " + appName + " - - - ";
            IsAscii(header) && |header| == |pri| + |timestamp| + |appName| + 14
  {
    AsciiConcat("<", pri);
    AsciiConcat("<" + pri, ">1 ");
    AsciiConcat("<" + pri + ">1 ", timestamp);
    AsciiConcat("<" + pri + ">1 " + timestamp, " - ");
    AsciiConcat("<" + pri + ">1 " + timestamp + " - ", appName);
    AsciiConcat("<" + pri + ">1 " + timestamp + " - " + appName, " - - - ");
  }

  lemma AsciiConcat(a: string, b: string)
    requires IsAscii(a) && IsAscii(b)
    ensures IsAscii(a + b)
  {}

  /** Every line of a configured sink is at most 32768 bytes of UTF-8. */
  lemma EveryLineFits(e: Event)
    requires Configured(e)
    ensures |Encode(ToSyslogLine(e))| <= 32_768
  {
    HeaderIsShort(e);
    EncodeAscii(TRUNCATION_SUFFIX);
    LineFitsIff(Header(e), e.msg, TRUNCATION_SUFFIX);
  }

  // ---- A receiver reads the line back (section 6 of RFC 5424) ----

  datatype Parsed = Parsed(
    facility: nat, severity: nat, timestamp: seq<Byte>, hostname: seq<Byte>, appName: seq<Byte>,
    procId: seq<Byte>, msgId: seq<Byte>, data: seq<Byte>, msg: seq<Byte>)

  /** The bytes before the first space, and those after it. */
  function Field(b: seq<Byte>): (r: (seq<Byte>, seq<Byte>))
    ensures |r.1| <= |b|
  {
    if b == [] then ([], [])
    else if b[0] == SPACE then ([], b[1..])
    else
      var rest := Field(b[1..]);
      ([b[0]] + rest.0, rest.1)
  }

  function After(b: seq<Byte>, prefix: seq<Byte>): Option<seq<Byte>> {
    if prefix <= b then Some(b[|prefix|..]) else None
  }

  const PRI_OPEN: seq<Byte> := [0x3C]                // <
  const PRI_CLOSE: seq<Byte> := [0x3E, 0x31, 0x20]   // >, version 1, space
  const NIL: seq<Byte> := [0x2D]                     // NILVALUE
  const OPEN: Byte := 0x5B                           // [
  const CLOSE: Byte := 0x5D                          // ]
  const QUOTE: Byte := 0x22
  const ESCAPE: Byte := 0x5C

  /** How many bytes the structured-data elements at the start take: bracketed, and inside quotes a
      bracket or quote is escaped (section 6.3 of RFC 5424). */
  function ElementsLength(b: seq<Byte>, inside: bool, quoted: bool): (n: nat)
    ensures n <= |b|
  {
    if b == [] then 0
    else if quoted && b[0] == ESCAPE && |b| > 1 then 2 + ElementsLength(b[2..], true, true)
    else if quoted then 1 + ElementsLength(b[1..], true, b[0] != QUOTE)
    else if inside then 1 + ElementsLength(b[1..], b[0] != CLOSE, b[0] == QUOTE)
    else if b[0] == OPEN then 1 + ElementsLength(b[1..], true, false)
    else 0
  }

  /** The structured data at the start, which is NILVALUE or elements, and the bytes after it. */
  function Data(b: seq<Byte>): (seq<Byte>, seq<Byte>) {
    var n := if NIL <= b then 1 else ElementsLength(b, false, false);
    (b[..n], b[n..])
  }

  /** The fields after priority and version, and the message after a space, if there is any. */
  function ParseFields(pri: nat, b: seq<Byte>): Option<Parsed> {
    var (timestamp, b1) := Field(b);
    var (hostname, b2) := Field(b1);
    var (appName, b3) := Field(b2);
    var (procId, b4) := Field(b3);
    var (msgId, b5) := Field(b4);
    var (data, b6) := Data(b5);
    if data == [] then None
    else if b6 == [] then Some(Parsed(pri / 8, pri % 8, timestamp, hostname, appName, procId, msgId, data, []))
    else
      match After(b6, [SPACE])
      case None => None
      case Some(msg) => Some(Parsed(pri / 8, pri % 8, timestamp, hostname, appName, procId, msgId, data, msg))
  }

  function ParseLine(b: seq<Byte>): Option<Parsed> {
    match After(b, PRI_OPEN)
    case None => None
    case Some(b1) =>
      var (pri, b2) := ReadNumber(b1, 0);
      match After(b2, PRI_CLOSE)
      case None => None
      case Some(b3) => ParseFields(pri, b3)
  }

  lemma {:induction false} FieldOf(word: seq<Byte>, rest: seq<Byte>)
    requires forall i :: 0 <= i < |word| ==> word[i] != SPACE
    ensures Field(word + ([SPACE] + rest)) == (word, rest)
  {
    var b := word + ([SPACE] + rest);
    if word == [] {
      assert b == [SPACE] + rest && b[1..] == rest;
    } else {
      FieldOf(word[1..], rest);
      assert b[0] == word[0] && b[1..] == word[1..] + ([SPACE] + rest);
      assert [word[0]] + word[1..] == word;
    }
  }

  predicate Word(b: seq<Byte>) { forall i :: 0 <= i < |b| ==> b[i] != SPACE }

  function Then(word: seq<Byte>, rest: seq<Byte>): seq<Byte> { word + ([SPACE] + rest) }

  /** The fields after the version, as the receiver sees them, with no structured data. */
  function Fields(timestamp: seq<Byte>, hostname: seq<Byte>, appName: seq<Byte>, procId: seq<Byte>, msgId: seq<Byte>, msg: seq<Byte>)
    : seq<Byte>
  {
    Then(timestamp, Then(hostname, Then(appName, Then(procId, Then(msgId, Then(NIL, msg))))))
  }

  /** Whatever words the fields are, the receiver finds them. */
  lemma FieldsParseBack(pri: nat, timestamp: seq<Byte>, hostname: seq<Byte>, appName: seq<Byte>,
                        procId: seq<Byte>, msgId: seq<Byte>, msg: seq<Byte>)
    requires Word(timestamp) && Word(hostname) && Word(appName) && Word(procId) && Word(msgId)
    ensures ParseFields(pri, Fields(timestamp, hostname, appName, procId, msgId, msg))
            == Some(Parsed(pri / 8, pri % 8, timestamp, hostname, appName, procId, msgId, NIL, msg))
  {
    var b5 := Then(NIL, msg);
    var b4 := Then(msgId, b5);
    var b3 := Then(procId, b4);
    var b2 := Then(appName, b3);
    var b1 := Then(hostname, b2);
    FieldOf(timestamp, b1);
    FieldOf(hostname, b2);
    FieldOf(appName, b3);
    FieldOf(procId, b4);
    FieldOf(msgId, b5);
    assert Data(b5) == (NIL, [SPACE] + msg);
    AfterOf([SPACE], msg);
  }

  lemma LineWithPri(pri: nat, b: seq<Byte>)
    ensures ParseLine(PRI_OPEN + (Encode(Decimal(pri)) + (PRI_CLOSE + b))) == ParseFields(pri, b)
  {
    AfterOf(PRI_OPEN, Encode(Decimal(pri)) + (PRI_CLOSE + b));
    ReadDecimalThen(pri, PRI_CLOSE + b);
    AfterOf(PRI_CLOSE, b);
  }

  lemma PriLiterals()
    ensures Encode("<") == PRI_OPEN && Encode(">1 ") == PRI_CLOSE
  {
    EncodeAscii("<");
    EncodeAscii(">1 ");
  }

  lemma OneNil(b: seq<Byte>)
    ensures Encode(" - ") + b == [SPACE] + Then(NIL, b)
  {
    EncodeAscii(" - ");
  }

  lemma ThreeNils(b: seq<Byte>)
    ensures Encode(" - - - ") + b == [SPACE] + Then(NIL, Then(NIL, Then(NIL, b)))
  {
    EncodeAscii(" - - - ");
    assert Encode(" - - - ") == [SPACE, 0x2D, SPACE, 0x2D, SPACE, 0x2D, SPACE];
  }

  lemma EncodedFields(timestamp: string, appName: string, body: string)
    ensures Encode(timestamp + (" - " + (appName + (" - - - " + body)))) ==
              Fields(Encode(timestamp), NIL, Encode(appName), NIL, NIL, Encode(body))
  {
    var l3 := " - - - " + body;
    var l2 := appName + l3;
    var l1 := " - " + l2;
    EncodeConcat(timestamp, l1);
    EncodeConcat(" - ", l2);
    EncodeConcat(appName, l3);
    EncodeConcat(" - - - ", body);
    OneNil(Encode(l2));
    ThreeNils(Encode(body));
  }

  lemma EncodedLine(e: Event, body: string)
    ensures Encode(Header(e) + body) ==
              PRI_OPEN + (Encode(Decimal(e.facility * 8 + Severity(e.decision))) +
                (PRI_CLOSE + Fields(Encode(e.timestamp), NIL, Encode(AppName(e)), NIL, NIL, Encode(body))))
  {
    var pri := Decimal(e.facility * 8 + Severity(e.decision));
    var l2 := e.timestamp + (" - " + (AppName(e) + (" - - - " + body)));
    var l1 := ">1 " + l2;
    assert Header(e) + body == "<" + (pri + l1);
    EncodeConcat("<", pri + l1);
    EncodeConcat(pri, l1);
    EncodeConcat(">1 ", l2);
    EncodedFields(e.timestamp, AppName(e), body);
    PriLiterals();
  }

  lemma AfterOf(prefix: seq<Byte>, rest: seq<Byte>)
    ensures After(prefix + rest, prefix) == Some(rest)
  {}

  lemma NoSpaces(s: string)
    requires Printable(s)
    ensures forall i :: 0 <= i < |Encode(s)| ==> Encode(s)[i] != SPACE
  {
    EncodeAscii(s);
  }

  lemma HeaderParsesBack(e: Event, body: string)
    requires Printable(e.timestamp) && Printable(e.appName)
    ensures ParseLine(Encode(Header(e) + body)) ==
              Some(Parsed(e.facility, Severity(e.decision), Encode(e.timestamp), NIL, Encode(AppName(e)), NIL, NIL, NIL, Encode(body)))
  {
    var pri, t, a, m := e.facility * 8 + Severity(e.decision), Encode(e.timestamp), Encode(AppName(e)), Encode(body);
    assert Word(t) by { NoSpaces(e.timestamp); }
    assert Word(a) by { NoSpaces(AppName(e)); }
    assert pri / 8 == e.facility && pri % 8 == Severity(e.decision);
    EncodedLine(e, body);
    LineWithPri(pri, Fields(t, NIL, a, NIL, NIL, m));
    FieldsParseBack(pri, t, NIL, a, NIL, NIL, m);
  }

  /** Facility, timestamp and application name ("mantis-dns" if none is set) come back as they were
      put in, the severity is 4 for a blocked query and 6 for any other, the other header fields are
      NILVALUE, and the message is everything after the header, whatever it contains. */
  lemma LineParsesBack(e: Event)
    requires Printable(e.timestamp) && Printable(e.appName)
    ensures ParseLine(Encode(ToSyslogLine(e))) ==
              Some(Parsed(e.facility, if e.decision == "block" then 4 else 6, Encode(e.timestamp), NIL,
                          Encode(if e.appName == "" then "mantis-dns" else e.appName), NIL, NIL, NIL,
                          Encode(Body(Header(e), e.msg, "...[truncated]"))))
  {
    HeaderParsesBack(e, Body(Header(e), e.msg, TRUNCATION_SUFFIX));
  }
}
