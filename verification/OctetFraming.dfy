/** Octet-counting framing (section 3.4.1 of RFC 6587): the writer loop of the TCP/TLS
    transport, and a receiver that recovers the messages from any prefix of the stream. */
module OctetFraming {
  import opened Utf8
  import opened SyslogWire

  type Message = seq<Byte>

  function Frame(m: Message): seq<Byte> {
    Encode(Decimal(|m|)) + ([SPACE] + m)
  }

  function Stream(msgs: seq<Message>): seq<Byte> {
    if msgs == [] then [] else Frame(msgs[0]) + Stream(msgs[1..])
  }

  // ---- The writer ----

  class Writer {
    var written: seq<Byte>

    constructor ()
      ensures written == []
    {
      written := [];
    }

    method Write(data: seq<Byte>)
      modifies this
      ensures written == old(written) + data
    {
      written := written + data;
    }
  }

  function EncodeAll(lines: seq<string>): (msgs: seq<Message>)
    ensures |msgs| == |lines|
    ensures forall i :: 0 <= i < |lines| ==> msgs[i] == Encode(lines[i])
  {
    if lines == [] then [] else [Encode(lines[0])] + EncodeAll(lines[1..])
  }

  method SendTcp(writer: Writer, lines: seq<string>)
    modifies writer
    ensures writer.written == old(writer.written) + Stream(EncodeAll(lines))
  {
    ghost var msgs := EncodeAll(lines);
    assert msgs[..0] == [];
    for i := 0 to |lines|
      invariant writer.written == old(writer.written) + Stream(msgs[..i])
    {
      var data := Encode(lines[i]);
      var count := Encode(Decimal(|data|) + " ");
      writer.Write(count);
      writer.Write(data);
      FrameIsPrefixed(data);
      StreamSnoc(msgs, i);
      Assoc(old(writer.written) + Stream(msgs[..i]), count, data);
      Assoc(old(writer.written), Stream(msgs[..i]), Frame(data));
    }
    assert msgs[..|lines|] == msgs;
  }

  lemma FrameIsPrefixed(m: Message)
    ensures Frame(m) == Encode(Decimal(|m|) + " ") + m
  {
    EncodeConcat(Decimal(|m|), " ");
    EncodeAscii(" ");
    assert Encode(" ") == [SPACE];
    Assoc(Encode(Decimal(|m|)), [SPACE], m);
  }

  lemma {:induction false} StreamConcat(a: seq<Message>, b: seq<Message>)
    ensures Stream(a + b) == Stream(a) + Stream(b)
  {
    if a == [] {
      assert a + b == b;
    } else {
      StreamConcat(a[1..], b);
      assert (a + b)[0] == a[0] && (a + b)[1..] == a[1..] + b;
      Assoc(Frame(a[0]), Stream(a[1..]), Stream(b));
    }
  }

  lemma StreamSnoc(msgs: seq<Message>, i: nat)
    requires i < |msgs|
    ensures Stream(msgs[..i + 1]) == Stream(msgs[..i]) + Frame(msgs[i])
  {
    var one := [msgs[i]];
    assert Stream(one) == Frame(msgs[i]) by {
      assert one[1..] == [];
      assert Frame(msgs[i]) + [] == Frame(msgs[i]);
    }
    assert msgs[..i + 1] == msgs[..i] + one;
    StreamConcat(msgs[..i], one);
  }

  // ---- The receiver ----

  datatype Reading = Complete(msg: Message, rest: seq<Byte>) | Incomplete | Malformed

  /** MSG-LEN is a digit other than 0 followed by digits; then a space and that many octets. */
  function ReadFrame(b: seq<Byte>): (r: Reading)
    ensures r.Complete? ==> |r.rest| < |b|
  {
    if b == [] then Incomplete
    else if !IsDigit(b[0]) || b[0] == 0x30 then Malformed
    else
      var (n, tail) := ReadNumber(b, 0);
      if tail == [] then Incomplete
      else if tail[0] != SPACE then Malformed
      else if |tail| - 1 < n then Incomplete
      else Complete(tail[1..1 + n], tail[1 + n..])
  }

  /** The messages received so far, and the bytes not yet accounted for. */
  function Receive(b: seq<Byte>): (seq<Message>, seq<Byte>)
    decreases |b|
  {
    match ReadFrame(b)
    case Complete(msg, rest) => var more := Receive(rest); ([msg] + more.0, more.1)
    case _ => ([], b)
  }

  lemma ReadWholeFrame(m: Message, rest: seq<Byte>)
    requires m != []
    ensures ReadFrame(Frame(m) + rest) == Complete(m, rest)
  {
    var tail := [SPACE] + m + rest;
    assert Frame(m) + rest == Encode(Decimal(|m|)) + tail;
    EncodedDecimal(|m|);
    ReadDecimalThen(|m|, tail);
    assert tail[1..1 + |m|] == m && tail[1 + |m|..] == rest;
  }

  /** A frame cut anywhere is incomplete, never malformed and never another frame. */
  lemma ReadCutFrame(m: Message, k: nat)
    requires m != [] && k < |Frame(m)|
    ensures ReadFrame(Frame(m)[..k]) == Incomplete
  {
    var d := Encode(Decimal(|m|));
    EncodedDecimal(|m|);
    if 0 < k <= |d| {
      assert Frame(m)[..k] == d[..k];
      ReadDigits(d[..k], [], 0);
    } else if k > |d| {
      var tail := ([SPACE] + m)[..k - |d|];
      assert Frame(m)[..k] == d + tail;
      ReadDecimalThen(|m|, tail);
    }
  }

  predicate NonEmpty(msgs: seq<Message>) {
    forall i :: 0 <= i < |msgs| ==> msgs[i] != []
  }

  /** With `k` bytes of the stream received, the first `j` messages are complete, the next is
      not, and the receiver holds exactly those messages and the bytes beyond them. */
  predicate ReceivedUpTo(msgs: seq<Message>, k: nat, j: nat) {
    && k <= |Stream(msgs)| && j <= |msgs|
    && |Stream(msgs[..j])| <= k
    && (j < |msgs| ==> k < |Stream(msgs[..j + 1])|)
    && Receive(Stream(msgs)[..k]) == (msgs[..j], Stream(msgs)[..k][|Stream(msgs[..j])|..])
  }

  /** However the stream is cut, the receiver has exactly the messages whose frames are complete
      and holds back the bytes of the next one. */
  lemma {:induction false} CutStreamGivesPrefix(msgs: seq<Message>, k: nat) returns (j: nat)
    requires NonEmpty(msgs) && k <= |Stream(msgs)|
    ensures ReceivedUpTo(msgs, k, j)
  {
    if msgs == [] {
      j := 0;
    } else if k < |Frame(msgs[0])| {
      j := 0;
      CutInFirst(msgs, k);
    } else {
      var i := CutStreamGivesPrefix(msgs[1..], k - |Frame(msgs[0])|);
      j := i + 1;
      CutLater(msgs, k, i);
    }
  }

  lemma CutInFirst(msgs: seq<Message>, k: nat)
    requires msgs != [] && NonEmpty(msgs) && k < |Frame(msgs[0])|
    ensures ReceivedUpTo(msgs, k, 0)
  {
    var cut := Stream(msgs)[..k];
    assert cut == Frame(msgs[0])[..k];
    ReadCutFrame(msgs[0], k);
    HeadPrefix(msgs, 1);
    assert cut[0..] == cut;
  }

  lemma CutLater(msgs: seq<Message>, k: nat, i: nat)
    requires msgs != [] && NonEmpty(msgs) && |Frame(msgs[0])| <= k
    requires ReceivedUpTo(msgs[1..], k - |Frame(msgs[0])|, i)
    ensures ReceivedUpTo(msgs, k, i + 1)
  {
    var f := Frame(msgs[0]);
    var cut := Stream(msgs[1..])[..k - |f|];
    assert Stream(msgs)[..k] == f + cut;
    ReadWholeFrame(msgs[0], cut);
    HeadPrefix(msgs, i + 1);
    if i + 1 < |msgs| { HeadPrefix(msgs, i + 2); }
    DropConcat(f, cut, |Stream(msgs[1..][..i])|);
  }

  lemma DropConcat<T>(a: seq<T>, b: seq<T>, n: nat)
    requires n <= |b|
    ensures (a + b)[|a| + n..] == b[n..]
  {}

  lemma HeadPrefix(msgs: seq<Message>, j: nat)
    requires 0 < j <= |msgs|
    ensures msgs[..j] == [msgs[0]] + msgs[1..][..j - 1]
    ensures Stream(msgs[..j]) == Frame(msgs[0]) + Stream(msgs[1..][..j - 1])
  {
    assert msgs[..j][1..] == msgs[1..][..j - 1];
  }

  /** The receiver recovers exactly the list of messages, whatever bytes they contain. */
  lemma {:induction false} StreamRoundTrip(msgs: seq<Message>)
    requires NonEmpty(msgs)
    ensures Receive(Stream(msgs)) == (msgs, [])
  {
    if msgs != [] {
      ReadWholeFrame(msgs[0], Stream(msgs[1..]));
      StreamRoundTrip(msgs[1..]);
      assert [msgs[0]] + msgs[1..] == msgs;
    }
  }

  // ---- End to end ----

  function LinesOf(events: seq<Event>): (lines: seq<string>)
    ensures |lines| == |events|
    ensures forall i :: 0 <= i < |events| ==> lines[i] == ToSyslogLine(events[i])
  {
    if events == [] then [] else [ToSyslogLine(events[0])] + LinesOf(events[1..])
  }

  /** What a collector reads off the socket for a batch of events decodes to the batch's lines,
      one message per event and in order, each of at most 32768 bytes. */
  lemma BatchArrives(events: seq<Event>)
    requires forall i :: 0 <= i < |events| ==> Configured(events[i])
    ensures var received := Receive(Stream(EncodeAll(LinesOf(events))));
            && received.1 == [] && |received.0| == |events|
            && forall i :: 0 <= i < |events| ==>
                 |received.0[i]| <= MAX_LINE_BYTES && DecodeIgnore(received.0[i]) == ToSyslogLine(events[i])
  {
    var msgs := EncodeAll(LinesOf(events));
    forall i | 0 <= i < |events|
      ensures msgs[i] != [] && |msgs[i]| <= MAX_LINE_BYTES && DecodeIgnore(msgs[i]) == ToSyslogLine(events[i])
    {
      EveryLineFits(events[i]);
      DecodeEncode(ToSyslogLine(events[i]));
    }
    StreamRoundTrip(msgs);
  }
}
