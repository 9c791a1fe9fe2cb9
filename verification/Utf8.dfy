/** UTF-8 (section 3 of RFC 3629) and decoding with errors ignored, as far as truncating a
    message needs them: a byte budget that cuts a character in two keeps the whole ones before it. */
module Utf8 {
  import opened Basics

  type Byte = b: int | 0 <= b < 256

  function EncodeChar(c: char): (bytes: seq<Byte>)
    ensures 1 <= |bytes| <= 4
  {
    var v := c as int;
    if v < 0x80 then [v]
    else if v < 0x800 then [0xC0 + v / 0x40, 0x80 + v % 0x40]
    else if v < 0x10000 then [0xE0 + v / 0x1000, 0x80 + v / 0x40 % 0x40, 0x80 + v % 0x40]
    else [0xF0 + v / 0x40000, 0x80 + v / 0x1000 % 0x40, 0x80 + v / 0x40 % 0x40, 0x80 + v % 0x40]
  }

  function Encode(s: string): (bytes: seq<Byte>)
    ensures |s| <= |bytes|
  {
    if s == [] then [] else EncodeChar(s[0]) + Encode(s[1..])
  }

  predicate IsContinuation(b: Byte) { 0x80 <= b < 0xC0 }

  predicate IsScalar(v: int) { 0 <= v < 0xD800 || 0xE000 <= v < 0x110000 }

  /** The character a byte sequence starts with and its length, if it starts with a complete and
      well-formed one: shortest form only, no surrogates, nothing above U+10FFFF. */
  function DecodeHead(b: seq<Byte>): Option<(char, nat)> {
    if b == [] then None
    else if b[0] < 0x80 then Some((b[0] as char, 1))
    else if 0xC0 <= b[0] < 0xE0 && |b| >= 2 && IsContinuation(b[1]) then
      var v := (b[0] as int - 0xC0) * 0x40 + (b[1] as int - 0x80);
      if 0x80 <= v then Some((v as char, 2)) else None
    else if 0xE0 <= b[0] < 0xF0 && |b| >= 3 && IsContinuation(b[1]) && IsContinuation(b[2]) then
      var v := (b[0] as int - 0xE0) * 0x1000 + (b[1] as int - 0x80) * 0x40 + (b[2] as int - 0x80);
      if 0x800 <= v && IsScalar(v) then Some((v as char, 3)) else None
    else if 0xF0 <= b[0] < 0xF8 && |b| >= 4 && IsContinuation(b[1]) && IsContinuation(b[2]) && IsContinuation(b[3]) then
      var v := (b[0] as int - 0xF0) * 0x40000 + (b[1] as int - 0x80) * 0x1000 + (b[2] as int - 0x80) * 0x40 + (b[3] as int - 0x80);
      if 0x10000 <= v && IsScalar(v) then Some((v as char, 4)) else None
    else None
  }

  /** Decoding with errors="ignore". Dropping an ill-formed sequence one byte at a time gives the
      same text as dropping it whole: its remaining bytes are continuation bytes, which start nothing. */
  function DecodeIgnore(b: seq<Byte>): string {
    if b == [] then []
    else match DecodeHead(b)
      case Some((c, n)) => (assert 1 <= n <= |b|; [c] + DecodeIgnore(b[n..]))
      case None => DecodeIgnore(b[1..])
  }

  // ---- One character ----

  lemma SplitThree(v: int)
    requires 0 <= v
    ensures v == v / 0x1000 * 0x1000 + v / 0x40 % 0x40 * 0x40 + v % 0x40
    ensures v < 0x10000 ==> v / 0x1000 < 16
  {}

  lemma SplitFour(v: int)
    requires 0 <= v
    ensures v == v / 0x40000 * 0x40000 + v / 0x1000 % 0x40 * 0x1000 + v / 0x40 % 0x40 * 0x40 + v % 0x40
    ensures v < 0x110000 ==> v / 0x40000 < 8
  {
    SplitThree(v);
  }

  lemma HeadOfEncoded(c: char, rest: seq<Byte>)
    ensures DecodeHead(EncodeChar(c) + rest) == Some((c, |EncodeChar(c)|))
  {
    var v, b := c as int, EncodeChar(c) + rest;
    if 0x800 <= v < 0x10000 {
      SplitThree(v);
      assert b[0] == 0xE0 + v / 0x1000 && b[1] == 0x80 + v / 0x40 % 0x40 && b[2] == 0x80 + v % 0x40;
    } else if 0x10000 <= v {
      SplitFour(v);
      assert b[0] == 0xF0 + v / 0x40000 && b[1] == 0x80 + v / 0x1000 % 0x40;
      assert b[2] == 0x80 + v / 0x40 % 0x40 && b[3] == 0x80 + v % 0x40;
    }
  }

  lemma {:induction false} ContinuationsVanish(b: seq<Byte>)
    requires forall i :: 0 <= i < |b| ==> IsContinuation(b[i])
    ensures DecodeIgnore(b) == []
  {
    if b != [] {
      ContinuationsVanish(b[1..]);
    }
  }

  /** A character cut short leaves nothing. */
  lemma CutCharVanishes(c: char, k: nat)
    requires k < |EncodeChar(c)|
    ensures DecodeIgnore(EncodeChar(c)[..k]) == []
  {
    if k > 0 {
      var b := EncodeChar(c)[..k];
      assert DecodeHead(b) == None;
      ContinuationsVanish(b[1..]);
    }
  }

  // ---- Cutting a text ----

  /** How many whole characters fit into `budget` bytes. */
  function Fit(s: string, budget: nat): (n: nat)
    ensures n <= |s|
  {
    if s == [] || |EncodeChar(s[0])| > budget then 0
    else 1 + Fit(s[1..], budget - |EncodeChar(s[0])|)
  }

  /** `Fit` is the longest prefix that fits. */
  lemma {:induction false} FitIsLongest(s: string, budget: nat)
    ensures |Encode(s[..Fit(s, budget)])| <= budget
    ensures forall m :: Fit(s, budget) < m <= |s| ==> |Encode(s[..m])| > budget
  {
    var n := Fit(s, budget);
    if n == 0 {
      forall m | 0 < m <= |s| ensures |Encode(s[..m])| > budget {
        assert s[..m][0] == s[0];
      }
    } else {
      var rest := budget - |EncodeChar(s[0])|;
      FitIsLongest(s[1..], rest);
      assert s[..n][1..] == s[1..][..n - 1];
      forall m | n < m <= |s| ensures |Encode(s[..m])| > budget {
        assert s[..m][1..] == s[1..][..m - 1];
      }
    }
  }

  /** Cutting the encoding at any byte and ignoring errors keeps exactly the characters that fit. */
  lemma {:induction false} CutKeepsWholeCharacters(s: string, budget: nat)
    requires budget <= |Encode(s)|
    ensures DecodeIgnore(Encode(s)[..budget]) == s[..Fit(s, budget)]
  {
    if s != [] {
      var head, tail := EncodeChar(s[0]), Encode(s[1..]);
      if |head| > budget {
        assert Encode(s)[..budget] == head[..budget];
        CutCharVanishes(s[0], budget);
      } else {
        var cut := tail[..budget - |head|];
        assert Encode(s)[..budget] == head + cut;
        HeadOfEncoded(s[0], cut);
        assert (head + cut)[|head|..] == cut;
        CutKeepsWholeCharacters(s[1..], budget - |head|);
        assert s[..Fit(s, budget)] == [s[0]] + s[1..][..Fit(s, budget) - 1];
      }
    }
  }

  lemma {:induction false} FitAll(s: string)
    ensures Fit(s, |Encode(s)|) == |s|
  {
    if s != [] {
      FitAll(s[1..]);
    }
  }

  lemma DecodeEncode(s: string)
    ensures DecodeIgnore(Encode(s)) == s
  {
    CutKeepsWholeCharacters(s, |Encode(s)|);
    assert Encode(s)[..|Encode(s)|] == Encode(s);
    FitAll(s);
  }

  // ---- Concatenation and ASCII ----

  lemma Assoc<T>(a: seq<T>, b: seq<T>, c: seq<T>)
    ensures (a + b) + c == a + (b + c)
  {}

  lemma {:induction false} EncodeConcat(s: string, t: string)
    ensures Encode(s + t) == Encode(s) + Encode(t)
  {
    if s == [] {
      assert s + t == t;
    } else {
      EncodeConcat(s[1..], t);
      assert (s + t)[0] == s[0] && (s + t)[1..] == s[1..] + t;
      Assoc(EncodeChar(s[0]), Encode(s[1..]), Encode(t));
    }
  }

  predicate IsAscii(s: string) { forall i :: 0 <= i < |s| ==> s[i] as int < 0x80 }

  lemma {:induction false} EncodeAscii(s: string)
    requires IsAscii(s)
    ensures |Encode(s)| == |s|
    ensures forall i :: 0 <= i < |s| ==> Encode(s)[i] == s[i] as int
  {
    if s != [] {
      EncodeAscii(s[1..]);
      assert |EncodeChar(s[0])| == 1;
    }
  }
}
