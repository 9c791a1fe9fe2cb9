/** Reading the same stream of rows over and over: what a reader has, repetitions aside. Shared by
    the collector's view of a sink and by the pull script's output file. */
module Replay {
  import opened EventLog

  /** The lines without repetitions: each where it first occurs. */
  function Firsts(lines: seq<Row>): (firsts: seq<Row>)
    ensures |firsts| <= |lines|
  {
    if lines == [] then []
    else
      var before := Firsts(lines[..|lines| - 1]);
      if lines[|lines| - 1] in before then before else before + [lines[|lines| - 1]]
  }

  lemma FirstsSnoc(lines: seq<Row>, r: Row)
    ensures Firsts(lines + [r]) == if r in Firsts(lines) then Firsts(lines) else Firsts(lines) + [r]
  {
    assert (lines + [r])[..|lines|] == lines;
  }

  lemma {:induction false} FirstsAreLines(lines: seq<Row>)
    ensures forall r :: r in Firsts(lines) <==> r in lines
  {
    if lines != [] {
      var n := |lines| - 1;
      FirstsAreLines(lines[..n]);
      assert lines == lines[..n] + [lines[n]];
    }
  }

  /** The lines, repetitions aside, are the head of the stream, at least up to `done`. */
  predicate Heads(stream: seq<Row>, lines: seq<Row>, done: nat) {
    done <= |Firsts(lines)| && Firsts(lines) <= stream
  }

  /** A line is either a repetition or the next row of the stream. */
  lemma NextLine(stream: seq<Row>, lines: seq<Row>, k: nat)
    requires Ordered(stream) && k < |stream| && Heads(stream, lines, k)
    ensures Heads(stream, lines + [stream[k]], k + 1)
  {
    var line, seen := stream[k], Firsts(lines);
    FirstsSnoc(lines, line);
    if k < |seen| {
      assert seen[k] == line;
    } else {
      assert line !in seen;
      assert stream[..k] + [line] == stream[..k + 1];
    }
  }

  /** So is a stretch of the stream. */
  lemma {:induction false} NextLines(stream: seq<Row>, lines: seq<Row>, k: nat, page: seq<Row>)
    requires Ordered(stream) && Heads(stream, lines, k)
    requires k + |page| <= |stream| && forall i :: 0 <= i < |page| ==> page[i] == stream[k + i]
    ensures Heads(stream, lines + page, k + |page|)
  {
    if page == [] {
      assert lines + page == lines;
    } else {
      var n := |page| - 1;
      var before := lines + page[..n];
      assert Heads(stream, before, k + n) by { NextLines(stream, lines, k, page[..n]); }
      assert before + [stream[k + n]] == lines + page;
      NextLine(stream, before, k + n);
    }
  }
}
