/** The new-segment callback of `full_default`: each time the engine
    finalises `n_new` segments it prints, for each of them in order, one
    `TIME` line and then one `TEXT` line per token. Printing is modelled as
    producing abstract lines. */
module SegmentEmission {
  import opened Wrappers

  /** A token's text and its probability, kept as an opaque value. */
  datatype Token = Token(text: string, p: real)

  /** A segment's start and end (centiseconds) and its tokens. */
  datatype Segment = Segment(t0: int, t1: int, tokens: seq<Token>)

  /** `TIME##t0##t1` and `TEXT##text##p`. */
  datatype Line = Time(t0: int, t1: int) | Text(text: string, p: real)

  function TokenLine(t: Token): Line {
    Text(t.text, t.p)
  }

  function TokenLines(ts: seq<Token>): (ls: seq<Line>)
    ensures |ls| == |ts|
  {
    if |ts| == 0 then [] else TokenLines(ts[..|ts| - 1]) + [TokenLine(ts[|ts| - 1])]
  }

  lemma {:induction false} TokenLinesAt(ts: seq<Token>)
    ensures forall k :: 0 <= k < |ts| ==> TokenLines(ts)[k] == TokenLine(ts[k])
    decreases |ts|
  {
    if |ts| > 0 {
      TokenLinesAt(ts[..|ts| - 1]);
    }
  }

  /** The lines printed for one segment. */
  function SegmentLines(s: Segment): seq<Line> {
    [Time(s.t0, s.t1)] + TokenLines(s.tokens)
  }

  /** A segment prints its `TIME` line first, then one `TEXT` line per token
      in token order, and nothing else. */
  lemma SegmentLinesShape(s: Segment)
    ensures |SegmentLines(s)| == 1 + |s.tokens|
    ensures SegmentLines(s)[0] == Time(s.t0, s.t1)
    ensures forall k :: 1 <= k <= |s.tokens| ==> SegmentLines(s)[k] == TokenLine(s.tokens[k - 1])
  {
    TokenLinesAt(s.tokens);
  }

  /** The lines printed for a run of segments, in order. */
  function Lines(segs: seq<Segment>): seq<Line>
    decreases |segs|
  {
    if |segs| == 0 then [] else SegmentLines(segs[0]) + Lines(segs[1..])
  }

  lemma {:induction false} LinesAppend(a: seq<Segment>, b: seq<Segment>)
    ensures Lines(a + b) == Lines(a) + Lines(b)
    decreases |a|
  {
    if |a| > 0 {
      LinesAppend(a[1..], b);
      assert (a + b)[0] == a[0];
      assert (a + b)[1..] == a[1..] + b;
    } else {
      assert a + b == b;
    }
  }

  /** What one callback prints, given the engine's segment list so far: the
      segments with index in `[|segs| - nNew, |segs|)`. */
  function Emitted(segs: seq<Segment>, nNew: int): seq<Line>
    requires nNew <= |segs|
  {
    if nNew <= 0 then [] else Lines(segs[|segs| - nNew..])
  }

  /** Printing one more segment of a window appends its lines. */
  lemma LinesSnoc(segs: seq<Segment>, s0: nat, i: nat)
    requires s0 <= i < |segs|
    ensures Lines(segs[s0..i + 1]) == Lines(segs[s0..i]) + SegmentLines(segs[i])
  {
    LinesAppend(segs[s0..i], [segs[i]]);
    assert [segs[i]][1..] == [];
    assert segs[s0..i + 1] == segs[s0..i] + [segs[i]];
  }

  /** Printing one more token appends its line. */
  lemma TokenLinesSnoc(ts: seq<Token>, j: nat)
    requires j < |ts|
    ensures TokenLines(ts[..j + 1]) == TokenLines(ts[..j]) + [TokenLine(ts[j])]
  {
    assert ts[..j + 1][..j] == ts[..j];
  }

  /** The callback's two nested loops. The engine never reports more new
      segments than it holds. */
  method NewSegmentCallback(segs: seq<Segment>, nNew: int) returns (out: seq<Line>)
    requires nNew <= |segs|
    ensures out == Emitted(segs, nNew)
  {
    var nSegments := |segs|;
    var s0 := nSegments - nNew;
    out := [];
    var i := s0;
    while i < nSegments
      invariant s0 <= i
      invariant s0 <= nSegments ==> i <= nSegments && out == Lines(segs[s0..i])
      invariant s0 > nSegments ==> out == []
      decreases nSegments - i
    {
      var seg := segs[i];
      ghost var before := out;
      out := out + [Time(seg.t0, seg.t1)];
      var j := 0;
      while j < |seg.tokens|
        invariant 0 <= j <= |seg.tokens|
        invariant out == before + [Time(seg.t0, seg.t1)] + TokenLines(seg.tokens[..j])
      {
        out := out + [TokenLine(seg.tokens[j])];
        TokenLinesSnoc(seg.tokens, j);
        j := j + 1;
      }
      assert seg.tokens[..j] == seg.tokens;
      LinesSnoc(segs, s0, i);
      i := i + 1;
    }
    if s0 < nSegments {
      assert segs[s0..nSegments] == segs[s0..];
    }
  }

  /** Reading an abstract line stream back into segments: each `TIME` line
      opens a segment whose tokens are the `TEXT` lines up to the next `TIME`.
      A stream that starts with a `TEXT` line has no reading. This works on
      `Line` values, not on the characters `printf` produces. */
  function Regroup(ls: seq<Line>): Option<seq<Segment>>
    decreases |ls|
  {
    if |ls| == 0 then Some([])
    else match ls[0]
      case Text(_, _) => None
      case Time(t0, t1) =>
        var k := LeadingTexts(ls[1..]);
        match Regroup(ls[1 + k..])
        case None => None
        case Some(rest) => Some([Segment(t0, t1, TokensOf(ls[1..1 + k]))] + rest)
  }

  /** The number of `TEXT` lines at the head of a stream. */
  function LeadingTexts(ls: seq<Line>): (k: nat)
    ensures k <= |ls|
    ensures forall i :: 0 <= i < k ==> ls[i].Text?
    ensures k < |ls| ==> ls[k].Time?
    decreases |ls|
  {
    if |ls| == 0 || ls[0].Time? then 0 else 1 + LeadingTexts(ls[1..])
  }

  function TokensOf(ls: seq<Line>): (ts: seq<Token>)
    requires forall i :: 0 <= i < |ls| ==> ls[i].Text?
    ensures |ts| == |ls|
    decreases |ls|
  {
    if |ls| == 0 then [] else TokensOf(ls[..|ls| - 1]) + [Token(ls[|ls| - 1].text, ls[|ls| - 1].p)]
  }

  lemma {:induction false} TokensOfTokenLines(ts: seq<Token>)
    ensures forall k :: 0 <= k < |ts| ==> TokenLines(ts)[k].Text?
    ensures TokensOf(TokenLines(ts)) == ts
    decreases |ts|
  {
    if |ts| > 0 {
      var ls := TokenLines(ts);
      TokensOfTokenLines(ts[..|ts| - 1]);
      TokenLinesAt(ts);
      assert ls[..|ls| - 1] == TokenLines(ts[..|ts| - 1]);
    }
  }

  /** The token lines of a segment are followed by nothing or by the next
      segment's `TIME` line. */
  lemma LeadingTextsOfSegment(ts: seq<Token>, rest: seq<Segment>)
    ensures LeadingTexts(TokenLines(ts) + Lines(rest)) == |ts|
  {
    var head := TokenLines(ts);
    var tail := Lines(rest);
    var ls := head + tail;
    TokenLinesAt(ts);
    assert forall i :: 0 <= i < |ts| ==> ls[i] == head[i];
    if |rest| > 0 {
      assert tail == SegmentLines(rest[0]) + Lines(rest[1..]);
      assert tail[0] == Time(rest[0].t0, rest[0].t1);
      assert ls[|ts|] == tail[0];
    } else {
      assert tail == [];
    }
  }

  /** How a segment's lines in front of a printed stream split up. */
  lemma SegmentLinesSplit(s: Segment, rest: seq<Segment>)
    ensures var ls := SegmentLines(s) + Lines(rest); var k := |s.tokens|;
      && ls[0] == Time(s.t0, s.t1)
      && LeadingTexts(ls[1..]) == k
      && ls[1..1 + k] == TokenLines(s.tokens)
      && ls[1 + k..] == Lines(rest)
  {
    var tail := TokenLines(s.tokens) + Lines(rest);
    var ls := SegmentLines(s) + Lines(rest);
    assert ls == [Time(s.t0, s.t1)] + tail;
    assert ls[1..] == tail;
    LeadingTextsOfSegment(s.tokens, rest);
  }

  /** One segment's lines in front of a stream that reads back to `rest` read
      back to that segment followed by `rest`. */
  lemma RegroupStep(s: Segment, rest: seq<Segment>)
    requires Regroup(Lines(rest)) == Some(rest)
    ensures Regroup(SegmentLines(s) + Lines(rest)) == Some([s] + rest)
  {
    SegmentLinesSplit(s, rest);
    TokensOfTokenLines(s.tokens);
  }

  /** The abstract line stream determines the segments it was produced from. */
  lemma {:induction false} RegroupLines(segs: seq<Segment>)
    ensures Regroup(Lines(segs)) == Some(segs)
    decreases |segs|
  {
    if |segs| == 0 {
      assert Lines(segs) == [];
    } else {
      RegroupLines(segs[1..]);
      RegroupStep(segs[0], segs[1..]);
      assert [segs[0]] + segs[1..] == segs;
    }
  }

  function Sum(ns: seq<nat>): nat
    decreases |ns|
  {
    if |ns| == 0 then 0 else Sum(ns[..|ns| - 1]) + ns[|ns| - 1]
  }

  /** The output of a whole run, given the final segment list `all` and the
      `n_new` of each callback in order. At the last callback the engine holds
      the first `Sum(ns)` segments; segments are only ever appended, so no
      count is negative. */
  function Stream(all: seq<Segment>, ns: seq<nat>): seq<Line>
    requires Sum(ns) <= |all|
    decreases |ns|
  {
    if |ns| == 0 then []
    else Stream(all, ns[..|ns| - 1]) + Emitted(all[..Sum(ns)], ns[|ns| - 1])
  }

  /** A callback reporting `k` new segments after `done` earlier ones prints
      exactly the window `[done, done + k)` of the final list. */
  lemma EmittedWindow(all: seq<Segment>, done: nat, k: nat)
    requires done + k <= |all|
    ensures Emitted(all[..done + k], k) == Lines(all[done..done + k])
  {
    if k == 0 {
      assert all[done..done] == [];
    } else {
      assert all[..done + k][done..] == all[done..done + k];
    }
  }

  /** The lines of a prefix followed by those of the next window are the
      lines of the longer prefix. */
  lemma LinesExtend(all: seq<Segment>, a: nat, b: nat)
    requires a <= b <= |all|
    ensures Lines(all[..a]) + Lines(all[a..b]) == Lines(all[..b])
  {
    LinesAppend(all[..a], all[a..b]);
    assert all[..a] + all[a..b] == all[..b];
  }

  /** Over successive callbacks every reported segment is printed exactly
      once, in index order: the run's output is the lines of the segments
      reported in it, in order. */
  lemma {:induction false} StreamEmitsEachOnce(all: seq<Segment>, ns: seq<nat>)
    requires Sum(ns) <= |all|
    ensures Stream(all, ns) == Lines(all[..Sum(ns)])
    decreases |ns|
  {
    if |ns| == 0 {
      assert all[..0] == [];
    } else {
      var earlier := ns[..|ns| - 1];
      var done := Sum(earlier);
      var k := ns[|ns| - 1];
      assert Sum(ns) == done + k;
      assert Stream(all, ns) == Stream(all, earlier) + Emitted(all[..done + k], k);
      StreamEmitsEachOnce(all, earlier);
      EmittedWindow(all, done, k);
      LinesExtend(all, done, done + k);
    }
  }

  /** So the abstract line stream of a whole run reads back as exactly the
      segments reported, each once and in order. */
  lemma StreamRegroups(all: seq<Segment>, ns: seq<nat>)
    requires Sum(ns) <= |all|
    ensures Regroup(Stream(all, ns)) == Some(all[..Sum(ns)])
  {
    StreamEmitsEachOnce(all, ns);
    RegroupLines(all[..Sum(ns)]);
  }
}
