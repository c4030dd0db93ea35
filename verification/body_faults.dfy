/** The bodies of responses on a connection whose receives may fail and be followed by more data. */
module BodyFaults {
  import opened Text
  import opened HttpFraming
  import opened HttpEvents
  import opened HttpLines
  import opened HttpWire
  import opened HttpFaults
  import opened TrailerFaults
  import opened HttpReads

  // ---------------------------------------------------------------- positions in a chunked body

  function ChunkWire(c: Chunk): string { LineWire(c.size + c.ext) + c.data + LineWire([]) }

  /** Inside the chunk's size line or the line terminator behind its data. */
  predicate InChunkLine(c: Chunk, k: nat) {
    0 < k < |c.size + c.ext| + 2 || k == |c.size + c.ext| + 2 + |c.data| + 1
  }

  /** Inside a line of the chunks and the last-chunk line. */
  predicate InSomeLine(cs: seq<Chunk>, last: string, k: nat)
    decreases |cs|
  {
    if cs == [] then 0 < k < |last| + 2
    else if k < |ChunkWire(cs[0])| then InChunkLine(cs[0], k)
    else InSomeLine(cs[1..], last, k - |ChunkWire(cs[0])|)
  }

  function ChunkPart(cs: seq<Chunk>, last: string): string { ChunksWire(cs) + LineWire(last) }

  /** No receive that has more data behind it fails inside a chunk-size line, a chunk's end or the last-chunk line, and
      none at a line's edge in the trailer section. */
  predicate ChunksIntact(cs: seq<Chunk>, last: string, evs: seq<Event>) {
    var n := |ChunkPart(cs, last)|;
    Final(evs) || (if Reach(evs) < n then !InSomeLine(cs, last, Reach(evs)) else Harmless(evs[n..], Start))
  }

  lemma BytesTaken(a: string, b: string, evs: seq<Event>)
    requires Carries(evs, a + b) && Reach(evs) >= |a|
    ensures Carries(evs[|a|..], b) && Reach(evs[|a|..]) == Reach(evs) - |a| && (Final(evs[|a|..]) <==> Final(evs))
    ensures a <= Front(evs) && Front(evs)[..|a|] == a
  {
    hide Front, Data;
    var k, n := Reach(evs), |a|;
    RestCarried(evs, a, b);
    FrontSplit(evs, n);
    assert evs[n..][k - n..] == evs[k..];
  }

  // ---------------------------------------------------------------- one chunk

  lemma SkipLeavesNothing(evs: seq<Event>, buf: string)
    requires |buf| > 1 && Data(evs) == []
    ensures Data(SkipOf(evs, buf).rest) == []
  {
    hide Drain, SkipOf;
    SkipDrains(evs, buf);
    DrainShrinks(evs, Start);
  }

  /** A size line cut short by the end of everything: at most an empty body. */
  lemma CutSize(evs: seq<Event>, buf: string, len: nat, max: nat)
    requires |buf| > 1 && Data(LineOf(evs, buf).rest) == []
    ensures var b := ChunksOf(evs, buf, len, max); b.Kept? ==> b.data == [] && Data(b.rest) == []
  {
    hide LineOf, StrToULL, CStr, SkipOf, ChunksOf;
    ChunksUnfold(evs, buf, len, max);
    var r := LineOf(evs, buf);
    SkipLeavesNothing(r.rest, r.buf);
    NoData(r.rest);
  }

  lemma NoChunks(evs: seq<Event>, buf: string, len: nat, max: nat)
    requires |buf| > 1 && Data(evs) == []
    ensures ChunksOf(evs, buf, len, max) == Lost
  {
    hide LineOf, ChunksOf, ChunkOf;
    ChunksUnfold(evs, buf, len, max);
    Stopped(evs, buf);
  }

  /** A size line on the wire: not begun, cut short for good, or read whole. */
  predicate SizeRead(l: string, evs: seq<Event>, r: Line) {
    if Reach(evs) == 0 then r.n == -1
    else if Reach(evs) < |l| + 2 then r.n >= 0 && Data(r.rest) == []
    else r.n >= 0 && CStr(r.buf) == CStr(l) && r.rest == evs[|l| + 2..]
  }

  lemma SizeTaken(l: string, b: string, evs: seq<Event>, buf: string)
    requires |l| < |buf| && |buf| > 1 && OneLine(l) && Carries(evs, LineWire(l) + b)
    requires 0 < Reach(evs) < |l| + 2 ==> Final(evs)
    ensures SizeRead(l, evs, LineOf(evs, buf))
  {
    hide LineWire, Front, Data, Laid, Terminated, AfterFault, LineOf, CStr, Lacks;
    WireLineRead(l, b, evs, buf);
    if Reach(evs) >= |l| + 2 {
      TerminatedText(l, buf);
    } else if Reach(evs) > 0 {
      AfterEnd(evs);
    }
  }

  /** Behind the size line of a chunk with this data. */
  lemma DataTaken(data: string, s1: string, len: nat, max: nat, evs: seq<Event>, buf: string)
    requires |buf| > 1 && data != [] && len + |data| <= U64_MAX && len <= max
    requires Carries(evs, data + (LineWire([]) + s1)) && (Reach(evs) == |data| + 1 ==> Final(evs))
    ensures var b := ChunkOf(evs, buf, |data|, len, max);
      if len + |data| > max then b == Refused
      else if Reach(evs) < |data| + 2 then b == Lost
      else
        var e := LineOf(evs[|data|..], buf);
        e.n >= 0 && e.rest == evs[|data| + 2..] && b == After(data, ChunksOf(e.rest, e.buf, len + |data|, max))
  {
    hide LineWire, Front, Data, LineOf, CStr, SkipOf, ChunksOf;
    assert (len + |data|) % (U64_MAX + 1) == len + |data|;
    if len + |data| <= max && Reach(evs) >= |data| {
      BytesTaken(data, LineWire([]) + s1, evs);
      var e1 := evs[|data|..];
      SizeTaken([], s1, e1, buf);
      var e := LineOf(e1, buf);
      if Reach(e1) == 1 {
        NoChunks(e.rest, e.buf, len + |data|, max);
      } else if Reach(e1) >= 2 {
        Twice(evs, |data|, 2);
      }
    }
  }

  lemma ChunkSize(c: Chunk)
    requires ChunkOk(c)
    ensures var l := c.size + c.ext;
      OneLine(l) && |l| < CHUNK_LINE_MAX && StrToULL(CStr(l), 16) == |c.data| && c.data != []
  {
    ChunkParts(c);
    SizeLineClean(c.size, c.ext);
    SizeLineRead(c.size, c.ext, []);
    hide StrToULL, CStr, Value, NextLine, LineWire;
  }

  lemma ChunkShape(c: Chunk, s1: string)
    ensures ChunkWire(c) + s1 == LineWire(c.size + c.ext) + (c.data + (LineWire([]) + s1))
    ensures |ChunkWire(c)| == |c.size + c.ext| + 2 + |c.data| + 2 && |LineWire(c.size + c.ext)| == |c.size + c.ext| + 2
  {
    assert |LineWire([])| == 2 && |LineWire(c.size + c.ext)| == |c.size + c.ext| + 2;
    hide LineWire;
  }

  /** A chunk that is not read whole ends the body: lost, refused, or cut short by the end of everything in its size
      line. */
  predicate Unfinished(c: Chunk, evs: seq<Event>, b: BodyScan) {
    b.Lost? || b.Refused? || (0 < Reach(evs) < |c.size + c.ext| + 2 && b.Kept? && b.data == [] && Data(b.rest) == [])
  }

  /** One chunk: taken whole, or unfinished. */
  lemma ChunkScanned(c: Chunk, s1: string, len: nat, max: nat, evs: seq<Event>, buf: string) returns (next: Line)
    requires |buf| == CHUNK_LINE_MAX && ChunkOk(c) && len <= max && len + |c.data| <= U64_MAX
    requires Carries(evs, ChunkWire(c) + s1) && (InChunkLine(c, Reach(evs)) ==> Final(evs))
    ensures |next.buf| == |buf|
    ensures var b, m := ChunksOf(evs, buf, len, max), |ChunkWire(c)|;
      if Reach(evs) < m then Unfinished(c, evs, b)
      else if len + |c.data| > max then b == Refused
      else next.rest == evs[m..] && b == After(c.data, ChunksOf(next.rest, next.buf, len + |c.data|, max))
  {
    hide *;
    ChunkBuffer(buf);
    ChunkSize(c);
    ChunkShape(c, s1);
    var l := c.size + c.ext;
    InSize(c, evs);
    SizeTaken(l, c.data + (LineWire([]) + s1), evs, buf);
    next := SizeThen(c, s1, len, max, evs, buf);
  }

  lemma InSize(c: Chunk, evs: seq<Event>)
    requires InChunkLine(c, Reach(evs)) ==> Final(evs)
    ensures 0 < Reach(evs) < |c.size + c.ext| + 2 ==> Final(evs)
    ensures Reach(evs) == |c.size + c.ext| + 2 + |c.data| + 1 ==> Final(evs)
  {
    hide Final, Reach;
  }

  lemma SizeThen(c: Chunk, s1: string, len: nat, max: nat, evs: seq<Event>, buf: string) returns (next: Line)
    requires |buf| > 1 && c.data != [] && len <= max && len + |c.data| <= U64_MAX
    requires StrToULL(CStr(c.size + c.ext), 16) == |c.data|
    requires Carries(evs, LineWire(c.size + c.ext) + (c.data + (LineWire([]) + s1)))
    requires |LineWire(c.size + c.ext)| == |c.size + c.ext| + 2
    requires Reach(evs) == |c.size + c.ext| + 2 + |c.data| + 1 ==> Final(evs)
    requires SizeRead(c.size + c.ext, evs, LineOf(evs, buf))
    ensures |next.buf| == |buf|
    ensures var b, m := ChunksOf(evs, buf, len, max), |c.size + c.ext| + 2 + |c.data| + 2;
      if Reach(evs) < m then Unfinished(c, evs, b)
      else if len + |c.data| > max then b == Refused
      else next.rest == evs[m..] && b == After(c.data, ChunksOf(next.rest, next.buf, len + |c.data|, max))
  {
    hide LineWire, Front, Data, LineOf, CStr, SkipOf, ChunksOf, StrToULL, ChunkOf, Reach, Final;
    var l, r := c.size + c.ext, LineOf(evs, buf);
    next := r;
    ChunksUnfold(evs, buf, len, max);
    if 0 < Reach(evs) < |l| + 2 {
      CutSize(evs, buf, len, max);
      NeverLast(evs, buf, len, max);
    } else if Reach(evs) > 0 {
      BytesTaken(LineWire(l), c.data + (LineWire([]) + s1), evs);
      DataTaken(c.data, s1, len, max, r.rest, r.buf);
      if len + |c.data| <= max && Reach(r.rest) >= |c.data| + 2 {
        next := LineOf(r.rest[|c.data|..], r.buf);
        Twice(evs, |l| + 2, |c.data| + 2);
      }
    }
  }

  lemma NeverLast(evs: seq<Event>, buf: string, len: nat, max: nat)
    requires buf != []
    ensures !ChunksOf(evs, buf, len, max).Last?
  {}

  // ---------------------------------------------------------------- all chunks

  predicate TrailersOk(trailers: seq<string>) { forall i | 0 <= i < |trailers| :: NonBlank(trailers[i]) }

  predicate LastOk(last: string) {
    last != [] && AllDigits(last, 16) && Value(last, 16) == 0 && |last| < CHUNK_LINE_MAX
  }

  predicate AllChunksOk(cs: seq<Chunk>) { forall i | 0 <= i < |cs| :: ChunkOk(cs[i]) }

  lemma LastSize(last: string)
    requires LastOk(last)
    ensures OneLine(last) && |last| < CHUNK_LINE_MAX && StrToULL(CStr(last), 16) == 0
  {
    assert last + [] == last;
    SizeLineClean(last, []);
    SizeLineRead(last, [], []);
    hide StrToULL, CStr, Value, NextLine, LineWire;
  }

  /** What a chunked body is read as. */
  predicate ChunksRightly(data: string, n: nat, evs: seq<Event>, over: bool, whole: bool, b: BodyScan) {
    if Reach(evs) >= n then (if over then b.Refused? else b.Kept? && b.data == data && Data(b.rest) == [])
    else
      || b.Lost? || b.Refused?
      || (b.Kept? && b.data <= data && Data(b.rest) == [] && !whole)
  }

  lemma LastScanned(last: string, trailers: seq<string>, len: nat, max: nat, evs: seq<Event>, buf: string)
    requires |buf| == CHUNK_LINE_MAX && LastOk(last) && TrailersOk(trailers) && len <= max
    requires Carries(evs, ChunkPart([], last) + Block(trailers)) && ChunksIntact([], last, evs)
    ensures ChunksRightly([], |ChunkPart([], last)|, evs, false, !InSomeLine([], last, Reach(evs)),
                          ChunksOf(evs, buf, len, max))
  {
    LastSize(last);
    assert ChunkPart([], last) == LineWire(last) && |LineWire(last)| == |last| + 2;
    hide LineWire, Front, Data, LineOf, CStr, SkipOf, ChunksOf, StrToULL, Block, Harmless, TrailersOk, LastOk, Carries;
    SizeTaken(last, Block(trailers), evs, buf);
    ChunksUnfold(evs, buf, len, max);
    var r := LineOf(evs, buf);
    if Reach(evs) >= |last| + 2 {
      BytesTaken(LineWire(last), Block(trailers), evs);
      TrailersEnd(trailers, r.rest, r.buf);
    } else if Reach(evs) > 0 {
      CutSize(evs, buf, len, max);
    }
  }

  lemma TrailersEnd(trailers: seq<string>, evs: seq<Event>, buf: string)
    requires |buf| > 1 && TrailersOk(trailers) && Carries(evs, Block(trailers))
    requires Final(evs) || Harmless(evs, Start)
    ensures Data(SkipOf(evs, buf).rest) == []
  {
    hide *;
    if Final(evs) { FinalHarmless(evs, Start); }
    TrailersTaken(trailers, evs, buf);
  }

  lemma TrailersTaken(trailers: seq<string>, evs: seq<Event>, buf: string)
    requires |buf| > 1 && TrailersOk(trailers) && Carries(evs, Block(trailers)) && Harmless(evs, Start)
    ensures Data(SkipOf(evs, buf).rest) == []
  {
    TrailerTaken(trailers, evs, buf);
  }

  lemma {:induction false} FinalHarmless(evs: seq<Event>, p: Progress)
    requires Final(evs)
    ensures Harmless(evs, p)
    decreases |evs|
  {
    if evs != [] {
      if evs[0].Fault? {
        assert evs[0..] == evs;
      } else {
        assert evs[1..][Reach(evs) - 1..] == evs[Reach(evs)..];
        var c := evs[0].c;
        FinalHarmless(evs[1..], if c == '\n' then Start else if c == '\r' && !p.Text? then Blank else Text);
      }
    }
  }

  lemma PartFirst(cs: seq<Chunk>, last: string, tail: string)
    requires cs != []
    ensures ChunkPart(cs, last) + tail == ChunkWire(cs[0]) + (ChunkPart(cs[1..], last) + tail)
    ensures |ChunkPart(cs, last)| == |ChunkWire(cs[0])| + |ChunkPart(cs[1..], last)|
    ensures Concat(cs) == cs[0].data + Concat(cs[1..])
  {
    hide LineWire, Concat;
    var a, w, x := ChunkWire(cs[0]), ChunksWire(cs[1..]), LineWire(last);
    ChunksFirst(cs);
    Join(a, w, x, tail);
    assert Concat(cs) == cs[0].data + Concat(cs[1..]) by { ConcatFirst(cs); }
  }

  lemma ConcatFirst(cs: seq<Chunk>)
    requires cs != []
    ensures Concat(cs) == cs[0].data + Concat(cs[1..])
  {}

  lemma ChunksFirst(cs: seq<Chunk>)
    requires cs != []
    ensures ChunksWire(cs) == ChunkWire(cs[0]) + ChunksWire(cs[1..])
  {
    assert LineWire([]) == "\r\n";
  }

  lemma Join(a: string, w: string, x: string, tail: string)
    ensures (a + w) + x + tail == a + ((w + x) + tail) && |(a + w) + x| == |a| + |w + x|
  {}

  /** Behind the first chunk the rest is intact. */
  lemma RestIntact(cs: seq<Chunk>, last: string, tail: string, evs: seq<Event>)
    requires cs != [] && ChunksIntact(cs, last, evs) && Reach(evs) >= |ChunkWire(cs[0])|
    requires Carries(evs, ChunkWire(cs[0]) + (ChunkPart(cs[1..], last) + tail))
    ensures var m := |ChunkWire(cs[0])|;
      && Carries(evs[m..], ChunkPart(cs[1..], last) + tail) && Reach(evs[m..]) == Reach(evs) - m
      && ChunksIntact(cs[1..], last, evs[m..])
      && (InSomeLine(cs, last, Reach(evs)) <==> InSomeLine(cs[1..], last, Reach(evs[m..])))
  {
    hide ChunkWire, Front, Data, Harmless, Final, Carries, ChunkPart;
    var m, n := |ChunkWire(cs[0])|, |ChunkPart(cs, last)|;
    BytesTaken(ChunkWire(cs[0]), ChunkPart(cs[1..], last) + tail, evs);
    PartFirst(cs, last, tail);
    if Reach(evs) >= n { Twice(evs, m, n - m); }
  }

  lemma FirstIntact(cs: seq<Chunk>, last: string, evs: seq<Event>)
    requires cs != [] && ChunksIntact(cs, last, evs)
    ensures InChunkLine(cs[0], Reach(evs)) ==> Final(evs)
    ensures Reach(evs) < |ChunkWire(cs[0])| ==> (InSomeLine(cs, last, Reach(evs)) <==> InChunkLine(cs[0], Reach(evs)))
  {
    hide Front, Data, Harmless, Final, LineWire;
    PartFirst(cs, last, []);
    ChunkShape(cs[0], []);
  }

  lemma RightlyUnfinished(c: Chunk, data: string, n: nat, evs: seq<Event>, over: bool, b: BodyScan)
    requires Unfinished(c, evs, b) && Reach(evs) < n && |ChunkWire(c)| <= n
    ensures ChunksRightly(data, n, evs, over, !InChunkLine(c, Reach(evs)), b)
  {
    assert [] <= data;
    hide ChunkWire, Data, Front;
  }

  lemma RightlyAfter(c: string, d: string, m: nat, n: nat, evs: seq<Event>, rest: seq<Event>, over: bool, whole: bool,
                     b: BodyScan)
    requires Reach(rest) == Reach(evs) - m && ChunksRightly(d, n, rest, over, whole, b)
    ensures ChunksRightly(c + d, m + n, evs, over, whole, After(c, b))
  {
    hide Reach, Data;
  }

  lemma RightlyRefused(data: string, n: nat, evs: seq<Event>, whole: bool)
    ensures ChunksRightly(data, n, evs, true, whole, Refused)
  {}

  /** A chunked body whose bytes are interleaved with failing receives: the chunks' data, or refused when too long; or
      the connection is lost. Only a line cut short by the end of everything can pass for the end of the body. */
  lemma {:induction false} ChunksScanned(cs: seq<Chunk>, last: string, trailers: seq<string>, len: nat, max: nat,
                                         evs: seq<Event>, buf: string)
    requires |buf| == CHUNK_LINE_MAX && AllChunksOk(cs) && LastOk(last) && TrailersOk(trailers)
    requires len <= max && len + |Concat(cs)| <= U64_MAX
    requires Carries(evs, ChunkPart(cs, last) + Block(trailers)) && ChunksIntact(cs, last, evs)
    ensures ChunksRightly(Concat(cs), |ChunkPart(cs, last)|, evs, len + |Concat(cs)| > max,
                          !InSomeLine(cs, last, Reach(evs)), ChunksOf(evs, buf, len, max))
    decreases |cs|
  {
    hide *;
    if cs == [] {
      NoConcat(cs);
      LastScanned(last, trailers, len, max, evs, buf);
    } else {
      FirstOk(cs);
      PartFirst(cs, last, Block(trailers));
      FirstIntact(cs, last, evs);
      var c, m, n := cs[0], |ChunkWire(cs[0])|, |ChunkPart(cs, last)|;
      var next := ChunkScanned(c, ChunkPart(cs[1..], last) + Block(trailers), len, max, evs, buf);
      if Reach(evs) < m {
        RightlyUnfinished(c, Concat(cs), n, evs, len + |Concat(cs)| > max, ChunksOf(evs, buf, len, max));
      } else if len + |c.data| > max {
        RightlyRefused(Concat(cs), n, evs, !InSomeLine(cs, last, Reach(evs)));
      } else {
        RestIntact(cs, last, Block(trailers), evs);
        ChunksScanned(cs[1..], last, trailers, len + |c.data|, max, next.rest, next.buf);
        RightlyAfter(c.data, Concat(cs[1..]), m, n - m, evs, next.rest, len + |Concat(cs)| > max,
                     !InSomeLine(cs, last, Reach(evs)), ChunksOf(next.rest, next.buf, len + |c.data|, max));
      }
    }
  }

  lemma NoConcat(cs: seq<Chunk>)
    ensures cs == [] ==> Concat(cs) == []
  {}

  lemma FirstOk(cs: seq<Chunk>)
    requires AllChunksOk(cs) && cs != []
    ensures ChunkOk(cs[0]) && AllChunksOk(cs[1..])
  {}

  // ---------------------------------------------------------------- any body

  /** What follows the head on the wire. */
  function BodyPart(r: Response, isHead: bool): string
    requires ResponseOk(r)
  {
    if Bodyless(HeadOf(r), isHead) then [] else BodyWire(r)
  }

  /** No receive that has more data behind it fails inside a line of the body. */
  predicate BodyIntact(r: Response, isHead: bool, evs: seq<Event>)
    requires ResponseOk(r)
  {
    !Bodyless(HeadOf(r), isHead) && r.payload.Chunks? ==> ChunksIntact(r.payload.chunks, r.payload.last, evs)
  }

  /** The body has been delivered as far as its framing needs it. */
  predicate BodyDelivered(r: Response, evs: seq<Event>) {
    match r.payload
    case Sized => Reach(evs) >= |r.body|
    case Chunks(cs, last, _) => Reach(evs) >= |ChunkPart(cs, last)|
    case UntilClose => Reach(evs) >= |r.body|
  }

  /** The end falls inside one of the body's own lines. */
  predicate EndInLine(r: Response, evs: seq<Event>) {
    r.payload.Chunks? && InSomeLine(r.payload.chunks, r.payload.last, Reach(evs))
  }

  /** A body as it was sent, and nothing left of it; or lost, or refused. */
  predicate BodyRightly(r: Response, max: nat, evs: seq<Event>, b: BodyScan) {
    && (BodyDelivered(r, evs) ==>
          if |r.body| > max then b.Refused? else (b.Kept? || b.Last?) && b.data == r.body)
    && (b.Kept? || b.Last? ==> b.data <= r.body && |r.body| >= |b.data|)
    && (b.Kept? ==> Data(b.rest) == [])
    && ((b.Kept? || b.Last?) && !r.payload.UntilClose? && !EndInLine(r, evs) ==> b.data == r.body)
  }

  lemma ChunkedRightly(r: Response, close: bool, max: nat, evs: seq<Event>, b: BodyScan)
    requires r.payload.Chunks? && !b.Last?
    requires ChunksRightly(r.body, |ChunkPart(r.payload.chunks, r.payload.last)|, evs, |r.body| > max,
                           !EndInLine(r, evs), b)
    ensures BodyRightly(r, max, evs, Closing(close, b))
  {
    hide Reach, Data, ChunkPart, EndInLine;
  }

  lemma SizedScanned(r: Response, h: Head, isHead: bool, max: nat, evs: seq<Event>, buf: string)
    requires r.payload.Sized? && h.contentLength == |r.body| && !h.chunked && !Bodyless(h, isHead) && buf != []
    requires Carries(evs, r.body)
    ensures BodyRightly(r, max, evs, BodyScanOf(h, isHead, evs, buf, max))
  {
    hide Front, Data, ChunksOf;
    FrontCarried(evs, r.body);
    if Reach(evs) >= |r.body| {
      assert r.body + [] == r.body;
      BytesTaken(r.body, [], evs);
    }
  }

  lemma UntilCloseScanned(r: Response, h: Head, isHead: bool, max: nat, evs: seq<Event>, buf: string)
    requires r.payload.UntilClose? && h.contentLength < 0 && !h.chunked && !Bodyless(h, isHead) && buf != []
    requires Carries(evs, r.body)
    ensures BodyRightly(r, max, evs, BodyScanOf(h, isHead, evs, buf, max))
  {
    hide Front, Data, ChunksOf;
    FrontCarried(evs, r.body);
  }

  lemma ChunksBody(r: Response)
    requires ResponseOk(r) && r.payload.Chunks?
    ensures AllChunksOk(r.payload.chunks) && LastOk(r.payload.last) && TrailersOk(r.payload.trailers)
    ensures r.body == Concat(r.payload.chunks) && |r.body| <= U64_MAX && HeadOf(r).chunked
    ensures BodyWire(r) == ChunkPart(r.payload.chunks, r.payload.last) + Block(r.payload.trailers)
  {
    hide HeadOf, MessageHeadOk, ChunkOk, NonBlank, Value, Block, ChunksWire, LineWire, Concat;
  }

  /** The body of any response, by its framing, with receives failing anywhere but inside its lines: what was sent, and
      the connection left with nothing of it; or the connection is given up. */
  lemma BodyScanned(r: Response, isHead: bool, max: nat, evs: seq<Event>, buf: string)
    requires ResponseOk(r) && |buf| == CHUNK_LINE_MAX && Carries(evs, BodyPart(r, isHead)) && BodyIntact(r, isHead, evs)
    ensures var h := HeadOf(r);
            var b := BodyScanOf(h, isHead, evs, buf, max);
            if Bodyless(h, isHead) then b == Kept([], evs) && Data(evs) == [] else BodyRightly(r, max, evs, b)
  {
    var h := HeadOf(r);
    hide HeadOf, BodyRightly, ChunksOf, MessageHeadOk, Data, Reach, ChunksIntact;
    if !Bodyless(h, isHead) {
      match r.payload
      case Sized => SizedScanned(r, h, isHead, max, evs, buf);
      case Chunks(cs, last, trailers) =>
        ChunksBody(r);
        ChunksScanned(cs, last, trailers, 0, max, evs, buf);
        NeverLast(evs, buf, 0, max);
        ChunkedRightly(r, h.connClose, max, evs, ChunksOf(evs, buf, 0, max));
      case UntilClose => UntilCloseScanned(r, h, isHead, max, evs, buf);
    }
  }

  // ---------------------------------------------------------------- any response

  /** No receive that has more data behind it fails inside a line of the response. */
  predicate Intact(r: Response, isHead: bool, evs: seq<Event>)
    requires ResponseOk(r)
  {
    && LinesIntact(HeadWire(r), evs)
    && (Reach(evs) >= |HeadWire(r)| ==> BodyIntact(r, isHead, evs[|HeadWire(r)|..]))
  }

  lemma WireParts(r: Response, isHead: bool)
    requires ResponseOk(r)
    ensures Wire(r, isHead) == HeadWire(r) + BodyPart(r, isHead)
  {
    hide HeadOf, BodyWire, ResponseOk, HeadWire;
    assert HeadWire(r) + [] == HeadWire(r);
  }

  lemma {:induction false} HeadEnds(r: Response)
    ensures |HeadWire(r)| >= 2 && HeadWire(r)[|HeadWire(r)| - 2] == '\r'
  {
    hide LineWire, FieldLine;
    FieldsEnd(r.fields);
  }

  lemma {:induction false} FieldsEnd(fs: seq<Field>)
    ensures |FieldsWire(fs)| >= 2 && FieldsWire(fs)[|FieldsWire(fs)| - 2] == '\r'
    decreases |fs|
  {
    if fs != [] { FieldsEnd(fs[1..]); }
  }

  lemma NothingIntact(r: Response, isHead: bool, evs: seq<Event>)
    requires ResponseOk(r) && Data(evs) == []
    ensures BodyIntact(r, isHead, evs) && Carries(evs, BodyPart(r, isHead))
  {
    hide ResponseOk, HeadOf, InSomeLine, Harmless, BodyPart;
    NoData(evs);
    assert evs[0..] == evs;
  }

  /** The head of any response: as it was sent, with the whole body ahead, or no head. */
  lemma HeadRightly(r: Response, isHead: bool, evs: seq<Event>, buf: string)
    requires ResponseOk(r) && |buf| == HEAD_LINE_MAX && Carries(evs, Wire(r, isHead)) && Intact(r, isHead, evs)
    ensures var s := HeadScanOf(evs, buf);
      && (s.Got? ==> s.h == HeadOf(r) && Carries(s.rest, BodyPart(r, isHead)) && BodyIntact(r, isHead, s.rest))
      && (Reach(evs) >= |HeadWire(r)| ==> (s.Got? <==> |r.fields| < MAX_FIELDS))
  {
    WireParts(r, isHead);
    HeadEnds(r);
    hide ResponseOk, HeadOf, HeadWire, BodyPart, BodyIntact, Front, Data, HeadScanOf, AfterFault, Final;
    var w, k := HeadWire(r), Reach(evs);
    HeadScanned(r, BodyPart(r, isHead), evs, buf);
    if k >= |w| {
      BytesTaken(w, BodyPart(r, isHead), evs);
    } else if k == |w| - 1 {
      AfterEnd(evs);
      NothingIntact(r, isHead, AfterFault(evs[k..]));
    }
  }

  /** The response is ahead, or the beginning of it, and no receive fails inside one of its lines unless for good. */
  predicate Carried(r: Response, isHead: bool, evs: seq<Event>) {
    ResponseOk(r) && Carries(evs, Wire(r, isHead)) && Intact(r, isHead, evs)
  }

  /** The same of its body. */
  predicate BodyCarried(r: Response, isHead: bool, evs: seq<Event>) {
    ResponseOk(r) && Carries(evs, BodyPart(r, isHead)) && BodyIntact(r, isHead, evs)
  }
}
