/** Before the first failure: on any bytes, well-formed or not, the readers of a connection compute what the framing
    functions say, as far as these need no byte behind the failure. */
module HttpReads {
  import opened Text
  import opened HttpFraming
  import opened HttpEvents
  import opened HttpLines
  import opened HttpFaults

  /** The events from where the bytes t, the end of those in front of the first failure, begin. */
  function From(evs: seq<Event>, t: string): seq<Event>
    requires |t| <= Reach(evs)
  {
    evs[Reach(evs) - |t|..]
  }

  predicate Tail(t: string, s: string) { |t| <= |s| && t == s[|s| - |t|..] }

  lemma FromFront(evs: seq<Event>, t: string)
    requires Tail(t, Front(evs))
    ensures Front(From(evs, t)) == t && Reach(From(evs, t)) == |t|
  {
    hide Front;
    FrontSplit(evs, Reach(evs) - |t|);
  }

  lemma FromFrom(evs: seq<Event>, t: string, u: string)
    requires Tail(t, Front(evs)) && Tail(u, t)
    ensures From(From(evs, t), u) == From(evs, u) && Tail(u, Front(evs))
  {
    hide Front;
    FromFront(evs, t);
    var s := Front(evs);
    assert s[|s| - |u|..] == s[|s| - |t|..][|t| - |u|..];
  }

  /** A whole line. */
  lemma LineComplete(evs: seq<Event>, buf: string)
    requires |buf| > 1 && NextLine(Front(evs), |buf|).Done?
    ensures var r := NextLine(Front(evs), |buf|);
      && Tail(r.rest, Front(evs)) && |r.value| < |buf|
      && LineOf(evs, buf) == Line(|r.value|, Terminated(r.value, buf), From(evs, r.rest))
  {
    hide LineText, Front, Terminated, Laid, AfterFault, LineOf;
    LineRead(evs, buf);
  }

  lemma SkipStep(s: string, max: nat)
    requires max > 0
    ensures SkipBlock(s, max) == match NextLine(s, max)
      case Done(line, rest) => if line == [] then Done((), rest) else SkipBlock(rest, max)
      case _ => Short
  {
    hide NextLine;
  }

  /** Lines up to a blank one. */
  lemma {:induction false} SkipComplete(evs: seq<Event>, buf: string)
    requires |buf| > 1 && SkipBlock(Front(evs), |buf|).Done?
    ensures var r := SkipBlock(Front(evs), |buf|);
      && Tail(r.rest, Front(evs)) && SkipOf(evs, buf).n == 0 && SkipOf(evs, buf).rest == From(evs, r.rest)
    decreases |evs|
  {
    hide LineOf, SkipOf, NextLine, SkipBlock, Terminated, Front, From;
    SkipStep(Front(evs), |buf|);
    LineComplete(evs, buf);
    SkipUnfold(evs, buf);
    var r, l := NextLine(Front(evs), |buf|), LineOf(evs, buf);
    if r.value != [] {
      FromFront(evs, r.rest);
      SkipComplete(l.rest, l.buf);
      FromFrom(evs, r.rest, SkipBlock(r.rest, |buf|).rest);
    }
  }

  lemma ParseStep(s: string, h: Head, count: nat)
    requires count < MAX_FIELDS
    ensures ParseFields(s, h, count) == match NextLine(s, HEAD_LINE_MAX)
      case Done(line, rest) => if line == [] then Done(h, rest) else ParseFields(rest, ApplyField(h, line), count + 1)
      case _ => Short
  {
    hide NextLine, ApplyField;
  }

  /** What a scanned head has to do with a parsed one. */
  predicate HeadAgrees(evs: seq<Event>, p: Parsed<Head>, s: HeadScan) {
    match p
    case Done(h, rest) => Tail(rest, Front(evs)) && s == Got(h, From(evs, rest))
    case Bad => s == NoHead
    case Short => true
  }

  lemma HeadAgreesFrom(evs: seq<Event>, t: string, p: Parsed<Head>, s: HeadScan)
    requires Tail(t, Front(evs)) && HeadAgrees(From(evs, t), p, s)
    ensures HeadAgrees(evs, p, s)
  {
    hide Front, From;
    FromFront(evs, t);
    if p.Done? { FromFrom(evs, t, p.rest); }
  }

  /** Any header lines, whatever is in them. */
  lemma {:induction false} FieldsComplete(evs: seq<Event>, buf: string, h: Head, count: nat)
    requires |buf| == HEAD_LINE_MAX && count <= MAX_FIELDS
    ensures HeadAgrees(evs, ParseFields(Front(evs), h, count), FieldsOf(evs, buf, h, count))
    decreases |evs|
  {
    hide LineOf, FieldsOf, NextLine, ParseFields, Terminated, Front, From, ApplyField, TakenApart, CStr;
    FieldsUnfold(evs, buf, h, count);
    if count == MAX_FIELDS {
      NoMoreFields(Front(evs), h);
    } else {
      ParseStep(Front(evs), h, count);
      var r, l := NextLine(Front(evs), |buf|), LineOf(evs, buf);
      if r.Done? {
        LineComplete(evs, buf);
        if r.value != [] {
          TerminatedText(r.value, buf);
          SameField(h, l.buf, r.value);
          FromFront(evs, r.rest);
          FieldsComplete(l.rest, TakenApart(l.buf), ApplyField(h, r.value), count + 1);
          HeadAgreesFrom(evs, r.rest, ParseFields(r.rest, ApplyField(h, r.value), count + 1),
                         FieldsOf(evs, buf, h, count));
        }
      }
    }
  }

  lemma NoMoreFields(s: string, h: Head)
    ensures ParseFields(s, h, MAX_FIELDS) == Bad
  {}

  lemma HeadStep(s: string)
    ensures ParseHead(s) == match NextLine(s, HEAD_LINE_MAX)
      case Done(line, rest) =>
        if !StatusLineOk(line) then Bad
        else if StatusOf(line) >= 200 then ParseFields(rest, StatusHead(line), 0)
        else (match SkipBlock(rest, HEAD_LINE_MAX) case Done(_, rest2) => ParseHead(rest2) case _ => Short)
      case _ => Short
  {
    hide NextLine, StatusLineOk, StatusOf, ParseFields, SkipBlock;
  }

  /** Any bytes where a response is expected: when the head ends in front of the first failure it is the one the parser
      finds, with the reader right behind it, and a malformed one is refused. */
  lemma {:induction false} HeadComplete(evs: seq<Event>, buf: string)
    requires |buf| == HEAD_LINE_MAX
    ensures HeadAgrees(evs, ParseHead(Front(evs)), HeadScanOf(evs, buf))
    decreases |evs|
  {
    hide LineOf, FieldsOf, SkipOf, NextLine, ParseFields, ParseHead, HeadScanOf, Terminated, Front, From, CStr,
      StatusLineOk, StatusOf,
      SkipBlock, StatusHead, HeadAgrees;
    HeadStep(Front(evs));
    HeadUnfold(evs, buf);
    NoneParsed(evs, HeadScanOf(evs, buf));
    var r, l := NextLine(Front(evs), HEAD_LINE_MAX), LineOf(evs, buf);
    if r.Done? {
      LineComplete(evs, buf);
      TerminatedText(r.value, buf);
      SameStatus(l.buf, r.value);
      BlankStatus(r.value);
      FromFront(evs, r.rest);
      if StatusLineOk(r.value) {
        SameHead(l.buf, r.value);
        if StatusOf(r.value) >= 200 {
          FieldsComplete(l.rest, l.buf, StatusHead(r.value), 0);
          HeadAgreesFrom(evs, r.rest, ParseHead(Front(evs)), HeadScanOf(evs, buf));
        } else if SkipBlock(r.rest, HEAD_LINE_MAX).Done? {
          SkipComplete(l.rest, l.buf);
          var s, t := SkipOf(l.rest, l.buf), SkipBlock(r.rest, HEAD_LINE_MAX).rest;
          FromFront(l.rest, t);
          HeadComplete(s.rest, s.buf);
          HeadAgreesFrom(l.rest, t, ParseHead(t), HeadScanOf(s.rest, s.buf));
          HeadAgreesFrom(evs, r.rest, ParseHead(t), HeadScanOf(evs, buf));
        }
      }
    }
  }

  lemma NoneParsed(evs: seq<Event>, s: HeadScan)
    ensures HeadAgrees(evs, Short, s) && HeadAgrees(evs, Bad, NoHead)
  {}

  lemma BlankStatus(l: string)
    ensures l == [] ==> !StatusLineOk(l)
  {}

  lemma SameHead(a: string, b: string)
    requires CStr(a) == CStr(b) && StatusLineOk(a) && StatusLineOk(b)
    ensures StatusHead(a) == StatusHead(b)
  {
    hide StatusLineOk, StatusOf;
    SameStatus(a, b);
  }

  // ---------------------------------------------------------------- chunks

  predicate BodyAgrees(evs: seq<Event>, p: Body, b: BodyScan) {
    match p
    case Whole(d, rest) => Tail(rest, Front(evs)) && b == Kept(d, From(evs, rest))
    case TooBig => b == Refused
    case Cut => true
  }

  lemma BodyAgreesFrom(evs: seq<Event>, t: string, d: string, p: Body, b: BodyScan)
    requires Tail(t, Front(evs)) && BodyAgrees(From(evs, t), p, b)
    ensures BodyAgrees(evs, Prepend(d, p), After(d, b))
  {
    hide Front, From;
    FromFront(evs, t);
    if p.Whole? { FromFrom(evs, t, p.rest); }
  }

  lemma ChunkBuffer(buf: string)
    requires |buf| == CHUNK_LINE_MAX
    ensures |buf| > 1
  {}

  /** At the last chunk. */
  lemma EndComplete(evs: seq<Event>, buf: string, len: nat, max: nat)
    requires |buf| == CHUNK_LINE_MAX
    ensures BodyAgrees(evs, DecodeChunk(Front(evs), 0, len, max), ChunkOf(evs, buf, 0, len, max))
  {
    hide Front, SkipBlock, SkipOf, From;
    if SkipBlock(Front(evs), CHUNK_LINE_MAX).Done? { SkipComplete(evs, buf); }
  }

  lemma ShortChunk(evs: seq<Event>, buf: string, chunk: nat, len: nat, max: nat)
    requires buf != [] && chunk > 0 && (chunk > Reach(evs) || (len + chunk) % (U64_MAX + 1) > max)
    ensures BodyAgrees(evs, DecodeChunk(Front(evs), chunk, len, max), ChunkOf(evs, buf, chunk, len, max))
  {
    hide Front, LineOf, NextLine, DecodeChunks, ChunksOf;
  }

  /** A chunk whose data and end are there. */
  lemma DataStep(evs: seq<Event>, buf: string, chunk: nat, len: nat, max: nat)
    requires |buf| == CHUNK_LINE_MAX && 0 < chunk <= Reach(evs) && (len + chunk) % (U64_MAX + 1) <= max
    ensures var r := NextLine(Front(evs)[chunk..], CHUNK_LINE_MAX);
      if r.Done? then
        var e := LineOf(evs[chunk..], buf);
        && Tail(r.rest, Front(evs)) && e.rest == From(evs, r.rest) && |e.rest| < |evs| && |e.buf| == |buf|
        && DecodeChunk(Front(evs), chunk, len, max)
           == Prepend(Front(evs)[..chunk], DecodeChunks(r.rest, len + chunk, max))
        && ChunkOf(evs, buf, chunk, len, max) == After(Front(evs)[..chunk], ChunksOf(e.rest, e.buf, len + chunk, max))
      else DecodeChunk(Front(evs), chunk, len, max) == Cut
  {
    hide Front, LineOf, NextLine, Terminated, ChunksOf, DecodeChunks, From;
    var t := Front(evs)[chunk..];
    FrontSplit(evs, chunk);
    assert evs[chunk..] == From(evs, t) by { FromDef(evs, t); }
    FromFront(evs, t);
    if NextLine(t, CHUNK_LINE_MAX).Done? {
      LineComplete(evs[chunk..], buf);
      FromFrom(evs, t, NextLine(t, CHUNK_LINE_MAX).rest);
    }
  }

  lemma FromDef(evs: seq<Event>, t: string)
    requires |t| <= Reach(evs)
    ensures From(evs, t) == evs[Reach(evs) - |t|..]
  {}

  lemma {:induction false} ChunkComplete(evs: seq<Event>, buf: string, chunk: nat, len: nat, max: nat)
    requires |buf| == CHUNK_LINE_MAX
    ensures BodyAgrees(evs, DecodeChunk(Front(evs), chunk, len, max), ChunkOf(evs, buf, chunk, len, max))
    decreases |evs|, 1
  {
    hide *;
    ChunkBuffer(buf);
    if chunk == 0 {
      EndComplete(evs, buf, len, max);
    } else if chunk > Reach(evs) || (len + chunk) % (U64_MAX + 1) > max {
      ShortChunk(evs, buf, chunk, len, max);
    } else {
      DataNext(evs, buf, chunk, len, max);
    }
  }

  lemma {:induction false} DataNext(evs: seq<Event>, buf: string, chunk: nat, len: nat, max: nat)
    requires |buf| == CHUNK_LINE_MAX && 0 < chunk <= Reach(evs) && (len + chunk) % (U64_MAX + 1) <= max
    ensures BodyAgrees(evs, DecodeChunk(Front(evs), chunk, len, max), ChunkOf(evs, buf, chunk, len, max))
    decreases |evs|, 0
  {
    hide Front, LineOf, NextLine, ChunksOf, DecodeChunks, DecodeChunk, ChunkOf, From, BodyAgrees;
    DataStep(evs, buf, chunk, len, max);
    var t := Front(evs)[chunk..];
    var r := NextLine(t, CHUNK_LINE_MAX);
    if r.Done? {
      var e := LineOf(evs[chunk..], buf);
      FromFront(evs, r.rest);
      ChunksComplete(e.rest, e.buf, len + chunk, max);
      BodyAgreesFrom(evs, r.rest, Front(evs)[..chunk], DecodeChunks(r.rest, len + chunk, max),
                     ChunksOf(e.rest, e.buf, len + chunk, max));
    } else {
      CutAgrees(evs, ChunkOf(evs, buf, chunk, len, max));
    }
  }

  lemma CutAgrees(evs: seq<Event>, b: BodyScan)
    ensures BodyAgrees(evs, Cut, b)
  {}

  /** Any chunked coding, well-formed or not: when it ends in front of the first failure the scanner yields what the
      decoder yields, and it refuses what the decoder finds too big. */
  lemma {:induction false} ChunksComplete(evs: seq<Event>, buf: string, len: nat, max: nat)
    requires |buf| == CHUNK_LINE_MAX
    ensures BodyAgrees(evs, DecodeChunks(Front(evs), len, max), ChunksOf(evs, buf, len, max))
    decreases |evs|, 2
  {
    hide Front, LineOf, NextLine, ChunksOf, DecodeChunk, ChunkOf, From, BodyAgrees, StrToULL, CStr, Terminated;
    var r := NextLine(Front(evs), CHUNK_LINE_MAX);
    if r.Done? {
      LineComplete(evs, buf);
      TerminatedText(r.value, buf);
      ChunksUnfold(evs, buf, len, max);
      FromFront(evs, r.rest);
      var l, chunk := LineOf(evs, buf), StrToULL(CStr(r.value), 16);
      ChunkComplete(l.rest, l.buf, chunk, len, max);
      BodyAgreesFrom(evs, r.rest, [], DecodeChunk(r.rest, chunk, len, max), ChunkOf(l.rest, l.buf, chunk, len, max));
      Nothing(DecodeChunk(r.rest, chunk, len, max), ChunkOf(l.rest, l.buf, chunk, len, max));
    } else {
      CutAgrees(evs, ChunksOf(evs, buf, len, max));
    }
  }

  lemma Nothing(p: Body, b: BodyScan)
    ensures Prepend([], p) == p && After([], b) == b
  {
    if p.Whole? { assert [] + p.data == p.data; }
    if b.Kept? || b.Last? { assert [] + b.data == b.data; }
  }

  predicate BodyFits(h: Head, evs: seq<Event>, p: Body, b: BodyScan) {
    match p
    case Whole(d, rest) =>
      (b == Last(d) && (h.connClose || h.contentLength < 0))
      || (Tail(rest, Front(evs)) && b == Kept(d, From(evs, rest)))
    case TooBig => b == Refused
    case Cut => h.chunked || b == Lost
  }

  /** Any bytes behind any head: a body that is there in full in front of the first failure is the one the framing says,
      and a lost one was not there. */
  lemma BodyComplete(h: Head, isHead: bool, evs: seq<Event>, buf: string, max: nat)
    requires |buf| == CHUNK_LINE_MAX
    ensures BodyFits(h, evs, BodyOf(h, isHead, Front(evs), max), BodyScanOf(h, isHead, evs, buf, max))
  {
    hide Front, DecodeChunks, ChunksOf;
    var f := Front(evs);
    assert f[|f| - |f|..] == f && evs[0..] == evs;
    if !Bodyless(h, isHead) && h.chunked {
      ChunksComplete(evs, buf, 0, max);
    } else if !Bodyless(h, isHead) && 0 <= h.contentLength <= |f| {
      assert f[|f| - (|f| - h.contentLength)..] == f[h.contentLength..];
    }
  }
}
