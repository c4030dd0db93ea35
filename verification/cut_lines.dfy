/** Responses misread: a receive fails inside one of their lines, the rest of the line arrives, and the reader goes
    on. Every input here is a well-formed response with a single failed receive; the outcome is a success with wrong
    bytes, a truncated body, or a connection kept alive in the middle of a response. */
module CutLines {
  import opened Text
  import opened HttpFraming
  import opened HttpEvents
  import opened HttpLines
  import opened HttpWire
  import opened HttpFaults
  import opened BodyFaults
  import opened HttpReads
  import HttpConn

  /** The bytes a, a failed receive, the bytes b. */
  function Torn(a: string, b: string): seq<Event> { Bytes(a) + ([Fault] + Bytes(b)) }

  /** The text w up to the line feed at its end, a failed receive, that line feed and what follows. */
  function TornAtEnd(w: string, more: string): seq<Event> { if w == [] then [] else Torn(w[..|w| - 1], "\n" + more) }

  predicate Ends(b: BodyScan, data: string) { b.Kept? && b.data == data }

  lemma {:induction false} BytesData(s: string, more: seq<Event>)
    ensures Data(Bytes(s) + more) == s + Data(more)
  {
    if s == [] {
      assert Bytes(s) + more == more;
    } else {
      BytesData(s[1..], more);
      BytesFirst(s, more);
    }
  }

  lemma BytesFirst(s: string, more: seq<Event>)
    requires s != []
    ensures (Bytes(s) + more)[0] == Byte(s[0]) && (Bytes(s) + more)[1..] == Bytes(s[1..]) + more
  {
    hide Bytes;
    assert Bytes(s)[1..] == Bytes(s[1..]);
  }

  lemma TornParts(a: string, b: string)
    ensures var evs := Torn(a, b);
      && Front(evs) == a && Reach(evs) == |a| && Data(evs) == a + b
      && AfterFault(evs[|a|..]) == Bytes(b) && Front(Bytes(b)) == b
  {
    hide Front, Data, Bytes;
    var t := [Fault] + Bytes(b);
    FaultFirst(t);
    FrontOfBytes(a, t);
    BytesData(a, t);
    assert t[1..] == Bytes(b) && Torn(a, b)[|a|..] == t;
    BytesFrom(b, 0);
    assert a + [] == a;
  }

  lemma FaultFirst(t: seq<Event>)
    requires t != [] && t[0].Fault?
    ensures Front(t) == [] && Data(t) == Data(t[1..])
  {}

  lemma BytesFrom(s: string, k: nat)
    requires k <= |s|
    ensures Bytes(s)[k..] == Bytes(s[k..]) && Front(Bytes(s)) == s && Data(Bytes(s)) == s
  {
    hide Front, Data;
    FrontOfBytes(s, []);
    BytesData(s, []);
    NoEvents();
    assert Bytes(s) + [] == Bytes(s) && s + [] == s;
  }

  lemma NoEvents()
    ensures Front([]) == [] && Data([]) == []
  {}

  /** A receive that fails inside the terminator of the blank line behind any header block: the head is read as it was
      sent, but the line feed is still ahead. A body of declared length is then read one byte early, and its last byte
      stays on the connection, which is kept. */
  lemma BlankLineCut(r: Response, max: nat, hbuf: string, bbuf: string)
    requires ResponseOk(r) && r.payload.Sized? && r.body != [] && |r.body| <= max
    requires !Bodyless(HeadOf(r), false) && !HeadOf(r).connClose && |r.fields| < MAX_FIELDS
    requires |hbuf| == HEAD_LINE_MAX && bbuf != []
    ensures Data(TornAtEnd(HeadWire(r), r.body)) == Wire(r, false)
    ensures HeadScanOf(TornAtEnd(HeadWire(r), r.body), hbuf) == Got(HeadOf(r), Bytes("\n" + r.body))
    ensures BodyScanOf(HeadOf(r), false, Bytes("\n" + r.body), bbuf, max)
         == Kept("\n" + r.body[..|r.body| - 1], Bytes([r.body[|r.body| - 1]]))
  {
    hide HeadOf, HeadWire, Torn, Front, Data, Bytes;
    HeadCut(r, hbuf);
    SizedParts(r);
    OneLate(r, HeadOf(r), max, bbuf);
  }

  lemma OneLate(r: Response, h: Head, max: nat, bbuf: string)
    requires r.body != [] && |r.body| <= max && bbuf != []
    requires !Bodyless(h, false) && !h.connClose && h.contentLength == |r.body| && !h.chunked
    ensures BodyScanOf(h, false, Bytes("\n" + r.body), bbuf, max)
         == Kept("\n" + r.body[..|r.body| - 1], Bytes([r.body[|r.body| - 1]]))
  {
    hide Front, Data, Bytes, ChunksOf;
    var d := "\n" + r.body;
    BytesFrom(d, |r.body|);
    assert d[|r.body|..] == [r.body[|r.body| - 1]] && d[..|r.body|] == "\n" + r.body[..|r.body| - 1];
  }

  /** So the readers, on a connection that faces such an answer: success with wrong bytes, and one byte of the answer
      left on a connection that is still alive. */
  method ReadsEarly(c: HttpConn.Conn, r: Response, max: nat) returns (ok: bool, h: Head, rc: int, body: string)
    requires c.Valid() && c.alive && c.Stream() == TornAtEnd(HeadWire(r), r.body)
    requires ResponseOk(r) && r.payload.Sized? && r.body != [] && |r.body| <= max
    requires !Bodyless(HeadOf(r), false) && !HeadOf(r).connClose && |r.fields| < MAX_FIELDS
    modifies c`wire, c`rpos, c`rlen, c`alive, c.rbuf
    ensures ok && h == HeadOf(r) && rc == 0 && body == "\n" + r.body[..|r.body| - 1]
    ensures c.Valid() && c.alive && Data(c.Stream()) == [r.body[|r.body| - 1]]
  {
    hide HeadOf, HeadWire, Data, Bytes, ResponseOk, HeadScanOf, BodyScanOf, HttpConn.Conn.Valid, HttpConn.Conn.Stream,
      TornAtEnd;
    ghost var junk;
    ok, h, junk := c.ReadResponse();
    BlankLineCut(r, max, junk, ['\0']);
    rc, body, junk := c.ReadBody(h, false, true, max);
    BlankLineCut(r, max, seq(HEAD_LINE_MAX, i => '\0'), junk);
    BytesFrom([r.body[|r.body| - 1]], 0);
  }

  lemma HeadCut(r: Response, hbuf: string)
    requires ResponseOk(r) && r.payload.Sized? && !Bodyless(HeadOf(r), false) && |r.fields| < MAX_FIELDS
    requires |hbuf| == HEAD_LINE_MAX
    ensures Data(TornAtEnd(HeadWire(r), r.body)) == Wire(r, false)
    ensures HeadScanOf(TornAtEnd(HeadWire(r), r.body), hbuf) == Got(HeadOf(r), Bytes("\n" + r.body))
  {
    hide HeadOf, HeadWire, Torn, Front, Data, Bytes, AfterFault, HeadScanOf, ResponseOk, Final, Reach;
    HeadLast(r);
    WireParts(r, false);
    SizedParts(r);
    var w, d := HeadWire(r), "\n" + r.body;
    TornParts(w[..|w| - 1], d);
    assert w[..|w| - 1] + d == w + r.body;
    HeadScanned(r, r.body, TornAtEnd(w, r.body), hbuf);
  }

  lemma SizedParts(r: Response)
    requires ResponseOk(r) && r.payload.Sized? && !Bodyless(HeadOf(r), false)
    ensures MessageHeadOk(r) && BodyPart(r, false) == r.body
    ensures HeadOf(r).contentLength == |r.body| && !HeadOf(r).chunked
  {
    hide HeadOf, MessageHeadOk;
  }

  lemma HeadLast(r: Response)
    ensures |HeadWire(r)| >= 2 && HeadWire(r)[|HeadWire(r)| - 1] == '\n'
  {
    hide LineWire, FieldLine;
    FieldsLast(r.fields);
  }

  lemma {:induction false} FieldsLast(fs: seq<Field>)
    ensures |FieldsWire(fs)| >= 2 && FieldsWire(fs)[|FieldsWire(fs)| - 1] == '\n'
    decreases |fs|
  {
    if fs != [] { FieldsLast(fs[1..]); }
  }

  // ---------------------------------------------------------------- a chunk's end

  /** At the line feed of a cut chunk end the size line that is expected reads as empty: the last chunk. */
  lemma EmptySize(more: string, buf: string, len: nat, max: nat)
    requires |buf| > 1
    ensures var b := ChunksOf(Bytes("\n" + more), buf, len, max); b.Kept? && b.data == []
  {
    hide Bytes, LineText, SkipOf;
    var d := "\n" + more;
    BytesFrom(d, 0);
    LineRead(Bytes(d), buf);
    assert IndexOf(d, '\n') == 0 && d[..0] == [];
    NoText(buf);
    var r := LineOf(Bytes(d), buf);
    TerminatedText([], buf);
    assert CStr(r.buf) == [];
  }

  lemma DataCut(data: string, more: string, len: nat, max: nat, evs: seq<Event>, buf: string)
    requires |buf| > 1 && data != [] && len + |data| <= max && len + |data| <= U64_MAX
    requires evs == Torn(data + "\r", "\n" + more)
    ensures var b := ChunkOf(evs, buf, |data|, len, max); b.Kept? && b.data == data
  {
    hide LineWire, Front, Data, LineOf, CStr, SkipOf, ChunksOf, Torn, Bytes, AfterFault;
    TornParts(data + "\r", "\n" + more);
    assert (len + |data|) % (U64_MAX + 1) == len + |data|;
    var e1 := evs[|data|..];
    FrontSplit(evs, |data|);
    assert Front(e1) == "\r";
    LineRead(e1, buf);
    assert e1[1..] == evs[|data| + 1..];
    var e := LineOf(e1, buf);
    assert e.n >= 0 && e.rest == Bytes("\n" + more);
    EmptySize(more, e.buf, len + |data|, max);
    assert Front(evs)[..|data|] == data;
  }

  lemma TornFrom(a: string, b: string, m: nat)
    requires m <= |a|
    ensures Torn(a, b)[m..] == Torn(a[m..], b)
  {
    hide Bytes;
    assert Bytes(a)[m..] == Bytes(a[m..]);
  }

  lemma OneChunk(c: Chunk)
    requires ChunkOk(c)
    ensures var l, w := c.size + c.ext, ChunksWire([c]);
      && w == ChunkWire(c) && |w| == |l| + 2 + |c.data| + 2 && |LineWire(l)| == |l| + 2
      && w[..|w| - 1] == LineWire(l) + (c.data + "\r") && w == w[..|w| - 1] + "\n"
      && Concat([c]) == c.data
  {
    var l, w := c.size + c.ext, ChunksWire([c]);
    assert [c][1..] == [] && |LineWire(l)| == |l| + 2 && LineWire([]) == "\r\n";
    hide LineWire;
    assert w == LineWire(l) + c.data + "\r\n" + ChunksWire([c][1..]);
    assert ChunksWire([]) == [];
    assert w == LineWire(l) + (c.data + "\r") + "\n";
    assert c.data + [] == c.data;
  }

  lemma OneChunkCut(c: Chunk, more: string, len: nat, max: nat, buf: string)
    requires |buf| > 1 && |buf| == CHUNK_LINE_MAX && ChunkOk(c) && len + |c.data| <= max && len + |c.data| <= U64_MAX
    ensures Ends(ChunksOf(TornAtEnd(ChunksWire([c]), more), buf, len, max), c.data)
  {
    hide Torn, ChunksOf, ChunkOf, LineOf, LineWire, ChunkOk, Reach, Front, Data, Carries, ChunkWire, SizeRead, CStr,
      StrToULL, Final,
      ChunksWire, OneLine, Concat;
    ChunkBuffer(buf);
    ChunkSize(c);
    OneChunk(c);
    var l, w := c.size + c.ext, ChunksWire([c]);
    var a, b := w[..|w| - 1], "\n" + more;
    var evs := Torn(a, b);
    TornParts(a, b);
    CarriesAll(evs, LineWire(l), c.data + "\r", b);
    SizeTaken(l, c.data + "\r" + b, evs, buf);
    SizeDone(l, evs, buf);
    TornFrom(a, b, |l| + 2);
    assert a[|l| + 2..] == c.data + "\r";
    var r := LineOf(evs, buf);
    ChunksUnfold(evs, buf, len, max);
    DataCut(c.data, more, len, max, r.rest, r.buf);
  }

  lemma SizeDone(l: string, evs: seq<Event>, buf: string)
    requires |l| + 2 <= Reach(evs) && buf != [] && SizeRead(l, evs, LineOf(evs, buf))
    ensures var r := LineOf(evs, buf); r.n >= 0 && CStr(r.buf) == CStr(l) && r.rest == evs[|l| + 2..]
  {}

  lemma CarriesAll(evs: seq<Event>, a: string, b: string, c: string)
    requires Data(evs) == a + b + c
    ensures Carries(evs, a + (b + c))
  {
    assert a + b + c == a + (b + c);
  }

  lemma LaterChunks(cs: seq<Chunk>)
    requires |cs| > 1
    ensures var w, v := ChunksWire(cs), ChunksWire(cs[1..]);
      && |v| >= 2 && w == ChunkWire(cs[0]) + v
      && w[..|w| - 1] == ChunkWire(cs[0]) + v[..|v| - 1] && w[|w| - 1] == v[|v| - 1]
      && w[..|w| - 1][|ChunkWire(cs[0])|..] == v[..|v| - 1]
  {
    hide LineWire;
    ChunksFirst(cs);
  }

  lemma FarBehind(c: Chunk, k: nat)
    requires k >= |ChunkWire(c)|
    ensures !InChunkLine(c, k)
  {
    ChunkShape(c, []);
  }

  /** A receive that fails inside the line terminator behind any chunk: the body is taken to end there, with success and
      on a connection that is kept, whatever follows. */
  lemma {:induction false} ChunkEndCut(cs: seq<Chunk>, more: string, len: nat, max: nat, buf: string)
    requires |buf| > 1 && |buf| == CHUNK_LINE_MAX && cs != [] && AllChunksOk(cs)
    requires len + |Concat(cs)| <= max && len + |Concat(cs)| <= U64_MAX
    ensures Ends(ChunksOf(TornAtEnd(ChunksWire(cs), more), buf, len, max), Concat(cs))
    decreases |cs|
  {
    hide Torn, ChunksOf, Reach, Front, Data, Carries, ChunkWire, Final, ChunksWire, Concat, AllChunksOk, ChunkOk,
      InChunkLine,
      Unfinished;
    ChunkBuffer(buf);
    FirstOk(cs);
    ConcatFirst(cs);
    if |cs| == 1 {
      assert cs == [cs[0]];
      NoConcat(cs[1..]);
      assert cs[0].data + [] == cs[0].data;
      OneChunkCut(cs[0], more, len, max, buf);
    } else {
      LaterChunks(cs);
      var c, w, v := cs[0], ChunksWire(cs), ChunksWire(cs[1..]);
      var a, b := w[..|w| - 1], "\n" + more;
      var evs, m := Torn(a, b), |ChunkWire(cs[0])|;
      TornParts(a, b);
      CarriesAll(evs, ChunkWire(c), v[..|v| - 1], b);
      FarBehind(c, Reach(evs));
      var next := ChunkScanned(c, v[..|v| - 1] + b, len, max, evs, buf);
      TornFrom(a, b, m);
      ChunkEndCut(cs[1..], more, len + |c.data|, max, next.buf);
    }
  }

  // ---------------------------------------------------------------- a declared length

  predicate Digits(d: string) { d != [] && AllDigits(d, 10) && Value(d, 10) <= I64_MAX }

  lemma DigitsClean(d: string)
    requires Digits(d)
    ensures OneLine(d) && '\0' !in d && ':' !in d && CStr(d) == d && IndexOf(d, ':') == |d| && !IsSpace(d[0])
  {
    hide Value;
    assert forall i | 0 <= i < |d| :: IsDigitIn(d[i], 10);
    CStrClean(d);
  }

  /** Text that does not continue a number and ends without white space. */
  predicate Stale(t: string) {
    Lacks(t, {'\r', '\n', '\0'}) && (t != [] ==> !IsDigitIn(t[0], 10) && Lower(t[0]) != 'x' && !IsSpace(t[|t| - 1]))
  }

  predicate LengthName(name: string, pad: string) {
    && EqCI(name, "Content-Length") && Lacks(name, {':', '\r', '\n', '\0'})
    && forall i | 0 <= i < |pad| :: pad[i] == ' ' || pad[i] == '\t'
  }

  lemma LengthValue(d: string, t: string)
    requires Digits(d) && Stale(t)
    ensures Lacks(d + t, {'\r', '\n', '\0'}) && Trimmed(d + t) && StrToLL(d + t) == Value(d, 10)
  {
    hide Run, Value, ScanNumber;
    DigitsClean(d);
    LacksConcat(d, t, {'\r', '\n', '\0'});
    assert (d + t)[0] == d[0];
    assert (d + t)[|d + t| - 1] == if t == [] then d[|d| - 1] else t[|t| - 1];
    ScanPlain(d, t, 10);
  }

  /** A Content-Length line of which only the digits d have been read, stale text behind them. */
  lemma LengthApplied(h: Head, name: string, pad: string, d: string, t: string)
    requires LengthName(name, pad) && Digits(d) && Stale(t) && |name + ":" + pad + (d + t)| < HEAD_LINE_MAX
    ensures CStr(name + ":" + pad + (d + t)) == name + ":" + pad + (d + t)
    ensures ApplyField(h, name + ":" + pad + (d + t)) == h.(contentLength := Value(d, 10))
  {
    hide CStr, IndexOf, Trim, StrToLL, Value, Stale, Digits, Trimmed;
    LengthValue(d, t);
    var f := Field(name, pad, d + t);
    assert |name| > 0;
    FieldSplit(f);
  }

  lemma DigitsIgnored(h: Head, d: string, buf: string)
    requires Digits(d) && |d| < |buf|
    ensures ApplyField(h, Terminated(d, buf)) == h
  {
    hide CStr, IndexOf, Value, Terminated;
    DigitsClean(d);
    TerminatedText(d, buf);
  }

  /** The buffer after a line cut behind the text p, the line l having been in it before. */
  lemma StaleBehind(l: string, p: string, buf: string)
    requires |p| <= |l| < |buf| && '\0' !in l
    ensures CStr(Laid(p, Terminated(l, buf))) == CStr(p + l[|p|..])
  {
    var n, x := ['\0'], buf[|l| + 1..];
    hide CStr;
    Behind(l, n, x, |p|);
    Regrouped(p, l[|p|..], n + x);
    CStrThen(p + l[|p|..], n + x);
  }

  lemma Behind(l: string, n: string, x: string, k: nat)
    requires k <= |l|
    ensures (l + n + x)[k..] == l[k..] + (n + x)
  {}

  lemma Regrouped(p: string, a: string, m: string)
    ensures p + (a + m) == (p + a) + m
  {}

  lemma CutRead(p: string, b: string, buf: string)
    requires OneLine(p) && p != [] && |p| < |buf|
    ensures LineOf(Torn(p, b), buf) == Line(|p|, Laid(p, buf), Bytes(b))
  {
    hide Front, Data, Torn, Bytes, Laid, LineText, AfterFault, LineOf, IndexOf;
    TornParts(p, b);
    LineRead(Torn(p, b), buf);
    TextOf(p, [], |buf|);
    assert p + [] == p && p[..|p|] == p;
  }

  lemma WholeRead(l: string, b: string, buf: string)
    requires OneLine(l) && |l| < |buf| && |buf| > 1
    ensures LineOf(Bytes(l + "\r\n" + b), buf) == Line(|l|, Terminated(l, buf), Bytes(b))
  {
    hide Front, Data, Bytes, Laid, Terminated, AfterFault, LineOf, Lacks;
    var d := l + "\r\n" + b;
    BytesFrom(d, |l| + 2);
    assert d == LineWire(l) + b && d[|l| + 2..] == b;
    WireLineRead(l, b, Bytes(d), buf);
  }

  /** The header block whose only line is cut inside the digits of its length: the first digits are the length. */
  lemma LengthFields(l: string, p: string, d1: string, d2: string, body: string, buf: string, h: Head, cut: Head)
    requires |p| <= |l| < |buf| == HEAD_LINE_MAX && '\0' !in l && OneLine(p) && p != [] && Digits(d2) && |d2| < |buf|
    requires CStr(p + l[|p|..]) == p + l[|p|..] && ApplyField(h, p + l[|p|..]) == cut
    ensures FieldsOf(Torn(p, d2 + "\r\n" + ("\r\n" + body)), Terminated(l, buf), h, 0) == Got(cut, Bytes(body))
  {
    hide *;
    LongBuffer(buf);
    var b := "\r\n" + body;
    var a := d2 + "\r\n" + b;
    var buf1 := Laid(p, Terminated(l, buf));
    CutRead(p, a, Terminated(l, buf));
    StaleBehind(l, p, buf);
    SameField(h, buf1, p + l[|p|..]);
    Unfolded(Torn(p, a), Terminated(l, buf), h, 0);
    var buf2 := TakenApart(buf1);
    Unfolded(Bytes(a), buf2, cut, 1);
    DigitsLine(d2);
    WholeRead(d2, b, buf2);
    DigitsIgnored(cut, d2, buf2);
    var buf3 := TakenApart(Terminated(d2, buf2));
    Unfolded(Bytes(b), buf3, cut, 2);
    BlankRead(body, buf3);
  }

  lemma DigitsLine(d: string)
    requires Digits(d)
    ensures OneLine(d) && d != []
  {
    DigitsClean(d);
  }

  lemma BlankRead(body: string, buf: string)
    requires |buf| > 1
    ensures LineOf(Bytes("\r\n" + body), buf).n == 0 && LineOf(Bytes("\r\n" + body), buf).rest == Bytes(body)
  {
    hide Bytes, LineOf, Terminated;
    WholeRead([], body, buf);
    assert [] + "\r\n" + body == "\r\n" + body;
  }

  lemma Unfolded(evs: seq<Event>, buf: string, h: Head, count: nat)
    requires buf != [] && count < 3
    ensures var l := LineOf(evs, buf);
            FieldsOf(evs, buf, h, count)
            == if l.n < 0 then NoHead
               else if l.n == 0 then Got(h, l.rest)
               else FieldsOf(l.rest, TakenApart(l.buf), ApplyField(h, l.buf), count + 1)
  {
    hide LineOf, ApplyField, TakenApart, FieldsOf;
    FieldsUnfold(evs, buf, h, count);
  }

  lemma {:induction false} FewerDigits(d1: string, d2: string)
    requires AllDigits(d1, 10) && AllDigits(d2, 10)
    ensures AllDigits(d1 + d2, 10) && Value(d1, 10) <= Value(d1 + d2, 10)
    ensures d2 != [] && Value(d1 + d2, 10) > 0 ==> Value(d1, 10) < Value(d1 + d2, 10)
    decreases |d2|
  {
    if d2 == [] {
      assert d1 + d2 == d1;
    } else {
      var e := d2[..|d2| - 1];
      FewerDigits(d1, e);
      assert (d1 + d2)[..|d1 + d2| - 1] == d1 + e;
      assert IsDigitIn(d2[|d2| - 1], 10);
    }
  }

  /** The head of a response with one header line, name:pad d, on the wire. */
  function LengthWire(l: string, name: string, pad: string, d: string): string {
    LineWire(l) + LineWire(name + ":" + pad + d) + "\r\n"
  }

  /** A response whose only header line declares the length of its body. */
  function LengthResponse(l: string, name: string, pad: string, d: string, body: string): Response {
    Response([], l, [Field(name, pad, d)], [Length(d)], body, Sized)
  }

  lemma LengthShape(l: string, name: string, pad: string, d: string, body: string)
    requires StatusText(l, 200, 1000) && LengthName(name, pad) && Digits(d) && Value(d, 10) == |body|
    requires |name + ":" + pad + d| < HEAD_LINE_MAX && StatusLineOk(l) && StatusOf(l) != 204 && StatusOf(l) != 304
    ensures var r := LengthResponse(l, name, pad, d, body);
      && ResponseOk(r) && HeadOf(r) == StatusHead(l).(contentLength := |body|)
      && Wire(r, false) == LengthWire(l, name, pad, d) + body
  {
    hide *;
    LengthIs(l, name, pad, d, body);
    var r := LengthResponse(l, name, pad, d, body);
    LengthSays(name, pad, d);
    OneFieldHead(l, Length(d));
    LengthOk(r, l, Field(name, pad, d), d);
    LengthOnWire(l, name, pad, d, body);
    WireParts(r, false);
  }

  lemma LengthIs(l: string, name: string, pad: string, d: string, body: string)
    ensures LengthResponse(l, name, pad, d, body) == Response([], l, [Field(name, pad, d)], [Length(d)], body, Sized)
  {}

  lemma LengthOk(r: Response, l: string, f: Field, d: string)
    requires r == Response([], l, [f], [Length(d)], r.body, Sized) && StatusText(l, 200, 1000) && Says(f, Length(d))
    requires StatusLineOk(l) && StatusOf(l) != 204 && StatusOf(l) != 304 && MeaningOk(Length(d))
      && Value(d, 10) == |r.body|
    ensures ResponseOk(r) && HeadOf(r) == StatusHead(l).(contentLength := |r.body|) && BodyPart(r, false) == r.body
  {
    hide StatusText, Says, StatusOf, StatusLineOk, HeadFrom, Value, MeaningOk, Number64, AllMeaningsOk;
    OneFieldHead(l, Length(d));
    assert MessageHeadOk(r);
  }

  lemma LengthOnWire(l: string, name: string, pad: string, d: string, body: string)
    ensures HeadWire(LengthResponse(l, name, pad, d, body)) == LengthWire(l, name, pad, d)
  {
    hide LineWire;
    var r, f := LengthResponse(l, name, pad, d, body), Field(name, pad, d);
    assert FieldLine(f) == name + ":" + pad + d;
    assert [f][1..] == [];
    assert FieldsWire([f]) == LineWire(FieldLine(f)) + "\r\n";
  }

  lemma OneFieldHead(l: string, m: Meaning)
    requires StatusText(l, 200, 1000) && StatusLineOk(l) && MeaningOk(m)
    ensures AllMeaningsOk([m])
    ensures StatusHead(l) == EmptyHead(Value(l[9..12], 10), l[7] == '0')
    ensures HeadFrom(StatusHead(l), [m]) == Effect(StatusHead(l), m)
  {
    StatusShape(l, 200, 1000);
    hide StatusHead, StatusLineOk, Effect, StatusText, Value;
    assert [m][1..] == [];
  }

  lemma LengthSays(name: string, pad: string, d: string)
    requires LengthName(name, pad) && Digits(d) && |name + ":" + pad + d| < HEAD_LINE_MAX
    ensures Says(Field(name, pad, d), Length(d)) && MeaningOk(Length(d))
  {
    hide Value;
    LengthValue(d, []);
    assert d + [] == d;
  }

  /** A receive that fails between two digits of any declared length, in a response with that one header line: the head
      is accepted with the digits read so far for the length, and that much of the body is returned with success; the
      rest of the body stays on the connection, which is kept. All that is asked is that the status line, which the
      buffer held before, does not happen to continue the number. */
  lemma LengthCut(l: string, name: string, pad: string, d1: string, d2: string, body: string, max: nat, hbuf: string,
                  bbuf: string)
    requires StatusText(l, 200, 1000) && StatusLineOk(l) && StatusOf(l) != 204 && StatusOf(l) != 304 && l[7] != '0'
    requires LengthName(name, pad) && Digits(d1) && Digits(d2) && Digits(d1 + d2) && Value(d1 + d2, 10) == |body| > 0
    requires |name + ":" + pad + (d1 + d2)| < HEAD_LINE_MAX == |hbuf| && bbuf != [] && |body| <= max
    requires |name + ":" + pad + d1| <= |l| && Stale(l[|name + ":" + pad + d1|..])
    ensures var evs := Torn(LineWire(l) + (name + ":" + pad + d1), d2 + "\r\n" + ("\r\n" + body));
      var h, r := StatusHead(l).(contentLength := Value(d1, 10)), LengthResponse(l, name, pad, d1 + d2, body);
      && ResponseOk(r) && HeadOf(r) == h.(contentLength := |body|) && Data(evs) == Wire(r, false)
      && HeadScanOf(evs, hbuf) == Got(h, Bytes(body))
      && Value(d1, 10) < |body|
      && BodyScanOf(h, false, Bytes(body), bbuf, max) == Kept(body[..Value(d1, 10)], Bytes(body[Value(d1, 10)..]))
  {
    hide *;
    DigitsMore(d1, d2, |body|);
    LengthShape(l, name, pad, d1 + d2, body);
    LengthTorn(l, name, pad, d1, d2, body);
    LengthHead(l, name, pad, d1, d2, body, hbuf);
    LengthKeep(l);
    ShortBody(StatusHead(l).(contentLength := Value(d1, 10)), Value(d1, 10), body, max, bbuf);
  }

  lemma DigitsMore(d1: string, d2: string, n: nat)
    requires Digits(d1) && Digits(d2) && Digits(d1 + d2) && Value(d1 + d2, 10) == n > 0
    ensures AllDigits(d1, 10) && Value(d1, 10) < n
  {
    FewerDigits(d1, d2);
  }

  lemma LengthKeep(l: string)
    requires StatusLineOk(l) && l[7] != '0'
    ensures StatusHead(l).status == StatusOf(l) && !StatusHead(l).connClose && !StatusHead(l).chunked
  {
    hide StatusLineOk, StatusOf;
  }

  lemma LengthTorn(l: string, name: string, pad: string, d1: string, d2: string, body: string)
    ensures Data(Torn(LineWire(l) + (name + ":" + pad + d1), d2 + "\r\n" + ("\r\n" + body)))
         == LengthWire(l, name, pad, d1 + d2) + body
  {
    hide Torn, Data, LineWire;
    var p, c := name + ":" + pad + d1, "\r\n" + body;
    TornParts(LineWire(l) + p, d2 + "\r\n" + c);
    assert name + ":" + pad + (d1 + d2) == p + d2;
    assert LineWire(p + d2) == p + d2 + "\r\n" by { LineIs(p + d2); }
    Reordered(LineWire(l), p, d2, "\r\n", body);
  }

  lemma LineIs(l: string)
    ensures LineWire(l) == l + "\r\n"
  {}

  lemma Reordered(a: string, p: string, d: string, e: string, b: string)
    ensures (a + p) + (d + e + (e + b)) == (a + (p + d + e) + e) + b
  {}

  lemma ShortBody(h: Head, n: nat, body: string, max: nat, bbuf: string)
    requires h.contentLength == n < |body| <= max && bbuf != []
    requires !h.connClose && !h.chunked && h.status != 204 && h.status != 304
    ensures BodyScanOf(h, false, Bytes(body), bbuf, max) == Kept(body[..n], Bytes(body[n..]))
  {
    hide Front, Data, Bytes, ChunksOf;
    BytesFrom(body, n);
  }

  lemma LengthHead(l: string, name: string, pad: string, d1: string, d2: string, body: string, hbuf: string)
    requires StatusText(l, 200, 1000) && StatusLineOk(l) && LengthName(name, pad) && Digits(d1) && Digits(d2)
    requires |name + ":" + pad + (d1 + d2)| < HEAD_LINE_MAX == |hbuf|
    requires |name + ":" + pad + d1| <= |l| && Stale(l[|name + ":" + pad + d1|..])
    ensures HeadScanOf(Torn(LineWire(l) + (name + ":" + pad + d1), d2 + "\r\n" + ("\r\n" + body)), hbuf)
         == Got(StatusHead(l).(contentLength := Value(d1, 10)), Bytes(body))
  {
    hide *;
    LongBuffer(hbuf);
    StatusShape(l, 200, 1000);
    var p, b := name + ":" + pad + d1, d2 + "\r\n" + ("\r\n" + body);
    LengthLine(name, pad, d1, d2, l);
    StatusFirst(l, p, b, hbuf);
    TerminatedText(l, hbuf);
    StatusTaken(l, Torn(LineWire(l) + p, b), hbuf);
    LengthStale(StatusHead(l), l, name, pad, d1);
    LengthFields(l, p, d1, d2, body, hbuf, StatusHead(l), StatusHead(l).(contentLength := Value(d1, 10)));
  }

  lemma StatusFirst(l: string, p: string, b: string, buf: string)
    requires OneLine(l) && |l| < |buf| && |buf| > 1
    ensures LineOf(Torn(LineWire(l) + p, b), buf) == Line(|l|, Terminated(l, buf), Torn(p, b))
  {
    hide Torn, Front, Data, Laid, Terminated, AfterFault, LineOf, LineWire, Lacks;
    LineShape(l);
    var evs := Torn(LineWire(l) + p, b);
    TornParts(LineWire(l) + p, b);
    assert LineWire(l) + p + b == LineWire(l) + (p + b);
    WireLineRead(l, p + b, evs, buf);
    TornFrom(LineWire(l) + p, b, |l| + 2);
    assert (LineWire(l) + p)[|l| + 2..] == p;
  }

  lemma LengthLine(name: string, pad: string, d1: string, d2: string, l: string)
    requires LengthName(name, pad) && Digits(d1) && Digits(d2) && |name + ":" + pad + (d1 + d2)| < HEAD_LINE_MAX
    requires StatusText(l, 200, 1000)
    ensures OneLine(name + ":" + pad + d1) && name + ":" + pad + d1 != [] && |d2| < HEAD_LINE_MAX && '\0' !in l
    ensures AllDigits(d1, 10)
  {
    DigitsClean(d1);
    hide Value;
    var bad := {'\r', '\n'};
    assert Lacks(pad, bad) && Lacks(name, bad) && Lacks(":", bad);
    LacksConcat(name, ":", bad);
    LacksConcat(name + ":", pad, bad);
    LacksConcat(name + ":" + pad, d1, bad);
  }

  lemma LengthStale(h: Head, l: string, name: string, pad: string, d: string)
    requires LengthName(name, pad) && Digits(d) && |name + ":" + pad + d| <= |l| < HEAD_LINE_MAX
    requires Stale(l[|name + ":" + pad + d|..])
    ensures var p := name + ":" + pad + d;
      && CStr(p + l[|p|..]) == p + l[|p|..] && ApplyField(h, p + l[|p|..]) == h.(contentLength := Value(d, 10))
  {
    hide CStr, ApplyField, Value, Stale, Digits, LengthName;
    var t := l[|name + ":" + pad + d|..];
    assert name + ":" + pad + d + t == name + ":" + pad + (d + t);
    LengthApplied(h, name, pad, d, t);
  }
}
