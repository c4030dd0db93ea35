/** One HTTP connection of http_source.c: its receive buffer, the buffered readers and the response and body readers.

    The transport may hand out the peer's bytes in pieces of any size, and a receive may fail at any point with more
    bytes to follow. Every reader is proved to compute its function of HttpEvents on the remaining events. */
module HttpConn {
  import opened Text
  import opened HttpFraming
  import opened HttpEvents
  import Url

  const COPY_SIZE: nat := 16384

  function Ahead(buffered: string, wire: seq<Event>): seq<Event> { Bytes(buffered) + wire }

  lemma NoneAhead(w: seq<Event>)
    ensures Ahead([], w) == w
  {}

  lemma Refilled(w: seq<Event>, n: nat)
    requires n <= |Front(w)|
    ensures Ahead(Front(w)[..n], w[n..]) == w
  {
    hide Front, Bytes;
  }

  /** Buffered bytes come first. */
  lemma Dropped(b: string, w: seq<Event>, k: nat)
    requires k <= |b|
    ensures Ahead(b, w)[k..] == Ahead(b[k..], w) && |Ahead(b, w)| >= k
    ensures b <= Front(Ahead(b, w))
    ensures k > 0 ==> Ahead(b, w)[0] == Byte(b[0])
  {
    hide Front, Bytes;
    FrontOfBytes(b, w);
    assert Bytes(b[k..]) == Bytes(b)[k..];
  }

  method CopyOut(s: string, buf: array<char>)
    requires |s| <= buf.Length
    modifies buf
    ensures buf[..|s|] == s
  {
    forall i | 0 <= i < |s| { buf[i] := s[i]; }
  }

  class Conn {
    const ep: Url.HttpUrl
    const rbuf: array<char>
    var rpos: nat
    var rlen: nat
    var alive: bool
    /** What the peer has sent and is not yet received, and the receives that will fail on the way. */
    var wire: seq<Event>
    /** The peer sends nothing any more. */
    var closed: bool
    /** A receive has failed inside a line of a response that went on behind it. */
    ghost var torn: bool

    ghost predicate Valid()
      reads this`rpos, this`rlen
    {
      rpos <= rlen <= rbuf.Length && rbuf.Length > 0
    }

    /** What the connection still delivers: what is buffered, then what is on the wire. */
    ghost function Stream(): seq<Event>
      reads this`rpos, this`rlen, this`wire, rbuf
      requires Valid()
    {
      Ahead(rbuf[rpos..rlen], wire)
    }

    constructor (u: Url.HttpUrl, size: nat)
      requires size > 0
      ensures Valid() && alive && !closed && !torn && Stream() == [] && ep == u.(path := "") && fresh(rbuf)
    {
      ep := u.(path := "");
      rbuf := new char[size];
      rpos, rlen, alive, wire, closed, torn := 0, 0, true, [], false, false;
    }

    /** conn_read_raw: a receive that has not failed delivers between one and len bytes. */
    method ReadRaw(buf: array<char>, at: nat, len: nat) returns (n: int)
      requires 0 < len && at + len <= buf.Length
      modifies this`wire, buf
      ensures n <= len
      ensures n > 0 <==> Front(old(wire)) != []
      ensures n > 0 ==> n <= |Front(old(wire))| && wire == old(wire)[n..]
                        && forall i | at <= i < at + n :: buf[i] == Front(old(wire))[i - at]
      ensures n <= 0 ==> wire == AfterFault(old(wire))
      ensures forall i | 0 <= i < buf.Length && !(at <= i < at + n) :: buf[i] == old(buf[i])
    {
      hide Front, Bytes;
      var ready := Front(wire);
      if ready == [] {
        wire := AfterFault(wire);
        n := *;
        if n > 0 { n := 0; }
        return;
      }
      n := *;
      if n <= 0 { n := 1; }
      if n > len { n := len; }
      if n > |ready| { n := |ready|; }
      forall i | 0 <= i < n { buf[at + i] := ready[i]; }
      wire := wire[n..];
    }

    /** Refills the empty receive buffer. */
    method Refill() returns (n: int)
      requires Valid() && rpos == rlen
      modifies this`rpos, this`rlen, this`wire, rbuf
      ensures Valid() && n <= rbuf.Length
      ensures n > 0 <==> Front(old(Stream())) != []
      ensures n > 0 ==> rpos == 0 && rlen == n && Stream() == old(Stream())
      ensures n <= 0 ==> rpos == rlen && Stream() == AfterFault(old(Stream()))
    {
      hide Front, Ahead, AfterFault;
      ghost var w := wire;
      NoneAhead(w);
      assert rbuf[rpos..rlen] == [];
      n := ReadRaw(rbuf, 0, rbuf.Length);
      if n > 0 {
        rpos, rlen := 0, n;
        assert rbuf[rpos..rlen] == Front(w)[..n];
        Refilled(w, n);
      } else {
        NoneAhead(wire);
        assert rbuf[rpos..rlen] == [];
      }
    }

    /** conn_getc. */
    method GetC() returns (ok: bool, ch: char)
      requires Valid()
      modifies this`rpos, this`rlen, this`wire, rbuf
      ensures Valid()
      ensures ok == (Front(old(Stream())) != [])
      ensures ok ==> old(Stream()) != [] && Byte(ch) == old(Stream())[0] && Stream() == old(Stream())[1..]
      ensures !ok ==> Stream() == AfterFault(old(Stream()))
    {
      hide Front, Ahead, AfterFault;
      ch := '\0';
      if rpos >= rlen {
        var n := Refill();
        if n <= 0 { return false, ch; }
      }
      Dropped(rbuf[rpos..rlen], wire, 1);
      ok, ch := true, rbuf[rpos];
      assert rbuf[rpos..rlen][1..] == rbuf[rpos + 1..rlen];
      rpos := rpos + 1;
    }

    /** conn_read_line, into the line buffer of its caller. */
    method ReadLine(line: array<char>) returns (n: int)
      requires Valid() && line != rbuf && line.Length > 0
      modifies this`rpos, this`rlen, this`wire, rbuf, line
      ensures Valid()
      ensures Line(n, line[..], Stream()) == LineOf(old(Stream()), old(line[..]))
    {
      n := 0;
      var gotAny := false;
      ghost var want := LineOf(Stream(), line[..]);
      while true
        invariant Valid() && 0 <= n < line.Length && (n > 0 ==> gotAny)
        invariant want == ScanLine(Stream(), line[..], n, gotAny)
        decreases |Stream()|
      {
        ghost var s, b := Stream(), line[..];
        var ok, ch := GetC();
        assert line[..] == b;
        if !ok {
          n := if gotAny then n else -1;
          return;
        }
        gotAny := true;
        if ch == '\n' { break; }
        if ch != '\r' && n + 1 < line.Length {
          line[n] := ch;
          assert line[..] == b[n := ch];
          n := n + 1;
        }
      }
      ghost var b := line[..];
      line[n] := '\0';
      assert line[..] == b[n := '\0'];
    }

    /** conn_read_exact into the front of buf: buffered bytes first, then straight from the transport. */
    method ReadExact(buf: array<char>, len: nat) returns (ok: bool)
      requires Valid() && len <= buf.Length && buf != rbuf
      modifies this`rpos, this`wire, buf
      ensures Valid()
      ensures ok == (len <= |Front(old(Stream()))|)
      ensures ok ==> Takes(old(Stream()), buf[..len], Stream())
    {
      hide Front, Ahead, AfterFault, Takes;
      ghost var s := Stream();
      var p := TakeBuffered(buf, len);
      TakenLength(s, buf[..p], Stream());
      if p == len { return true; }
      ghost var front, w := buf[..p], wire;
      NoneAhead(w);
      assert rbuf[rpos..rlen] == [];
      ok := Receive(buf, p, len);
      NoneAhead(wire);
      assert rbuf[rpos..rlen] == [];
      if ok {
        TakeMore(s, front, w, buf[p..len], wire);
        Joined(front, buf, p, len);
      }
    }

    /** The part of conn_read_exact that receives straight into the caller's buffer. */
    method Receive(buf: array<char>, at: nat, end: nat) returns (ok: bool)
      requires at <= end <= buf.Length
      modifies this`wire, buf
      ensures ok == (end - at <= |Front(old(wire))|)
      ensures ok ==> Takes(old(wire), buf[at..end], wire)
      ensures buf[..at] == old(buf[..at])
    {
      hide Front, AfterFault, Takes;
      ghost var w := wire;
      ghost var front := buf[..at];
      var p := at;
      TakeNone(w);
      assert buf[at..p] == [];
      while p < end
        invariant at <= p <= end && Takes(w, buf[at..p], wire)
        invariant buf[..at] == front
      {
        ghost var t, got := wire, buf[at..p];
        TakenLength(w, got, t);
        var n := ReadMore(buf, at, p, end - p);
        if n <= 0 { return false; }
        TakeMore(w, got, t, buf[p..p + n], wire);
        p := p + n;
      }
      TakenLength(w, buf[at..p], wire);
      ok := true;
    }

    /** One receive behind what has been received into buf[at..p]. */
    method ReadMore(buf: array<char>, at: nat, p: nat, len: nat) returns (n: int)
      requires 0 < len && at <= p && p + len <= buf.Length
      modifies this`wire, buf
      ensures n <= len && (n > 0 <==> Front(old(wire)) != [])
      ensures n > 0 ==> Takes(old(wire), buf[p..p + n], wire) && buf[at..p + n] == old(buf[at..p]) + buf[p..p + n]
      ensures buf[..at] == old(buf[..at])
    {
      hide Front, AfterFault;
      n := ReadRaw(buf, p, len);
      if n > 0 { assert buf[p..p + n] == Front(old(wire))[..n]; }
    }

    /** The part of conn_read_exact that empties the receive buffer. */
    method TakeBuffered(buf: array<char>, len: nat) returns (p: nat)
      requires Valid() && len <= buf.Length && buf != rbuf
      modifies this`rpos, buf
      ensures Valid() && p <= len && Takes(old(Stream()), buf[..p], Stream())
      ensures p < len ==> rpos == rlen
    {
      hide Front, Ahead;
      var held := rbuf[rpos..rlen];
      p := if |held| < len then |held| else len;
      Dropped(held, wire, p);
      assert held[..p] == Front(Stream())[..p];
      CopyOut(held[..p], buf);
      rpos := rpos + p;
      assert rbuf[rpos..rlen] == held[p..];
    }

    /** The copy loop of http_read_body: n bytes in blocks of COPY_SIZE, collected only when the caller keeps them. */
    method ReadCounted(n: nat, keep: bool) returns (ok: bool, data: string)
      requires Valid()
      modifies this`rpos, this`wire
      ensures Valid()
      ensures ok == (n <= |Front(old(Stream()))|)
      ensures ok ==> Takes(old(Stream()), Front(old(Stream()))[..n], Stream())
                     && data == if keep then Front(old(Stream()))[..n] else []
    {
      hide Front, Ahead, Stream, Takes;
      data := [];
      ghost var s, got := Stream(), [];
      TakeNone(s);
      var tmp := new char[COPY_SIZE];
      var left := n;
      while left > 0
        invariant Valid() && 0 <= left <= n == |got| + left && Takes(s, got, Stream())
        invariant data == if keep then got else []
      {
        var take := if left > COPY_SIZE then COPY_SIZE else left;
        ghost var t := Stream();
        TakenLength(s, got, t);
        var full := ReadExact(tmp, take);
        if !full { return false, []; }
        TakeMore(s, got, t, tmp[..take], Stream());
        got := got + tmp[..take];
        if keep { data := data + tmp[..take]; }
        left := left - take;
      }
      TakenLength(s, got, Stream());
      ok := true;
    }

    /** Reads lines up to a blank one or a failure; n is the last length read. */
    method SkipLines(line: array<char>) returns (n: int)
      requires Valid() && line != rbuf && line.Length > 0
      modifies this`rpos, this`rlen, this`wire, rbuf, line
      ensures Valid()
      ensures Line(n, line[..], Stream()) == SkipOf(old(Stream()), old(line[..]))
    {
      hide Stream, Valid, LineOf;
      ghost var want := SkipOf(Stream(), line[..]);
      n := ReadLine(line);
      while n > 0
        invariant Valid() && n < line.Length
        invariant want == if n > 0 then SkipOf(Stream(), line[..]) else Line(n, line[..], Stream())
        decreases |Stream()|, n
      {
        n := ReadLine(line);
      }
    }

    /** http_read_response. junk is what its line buffer holds at first. */
    method ReadResponse() returns (ok: bool, h: Head, ghost junk: string)
      requires Valid()
      modifies this`rpos, this`rlen, this`wire, rbuf
      ensures Valid() && |junk| == HEAD_LINE_MAX
      ensures ok == HeadScanOf(old(Stream()), junk).Got?
      ensures ok ==> HeadScanOf(old(Stream()), junk) == Got(h, Stream())
    {
      hide Stream, Valid, LineOf, SkipOf, FieldsOf, StatusOf;
      h := EmptyHead(0, false);
      ghost var s := Stream();
      var line := new char[HEAD_LINE_MAX];
      junk := line[..];
      SameStream(s);
      while true
        invariant Valid() && fresh(line) && line.Length == HEAD_LINE_MAX
        invariant HeadScanOf(s, junk) == HeadScanOf(Stream(), line[..])
        decreases |Stream()|
      {
        var n := ReadLine(line);
        if n <= 0 || !StatusLineOk(line[..]) { return false, h, junk; }
        h := EmptyHead(StatusOf(line[..]), line[7] == '0');
        if h.status >= 200 { break; }
        n := SkipLines(line);
        if n < 0 { return false, h, junk; }
      }
      ok, h := ReadFields(h, line);
    }

    twostate lemma SameStream(s: seq<Event>)
      requires Valid() && s == Stream()
      ensures Valid()
    {}

    method ReadFields(h0: Head, line: array<char>) returns (ok: bool, h: Head)
      requires Valid() && line != rbuf && line.Length > 0
      modifies this`rpos, this`rlen, this`wire, rbuf, line
      ensures Valid()
      ensures ok == FieldsOf(old(Stream()), old(line[..]), h0, 0).Got?
      ensures ok ==> FieldsOf(old(Stream()), old(line[..]), h0, 0) == Got(h, Stream())
    {
      hide Stream, Valid, ApplyField, LineOf, TakenApart;
      h := h0;
      ghost var want := FieldsOf(Stream(), line[..], h0, 0);
      var count := 0;
      while count < MAX_FIELDS
        invariant Valid() && count <= MAX_FIELDS
        invariant want == FieldsOf(Stream(), line[..], h, count)
      {
        var n := ReadLine(line);
        if n < 0 { return false, h; }
        if n == 0 { return true, h; }
        h := ApplyField(h, line[..]);
        TakeApart(line);
        count := count + 1;
      }
      ok := false;
    }

    /** The in-place edits of a header line. */
    method TakeApart(line: array<char>)
      requires Valid() && line != rbuf
      modifies line
      ensures line[..] == TakenApart(old(line[..])) && Valid() && Stream() == old(Stream())
    {
      var t := TakenApart(line[..]);
      forall i | 0 <= i < line.Length { line[i] := t[i]; }
    }

    /** What http_read_body reports for a body read one way or another; body beyond max is not drained. */
    ghost predicate Reports(b: BodyScan, keep: bool, rc: int, body: string, wasAlive: bool)
      reads this`rpos, this`rlen, this`wire, this`alive, rbuf
      requires Valid()
    {
      match b
      case Kept(d, rest) => rc == 0 && alive == wasAlive && Stream() == rest && body == if keep then d else []
      case Last(d) => rc == 0 && !alive && body == if keep then d else []
      case Refused => rc == (if keep then -2 else 0) && !alive && body == []
      case Lost => rc == -1 && !alive && body == []
    }

    /** http_read_body. rc is 0, -1 on a lost connection and -2 when a kept body exceeds max; an unkept body beyond
        max marks the connection dead instead of draining it. */
    method ReadBody(h: Head, isHead: bool, keep: bool, max: nat) returns (rc: int, body: string, ghost junk: string)
      requires Valid()
      modifies this`rpos, this`rlen, this`wire, this`alive, rbuf
      ensures Valid() && |junk| == CHUNK_LINE_MAX
      ensures Reports(BodyScanOf(h, isHead, old(Stream()), junk, max), keep, rc, body, old(alive))
    {
      hide Stream, Valid, ChunksOf, Front;
      junk := seq(CHUNK_LINE_MAX, i => '\0');
      if Bodyless(h, isHead) { return 0, [], junk; }
      if h.chunked {
        rc, body, junk := ReadChunked(keep, max);
      } else if h.contentLength >= 0 {
        rc, body := ReadSized(h.contentLength, keep, max);
      } else {
        rc, body := ReadToEnd(keep, max);
      }
      if rc == 0 && h.connClose { alive := false; }
    }

    /** The branch for a declared length. */
    method ReadSized(length: nat, keep: bool, max: nat) returns (rc: int, body: string)
      requires Valid()
      modifies this`rpos, this`rlen, this`wire, this`alive, rbuf
      ensures Valid()
      ensures Reports(SizedOf(length, old(Stream()), max), keep, rc, body, old(alive))
    {
      hide Stream, Valid, Front;
      if length > max {
        alive := false;
        return if keep then -2 else 0, [];
      }
      var ok;
      ok, body := ReadCounted(length, keep);
      if ok { return 0, body; }
      alive := false;
      return -1, [];
    }

    /** The bytes of a chunk and the line behind them. */
    method ReadChunk(chunk: nat, keep: bool, line: array<char>) returns (ok: bool, data: string)
      requires Valid() && line != rbuf && line.Length > 0
      modifies this`rpos, this`rlen, this`wire, rbuf, line
      ensures Valid()
      ensures var evs, buf := old(Stream()), old(line[..]);
        if |Front(evs)| < chunk then !ok
        else var e := LineOf(evs[chunk..], buf); if e.n < 0 then !ok else
          ok && Stream() == e.rest && line[..] == e.buf && data == if keep then Front(evs)[..chunk] else []
    {
      hide Stream, Valid, LineOf, Front;
      ghost var evs := Stream();
      ok, data := ReadCounted(chunk, keep);
      if ok {
        assert Stream() == evs[chunk..];
        var n := ReadLine(line);
        ok := n >= 0;
      }
    }

    /** The chunked branch. */
    method ReadChunked(keep: bool, max: nat) returns (rc: int, body: string, ghost junk: string)
      requires Valid()
      modifies this`rpos, this`rlen, this`wire, this`alive, rbuf
      ensures Valid() && |junk| == CHUNK_LINE_MAX
      ensures Reports(ChunksOf(old(Stream()), junk, 0, max), keep, rc, body, old(alive))
    {
      hide Stream, Valid, StrToULL, CStr, LineOf, ChunksOf, SkipOf, Front;
      body := [];
      var len := 0;
      ghost var s := Stream();
      var line := new char[CHUNK_LINE_MAX];
      junk := line[..];
      SameStream(s);
      ghost var want, acc := ChunksOf(s, junk, 0, max), [];
      NothingBefore(want);
      while true
        invariant Valid() && alive == old(alive) && fresh(line) && line.Length == CHUNK_LINE_MAX
        invariant body == if keep then acc else []
        invariant want == After(acc, ChunksOf(Stream(), line[..], len, max))
        decreases |Stream()|
      {
        ghost var before, buf := Stream(), line[..];
        var n := ReadLine(line);
        ChunksUnfold(before, buf, len, max);
        if n < 0 {
          alive := false;
          return -1, [], junk;
        }
        var chunk := StrToULL(CStr(line[..]), 16);
        if chunk == 0 {
          n := SkipLines(line);
          assert acc + [] == acc;
          return 0, body, junk;
        }
        if (len + chunk) % (U64_MAX + 1) > max {
          alive := false;
          return if keep then -2 else 0, [], junk;
        }
        ghost var rest := Stream();
        var ok, data := ReadChunk(chunk, keep, line);
        if !ok {
          alive := false;
          return -1, [], junk;
        }
        AfterAfter(acc, Front(rest)[..chunk], ChunksOf(Stream(), line[..], len + chunk, max));
        acc := acc + Front(rest)[..chunk];
        body := if keep then body + data else [];
        len := len + chunk;
      }
    }

    /** Everything buffered. */
    method TakeAll() returns (piece: string)
      requires Valid()
      modifies this`rpos
      ensures Valid() && rpos == rlen
      ensures |piece| == old(rlen - rpos) && Takes(old(Stream()), piece, Stream())
    {
      hide Front, Ahead;
      piece := rbuf[rpos..rlen];
      Dropped(piece, wire, |piece|);
      rpos := rlen;
      assert rbuf[rpos..rlen] == piece[|piece|..];
    }

    /** What is buffered, after a refill if that was nothing. */
    method NextPiece() returns (piece: string)
      requires Valid()
      modifies this`rpos, this`rlen, this`wire, rbuf
      ensures Valid()
      ensures if piece == [] then Front(old(Stream())) == [] else Takes(old(Stream()), piece, Stream())
    {
      hide Front, Ahead, Stream, AfterFault, Takes;
      if rlen == rpos {
        var n := Refill();
        if n <= 0 { return []; }
      }
      piece := TakeAll();
    }

    /** The close-delimited branch: the connection is given up, and everything it delivers before a receive fails is the
        body. */
    method ReadToEnd(keep: bool, max: nat) returns (rc: int, body: string)
      requires Valid()
      modifies this`rpos, this`rlen, this`wire, this`alive, rbuf
      ensures Valid()
      ensures var d := Front(old(Stream()));
              Reports(if |d| > max then Refused else Last(d), keep, rc, body, old(alive))
    {
      hide Front, Ahead, Stream, AfterFault, Takes;
      alive := false;
      body := [];
      var len := 0;
      ghost var s, got := Stream(), [];
      TakeNone(s);
      while true
        invariant Valid() && !alive && len == |got| <= max && Takes(s, got, Stream())
        invariant body == if keep then got else []
        decreases |Front(s)| - |got|
      {
        ghost var t := Stream();
        TakenLength(s, got, t);
        var piece := NextPiece();
        if piece == [] { break; }
        TakeMore(s, got, t, piece, Stream());
        got := got + piece;
        TakenLength(s, got, Stream());
        if len + |piece| > max { return if keep then -2 else 0, []; }
        if keep { body := body + piece; }
        len := len + |piece|;
      }
      rc := 0;
    }
  }

  /** The bytes got are the first that evs delivers, and rest is left. */
  ghost predicate Takes(evs: seq<Event>, got: string, rest: seq<Event>) {
    got <= Front(evs) && rest == evs[|got|..]
  }

  lemma TakeNone(evs: seq<Event>)
    ensures Takes(evs, [], evs)
  {}

  lemma TakenLength(evs: seq<Event>, got: string, rest: seq<Event>)
    requires Takes(evs, got, rest)
    ensures |Front(evs)| == |got| + |Front(rest)| && got == Front(evs)[..|got|]
    ensures Front(rest) == [] ==> got == Front(evs)
  {
    hide Front;
    FrontSplit(evs, |got|);
  }

  lemma TakeMore(evs: seq<Event>, got: string, mid: seq<Event>, more: string, rest: seq<Event>)
    requires Takes(evs, got, mid) && Takes(mid, more, rest)
    ensures Takes(evs, got + more, rest)
  {
    hide Front;
    FrontSplit(evs, |got|);
  }

  lemma NothingBefore(b: BodyScan)
    ensures After([], b) == b
  {
    if b.Kept? || b.Last? { assert [] + b.data == b.data; }
  }

  lemma AfterAfter(a: string, d: string, b: BodyScan)
    ensures After(a, After(d, b)) == After(a + d, b)
  {
    if b.Kept? || b.Last? { assert a + (d + b.data) == a + d + b.data; }
  }

  lemma Joined(front: string, buf: array<char>, p: nat, len: nat)
    requires p <= len <= buf.Length && buf[..p] == front
    ensures buf[..len] == front + buf[p..len]
  {}
}
