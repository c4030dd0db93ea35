/** Requests of http_source.c: connection slots, one exchange, fetch_on, redirects and the range probe. */
module HttpClient {
  import opened Text
  import opened HttpFraming
  import opened HttpEvents
  import opened HttpLimits
  import opened HttpLines
  import W = HttpWire
  import B = BodyFaults
  import opened HttpConn
  import U = Url

  const MAX_REDIRECTS: nat := 5
  const DRAIN_MAX: nat := 256 * 1024

  /** fetch_opts_t. */
  datatype Request = Request(isHead: bool, hasRange: bool, first: nat, count: nat, intoBuf: bool, wantBody: bool,
                             maxBody: nat)

  function LastByte(q: Request): nat { q.first + if q.count > 0 then q.count - 1 else 0 }

  /** A server that holds a file: whatever else it answers, a 206 carries a Content-Range that starts where the request
      did, ends no later, names the file's size, and is followed by exactly those bytes (RFC 7233 section 4.1). */
  predicate Conforms(file: string, q: Request, r: W.Response) {
    && W.ResponseOk(r)
    && var h := W.HeadOf(r);
       h.status == 206 && !q.isHead ==>
         && h.hasRange && h.rangeStart == q.first && h.rangeStart <= h.rangeEnd <= LastByte(q)
         && h.rangeEnd < |file| && h.rangeTotal == |file|
         && r.body == file[h.rangeStart..h.rangeEnd + 1]
  }

  /** The network and the process-wide connection accounting. */
  class Net {
    /** The file each URL serves. */
    const content: U.HttpUrl -> string
    const limits: Limits
    /** g_live_conns. */
    var live: nat
    /** The connections open, and the number of connections being opened. */
    ghost var held: set<Conn>
    ghost var opening: nat
    /** How many answers have been torn. */
    ghost var tears: nat

    constructor (content: U.HttpUrl -> string, limits: Limits)
      requires limits.rbufSize > 0
      ensures Valid() && live == 0 && held == {} && tears == 0 && this.content == content && this.limits == limits
    {
      this.content, this.limits := content, limits;
      live, held, opening, tears := 0, {}, 0, 0;
    }

    ghost predicate Valid()
      reads this
    {
      live == |held| + opening && live <= limits.maxLive && limits.rbufSize > 0
    }

    /** conn_slot_acquire. Here no other thread can release a slot meanwhile, so a full table times out. */
    method SlotAcquire() returns (ok: bool)
      requires Valid()
      modifies this`live, this`opening
      ensures Valid()
      ensures ok == (old(live) < limits.maxLive)
      ensures opening == old(opening) + if ok then 1 else 0
    {
      if live >= limits.maxLive { return false; }
      live, opening := live + 1, opening + 1;
      ok := true;
    }

    /** conn_slot_release after a connection that was never opened. The guard against zero never applies. */
    method SlotRelease()
      requires Valid() && opening > 0
      modifies this`live, this`opening
      ensures Valid() && live == old(live) - 1 && opening == old(opening) - 1
    {
      if live > 0 { live := live - 1; }
      opening := opening - 1;
    }

    /** conn_close. */
    method Close(c: Conn)
      requires Valid() && c in held
      modifies this`live, this`held
      ensures Valid() && held == old(held) - {c} && live == old(live) - 1
    {
      if live > 0 { live := live - 1; }
      held := held - {c};
    }

    /** conn_open: any of the allocation, the TCP connect and the TLS handshake may fail. */
    method Open(u: U.HttpUrl) returns (c: Conn?)
      requires Valid()
      modifies this`live, this`opening, this`held
      ensures Valid() && opening == old(opening)
      ensures c == null ==> held == old(held)
      ensures c != null ==>
        && fresh(c) && fresh(c.rbuf) && held == old(held) + {c}
        && Ready(c) && c.alive && !c.torn && c.ep == u.(path := "")
    {
      var ok := SlotAcquire();
      if !ok { return null; }
      var calloced: bool, connected: bool, handshake: bool := *, *, *;
      if !calloced || !connected {
        SlotRelease();
        return null;
      }
      c := new Conn(u, limits.rbufSize);
      held, opening := held + {c}, opening - 1;
      if u.https && !handshake {
        Close(c);
        c := null;
      }
    }

    /** http_send_request, and the server's answer to it: the answer may arrive in any pieces, with receives failing
        anywhere in between, and may end early, after which the peer is gone. The flag torn is raised when one of those
        failures falls inside a line of the answer and more of it follows. */
    method Send(c: Conn, u: U.HttpUrl, q: Request) returns (sent: bool, ghost r: W.Response)
      requires c.Valid()
      modifies c`wire, c`closed, c`torn, this`tears
      ensures c.Valid() && (old(c.torn) ==> c.torn)
      ensures tears == old(tears) + if c.torn && !old(c.torn) then 1 else 0
      ensures sent && !c.torn && Data(old(c.Stream())) == [] ==>
        Conforms(content(u), q, r) && B.Carried(r, q.isHead, c.Stream())
      ensures c.torn && !old(c.torn) && Data(old(c.Stream())) == [] ==>
        sent && W.ResponseOk(r) && !B.Intact(r, q.isHead, c.Stream())
    {
      hide Data, W.ResponseOk, W.HeadOf, W.Wire, B.Intact, Ahead;
      var answer: W.Response := *;
      var evs: seq<Event> := *;
      r := answer;
      sent := *;
      if !sent || !Conforms(content(u), q, answer) { return false, r; }
      if c.closed || !(Data(evs) <= W.Wire(answer, q.isHead)) { evs := []; }
      ghost var was := c.Stream();
      c.wire := c.wire + evs;
      c.closed := c.closed || Data(evs) != W.Wire(answer, q.isHead);
      assert c.Stream() == was + evs by { Joins(c.rbuf[c.rpos..c.rlen], old(c.wire), evs); }
      DataJoin(was, evs);
      if !c.torn && !B.Carried(answer, q.isHead, c.Stream()) { c.torn, tears := true, tears + 1; }
    }
  }

  lemma Joins(b: string, w: seq<Event>, evs: seq<Event>)
    ensures Ahead(b, w + evs) == Ahead(b, w) + evs
  {
    hide Bytes;
  }

  lemma {:induction false} DataJoin(a: seq<Event>, b: seq<Event>)
    ensures Data(a + b) == Data(a) + Data(b)
  {
    hide Data;
    DataFirst(a);
    if a == [] {
      assert a + b == b;
    } else {
      DataJoin(a[1..], b);
      DataFirst(a + b);
      assert (a + b)[0] == a[0] && (a + b)[1..] == a[1..] + b;
    }
  }

  lemma DataFirst(a: seq<Event>)
    ensures Data(a) == if a == [] then [] else (if a[0].Fault? then [] else [a[0].c]) + Data(a[1..])
  {}

  /** At a message boundary: nothing of an earlier response is left to be delivered. */
  ghost predicate AtBoundary(c: Conn)
    reads c, c.rbuf
  {
    c.Valid() && Data(c.Stream()) == []
  }

  /** Ready for the next request: at a message boundary, unless an answer on this connection was torn. */
  ghost predicate Ready(c: Conn)
    reads c, c.rbuf
  {
    c.Valid() && (c.torn || AtBoundary(c))
  }

  /** A torn answer that is blamed has happened: before (was), or since the counter stood at before. */
  ghost predicate Blames(before: nat, after: nat, was: bool, torn: bool) {
    after >= before && (torn && !was ==> after > before)
  }

  ghost function Parts(c: Conn?): set<object> { if c == null then {} else {c, c.rbuf} }

  ghost function Just(c: Conn?): set<Conn> { if c == null then {} else {c} }

  datatype Outcome = NoResponse | Lost | Answered

  ghost predicate IsSlice(got: string, file: string, first: nat) {
    first + |got| <= |file| && got == file[first..first + |got|]
  }

  /** The head of a conforming server's answer, and its body ahead. */
  ghost predicate Facing(c: Conn, h: Head, q: Request, r: W.Response)
    reads c, c.rbuf
  {
    c.Valid() && W.ResponseOk(r) && h == W.HeadOf(r) && B.BodyCarried(r, q.isHead, c.Stream())
  }

  /** One request and its response head. */
  method AskHead(net: Net, c: Conn, u: U.HttpUrl, q: Request) returns (ok: bool, h: Head, ghost r: W.Response)
    requires Ready(c)
    modifies c`wire, c`closed, c`torn, c`rpos, c`rlen, c.rbuf, net`tears
    ensures c.Valid() && (old(c.torn) ==> c.torn) && Blames(old(net.tears), net.tears, old(c.torn), c.torn)
    ensures ok ==> h.status >= 200
    ensures ok && !c.torn ==> Conforms(net.content(u), q, r) && Facing(c, h, q, r)
  {
    hide Conforms, W.ResponseOk, W.HeadOf, Conn.Stream, Conn.Valid, Data, B.Carried, B.BodyCarried, B.Intact;
    var sent;
    sent, r := net.Send(c, u, q);
    if !sent { return false, EmptyHead(0, false), r; }
    ok, h := AskRead(c, r, q.isHead);
  }

  method AskRead(c: Conn, ghost r: W.Response, isHead: bool) returns (ok: bool, h: Head)
    requires c.Valid() && (!c.torn ==> B.Carried(r, isHead, c.Stream()))
    modifies c`wire, c`rpos, c`rlen, c.rbuf
    ensures c.Valid() && (ok ==> h.status >= 200)
    ensures ok && !c.torn ==> W.ResponseOk(r) && h == W.HeadOf(r) && B.BodyCarried(r, isHead, c.Stream())
  {
    hide W.ResponseOk, W.HeadOf, HeadScanOf, Conn.Stream, Conn.Valid, B.BodyPart, B.BodyIntact, B.Intact, W.Wire;
    ghost var s := c.Stream();
    ghost var junk;
    ok, h, junk := c.ReadResponse();
    if ok && !c.torn { B.HeadRightly(r, isHead, s, junk); }
  }

  /** A body read with http_read_body leaves the connection at the boundary unless it is to be closed. */
  method ReadFramed(c: Conn, h: Head, q: Request, keep: bool, max: nat, ghost r: W.Response)
    returns (rc: int, body: string)
    requires c.Valid() && (!c.torn ==> Facing(c, h, q, r))
    modifies c`wire, c`rpos, c`rlen, c`alive, c.rbuf
    ensures c.Valid() && (c.alive ==> old(c.alive))
    ensures -2 <= rc <= 0
    ensures rc == 0 && c.alive && !c.torn ==> AtBoundary(c)
    ensures rc == 0 && keep && !Bodyless(h, q.isHead) && !c.torn ==> body <= r.body
  {
    hide BodyScanOf, W.ResponseOk, W.HeadOf, B.BodyPart, B.BodyIntact, B.BodyDelivered, B.EndInLine, Data, Conn.Stream,
      Conn.Valid;
    ghost var s := c.Stream();
    ghost var junk;
    rc, body, junk := c.ReadBody(h, q.isHead, keep, max);
    if !c.torn { B.BodyScanned(r, q.isHead, max, s, junk); }
  }

  lemma SliceOf(file: string, first: nat, body: string, got: string)
    requires first + |body| <= |file| && body == file[first..first + |body|] && got <= body
    ensures IsSlice(got, file, first)
  {}

  /** The range branch of fetch_on: the body goes straight into the caller's buffer. A 206 gives the requested slice;
      a 200 means the server ignored the range, and its connection is given up. */
  method ReadRange(c: Conn, h: Head, q: Request, buf: array<char>, ghost file: string, ghost r: W.Response)
    returns (rc: int, got: nat)
    requires c.Valid() && (!c.torn ==> Facing(c, h, q, r))
    requires buf != c.rbuf && q.count <= buf.Length && !q.isHead && (h.status == 206 || h.status == 200)
    modifies c`wire, c`rpos, c`rlen, c`alive, c.rbuf, buf
    ensures c.Valid() && (c.alive ==> old(c.alive))
    ensures rc == 0 && c.alive && !h.connClose && !c.torn ==> AtBoundary(c)
    ensures got <= q.count
    ensures -2 <= rc <= 0
    ensures rc == 0 && h.status == 206 && !c.torn && Conforms(file, q, r) ==> IsSlice(buf[..got], file, q.first)
  {
    hide W.ResponseOk, W.HeadOf, B.BodyCarried, Data, Conn.Valid, Conn.Stream;
    got := 0;
    if h.status == 206 && h.hasRange && h.rangeStart != q.first {
      c.alive := false;
      return -1, 0;
    }
    if h.status == 200 && q.first != 0 {
      c.alive := false;
      return 0, 0;
    }
    if h.chunked {
      var body;
      rc, body := ReadFramed(c, h, q, true, q.count + 65536, r);
      if rc == 0 {
        got := if |body| < q.count then |body| else q.count;
        forall i | 0 <= i < got { buf[i] := body[i]; }
        assert buf[..got] == body[..got];
        if h.status == 206 && !c.torn && Conforms(file, q, r) { SliceOf(file, q.first, r.body, body[..got]); }
      }
    } else {
      rc, got := ReadPlain(c, h, q, buf, r);
      if rc == 0 && h.status == 206 && !c.torn && Conforms(file, q, r) { SliceOf(file, q.first, r.body, buf[..got]); }
    }
  }

  /** What the announced framing means for the bytes that follow the head. */
  lemma Framed(h: Head, r: W.Response, isHead: bool)
    requires W.ResponseOk(r) && h == W.HeadOf(r) && !Bodyless(h, isHead) && !h.chunked
    ensures B.BodyPart(r, isHead) == r.body
    ensures if h.contentLength >= 0 then |r.body| == h.contentLength else h.connClose
  {
    hide W.HeadOf, W.MessageHeadOk;
  }

  /** Bytes taken from the front of a plain body. */
  lemma PlainTaken(c: seq<Event>, body: string, got: string, rest: seq<Event>)
    requires Carries(c, body) && Takes(c, got, rest)
    ensures got <= body && (|got| >= |body| ==> Data(rest) == []) && Carries(rest, body[|got|..])
  {
    hide Front, Data;
    FrontCarried(c, body);
    var more := body[|got|..];
    assert body == got + more;
    RestCarried(c, got, more);
  }

  method ReadPlain(c: Conn, h: Head, q: Request, buf: array<char>, ghost r: W.Response) returns (rc: int, got: nat)
    requires c.Valid() && (!c.torn ==> Facing(c, h, q, r)) && !h.chunked
    requires buf != c.rbuf && q.count <= buf.Length && !q.isHead && (h.status == 206 || h.status == 200)
    modifies c`wire, c`rpos, c`alive, buf
    ensures c.Valid() && (c.alive ==> old(c.alive))
    ensures rc == 0 && c.alive && !h.connClose && !c.torn ==> AtBoundary(c)
    ensures got <= q.count && (rc == 0 || (rc == -1 && !c.alive))
    ensures rc == 0 && !c.torn ==> buf[..got] <= r.body
  {
    hide W.ResponseOk, W.HeadOf, B.BodyIntact, B.BodyPart, Conn.Valid, Conn.Stream, Data, Takes, Front;
    if !c.torn { Framed(h, r, q.isHead); }
    ghost var s := c.Stream();
    var avail := if h.contentLength >= 0 then h.contentLength else q.count;
    var want := if avail < q.count then avail else q.count;
    var ok := c.ReadExact(buf, want);
    if !ok {
      c.alive := false;
      return -1, 0;
    }
    if !c.torn { PlainTaken(s, r.body, buf[..want], c.Stream()); }
    rc, got := 0, want;
    if h.status == 200 || want != avail { c.alive := false; }
  }

  /** What a 206 answer from a conforming server promises the caller. */
  ghost predicate Delivered(file: string, q: Request, h: Head, buf: string, got: nat) {
    h.status == 206 && !q.isHead ==>
      && h.rangeTotal == |file|
      && (q.intoBuf ==> got <= q.count && got <= |buf| && IsSlice(buf[..got], file, q.first))
  }

  /** One attempt of fetch_on: request, head and body on an open connection. */
  method Exchange(net: Net, c: Conn, u: U.HttpUrl, q: Request, buf: array<char>)
    returns (outcome: Outcome, h: Head, got: nat, body: string)
    requires Ready(c) && buf != c.rbuf && (q.intoBuf ==> q.count <= buf.Length)
    modifies c`wire, c`closed, c`torn, c`rpos, c`rlen, c`alive, c.rbuf, buf, net`tears
    ensures c.Valid() && (c.alive ==> old(c.alive))
    ensures (old(c.torn) ==> c.torn) && Blames(old(net.tears), net.tears, old(c.torn), c.torn)
    ensures outcome.Answered? && c.alive ==> Ready(c)
    ensures got <= q.count && (outcome.Answered? ==> h.status >= 200)
    ensures outcome.Answered? && !c.torn ==> Delivered(net.content(u), q, h, buf[..], got)
  {
    hide W.ResponseOk, W.HeadOf, B.BodyCarried, Data, Conn.Valid, Conn.Stream;
    got, body := 0, [];
    var ok;
    ghost var r;
    ok, h, r := AskHead(net, c, u, q);
    if !ok { return NoResponse, h, got, body; }
    var rc;
    if q.intoBuf && !q.isHead && (h.status == 206 || h.status == 200) {
      rc, got := ReadRange(c, h, q, buf, net.content(u), r);
    } else if q.wantBody && !q.isHead && 200 <= h.status < 300 {
      rc, body := ReadFramed(c, h, q, true, q.maxBody, r);
    } else {
      rc, body := ReadFramed(c, h, q, false, DRAIN_MAX, r);
    }
    if h.connClose { c.alive := false; }
    outcome := if rc < 0 then Outcome.Lost else Answered;
  }

  /** The connection fetch_on will use: the given one when it is alive and talks to the endpoint, else a new one. */
  method Connect(net: Net, pc: Conn?, u: U.HttpUrl) returns (c: Conn?, reused: bool)
    requires net.Valid()
    requires pc != null ==> pc in net.held && Ready(pc)
    modifies net`live, net`held, net`opening
    ensures net.Valid() && net.opening == old(net.opening)
    ensures net.held == (old(net.held) - Just(pc)) + Just(c)
    ensures c != null ==> c.alive && Ready(c) && U.SameEndpoint(c.ep, u)
    ensures c != null ==> if reused then c == pc else fresh(c) && fresh(c.rbuf) && !c.torn
  {
    hide Ready, Conn.Valid, Conn.Stream, Net.Valid;
    c, reused := pc, false;
    if c != null && (!c.alive || !U.SameEndpoint(c.ep, u)) {
      net.Close(c);
      c := null;
    }
    if c != null { return c, true; }
    c := net.Open(u);
  }

  /** One attempt, after which a connection that cannot be used again has been closed. */
  method Attempt(net: Net, pc: Conn, u: U.HttpUrl, q: Request, buf: array<char>)
    returns (outcome: Outcome, c: Conn?, h: Head, got: nat, body: string, ghost torn: bool)
    requires net.Valid() && pc in net.held && Ready(pc) && pc.rbuf != buf && (q.intoBuf ==> q.count <= buf.Length)
    modifies net`live, net`held, net`tears, pc, pc.rbuf, buf
    ensures net.Valid()
    ensures c == null || c == pc
    ensures net.held == (old(net.held) - {pc}) + Just(c)
    ensures c != null ==> c.alive && Ready(c) && outcome.Answered?
    ensures torn == pc.torn && (old(pc.torn) ==> torn) && Blames(old(net.tears), net.tears, old(pc.torn), torn)
    ensures got <= q.count && (outcome.Answered? ==> h.status >= 200)
    ensures outcome.Answered? && !torn ==> Delivered(net.content(u), q, h, buf[..], got)
  {
    hide Conn.Valid, Conn.Stream, Delivered;
    outcome, h, got, body := Exchange(net, pc, u, q, buf);
    c, torn := pc, pc.torn;
    if !outcome.Answered? || !pc.alive {
      net.Close(pc);
      c := null;
    }
  }

  /** One turn of fetch_on: a connection, and an attempt on it unless there is none. */
  method FetchTurn(net: Net, pc: Conn?, u: U.HttpUrl, q: Request, buf: array<char>)
    returns (again: bool, answered: bool, c: Conn?, h: Head, got: nat, body: string, ghost torn: bool)
    requires net.Valid() && (q.intoBuf ==> q.count <= buf.Length)
    requires pc != null ==> pc in net.held && Ready(pc) && pc.rbuf != buf
    modifies net`live, net`held, net`opening, net`tears, Parts(pc), buf
    ensures net.Valid() && net.opening == old(net.opening)
    ensures net.held == (old(net.held) - Just(pc)) + Just(c)
    ensures c != null ==> answered && c.alive && Ready(c) && c.rbuf != buf && (c == pc || (fresh(c) && fresh(c.rbuf)))
    ensures c != null && c.torn ==> torn
    ensures Blames(old(net.tears), net.tears, pc != null && old(pc.torn), torn)
    ensures again ==> pc != null && !answered
    ensures got <= q.count && (answered ==> h.status >= 200)
    ensures answered && !torn ==> Delivered(net.content(u), q, h, buf[..], got)
  {
    hide Delivered, Conn.Valid, Conn.Stream, U.SameEndpoint, Ready, Net.Valid, IsSlice, AtBoundary, LastByte;
    var reused, outcome;
    again, answered, h, got, body, torn := false, false, EmptyHead(0, false), 0, [], false;
    c, reused := Connect(net, pc, u);
    if c == null { return; }
    outcome, c, h, got, body, torn := Attempt(net, c, u, q, buf);
    answered := outcome.Answered?;
    again := outcome.NoResponse? && reused;
  }

  /** fetch_on: the connection is replaced when it is dead or talks to another endpoint, a failure on a reused one is
      retried once on a fresh one, and what remains is null or ready for the next request. torn says that the connection
      the answer came over has had an answer torn. */
  method FetchOn(net: Net, pc: Conn?, u: U.HttpUrl, q: Request, buf: array<char>)
    returns (status: int, c: Conn?, h: Head, got: nat, body: string, ghost torn: bool)
    requires net.Valid() && (q.intoBuf ==> q.count <= buf.Length)
    requires pc != null ==> pc in net.held && Ready(pc) && pc.rbuf != buf
    modifies net`live, net`held, net`opening, net`tears, Parts(pc), buf
    ensures net.Valid() && net.opening == old(net.opening)
    ensures net.held == (old(net.held) - Just(pc)) + Just(c)
    ensures c != null ==> c.alive && Ready(c) && c.rbuf != buf
    ensures c != null ==> c == pc || (fresh(c) && fresh(c.rbuf))
    ensures c != null && c.torn ==> torn
    ensures Blames(old(net.tears), net.tears, pc != null && old(pc.torn), torn)
    ensures got <= q.count && (status == -1 || status == h.status >= 200)
    ensures status != -1 && !torn ==> Delivered(net.content(u), q, h, buf[..], got)
  {
    hide Delivered, Conn.Valid, Conn.Stream, Ready, Net.Valid;
    c, status, got, body, h, torn := pc, -1, 0, [], EmptyHead(0, false), false;
    var attempt := 0;
    while attempt < 2
      invariant net.Valid() && net.opening == old(net.opening)
      invariant net.held == (old(net.held) - Just(pc)) + Just(c)
      invariant if attempt == 0 then c == pc && net.tears == old(net.tears) && (pc != null ==> pc.torn == old(pc.torn))
                else c == null
      invariant net.tears >= old(net.tears) && Blames(old(net.tears), net.tears, pc != null && old(pc.torn), torn)
      invariant (c != null ==> Ready(c)) && got <= q.count
    {
      var again, answered;
      again, answered, c, h, got, body, torn := FetchTurn(net, c, u, q, buf);
      if !again {
        status := if answered then h.status else -1;
        return;
      }
      attempt := attempt + 1;
    }
  }

  predicate IsRedirect(status: int) {
    status == 301 || status == 302 || status == 303 || status == 307 || status == 308
  }

  /** The URL an answer came from parses, and unless torn the answer is that of the file it names. */
  ghost predicate AnsweredBy(net: Net, finalUrl: string, q: Request, h: Head, buf: string, got: nat, torn: bool) {
    U.UrlParse(finalUrl).Some? && (!torn ==> Delivered(net.content(U.UrlParse(finalUrl).value), q, h, buf, got))
  }

  /** http_fetch: fetch_on, following at most five redirects. */
  method HttpFetch(net: Net, pc: Conn?, url: string, q: Request, buf: array<char>)
    returns (status: int, c: Conn?, h: Head, got: nat, body: string, finalUrl: string, ghost torn: bool)
    requires net.Valid() && (q.intoBuf ==> q.count <= buf.Length)
    requires pc != null ==> pc in net.held && Ready(pc) && pc.rbuf != buf
    modifies net`live, net`held, net`opening, net`tears, Parts(pc), buf
    ensures net.Valid() && net.opening == old(net.opening)
    ensures net.held == (old(net.held) - Just(pc)) + Just(c)
    ensures c != null ==> Ready(c) && c.rbuf != buf
    ensures c != null ==> c == pc || (fresh(c) && fresh(c.rbuf))
    ensures c != null && c.torn ==> torn
    ensures Blames(old(net.tears), net.tears, pc != null && old(pc.torn), torn)
    ensures got <= q.count
    ensures status == -1 || (status == h.status >= 200 && AnsweredBy(net, finalUrl, q, h, buf[..], got, torn))
  {
    hide Delivered, Conn.Valid, Conn.Stream, U.UrlParse, U.UrlResolve, Clip, Ready, Net.Valid, IsRedirect;
    var cur := Clip(url, U.URL_MAX);
    c, status, got, body, h, finalUrl := pc, -1, 0, [], EmptyHead(0, false), [];
    torn := pc != null && pc.torn;
    var hop := 0;
    while hop <= MAX_REDIRECTS
      invariant net.Valid() && net.opening == old(net.opening)
      invariant net.held == (old(net.held) - Just(pc)) + Just(c)
      invariant c != null ==> Ready(c) && c.rbuf != buf
      invariant c != null ==> c == pc || (fresh(c) && fresh(c.rbuf))
      invariant (c != null && c.torn ==> torn) && got <= q.count
      invariant Blames(old(net.tears), net.tears, pc != null && old(pc.torn), torn)
    {
      var u := U.UrlParse(cur);
      if u.None? { return -1, c, h, 0, [], [], torn; }
      status, c, h, got, body, torn := FetchOn(net, c, u.value, q, buf);
      if status < 0 { return; }
      if IsRedirect(status) && h.location != [] {
        var next := U.UrlResolve(cur, h.location);
        if next.None? { return -1, c, h, 0, [], [], torn; }
        cur := next.value;
        hop := hop + 1;
        continue;
      }
      finalUrl := cur;
      return;
    }
    status := -1;
  }

  const PROBE: Request := Request(false, true, 0, 1, true, false, 0)

  /** range_probe_st: rp is 1 with the size and the final URL when byte ranges work, 0 when the server ignores them
      and -1 on failure. */
  method RangeProbe(net: Net, url: string)
    returns (rp: int, total: nat, finalUrl: string, status: int, c: Conn?, ghost torn: bool)
    requires net.Valid()
    modifies net`live, net`held, net`opening, net`tears
    ensures net.Valid() && net.opening == old(net.opening)
    ensures net.held == old(net.held) + Just(c)
    ensures c != null ==> Ready(c) && fresh(c) && fresh(c.rbuf)
    ensures -1 <= rp <= 1
    ensures (c != null && c.torn ==> torn) && Blames(old(net.tears), net.tears, false, torn)
    ensures rp == 1 ==> total > 0 && U.UrlParse(finalUrl).Some?
    ensures rp == 1 && !torn ==> total == |net.content(U.UrlParse(finalUrl).value)|
  {
    hide Conn.Valid, Conn.Stream, U.UrlParse, IsSlice;
    var b := new char[1];
    var h, got, body;
    status, c, h, got, body, finalUrl, torn := HttpFetch(net, null, url, PROBE, b);
    total := 0;
    if status == 206 && h.rangeTotal > 0 { return 1, h.rangeTotal, finalUrl, status, c, torn; }
    rp := if status == 200 then 0 else -1;
  }
}
