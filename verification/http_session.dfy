/** The streaming session of http_source.c: one file, read through a pool of idle connections, one long half-consumed
    response, and a link that is asked for again when it expires. */
module HttpSession {
  import opened Text
  import opened HttpFraming
  import opened HttpEvents
  import opened HttpLines
  import B = BodyFaults
  import W = HttpWire
  import opened HttpConn
  import opened HttpClient
  import U = Url

  const STREAM_WINDOW: nat := 8 * 1024 * 1024
  const RETRY_SEC: nat := 120
  const MAX_REFRESHES: nat := 3

  /** The wall clock, which never runs backwards, and the cancel flag of the install, which stays set once raised. */
  class Clock {
    var now: nat
    var canceling: bool

    method Time() returns (t: nat)
      modifies this
      ensures t == now >= old(now)
      ensures old(canceling) ==> canceling
    {
      var later: int := *;
      if later > 0 { now := now + later; }
      var cancel: bool := *;
      canceling := canceling || cancel;
      t := now;
    }

    /** Up to d one-second sleeps, cut short when the install is canceled. */
    method SleepUnlessCanceled(d: nat)
      modifies this
      ensures old(canceling) ==> canceling
      ensures now >= old(now) && (canceling || now >= old(now) + d)
    {
      var i := 0;
      while i < d && !canceling
        invariant 0 <= i <= d && now >= old(now) + i
        invariant old(canceling) ==> canceling
      {
        now := now + 1;
        var t := Time();
        i := i + 1;
      }
    }
  }

  ghost function ConnSet(cs: seq<Conn>): set<Conn> { set c | c in cs }

  ghost function PartsOf(cs: set<Conn>): set<object> {
    (set c: Conn | c in cs :: c as object) + (set c: Conn | c in cs :: c.rbuf as object)
  }

  lemma InHandOnly(h: set<Conn>, k: set<Conn>, a: set<Conn>, b: set<Conn>)
    requires a <= h && a !! k && b !! (h - a)
    ensures ((h - a) + b) - k - b == h - k - a
  {}

  lemma TakenOnly(h: set<Conn>, k0: set<Conn>, a: set<Conn>, k1: set<Conn>)
    requires a <= k0 <= h && k1 == k0 - a
    ensures h - k1 - a == h - k0
  {}

  // ---------------------------------------------------------------- the retry clock of a direct read

  /** The delay behind the k-th transient failure (k from 0), and the time slept before it. */
  function DelayAt(k: nat): nat { if k == 0 then 1 else if k == 1 then 2 else if k == 2 then 4 else 8 }

  function Slept(k: nat): nat { if k == 0 then 0 else if k == 1 then 1 else if k == 2 then 3 else 7 + 8 * (k - 3) }

  /** The doubling delay capped at 8 and its running sum: from the nineteenth failure on the deadline has passed. */
  lemma SleptGrows(k: nat)
    ensures Slept(k + 1) == Slept(k) + DelayAt(k)
    ensures DelayAt(k + 1) == if DelayAt(k) < 8 then DelayAt(k) * 2 else DelayAt(k)
    ensures k >= 18 ==> Slept(k) >= RETRY_SEC
  {}

  lemma SleptStart()
    ensures DelayAt(0) == 1 && Slept(0) == 0
  {}

  /** Statuses after which a new link is asked for. */
  predicate LinkFailed(st: int, redirected: bool) {
    (300 <= st < 400) || (redirected && (st == 400 || st == 401 || st == 403 || st == 404 || st == 410))
  }

  datatype Turn = Fetched | Relinked | Retry | Failed

  predicate Transient(st: int) { st < 0 || st >= 500 || st == 408 || st == 429 }

  class Session {
    const net: Net
    const clock: Clock
    const origin: string
    const size: nat
    const resilient: bool
    /** The bytes the session stands for. */
    ghost const file: string
    var url: string
    var u: U.HttpUrl
    var redirected: bool
    var generation: nat
    var idle: seq<Conn>
    var stConn: Conn?
    var stPos: nat
    var stEnd: nat
    /** Torn answers are counted from here on. */
    ghost const base: nat
    /** An answer this session went by came over a connection that has had an answer torn. */
    ghost var torn: bool

    ghost function Conns(): set<Conn>
      reads this
    {
      ConnSet(idle) + Just(stConn)
    }

    ghost function Footprint(): set<object>
      reads this
    {
      PartsOf(Conns())
    }

    /** No connection, and no receive buffer, has two owners. */
    ghost predicate Separate()
      reads this
    {
      && (forall i, j | 0 <= i < j < |idle| :: idle[i] != idle[j] && idle[i].rbuf != idle[j].rbuf)
      && (stConn != null ==> forall i | 0 <= i < |idle| :: idle[i] != stConn && idle[i].rbuf != stConn.rbuf)
    }

    /** Every pooled connection is alive and, unless torn, has no unread byte of an earlier response. */
    ghost predicate PoolReady()
      reads this, Footprint()
    {
      |idle| <= net.limits.poolMax && forall c | c in idle :: c in Conns() && c.alive && Ready(c) && (c.torn ==> torn)
    }

    /** The streaming connection has the bytes [stPos, stEnd) of the file ahead of it, or the beginning of them. */
    ghost predicate StreamReady()
      reads this, Footprint()
    {
      stConn != null ==>
        && stConn in Conns() && stConn.Valid() && stPos <= stEnd && (stConn.torn ==> torn)
        && (!stConn.torn ==> |Data(stConn.Stream())| <= stEnd - stPos)
        && (!torn ==> stEnd <= |file| && Carries(stConn.Stream(), file[stPos..stEnd]))
    }

    /** All but what lies in front of the streaming connection. */
    ghost predicate Sound()
      reads this, net, Footprint()
    {
      && net.Valid() && Conns() <= net.held
      && net.tears >= base && (if torn then net.tears > base else |file| == size && net.content(u) == file)
      && Separate() && PoolReady()
    }

    ghost predicate Valid()
      reads this, net, Footprint()
    {
      Sound() && StreamReady()
    }

    /** What a read promises: n bytes of the file from the offset on, or failure; nothing only for an empty request or
        beyond the end. */
    ghost predicate ReadOk(n: int, buf: string, count: nat, offset: nat)
      reads this
    {
      && -1 <= n <= count && n <= |buf|
      && (n == 0 ==> count == 0 || offset >= size)
      && (n > 0 && !torn ==> IsSlice(buf[..n], file, offset))
    }

    /** The server side: a link that serves a file of this size serves this file. */
    ghost predicate Honest() { forall v :: |net.content(v)| == size ==> net.content(v) == file }

    /** A connection in the hands of the current reader. */
    ghost predicate Outside(c: Conn)
      reads this
    {
      c !in Conns() && forall d | d in Conns() :: d.rbuf != c.rbuf
    }

    /** Ready for a request, and its torn answers known to the session. */
    ghost predicate InHand(c: Conn)
      reads this, c, c.rbuf
    {
      Ready(c) && (c.torn ==> torn)
    }

    ghost predicate Apart(buf: array<char>)
      reads this
    {
      forall d | d in Conns() :: d.rbuf != buf
    }

    constructor (net: Net, clock: Clock, origin: string, resilient: bool, finalUrl: string, u: U.HttpUrl, total: nat,
                 ghost base: nat, ghost misled: bool)
      requires net.Valid() && net.tears >= base && if misled then net.tears > base else total == |net.content(u)|
      ensures Valid() && this.net == net && this.clock == clock && this.origin == origin && this.resilient == resilient
      ensures idle == [] && stConn == null && Conns() == {} && size == total && file == net.content(u)
      ensures torn == misled && this.base == base
    {
      this.net, this.clock, this.origin, this.resilient := net, clock, origin, resilient;
      size, file, this.base, torn := total, net.content(u), base, misled;
      url, this.u, redirected, generation := finalUrl, u, finalUrl != origin, 1;
      idle, stConn, stPos, stEnd := [], null, 0, 0;
    }

    /** session_take. */
    method Take() returns (c: Conn?)
      requires Valid()
      modifies this`idle
      ensures Valid()
      ensures c == null ==> idle == old(idle) == []
      ensures c != null ==> idle + [c] == old(idle) && Outside(c) && c.alive && InHand(c)
      ensures Conns() == old(Conns()) - Just(c) && Just(c) <= ConnSet(old(idle)) && Just(c) <= old(Conns()) <= net.held
    {
      hide Ready, Conn.Stream, Conn.Valid, Net.Valid;
      if |idle| == 0 { return null; }
      c := idle[|idle| - 1];
      assert c in idle;
      idle := idle[..|idle| - 1];
      assert idle + [c] == old(idle);
      assert Conns() <= old(Conns());
    }

    /** Closes a connection the session does not own (any more). */
    method Discard(c: Conn)
      requires Valid() && c in net.held && c !in Conns()
      modifies net`live, net`held
      ensures Valid() && net.opening == old(net.opening) && net.held == old(net.held) - {c}
    {
      hide Ready, Conn.Stream, Conn.Valid;
      net.Close(c);
    }

    method Keep(c: Conn)
      requires Valid() && c in net.held && Outside(c) && InHand(c) && c.alive && |idle| < net.limits.poolMax
      modifies this`idle
      ensures Valid() && idle == old(idle) + [c] && Conns() == old(Conns()) + {c}
    {
      hide Ready, Conn.Stream, Conn.Valid;
      assert forall i | 0 <= i < |idle| :: idle[i] in Conns();
      idle := idle + [c];
      assert Conns() == old(Conns()) + {c};
      assert PoolReady();
      assert StreamReady();
    }

    /** session_give: back into the pool, or closed when it is dead or the pool is full. */
    method Give(c: Conn?)
      requires Valid()
      requires c != null ==> c in net.held && Outside(c) && InHand(c)
      modifies this`idle, net`live, net`held
      ensures Valid() && net.opening == old(net.opening)
      ensures if c != null && c.alive && |old(idle)| < net.limits.poolMax
              then idle == old(idle) + [c] && net.held == old(net.held)
              else idle == old(idle) && net.held == old(net.held) - Just(c)
      ensures Conns() == old(Conns()) + Just(c) || Conns() == old(Conns())
      ensures net.held - Conns() == old(net.held - Conns()) - Just(c)
    {
      hide Ready, Conn.Stream, Conn.Valid, Separate, PoolReady, StreamReady;
      if c == null { return; }
      if c.alive && |idle| < net.limits.poolMax {
        Keep(c);
      } else {
        Discard(c);
      }
    }

    /** Every connection the session owns now was its own before or has been opened since. */
    twostate predicate OwnOrNew()
      reads this
    {
      forall c | c in Conns() :: c in old(Conns()) || (fresh(c) && fresh(c.rbuf))
    }

    lemma Counted()
      requires Valid()
      ensures net.tears >= base && (torn ==> net.tears > base)
    {}

    /** The session has gone by an answer that may have been torn. */
    ghost method Doubt(t: bool)
      requires Valid() && (t && !torn ==> net.tears > base)
      modifies this`torn
      ensures torn == (old(torn) || t) && Valid() && Conns() == old(Conns())
    {
      hide Ready, Conn.Stream, Conn.Valid, Net.Valid;
      torn := torn || t;
      assert Conns() == old(Conns());
      assert Separate() && PoolReady() && StreamReady();
    }

    /** What the session's connections are not told about does not disturb them. */
    twostate lemma Undisturbed()
      requires old(Valid()) && unchanged(this) && net.Valid() && Conns() <= net.held && net.tears >= old(net.tears)
      requires forall d | d in Conns() :: unchanged(d) && unchanged(d.rbuf)
      ensures Valid()
    {
      hide Conn.Valid, Conn.Stream;
      assert Separate();
      forall c | c in idle ensures Ready(c) && c.alive {
        assert c in Conns();
        Same(c);
      }
      assert PoolReady();
      if stConn != null { Same(stConn); }
    }

    twostate lemma Same(c: Conn)
      requires unchanged(c) && unchanged(c.rbuf)
      ensures c.Valid() == old(c.Valid())
      ensures c.Valid() ==> c.Stream() == old(c.Stream())
    {}

    /** fetch_on with a connection in hand: the pool and the stream stay as they are. */
    method FetchInHand(c: Conn?, q: Request, buf: array<char>)
      returns (st: int, c2: Conn?, h: Head, got: nat, ghost t: bool)
      requires Valid() && Apart(buf) && (q.intoBuf ==> q.count <= buf.Length)
      requires c != null ==> c in net.held && Outside(c) && Ready(c) && c.rbuf != buf
      modifies net`live, net`held, net`opening, net`tears, Parts(c), buf
      ensures Valid() && net.opening == old(net.opening)
      ensures net.held == (old(net.held) - Just(c)) + Just(c2)
      ensures c2 != null ==> c2.alive && Ready(c2) && Outside(c2) && c2.rbuf != buf && (c2.torn ==> t)
      ensures c2 != null ==> c2 == c || (fresh(c2) && fresh(c2.rbuf))
      ensures Just(c2) !! (old(net.held) - Just(c))
      ensures got <= q.count && (st == -1 || st == h.status >= 200)
      ensures st != -1 && !t ==> Delivered(net.content(u), q, h, buf[..], got)
      ensures Blames(old(net.tears), net.tears, c != null && old(c.torn), t)
    {
      hide Ready, Conn.Stream, Conn.Valid, Separate, PoolReady, StreamReady, Delivered, Conns, Net.Valid;
      ghost var mine := Conns();
      var body;
      st, c2, h, got, body, t := FetchOn(net, c, u, q, buf);
      assert Conns() == mine;
      forall d | d in mine ensures unchanged(d) && unchanged(d.rbuf) {
        assert d.rbuf != buf;
      }
      Undisturbed();
    }

    /** fetch_on with a connection in hand, which is then given to the pool. */
    method FetchAndGive(c: Conn?, q: Request, buf: array<char>) returns (st: int, h: Head, got: nat)
      requires Valid() && Apart(buf) && (q.intoBuf ==> q.count <= buf.Length)
      requires c != null ==> c in net.held && Outside(c) && InHand(c) && c.rbuf != buf
      modifies this`idle, this`torn, net`live, net`held, net`opening, net`tears, Parts(c), buf
      ensures Valid() && Apart(buf) && net.opening == old(net.opening) && (old(torn) ==> torn)
      ensures net.held - Conns() == old(net.held - Conns()) - Just(c)
      ensures forall d | d in Conns() :: d in old(Conns()) || d == c || (fresh(d) && fresh(d.rbuf))
      ensures got <= q.count && (st == -1 || st == h.status >= 200)
      ensures st != -1 && !torn ==> Delivered(net.content(u), q, h, buf[..], got)
    {
      hide Ready, Conn.Stream, Conn.Valid, Separate, PoolReady, StreamReady, Delivered, Valid;
      var c2;
      ghost var t;
      ghost var k, held := Conns(), net.held;
      Counted();
      st, c2, h, got, t := FetchInHand(c, q, buf);
      Doubt(t);
      InHandOnly(held, k, Just(c), Just(c2));
      Give(c2);
    }

    /** One range request on a pooled connection, as session_read_direct makes it. */
    method RangeFetch(buf: array<char>, count: nat, offset: nat) returns (st: int, got: nat)
      requires Valid() && Apart(buf) && count <= buf.Length
      modifies this`idle, this`torn, net`live, net`held, net`opening, net`tears, PartsOf(ConnSet(idle)), buf
      ensures Valid() && Apart(buf) && OwnOrNew() && net.opening == old(net.opening) && (old(torn) ==> torn)
      ensures net.held - Conns() == old(net.held - Conns())
      ensures got <= count && (st == -1 || st >= 200)
      ensures st == 206 && !torn ==> IsSlice(buf[..got], file, offset)
    {
      hide Ready, Conn.Stream, Conn.Valid, IsSlice, Separate, PoolReady, StreamReady, Conns;
      var q := Request(false, true, offset, count, true, false, 0);
      var c := Take();
      TakenOnly(net.held, old(Conns()), Just(c), Conns());
      var h;
      st, h, got := FetchAndGive(c, q, buf);
    }

    /** session_set_url. */
    method SetUrl(finalUrl: string, v: U.HttpUrl)
      requires Valid() && (!torn ==> net.content(v) == file)
      modifies this`url, this`u, this`redirected, this`generation
      ensures Valid() && generation == old(generation) + 1 && u == v && Conns() == old(Conns())
    {
      hide Ready, Conn.Stream, Conn.Valid, Net.Valid;
      url, u := finalUrl, v;
      redirected := url != origin;
      generation := generation + 1;
    }

    /** session_refresh: asks the listed URL for a new link. rc is 0 when there is one (also when another reader got it
        first), -1 when the file is gone or has another size, -2 on a temporary failure. */
    method Refresh(seen: nat) returns (rc: int)
      requires Valid() && Honest()
      modifies this`idle, this`torn, this`url, this`u, this`redirected, this`generation, net`live, net`held,
        net`opening, net`tears
      ensures Valid() && OwnOrNew() && net.opening == old(net.opening) && (old(torn) ==> torn)
      ensures net.held - Conns() == old(net.held - Conns())
      ensures -2 <= rc <= 0
      ensures rc == 0 ==> generation != seen
      ensures u != old(u) ==> rc == 0 && (!torn ==> |net.content(u)| == size)
    {
      hide Ready, Conn.Stream, Conn.Valid, Separate, PoolReady, StreamReady, Net.Valid, U.UrlParse, Conns;
      if generation != seen { return 0; }
      ghost var h0, k := net.held, Conns();
      ghost var t;
      var rp, total, finalUrl, status, c;
      rp, total, finalUrl, status, c, t := RangeProbe(net, origin);
      assert Conns() == k;
      Undisturbed();
      Doubt(t);
      InHandOnly(h0, k, {}, Just(c));
      if rp == 1 && total == size && U.UrlParse(finalUrl).Some? {
        SetUrl(finalUrl, U.UrlParse(finalUrl).value);
        Give(c);
        return 0;
      }
      rc := if rp == 1 then -1 else if status < 0 || status >= 500 || status == 408 || status == 429 then -2 else -1;
      if c != null { Discard(c); }
    }

    /** stream_drop. */
    method Drop()
      requires Sound()
      modifies this`stConn, this`stPos, this`stEnd, net`live, net`held
      ensures Valid() && stConn == null && net.opening == old(net.opening)
      ensures Conns() == ConnSet(idle) && Conns() <= old(Conns())
      ensures net.held - Conns() == old(net.held - Conns())
    {
      hide Ready, Conn.Stream, Conn.Valid;
      var c := stConn;
      stConn, stPos, stEnd := null, 0, 0;
      assert old(Conns()) == Conns() + Just(c);
      if c != null {
        assert c !in Conns();
        Discard(c);
      }
    }

    method ConnectInHand(pc: Conn?) returns (reused: bool, c: Conn?)
      requires Valid() && (pc != null ==> pc in net.held && Outside(pc) && Ready(pc))
      modifies net`live, net`held, net`opening
      ensures Valid() && net.opening == old(net.opening)
      ensures net.held == (old(net.held) - Just(pc)) + Just(c)
      ensures Just(c) !! (old(net.held) - Just(pc))
      ensures c != null ==> Ready(c) && Outside(c) && (c == pc || (fresh(c) && fresh(c.rbuf) && !c.torn))
    {
      hide Ready, Conn.Stream, Conn.Valid, Separate, PoolReady, StreamReady, Conns, Net.Valid, U.SameEndpoint;
      ghost var mine := Conns();
      c, reused := Connect(net, pc, u);
      assert Conns() == mine;
      Undisturbed();
    }

    /** One attempt of stream_open: a request whose response head has been read. */
    method AskInHand(pc: Conn?, q: Request) returns (ok: bool, reused: bool, c: Conn?, h: Head, ghost r: W.Response)
      requires Valid() && (pc != null ==> pc in net.held && Outside(pc) && Ready(pc))
      modifies net`live, net`held, net`opening, net`tears, Parts(pc)
      ensures Valid() && net.opening == old(net.opening)
      ensures net.held == (old(net.held) - Just(pc)) + Just(c)
      ensures Just(c) !! (old(net.held) - Just(pc))
      ensures ok == (c != null) && net.tears >= old(net.tears)
      ensures c != null && c.torn ==> (pc != null && old(pc.torn)) || net.tears > old(net.tears)
      ensures c != null ==> c.Valid() && Outside(c) && (c == pc || (fresh(c) && fresh(c.rbuf)))
      ensures ok && !c.torn ==> Conforms(net.content(u), q, r) && Facing(c, h, q, r)
    {
      hide Ready, Conn.Stream, Conn.Valid, Separate, PoolReady, StreamReady, Conns, Net.Valid, Conforms, Facing, Valid;
      r := *;
      h := EmptyHead(0, false);
      reused, c := ConnectInHand(pc);
      if c == null { return false, reused, null, h, r; }
      ok, h, r := AskApart(c, q);
      if !ok {
        Discard(c);
        c := null;
      }
    }

    method AskApart(c: Conn, q: Request) returns (ok: bool, h: Head, ghost r: W.Response)
      requires Valid() && Outside(c) && Ready(c)
      modifies c`wire, c`closed, c`torn, c`rpos, c`rlen, c.rbuf, net`tears
      ensures Valid() && c.Valid() && Blames(old(net.tears), net.tears, old(c.torn), c.torn)
      ensures ok && !c.torn ==> Conforms(net.content(u), q, r) && Facing(c, h, q, r)
    {
      hide Ready, Conn.Stream, Conn.Valid, Separate, PoolReady, StreamReady, Conns, Conforms, Facing;
      ghost var mine := Conns();
      ok, h, r := AskHead(net, c, u, q);
      assert Conns() == mine;
      Undisturbed();
    }

    /** Adopts a connection whose range response lies unread in front of it. */
    method BeginStream(c: Conn, h: Head, q: Request, ghost r: W.Response)
      requires Valid() && stConn == null && Outside(c) && c in net.held && c.Valid() && (c.torn ==> torn)
      requires !c.torn ==> Conforms(net.content(u), q, r) && Facing(c, h, q, r)
      requires h.status == 206 && !h.chunked && h.contentLength > 0 && !q.isHead
      modifies this`stConn, this`stPos, this`stEnd, c`alive
      ensures Valid() && stConn == c && stPos == q.first < stEnd && Conns() == old(Conns()) + {c}
    {
      hide Ready, Conn.Stream, Conn.Valid, Net.Valid, W.ResponseOk, W.HeadOf, B.BodyPart, B.BodyIntact, Data;
      if !c.torn { Framed(h, r, q.isHead); }
      stConn, stPos, stEnd := c, q.first, q.first + h.contentLength;
      assert Conns() == old(Conns()) + {c};
      assert forall i | 0 <= i < |idle| :: idle[i] in old(Conns());
      if h.connClose { c.alive := false; }
    }

    /** stream_open: asks for up to one window from offset on and leaves the body unread. */
    method StreamOpen(offset: nat) returns (ok: bool)
      requires Valid() && stConn == null && offset < size
      modifies this`idle, this`torn, this`stConn, this`stPos, this`stEnd, net`live, net`held, net`opening,
        net`tears, PartsOf(ConnSet(idle))
      ensures Valid() && OwnOrNew() && net.opening == old(net.opening) && (old(torn) ==> torn)
      ensures net.held - Conns() == old(net.held - Conns())
      ensures if ok then stConn != null && stPos == offset < stEnd else stConn == null
    {
      hide Ready, Conn.Stream, Conn.Valid, Separate, PoolReady, StreamReady, Conns, Net.Valid, Conforms, Facing, Sound;
      var window := if size - offset > STREAM_WINDOW then STREAM_WINDOW else size - offset;
      var q := Request(false, true, offset, window, false, false, 0);
      ghost var h0, k0 := net.held, Conns();
      var c := Take();
      ghost var k1, taken := Conns(), Just(c);
      TakenOnly(h0, k0, taken, k1);
      var attempt := 0;
      while attempt < 2
        invariant Valid() && stConn == null && Conns() == k1 && net.opening == old(net.opening)
        invariant c != null ==> c in net.held && Outside(c) && InHand(c) && Just(c) == taken
        invariant net.held - k1 - Just(c) == h0 - k0
        invariant (if attempt == 0 then Just(c) == taken else c == null) && (old(torn) ==> torn)
        decreases 2 - attempt
      {
        ghost var h1, was := net.held, Just(c);
        Counted();
        var reused, h;
        ghost var r;
        ok, reused, c, h, r := AskInHand(c, q);
        InHandOnly(h1, k1, was, Just(c));
        if !ok {
          if reused && attempt == 0 { attempt := 1; continue; }
          return false;
        }
        if h.status != 206 || h.chunked || h.contentLength <= 0 || (h.hasRange && h.rangeStart != offset) {
          Discard(c);
          return false;
        }
        Doubt(c.torn);
        BeginStream(c, h, q, r);
        return true;
      }
      ok := false;
    }

    /** One turn of the retry loop of session_read_direct: a range request and, when the link has failed, a refresh.
        st is the status of the request. */
    method TryOnce(buf: array<char>, count: nat, offset: nat, refreshes: nat)
      returns (turn: Turn, got: nat, used: nat, st: int)
      requires Valid() && Honest() && Apart(buf) && count <= buf.Length && refreshes <= MAX_REFRESHES
      modifies this`idle, this`torn, this`url, this`u, this`redirected, this`generation, net`live, net`held,
        net`opening, net`tears, Footprint(), buf
      ensures Valid() && OwnOrNew() && net.opening == old(net.opening) && stConn == old(stConn) && (old(torn) ==> torn)
      ensures net.held - Conns() == old(net.held - Conns())
      ensures refreshes <= used <= MAX_REFRESHES
      ensures turn == Fetched ==> st == 206 && 0 < got <= count && (!torn ==> IsSlice(buf[..got], file, offset))
      ensures st == 206 ==> turn == if got > 0 then Fetched else Failed
      ensures st != 206 && !LinkFailed(st, old(redirected)) ==>
        turn == (if Transient(st) then Retry else Failed) && used == refreshes
      ensures LinkFailed(st, old(redirected)) ==>
        if refreshes == MAX_REFRESHES then turn == Failed else used == refreshes + 1 && turn != Fetched
      ensures turn == Relinked ==> used == refreshes + 1 && generation != old(generation)
    {
      hide Ready, Conn.Stream, Conn.Valid, Separate, PoolReady, StreamReady, Net.Valid, IsSlice;
      var seen, redir := generation, redirected;
      used := refreshes;
      assert PartsOf(ConnSet(idle)) <= Footprint();
      st, got := RangeFetch(buf, count, offset);
      if st == 206 && got > 0 { return Fetched, got, used, st; }
      if LinkFailed(st, redir) {
        if refreshes >= MAX_REFRESHES { return Failed, 0, used, st; }
        used := refreshes + 1;
        var rr := Refresh(seen);
        return if rr == 0 then Relinked else if rr == -1 then Failed else Retry, 0, used, st;
      }
      turn := if Transient(st) then Retry else Failed;
    }

    /** The wait between two attempts; over when the deadline, set at the first wait, has passed. */
    method Pause(before: nat, delay: nat) returns (over: bool, deadline: nat)
      requires Valid()
      modifies clock
      ensures Valid() && clock.now >= old(clock.now) && (old(clock.canceling) ==> clock.canceling)
      ensures if before == 0 then deadline >= old(clock.now) + RETRY_SEC else deadline == before
      ensures !over ==> clock.canceling || clock.now >= old(clock.now) + delay
      ensures !over && before == 0 && !clock.canceling ==> clock.now + RETRY_SEC >= deadline + delay
      ensures !over ==> old(clock.now) < deadline
    {
      hide Ready, Conn.Stream, Conn.Valid, Separate, PoolReady, StreamReady, Net.Valid, Conns;
      var now := clock.Time();
      deadline := if before == 0 then now + RETRY_SEC else before;
      over := now >= deadline;
      if !over { clock.SleepUnlessCanceled(delay); }
      Undisturbed();
    }

    /** session_read_direct: pooled range requests until one delivers. A resilient reader retries transient failures for
        two minutes. fetches counts the range requests. */
    method ReadDirect(buf: array<char>, want: nat, offset: nat) returns (n: int, ghost fetches: nat)
      requires Valid() && Honest() && Apart(buf) && want <= buf.Length
      modifies this`idle, this`torn, this`url, this`u, this`redirected, this`generation, net`live, net`held,
        net`opening, net`tears, clock, Footprint(), buf
      ensures Valid() && OwnOrNew() && net.opening == old(net.opening) && (old(torn) ==> torn)
      ensures net.held - Conns() == old(net.held - Conns())
      ensures ReadOk(n, buf[..], want, offset)
      ensures fetches <= if resilient then 22 else 4
    {
      hide Ready, Conn.Stream, Conn.Valid, Separate, PoolReady, StreamReady, Net.Valid, Slept, DelayAt, IsSlice, Sound;
      fetches := 0;
      if want == 0 || offset >= size { return 0, fetches; }
      var count := if want > size - offset then size - offset else want;
      var deadline, delay, refreshes := 0, 1, 0;
      ghost var k, others := 0, net.held - Conns();
      SleptStart();
      while true
        invariant Valid() && OwnOrNew() && net.opening == old(net.opening) && (old(torn) ==> torn)
        invariant net.held - Conns() == others
        invariant 0 <= refreshes <= MAX_REFRESHES && 0 <= k <= 18 && delay == DelayAt(k)
        invariant fetches <= k + refreshes
        invariant !resilient ==> k == 0
        invariant if k == 0 then deadline == 0
                  else deadline > 0 && (clock.canceling || clock.now + RETRY_SEC >= deadline + Slept(k))
        decreases 18 - k + MAX_REFRESHES - refreshes
      {
        SleptGrows(k);
        forall o | o in Footprint() ensures o in old(Footprint()) || fresh(o) {}
        var turn, got, used, st := TryOnce(buf, count, offset, refreshes);
        fetches := fetches + 1;
        refreshes := used;
        if turn == Fetched {
          assert buf[..][..got] == buf[..got];
          return got, fetches;
        }
        if turn == Relinked { continue; }
        if turn == Failed || !resilient || clock.canceling { return -1, fetches; }
        var over;
        over, deadline := Pause(deadline, delay);
        if over { return -1, fetches; }
        if delay < 8 { delay := delay * 2; }
        k := k + 1;
      }
    }

    /** The next bytes of the open response, straight into the caller's buffer. */
    method Deliver(buf: array<char>, take: nat) returns (ok: bool)
      requires Valid() && Apart(buf) && stConn != null && 0 < take <= buf.Length && stPos + take <= stEnd
      modifies this`stPos, stConn`rpos, stConn`wire, buf
      ensures Sound() && (ok ==> Valid())
      ensures ok ==> stPos == old(stPos) + take && (!torn ==> IsSlice(buf[..take], file, old(stPos)))
    {
      hide Conn.Stream, Conn.Valid, Takes, Carries, Front, Net.Valid, Ready;
      ghost var ahead := stConn.Stream();
      assert stConn in Conns();
      ghost var pool := ConnSet(idle);
      ok := stConn.ReadExact(buf, take);
      forall d | d in pool ensures unchanged(d) && unchanged(d.rbuf) {
        assert d in Conns() && d != stConn && d.rbuf != buf;
      }
      PoolStays();
      if ok {
        TakenData(ahead, buf[..take], stConn.Stream());
        if !torn { StreamTaken(ahead, file, stPos, stEnd, buf[..take], stConn.Stream()); }
        stPos := stPos + take;
      }
    }

    twostate lemma PoolStays()
      requires old(PoolReady()) && unchanged(this)
      requires forall d | d in ConnSet(idle) :: unchanged(d) && unchanged(d.rbuf)
      ensures PoolReady()
    {
      hide Conn.Valid, Conn.Stream;
      forall c | c in idle ensures Ready(c) && c.alive && c in Conns() {
        assert c in ConnSet(idle);
        Same(c);
      }
    }

    /** A response read to its end: its connection is at a message boundary and goes back to the pool when it is alive
        and there is room. */
    method EndStream()
      requires Valid() && stConn != null && stPos == stEnd
      modifies this`idle, this`stConn, net`live, net`held
      ensures Valid() && stConn == null && Conns() <= old(Conns()) && net.opening == old(net.opening)
      ensures if old(stConn.alive) && |old(idle)| < net.limits.poolMax then idle == old(idle) + [old(stConn)]
              else idle == old(idle) && net.held == old(net.held) - {old(stConn)}
      ensures net.held - Conns() == old(net.held - Conns())
    {
      hide Conn.Stream, Conn.Valid, Net.Valid, Data;
      var c := stConn;
      assert InHand(c);
      ghost var h0, k0 := net.held, Conns();
      stConn := null;
      assert Conns() == k0 - {c};
      TakenOnly(h0, k0, {c}, Conns());
      Give(c);
    }

    /** Leaves a response open whose next byte is the one at offset, unless the server does not play along. */
    method EnsureStream(offset: nat) returns (ready: bool)
      requires Valid() && offset < size
      modifies this`idle, this`torn, this`stConn, this`stPos, this`stEnd, net`live, net`held, net`opening,
        net`tears, Footprint()
      ensures Valid() && OwnOrNew() && net.opening == old(net.opening) && (old(torn) ==> torn)
      ensures net.held - Conns() == old(net.held - Conns())
      ensures ready ==> stConn != null && stPos == offset < stEnd
    {
      hide Ready, Conn.Stream, Conn.Valid, Separate, PoolReady, StreamReady, Net.Valid;
      if stConn != null && offset == stPos && stPos < stEnd { return true; }
      Drop();
      assert PartsOf(ConnSet(idle)) <= old(Footprint());
      ready := StreamOpen(offset);
    }

    /** Hands out the next piece of the open response; a failed response is dropped, a finished one ends. */
    method ServeStream(buf: array<char>, count: nat) returns (take: nat)
      requires Valid() && Apart(buf) && stConn != null && stPos < stEnd && 0 < count <= buf.Length
      modifies this`idle, this`stConn, this`stPos, this`stEnd, net`live, net`held, Footprint(), buf
      ensures Valid() && Conns() <= old(Conns()) && net.opening == old(net.opening)
      ensures net.held - Conns() == old(net.held - Conns())
      ensures take <= count && (take > 0 && !torn ==> IsSlice(buf[..take], file, old(stPos)))
    {
      hide Ready, Conn.Stream, Conn.Valid, Separate, PoolReady, StreamReady, Net.Valid, IsSlice;
      take := if stEnd - stPos > count then count else stEnd - stPos;
      assert stConn in Conns();
      var ok := Deliver(buf, take);
      if !ok {
        Drop();
        take := 0;
      } else if stPos >= stEnd {
        EndStream();
      }
    }

    /** session_read_streaming. */
    method ReadStreaming(buf: array<char>, want: nat, offset: nat) returns (n: int, ghost fetches: nat)
      requires Valid() && Honest() && Apart(buf) && want <= buf.Length
      modifies this, net`live, net`held, net`opening, net`tears, clock, Footprint(), buf
      ensures Valid() && OwnOrNew() && net.opening == old(net.opening) && (old(torn) ==> torn)
      ensures net.held - Conns() == old(net.held - Conns())
      ensures ReadOk(n, buf[..], want, offset)
      ensures fetches <= if resilient then 22 else 4
    {
      hide Ready, Conn.Stream, Conn.Valid, Separate, PoolReady, StreamReady, Net.Valid, IsSlice, Conns;
      fetches := 0;
      if want == 0 || offset >= size { return 0, fetches; }
      var count := if want > size - offset then size - offset else want;
      var ready := EnsureStream(offset);
      if ready {
        var take := ServeStream(buf, count);
        if take > 0 {
          assert buf[..][..take] == buf[..take];
          return take, fetches;
        }
      }
      n, fetches := ReadDirect(buf, count, offset);
    }

    /** http_file_session_read. */
    method Read(buf: array<char>, want: nat, offset: nat) returns (n: int, ghost fetches: nat)
      requires Valid() && Honest() && Apart(buf) && want <= buf.Length
      modifies this, net`live, net`held, net`opening, net`tears, clock, Footprint(), buf
      ensures Valid() && OwnOrNew() && net.opening == old(net.opening) && (old(torn) ==> torn)
      ensures net.held - Conns() == old(net.held - Conns())
      ensures ReadOk(n, buf[..], want, offset)
      ensures fetches <= if resilient then 22 else 4
    {
      if resilient {
        n, fetches := ReadStreaming(buf, want, offset);
      } else {
        n, fetches := ReadDirect(buf, want, offset);
      }
    }

    method EmptyPool()
      requires Valid()
      modifies this`idle, net`live, net`held
      ensures Valid() && idle == [] && Conns() <= old(Conns()) && net.opening == old(net.opening)
      ensures net.held - Conns() == old(net.held - Conns())
    {
      hide Ready, Conn.Stream, Conn.Valid, Separate, PoolReady, StreamReady, Net.Valid, Conns;
      ghost var others, mine := net.held - Conns(), Conns();
      while |idle| > 0
        invariant Valid() && net.held - Conns() == others && net.opening == old(net.opening) && Conns() <= mine
        decreases |idle|
      {
        ghost var h, k := net.held, Conns();
        var c := Take();
        TakenOnly(h, k, Just(c), Conns());
        Discard(c);
      }
    }

    /** http_file_session_close: every slot the session holds is given back. */
    method CloseAll()
      requires Valid()
      modifies this`idle, this`stConn, this`stPos, this`stEnd, net`live, net`held
      ensures net.Valid() && Conns() == {} && net.opening == old(net.opening)
      ensures net.held == old(net.held - Conns())
      ensures net.live == old(net.live) - |old(Conns())|
    {
      hide Ready, Conn.Stream, Conn.Valid, Separate, PoolReady, StreamReady;
      EmptyPool();
      Drop();
      assert Conns() == {};
      Partition(old(net.held), old(Conns()));
      assert net.held == net.held - Conns();
    }
  }

  lemma Partition(h: set<Conn>, k: set<Conn>)
    requires k <= h
    ensures |h - k| == |h| - |k|
  {
    assert h == (h - k) + k;
  }

  lemma TakenData(ahead: seq<Event>, got: string, rest: seq<Event>)
    requires Takes(ahead, got, rest)
    ensures |Data(rest)| == |Data(ahead)| - |got|
  {
    hide Front, Data;
    DataSplit(ahead, |got|);
  }

  lemma StreamTaken(ahead: seq<Event>, file: string, pos: nat, end: nat, got: string, rest: seq<Event>)
    requires pos + |got| <= end <= |file| && Carries(ahead, file[pos..end]) && Takes(ahead, got, rest)
    ensures IsSlice(got, file, pos) && Carries(rest, file[pos + |got|..end])
  {
    PlainTaken(ahead, file[pos..end], got, rest);
    hide Carries, Takes;
    assert file[pos..end][|got|..] == file[pos + |got|..end];
    assert got == file[pos..end][..|got|];
  }

  method StartWith(net: Net, clock: Clock, origin: string, resilient: bool, finalUrl: string, v: U.HttpUrl, c: Conn?,
                   total: nat, ghost base: nat, ghost t: bool)
    returns (s: Session)
    requires net.Valid() && (c != null ==> c in net.held && Ready(c) && (c.torn ==> t))
    requires net.tears >= base && if t then net.tears > base else total == |net.content(v)|
    modifies net`live, net`held
    ensures net.Valid() && net.opening == old(net.opening)
    ensures fresh(s) && s.Valid() && s.net == net && s.clock == clock && s.origin == origin && s.resilient == resilient
    ensures s.file == net.content(v) && s.size == total && s.torn == t && s.base == base && s.Conns() <= Just(c)
    ensures net.held == (old(net.held) - Just(c)) + s.Conns()
  {
    hide Ready, Conn.Stream, Conn.Valid, Net.Valid, Session.Separate, Session.PoolReady, Session.StreamReady,
      Session.Conns;
    ghost var h0 := net.held;
    s := new Session(net, clock, origin, resilient, finalUrl, v, total, base, t);
    s.Give(c);
    assert net.held - s.Conns() == h0 - Just(c);
  }

  /** http_file_session_open: a session exists only for a server that honours byte ranges, and for the size the catalog
      promised (expected, 0 when unknown). */
  method OpenSession(net: Net, clock: Clock, origin: string, resilient: bool, expected: nat) returns (s: Session?)
    requires net.Valid()
    modifies net`live, net`held, net`opening, net`tears
    ensures net.Valid() && net.opening == old(net.opening)
    ensures s == null ==> net.held == old(net.held)
    ensures s != null ==>
      && fresh(s) && s.Valid() && s.net == net && s.clock == clock && s.origin == origin && s.resilient == resilient
      && s.size > 0 && (expected != 0 ==> s.size == expected) && s.base == old(net.tears)
      && (forall c | c in s.Conns() :: fresh(c) && fresh(c.rbuf))
      && net.held == old(net.held) + s.Conns()
  {
    hide Ready, Conn.Stream, Conn.Valid, Net.Valid, U.UrlParse, Session.Separate, Session.PoolReady,
      Session.StreamReady, Session.Conns;
    ghost var h0, base := net.held, net.tears;
    ghost var t;
    var rp, total, finalUrl, status, c;
    rp, total, finalUrl, status, c, t := RangeProbe(net, origin);
    assert Just(c) !! h0;
    if rp != 1 || (expected != 0 && total != expected) || U.UrlParse(finalUrl).None? {
      if c != null { net.Close(c); }
      return null;
    }
    s := StartWith(net, clock, origin, resilient, finalUrl, U.UrlParse(finalUrl).value, c, total, base, t);
  }

  /** The reader that asks for one block after another: whatever mixture of streaming, direct and fallback reads, broken
      connections and refreshed links happens on the way, reaching the end means having the file. */
  method ReadThrough(s: Session, buf: array<char>, block: nat) returns (complete: bool, data: string)
    requires s.Valid() && s.Honest() && s.Apart(buf) && 0 < block <= buf.Length
    modifies s, s.net`live, s.net`held, s.net`opening, s.net`tears, s.clock, s.Footprint(), buf
    ensures s.Valid() && s.net.held - s.Conns() == old(s.net.held - s.Conns())
    ensures s.net.tears == s.base ==> data <= s.file && (complete ==> data == s.file)
    ensures complete ==> |data| >= s.size
  {
    hide Ready, Conn.Stream, Conn.Valid, Net.Valid, Session.Separate, Session.PoolReady, Session.StreamReady;
    data := [];
    ghost var others := s.net.held - s.Conns();
    while |data| < s.size
      invariant s.Valid() && s.Apart(buf) && s.OwnOrNew() && s.net.held - s.Conns() == others
      invariant (old(s.torn) ==> s.torn) && (!s.torn ==> data <= s.file)
      decreases s.size - |data|
    {
      forall o | o in s.Footprint() ensures o in old(s.Footprint()) || fresh(o) {}
      ghost var before := data;
      var n, fetches := s.Read(buf, block, |data|);
      if n <= 0 { return false, data; }
      if !s.torn { Extends(s.file, before, buf[..n]); }
      data := data + buf[..n];
    }
    complete := true;
  }

  lemma Extends(file: string, data: string, piece: string)
    requires data <= file && IsSlice(piece, file, |data|)
    ensures data + piece <= file
  {}
}
