/** The transfer loop of install_ipc.c: one message over a stream socket, whatever the kernel does to it
    (src/install_ipc.c:14-51). */
module IpcTransfer {

  const UNAVAILABLE: int := -2001
  const DISCONNECTED: int := -2002
  const CANCELED: int := -2003
  const TIMEOUT: int := -2004

  type Bytes = seq<nat>

  /** What one turn of the loop meets after some milliseconds: the caller cancels; nothing is ready yet, or the call is
      interrupted; the connection is broken; or up to n bytes can be moved. */
  datatype Turn = Cancel(ms: nat) | Wait(ms: nat) | Hangup(ms: nat) | Move(ms: nat, n: nat)

  /** A transfer: its result, the bytes moved, and the turns left over. */
  datatype Transfer = Transfer(code: int, moved: nat, rest: seq<Turn>, ms: nat)

  function Least(a: nat, b: nat): nat { if a < b then a else b }

  /** The loop over the kernel's turns: need bytes, of which avail can ever be moved, in the time left. */
  function TransferOf(turns: seq<Turn>, need: nat, avail: nat, left: int): (t: Transfer)
    ensures t.moved <= need && t.moved <= avail && (t.code == 0 <==> t.moved == need)
    ensures t.code in {0, TIMEOUT, CANCELED, DISCONNECTED}
    decreases |turns|
  {
    if need == 0 then Transfer(0, 0, turns, 0)
    else if turns == [] then Transfer(if left <= 0 then TIMEOUT else DISCONNECTED, 0, [], 0)
    else
      var t, rest := turns[0], turns[1..];
      if t.Cancel? then Transfer(CANCELED, 0, rest, t.ms)
      else if left - t.ms <= 0 then Transfer(TIMEOUT, 0, rest, t.ms)
      else
        match t
        case Wait(_) => Later(TransferOf(rest, need, avail, left - t.ms), 0, t.ms)
        case Move(_, n) =>
          var m := Least(Least(n, need), avail);
          if m == 0 then Transfer(DISCONNECTED, 0, rest, t.ms)
          else Later(TransferOf(rest, need - m, avail - m, left - t.ms), m, t.ms)
        case _ => Transfer(DISCONNECTED, 0, rest, t.ms)
  }

  /** Messages on the wire, one after another. */
  ghost function Packed<T>(encode: T -> Bytes, ms: seq<T>): Bytes {
    if ms == [] then [] else Packed(encode, ms[..|ms| - 1]) + encode(ms[|ms| - 1])
  }

  ghost predicate Fixed<T(!new)>(encode: T -> Bytes, size: nat) { forall m: T :: |encode(m)| == size }

  lemma {:induction false} PackedLength<T(!new)>(encode: T -> Bytes, ms: seq<T>, size: nat)
    requires Fixed(encode, size)
    ensures |Packed(encode, ms)| == size * |ms|
    decreases |ms|
  {
    if ms != [] {
      PackedLength(encode, ms[..|ms| - 1], size);
      RecordNext(size, |ms| - 1);
    }
  }

  lemma Times(size: nat, m: nat, n: nat)
    requires m <= n
    ensures size * m <= size * n
  {}

  /** Each message is the record of its number. */
  lemma {:induction false} PackedAt<T(!new)>(encode: T -> Bytes, ms: seq<T>, size: nat, n: nat)
    requires Fixed(encode, size) && n < |ms|
    ensures size * (n + 1) <= |Packed(encode, ms)| && Record(Packed(encode, ms), size, n) == encode(ms[n])
    decreases |ms|
  {
    var m := |ms| - 1;
    PackedLength(encode, ms, size);
    PackedLength(encode, ms[..m], size);
    RecordNext(size, n);
    Times(size, n + 1, m + 1);
    var front := Packed(encode, ms[..m]);
    if n < m {
      PackedAt(encode, ms[..m], size, n);
      RecordKept(front, Packed(encode, ms), size, n);
    }
  }

  /** A record that is there in full is not changed by what comes behind it. */
  lemma RecordKept(a: Bytes, b: Bytes, size: nat, n: nat)
    requires a <= b && size * (n + 1) <= |a|
    ensures Record(b, size, n) == Record(a, size, n)
  {
    RecordNext(size, n);
  }

  /** Behind one record in front the numbers go up by one. */
  lemma RecordBehind(a: Bytes, b: Bytes, size: nat, n: nat)
    requires |a| == size && size * (n + 1) <= |b|
    ensures size * (n + 2) <= |a + b| && Record(a + b, size, n + 1) == Record(b, size, n)
  {
    RecordNext(size, n);
    RecordNext(size, n + 1);
  }

  /** The k-th record of a stream of records of one size. */
  function Record(b: Bytes, size: nat, k: nat): Bytes {
    if size * k <= size * (k + 1) <= |b| then b[size * k..size * (k + 1)] else []
  }

  lemma RecordNext(size: nat, k: nat)
    ensures size * (k + 1) == size * k + size && size * k >= 0
  {}

  /** One turn. */
  lemma Unfold(turns: seq<Turn>, need: nat, avail: nat, left: int)
    requires need > 0
    ensures var t, rest := if turns == [] then Hangup(0) else turns[0], if turns == [] then [] else turns[1..];
      TransferOf(turns, need, avail, left)
      == if t.Cancel? then Transfer(CANCELED, 0, rest, t.ms)
         else if left - t.ms <= 0 then Transfer(TIMEOUT, 0, rest, t.ms)
         else if t.Wait? then Later(TransferOf(rest, need, avail, left - t.ms), 0, t.ms)
         else if t.Hangup? || Least(Least(t.n, need), avail) == 0 then Transfer(DISCONNECTED, 0, rest, t.ms)
         else
           var m := Least(Least(t.n, need), avail);
           Later(TransferOf(rest, need - m, avail - m, left - t.ms), m, t.ms)
  {}

  lemma Finished(turns: seq<Turn>, avail: nat, left: int)
    ensures TransferOf(turns, 0, avail, left) == Transfer(0, 0, turns, 0)
  {}

  lemma SliceGrows(s: Bytes, from: nat, to: nat, n: nat)
    requires from <= to && to + n <= |s|
    ensures s[from..to] + s[to..to + n] == s[from..to + n]
    ensures from == 0 ==> s[..to] + s[to..to + n] == s[..to + n]
  {}

  function Later(t: Transfer, m: nat, ms: nat): Transfer { t.(moved := t.moved + m, ms := t.ms + ms) }

  /** One end of a connection: the bytes the other end will ever send, how many have been received, those sent, and what
      the kernel will do. */
  class Socket {
    const incoming: Bytes
    var consumed: nat
    var sent: Bytes
    var turns: seq<Turn>
    var now: int

    constructor (incoming: Bytes, turns: seq<Turn>)
      ensures this.incoming == incoming && consumed == 0 && sent == [] && this.turns == turns
    {
      this.incoming, this.consumed, this.sent, this.turns, this.now := incoming, 0, [], turns, 0;
    }

    predicate Valid()
      reads this`consumed
    {
      consumed <= |incoming|
    }

    /** What the kernel does next; with nothing planned the connection is gone. */
    method NextTurn() returns (t: Turn)
      modifies this`turns, this`now
      ensures t == if old(turns) == [] then Hangup(0) else old(turns)[0]
      ensures turns == (if old(turns) == [] then [] else old(turns)[1..]) && now == old(now) + t.ms
    {
      t := Hangup(0);
      if turns != [] { t, turns := turns[0], turns[1..]; }
      now := now + t.ms;
    }

    /** One turn of the loop up to its recv or send: over with a code, or n more bytes (none after a wait). */
    method Await(need: nat, avail: nat, deadline: int) returns (over: bool, code: int, n: nat)
      requires need > 0
      modifies this`turns, this`now
      ensures now >= old(now) && n <= need && n <= avail
      ensures over ==> TransferOf(old(turns), need, avail, deadline - old(now))
                       == Transfer(code, 0, turns, now - old(now))
      ensures !over ==>
        && |turns| < |old(turns)|
        && TransferOf(old(turns), need, avail, deadline - old(now))
           == Later(TransferOf(turns, need - n, avail - n, deadline - now), n, now - old(now))
    {
      hide TransferOf;
      Unfold(turns, need, avail, deadline - now);
      n := 0;
      var t := NextTurn();
      if t.Cancel? { return true, CANCELED, 0; }
      if deadline - now <= 0 { return true, TIMEOUT, 0; }
      if t.Wait? { return false, 0, 0; }
      if t.Hangup? { return true, DISCONNECTED, 0; }
      n := Least(Least(t.n, need), avail);
      if n == 0 { return true, DISCONNECTED, 0; }
      over, code := false, 0;
    }

    /** install_ipc_transfer, receiving. A message arrives whole or the transfer fails; a failed one may have eaten the
        beginning of a message. */
    method Receive(size: nat, timeout: nat) returns (code: int, message: Bytes)
      requires Valid()
      modifies this`consumed, this`turns, this`now
      ensures Valid()
      ensures var t := TransferOf(old(turns), size, |incoming| - old(consumed), timeout);
        code == t.code && consumed == old(consumed) + t.moved && turns == t.rest && now == old(now) + t.ms
      ensures message == incoming[old(consumed)..consumed]
      ensures code == 0 <==> |message| == size
    {
      hide TransferOf;
      message := [];
      var deadline := now + timeout;
      ghost var start, began := consumed, now;
      ghost var want := TransferOf(turns, size, |incoming| - start, timeout);
      while |message| < size
        invariant Valid() && |message| <= size
        invariant consumed == start + |message| && message == incoming[start..consumed]
        invariant now >= began
        invariant want == Later(TransferOf(turns, size - |message|, |incoming| - consumed, deadline - now),
          |message|, now - began)
        decreases |turns|
      {
        var over, n;
        over, code, n := Await(size - |message|, |incoming| - consumed, deadline);
        if over { return; }
        SliceGrows(incoming, start, consumed, n);
        message := message + incoming[consumed..consumed + n];
        consumed := consumed + n;
      }
      Finished(turns, |incoming| - consumed, deadline - now);
      code := 0;
    }

    /** install_ipc_transfer, sending. */
    method Transmit(message: Bytes, timeout: nat) returns (code: int)
      modifies this`sent, this`turns, this`now
      ensures var t := TransferOf(old(turns), |message|, |message|, timeout);
        code == t.code && sent == old(sent) + message[..t.moved] && turns == t.rest && now == old(now) + t.ms
    {
      hide TransferOf;
      var done := 0;
      var deadline := now + timeout;
      ghost var began, before := now, sent;
      ghost var want := TransferOf(turns, |message|, |message|, timeout);
      while done < |message|
        invariant 0 <= done <= |message| && sent == before + message[..done]
        invariant now >= began
        invariant want == Later(TransferOf(turns, |message| - done, |message| - done, deadline - now), done,
                                now - began)
        decreases |turns|
      {
        var over, n;
        over, code, n := Await(|message| - done, |message| - done, deadline);
        if over { return; }
        SliceGrows(message, 0, done, n);
        sent := sent + message[done..done + n];
        done := done + n;
      }
      Finished(turns, |message| - done, deadline - now);
      code := 0;
    }
  }
}

/** The messages, and the helper process that serves them (src/install_helper.c:80-191). */
module InstallHelper {
  import opened IpcTransfer

  const MAGIC: nat := 0x504b4749
  const VERSION: nat := 2
  const REQUEST_SIZE: nat := 12 + 1024 + 320 + 512 + 32 + 64

  const READY: nat := 0
  const INSTALL: nat := 1
  const STATUS: nat := 2
  const SHORTCUT: nat := 3
  const CLOSE: nat := 4

  /** The text fields are the raw buffers, which may lack a terminator. */
  datatype Request = Request(magic: nat, version: nat, op: nat, uri: string, name: string, icon: string,
                             titleId: string, directory: string)

  datatype Response = Response(magic: nat, version: nat, op: nat, result: int, pid: int, info: string, status: string)

  predicate WellFormed(r: Request) {
    && r.magic == MAGIC && r.version == VERSION
    && '\0' in r.uri && '\0' in r.name && '\0' in r.icon && '\0' in r.titleId && '\0' in r.directory
  }

  /** A call into the system's installer, with its result. */
  datatype Call =
    | Init(result: int)
    | Install(request: Request, result: int, contentId: string)
    | Status(contentId: string, result: int, status: string)
    | Shortcut(titleId: string, directory: string, result: int)
    | Terminate(result: int)

  predicate Consumes(c: Call) { c.Install? || c.Shortcut? }

  predicate Accepted(c: Call) { c.Install? && c.result == 0 }

  /** The system's installer: it answers anything. */
  class System {
    ghost var log: seq<Call>

    constructor ()
      ensures log == []
    {
      log := [];
    }

    method Initialize() returns (result: int)
      modifies this
      ensures log == old(log) + [Init(result)]
    {
      result := *;
      log := log + [Init(result)];
    }

    method InstallByPackage(request: Request) returns (result: int, contentId: string)
      modifies this
      ensures log == old(log) + [Call.Install(request, result, contentId)]
    {
      result, contentId := *, *;
      log := log + [Call.Install(request, result, contentId)];
    }

    method GetInstallStatus(contentId: string) returns (result: int, status: string)
      modifies this
      ensures log == old(log) + [Call.Status(contentId, result, status)]
    {
      result, status := *, *;
      log := log + [Call.Status(contentId, result, status)];
    }

    method RegisterShortcut(titleId: string, directory: string) returns (result: int)
      modifies this
      ensures log == old(log) + [Call.Shortcut(titleId, directory, result)]
    {
      result := *;
      log := log + [Call.Shortcut(titleId, directory, result)];
    }

    method Terminate() returns (result: int)
      modifies this
      ensures log == old(log) + [Call.Terminate(result)]
    {
      result := *;
      log := log + [Call.Terminate(result)];
    }
  }

  // ---------------------------------------------------------------- what the log of a helper looks like

  /** One install or shortcut in a helper's life, failed or not; status is asked only about the accepted install;
      nothing comes after the termination. */
  ghost predicate Disciplined(log: seq<Call>) {
    && (forall i, j | 0 <= i < j < |log| :: !(Consumes(log[i]) && Consumes(log[j])))
    && (forall j | 0 <= j < |log| && log[j].Status? ::
          exists i | 0 <= i < j :: Accepted(log[i]) && log[i].contentId == log[j].contentId)
    && (forall i | 0 <= i < |log| - 1 :: !log[i].Terminate?)
  }

  lemma NothingCalled()
    ensures Disciplined([])
  {}

  ghost predicate Terminated(log: seq<Call>) { log != [] && log[|log| - 1].Terminate? }

  /** The flags of the request loop say what the log says. */
  ghost predicate Flags(log: seq<Call>, used: bool, installed: bool, contentId: string, terminated: bool) {
    && Disciplined(log)
    && (used <==> exists i | 0 <= i < |log| :: Consumes(log[i]))
    && (installed ==> exists i | 0 <= i < |log| :: Accepted(log[i]) && log[i].contentId == contentId)
    && (terminated <==> Terminated(log))
  }

  lemma Logged(log: seq<Call>, used: bool, installed: bool, contentId: string, c: Call)
    requires Flags(log, used, installed, contentId, false)
    requires Consumes(c) ==> !used
    requires c.Status? ==> installed && c.contentId == contentId
    ensures c.Install? ==> Flags(log + [c], true, c.result == 0, c.contentId, false)
    ensures c.Shortcut? ==> Flags(log + [c], true, installed, contentId, false)
    ensures c.Status? ==> Flags(log + [c], used, installed, contentId, false)
    ensures c.Terminate? ==> Flags(log + [c], used, installed, contentId, true)
  {
    var log2 := log + [c];
    assert log2[|log|] == c;
    assert forall i | 0 <= i < |log| :: log2[i] == log[i];
    forall j | 0 <= j < |log2| && log2[j].Status?
      ensures exists i | 0 <= i < j :: Accepted(log2[i]) && log2[i].contentId == log2[j].contentId
    {
      if j < |log| {
        var i :| 0 <= i < j && Accepted(log[i]) && log[i].contentId == log[j].contentId;
        assert log2[i] == log[i];
      } else {
        var i :| 0 <= i < |log| && Accepted(log[i]) && log[i].contentId == contentId;
        assert log2[i] == log[i];
      }
    }
    if used { var i :| 0 <= i < |log| && Consumes(log[i]); assert Consumes(log2[i]); }
    if installed {
      var i :| 0 <= i < |log| && Accepted(log[i]) && log[i].contentId == contentId;
      assert Accepted(log2[i]) && log2[i].contentId == contentId;
    }
  }

  // ---------------------------------------------------------------- what each request leads to

  /** What the request loop remembers. */
  datatype Memory = Memory(used: bool, installed: bool, contentId: string)

  const Fresh: Memory := Memory(false, false, "")

  /** The native call a request leads to; the reply carries what it returned. */
  function CallFor(m: Memory, q: Request, r: Response): seq<Call> {
    if q.op == INSTALL && !m.used then [Call.Install(q, r.result, r.info)]
    else if q.op == STATUS && m.installed then [Call.Status(m.contentId, r.result, r.status)]
    else if q.op == SHORTCUT && !m.used then [Call.Shortcut(q.titleId, q.directory, r.result)]
    else if q.op == CLOSE then [Call.Terminate(r.result)]
    else []
  }

  function After(m: Memory, q: Request, r: Response): Memory {
    if q.op == INSTALL && !m.used then Memory(true, r.result == 0, r.info)
    else if q.op == SHORTCUT && !m.used then m.(used := true)
    else m
  }

  /** A reply answers its request: its operation, its call's results, and unavailable when there was no call. */
  predicate Answers(m: Memory, q: Request, r: Response, pid: int) {
    && r.magic == MAGIC && r.version == VERSION && r.op == q.op && r.pid == pid
    && (CallFor(m, q, r) == [] ==> r.result == UNAVAILABLE && r.info == "" && r.status == "")
  }

  function MemoryOf(qs: seq<Request>, rs: seq<Response>): Memory
    requires |qs| == |rs|
  {
    if qs == [] then Fresh
    else After(MemoryOf(qs[..|qs| - 1], rs[..|rs| - 1]), qs[|qs| - 1], rs[|rs| - 1])
  }

  /** The calls a sequence of requests leads to, given the answers. */
  function CallsOf(qs: seq<Request>, rs: seq<Response>): seq<Call>
    requires |qs| == |rs|
  {
    if qs == [] then []
    else
      var q0, r0 := qs[..|qs| - 1], rs[..|rs| - 1];
      CallsOf(q0, r0) + CallFor(MemoryOf(q0, r0), qs[|qs| - 1], rs[|rs| - 1])
  }

  predicate AllAnswered(qs: seq<Request>, rs: seq<Response>, pid: int)
    requires |qs| == |rs|
  {
    forall k | 0 <= k < |qs| :: Answers(MemoryOf(qs[..k], rs[..k]), qs[k], rs[k], pid)
  }

  lemma OneMore(qs: seq<Request>, rs: seq<Response>, q: Request, r: Response, pid: int)
    requires |qs| == |rs| && AllAnswered(qs, rs, pid) && Answers(MemoryOf(qs, rs), q, r, pid)
    ensures AllAnswered(qs + [q], rs + [r], pid)
    ensures MemoryOf(qs + [q], rs + [r]) == After(MemoryOf(qs, rs), q, r)
    ensures CallsOf(qs + [q], rs + [r]) == CallsOf(qs, rs) + CallFor(MemoryOf(qs, rs), q, r)
  {
    hide After, CallFor, Answers;
    var qs2, rs2 := qs + [q], rs + [r];
    assert qs2[..|qs|] == qs && rs2[..|rs|] == rs;
    forall k | 0 <= k < |qs2| ensures Answers(MemoryOf(qs2[..k], rs2[..k]), qs2[k], rs2[k], pid) {
      if k < |qs| { assert qs2[..k] == qs[..k] && rs2[..k] == rs[..k]; }
    }
  }

  predicate Closed(qs: seq<Request>) { qs != [] && qs[|qs| - 1].op == CLOSE }

  ghost predicate Begun(log: seq<Call>) { log != [] && log[0] == Init(0) }

  /** The calls requests lead to are disciplined, whatever they answer. */
  lemma {:induction false} Discipline(qs: seq<Request>, rs: seq<Response>)
    requires |qs| == |rs| && forall k | 0 <= k < |qs| - 1 :: qs[k].op != CLOSE
    ensures var m := MemoryOf(qs, rs);
      Flags([Init(0)] + CallsOf(qs, rs), m.used, m.installed, m.contentId, Closed(qs))
    decreases |qs|
  {
    hide Flags;
    if qs == [] {
      JustBegun();
    } else {
      var n := |qs| - 1;
      var q0, r0 := qs[..n], rs[..n];
      Discipline(q0, r0);
      CallLogged([Init(0)] + CallsOf(q0, r0), MemoryOf(q0, r0), qs[n], rs[n]);
      assert [Init(0)] + CallsOf(q0, r0) + CallFor(MemoryOf(q0, r0), qs[n], rs[n]) == [Init(0)] + CallsOf(qs, rs);
    }
  }

  lemma JustBegun()
    ensures Flags([Init(0)] + [], false, false, "", false)
  {
    assert [Init(0)] + [] == [Init(0)];
  }

  lemma CallLogged(log: seq<Call>, m: Memory, q: Request, r: Response)
    requires Flags(log, m.used, m.installed, m.contentId, false)
    ensures var m2 := After(m, q, r);
      Flags(log + CallFor(m, q, r), m2.used, m2.installed, m2.contentId, q.op == CLOSE)
  {
    hide Flags;
    var c := CallFor(m, q, r);
    if c == [] {
      assert log + c == log;
    } else {
      Logged(log, m.used, m.installed, m.contentId, c[0]);
    }
  }

  /** A log that begins with the initialization and whose flags are known. */
  lemma FlagsMean(log: seq<Call>)
    ensures forall u, i, c, t :: Flags(log, u, i, c, t) ==> Disciplined(log) && (t <==> Terminated(log))
  {}

  // ---------------------------------------------------------------- the request loop

  /** The helper process: its socket and how messages are laid out in bytes. */
  class Helper {
    const socket: Socket
    const system: System
    const pid: int
    const size: nat                      // sizeof(install_ipc_response_t)
    const decode: Bytes -> Request
    const encode: Response -> Bytes
    ghost var requests: seq<Request>     // the well-formed requests received
    ghost var answers: seq<Response>     // the replies computed for them
    ghost var replies: nat               // how many of these have been sent whole

    constructor (socket: Socket, system: System, pid: int, size: nat, decode: Bytes -> Request,
                 encode: Response -> Bytes)
      ensures this.socket == socket && this.system == system && this.decode == decode && this.encode == encode
      ensures this.pid == pid && this.size == size && requests == [] && answers == [] && replies == 0
    {
      this.socket, this.system, this.pid, this.size := socket, system, pid, size;
      this.decode, this.encode := decode, encode;
      requests, answers, replies := [], [], 0;
    }

    /** Every message has the size of its record. */
    ghost predicate Sized() { size > 0 && Fixed(encode, size) }

    /** Request k is what its bytes say, and so far nothing else has been received. */
    ghost predicate Received()
      reads this`requests
    {
      && REQUEST_SIZE * |requests| <= |socket.incoming|
      && forall k | 0 <= k < |requests| :: requests[k] == decode(Record(socket.incoming, REQUEST_SIZE, k))
    }

    /** Every request has been answered in turn, and the native calls are those the requests lead to. */
    ghost predicate InStep()
      reads this`requests, this`answers, system
    {
      && |answers| == |requests| && AllAnswered(requests, answers, pid)
      && system.log == [Init(0)] + CallsOf(requests, answers)
    }

    /** What has gone out: the greeting, the answers sent whole, and less than one message more. */
    ghost predicate Sent(greeting: Response)
      reads this`answers, this`replies, socket`sent
    {
      && replies <= |answers| <= replies + 1
      && encode(greeting) + Packed(encode, answers[..replies]) <= socket.sent
      && |socket.sent| < |encode(greeting) + Packed(encode, answers[..replies])| + size
    }

    /** Between two requests everything has been sent, and nothing more. */
    ghost predicate Even(greeting: Response)
      reads this`answers, this`replies, socket`sent
    {
      replies == |answers| && socket.sent == encode(greeting) + Packed(encode, answers)
    }

    lemma EvenSent(greeting: Response)
      requires Even(greeting) && Sized()
      ensures Sent(greeting)
    {
      assert answers[..replies] == answers;
    }

    /** Sends the last answer. */
    method Answer(ghost greeting: Response, r: Response) returns (ok: bool)
      requires Sized() && answers != [] && r == answers[|answers| - 1] && replies == |answers| - 1
      requires socket.sent == encode(greeting) + Packed(encode, answers[..replies])
      modifies this`replies, socket`sent, socket`now, socket`turns
      ensures Sent(greeting) && (ok ==> Even(greeting))
    {
      ghost var before := socket.sent;
      var code := socket.Transmit(encode(r), 10000);
      ok := code == 0;
      if ok {
        assert before + encode(r) == encode(greeting) + (Packed(encode, answers[..replies]) + encode(r));
        replies := replies + 1;
        assert answers[..replies] == answers;
      }
    }

    /** One request: the native call it leads to, if any, and the reply. */
    method Act(request: Request, used: bool, installed: bool, contentId: string)
        returns (response: Response, used2: bool, installed2: bool, contentId2: string, terminated: bool)
      modifies system
      ensures var m := Memory(used, installed, contentId);
        && system.log == old(system.log) + CallFor(m, request, response)
        && Answers(m, request, response, pid)
        && Memory(used2, installed2, contentId2) == After(m, request, response)
      ensures terminated <==> request.op == CLOSE
    {
      response := Response(MAGIC, VERSION, request.op, UNAVAILABLE, pid, "", "");
      used2, installed2, contentId2, terminated := used, installed, contentId, false;
      if request.op == INSTALL && !used {
        used2 := true;
        var result: int, cid: string;
        result, cid := system.InstallByPackage(request);
        response := response.(result := result, info := cid);
        installed2, contentId2 := result == 0, cid;
      } else if request.op == STATUS && installed {
        var result: int, status: string;
        result, status := system.GetInstallStatus(contentId);
        response := response.(result := result, status := status);
      } else if request.op == SHORTCUT && !used {
        used2 := true;
        var result := system.RegisterShortcut(request.titleId, request.directory);
        response := response.(result := result);
      } else if request.op == CLOSE {
        var result := system.Terminate();
        response := response.(result := result);
        terminated := true;
      }
    }

    /** What holds between two requests. */
    ghost predicate Ready(greeting: Response, used: bool, installed: bool, contentId: string)
      reads this, socket, system
    {
      && socket.Valid() && InStep() && Even(greeting) && Received() && socket.consumed == REQUEST_SIZE * |requests|
      && Memory(used, installed, contentId) == MemoryOf(requests, answers)
    }

    /** The next request: received, checked, acted on and answered; over when any of this fails. */
    method Next(ghost greeting: Response, used: bool, installed: bool, contentId: string)
        returns (over: bool, used2: bool, installed2: bool, contentId2: string, terminated: bool)
      requires Sized() && Ready(greeting, used, installed, contentId)
      modifies this`requests, this`answers, this`replies, socket, system
      ensures Received() && InStep() && Sent(greeting)
      ensures !over ==> Ready(greeting, used2, installed2, contentId2) && socket.consumed > old(socket.consumed)
      ensures requests == old(requests)
        || (|requests| == |old(requests)| + 1 && requests[..|old(requests)|] == old(requests)
            && (terminated <==> requests[|old(requests)|].op == CLOSE))
      ensures requests == old(requests) ==> over && !terminated
    {
      hide WellFormed, Packed, CallsOf, MemoryOf, AllAnswered, CallFor, Answers;
      used2, installed2, contentId2, terminated := used, installed, contentId, false;
      over := true;
      var got: int, message: Bytes;
      EvenSent(greeting);
      RecordNext(REQUEST_SIZE, |requests|);
      got, message := socket.Receive(REQUEST_SIZE, 120000);
      if got != 0 { return; }
      assert message == Record(socket.incoming, REQUEST_SIZE, |requests|);
      var request := decode(message);
      if !WellFormed(request) { return; }
      var response: Response;
      response, used2, installed2, contentId2, terminated := Act(request, used, installed, contentId);
      ghost var qs, rs := requests, answers;
      OneMore(qs, rs, request, response, pid);
      requests, answers := requests + [request], answers + [response];
      Stepped(qs, rs, request, response);
      var ok := Answer(greeting, response);
      over := !ok;
    }

    /** The request loop: until a request fails to arrive, is malformed, or its reply cannot be sent, or after CLOSE. */
    method Loop(ghost greeting: Response) returns (terminated: bool)
      requires socket.Valid() && socket.consumed == 0 && Sized() && requests == [] && InStep() && Even(greeting)
      modifies this`requests, this`answers, this`replies, socket, system
      ensures Received() && InStep() && Sent(greeting)
      ensures terminated <==> requests != [] && requests[|requests| - 1].op == CLOSE
      ensures forall k | 0 <= k < |requests| - 1 :: requests[k].op != CLOSE
    {
      hide InStep, Even, Sent, Received;
      var used, installed, contentId := false, false, "";
      terminated := false;
      Begin(greeting);
      while !terminated
        invariant Received() && InStep() && Sent(greeting)
        invariant terminated || Ready(greeting, used, installed, contentId)
        invariant terminated <==> requests != [] && requests[|requests| - 1].op == CLOSE
        invariant forall k | 0 <= k < |requests| - 1 :: requests[k].op != CLOSE
        decreases |socket.incoming| - socket.consumed
      {
        var over;
        over, used, installed, contentId, terminated := Next(greeting, used, installed, contentId);
        if over { break; }
      }
    }

    lemma Stepped(qs: seq<Request>, rs: seq<Response>, q: Request, r: Response)
      requires |qs| == |rs| && requests == qs + [q] && answers == rs + [r] && replies == |rs|
      requires CallsOf(requests, answers) == CallsOf(qs, rs) + CallFor(MemoryOf(qs, rs), q, r)
      ensures [Init(0)] + CallsOf(qs, rs) + CallFor(MemoryOf(qs, rs), q, r) == [Init(0)] + CallsOf(requests, answers)
      ensures answers[..replies] == rs
    {
      hide CallsOf, MemoryOf, CallFor;
    }

    lemma Begin(greeting: Response)
      requires socket.Valid() && socket.consumed == 0 && Sized() && requests == [] && InStep() && Even(greeting)
      ensures Ready(greeting, false, false, "") && Received() && Sent(greeting)
    {
      EvenSent(greeting);
      assert MemoryOf([], []) == Fresh;
    }

    function Greeting(result: int): Response { Response(MAGIC, VERSION, READY, result, pid, "", "") }

    /** What a helper has done when it returns: the initialization, the calls its requests led to, and the termination
        unless CLOSE was among them. */
    ghost predicate Done()
      reads this, system
    {
      && |answers| == |requests| && AllAnswered(requests, answers, pid)
      && var calls := [Init(0)] + CallsOf(requests, answers);
         if Closed(requests) then system.log == calls
         else system.log != [] && system.log[|system.log| - 1].Terminate? && system.log[..|system.log| - 1] == calls
    }

    /** install_helper_serve, until it returns. Over every sequence of requests: at most one install or shortcut, status
        only after an accepted install, and exactly one termination if and only if the initialization succeeded. */
    method Serve() returns (code: int)
      requires socket.Valid() && socket.consumed == 0 && socket.sent == [] && Sized()
      requires system.log == [] && requests == [] && answers == [] && replies == 0
      modifies this`requests, this`answers, this`replies, socket, system
      ensures Disciplined(system.log) && (system.log == [] || system.log[0].Init?)
      ensures Terminated(system.log) <==> Begun(system.log)
      ensures code == if Begun(system.log) then 0 else 1
      ensures if Begun(system.log) then Done() else requests == []
      ensures Received() && |answers| == |requests| && AllAnswered(requests, answers, pid)
      ensures Sent(Greeting(0)) || (requests == [] && (|socket.sent| < size || (code == 1 && |socket.sent| == size)))
    {
      hide Disciplined, CallsOf, MemoryOf, AllAnswered, Packed, Flags;
      NoRequests();
      var watching: bool := *;
      if !watching {
        NothingCalled();
        return 1;
      }
      var initialized := system.Initialize();
      assert system.log == [Init(initialized)];
      var sent := socket.Transmit(encode(Greeting(initialized)), 10000);
      if initialized != 0 {
        OnlyInit(initialized);
        return 1;
      }
      var terminated := false;
      assert InStep();
      if sent == 0 {
        assert socket.sent == encode(Greeting(0)) + Packed(encode, answers);
        terminated := Loop(Greeting(0));
      }
      Discipline(requests, answers);
      if !terminated {
        var m := MemoryOf(requests, answers);
        ghost var log := system.log;
        var ignored := system.Terminate();
        Logged(log, m.used, m.installed, m.contentId, Call.Terminate(ignored));
        assert system.log[..|system.log| - 1] == log;
      }
      FlagsMean(system.log);
      code := 0;
    }

    lemma NoRequests()
      ensures CallsOf([], []) == [] && AllAnswered([], [], pid) && Packed(encode, []) == []
    {}

    lemma OnlyInit(result: int)
      ensures Disciplined([Init(result)]) && !Terminated([Init(result)])
    {}
  }
}

/** The daemon's side of one helper (src/install_service.c:15-61, 85-200). */
module InstallService {
  import opened IpcTransfer
  import opened InstallHelper

  /** The checks of receive_response. */
  predicate Accepts(r: Response, op: nat, pid: int) {
    r.magic == MAGIC && r.version == VERSION && r.op == op && r.pid == pid
  }

  /** How far an exchange got: nothing of the request was sent, or only its beginning; the reply was not received
      whole, it was not accepted, or it was. */
  datatype Stage = NotSent | CutSent | NotReceived | Rejected | Accepted

  /** Where a client is: the requests it has sent whole, all the bytes it has sent, and the number of those received. */
  datatype Point = Point(asked: seq<Request>, sent: Bytes, consumed: nat)

  /** What an exchange does to it. */
  ghost predicate Moves(encode: Request -> Bytes, size: nat, p: Point, q: Request, stage: Stage, r: Point) {
    match stage
    case NotSent => r == p
    case CutSent => r == p.(sent := r.sent) && p.sent < r.sent < p.sent + encode(q)
    case NotReceived =>
      r == Point(p.asked + [q], p.sent + encode(q), r.consumed) && p.consumed <= r.consumed < p.consumed + size
    case _ => r == Point(p.asked + [q], p.sent + encode(q), p.consumed + size)
  }

  /** The next request will be record n of what the helper receives, and the message next in line is number n + 1, the
      helper's answer to that record. */
  predicate InLine(p: Point, size: nat, n: nat) { |p.sent| == REQUEST_SIZE * n && p.consumed == size * (n + 1) }

  /** What the stages of the past tell: the bytes sent are the requests sent whole exactly when none was cut, and the
      messages received are the greeting and the replies to them exactly when none was received in part. */
  ghost predicate Booked(encode: Request -> Bytes, size: nat, p: Point, stages: seq<Stage>) {
    && (if CutSent in stages then |p.sent| > REQUEST_SIZE * |p.asked| else p.sent == Packed(encode, p.asked))
    && p.consumed <= size * (|p.asked| + 1)
    && (p.consumed == size * (|p.asked| + 1) <==> NotReceived !in stages)
  }

  function StatusRequest(): Request { Request(MAGIC, VERSION, STATUS, "\0", "\0", "\0", "\0", "\0") }

  class Service {
    const socket: Socket
    const size: nat                        // sizeof(install_ipc_response_t)
    const decode: Bytes -> Response
    const encode: Request -> Bytes
    var isOpen: bool
    var pid: int
    var usable: bool
    ghost var asked: seq<Request>          // the requests sent whole
    ghost var stages: seq<Stage>           // how the greeting and every exchange since went
    ghost var failed: bool                 // some exchange has failed

    constructor (socket: Socket, size: nat, decode: Bytes -> Response, encode: Request -> Bytes)
      requires size > 0 && Fixed(encode, REQUEST_SIZE)
      ensures this.socket == socket && this.size == size && this.decode == decode && this.encode == encode
      ensures !isOpen && !usable && asked == [] && stages == [] && !failed && pid == -1
    {
      this.socket, this.size, this.decode, this.encode := socket, size, decode, encode;
      isOpen, pid, usable, asked, stages, failed := false, -1, false, [], [], false;
    }

    /** The n-th message the helper sends: the greeting is number 0, and number n + 1 answers record n of what the
        helper receives (MessageIsAnswer). */
    ghost function Message(n: nat): Response { decode(Record(socket.incoming, size, n)) }

    ghost function At(): Point
      reads this`asked, socket`sent, socket`consumed
    {
      Point(asked, socket.sent, socket.consumed)
    }

    /** After any history the books are right; and nothing has failed while the connection is usable. */
    ghost predicate Valid()
      reads this, socket`consumed, socket`sent
    {
      && socket.Valid() && size > 0 && Fixed(encode, REQUEST_SIZE)
      && (usable ==> !failed && isOpen)
      && (isOpen ==> Booked(encode, size, At(), stages))
      && (!failed ==> CutSent !in stages && NotReceived !in stages)
    }

    /** receive_response. */
    method ReceiveResponse(op: nat, timeout: nat)
        returns (code: int, response: Response, accepted: bool, ghost stage: Stage)
      requires socket.Valid() && size > 0
      modifies this`pid, this`usable, this`failed, socket`consumed, socket`now, socket`turns
      ensures socket.Valid()
      ensures var t := TransferOf(old(socket.turns), size, |socket.incoming| - old(socket.consumed), timeout);
        && socket.consumed == old(socket.consumed) + t.moved && socket.turns == t.rest
        && (stage == NotReceived <==> t.code != 0) && (t.code != 0 ==> code == t.code)
      ensures accepted <==> stage == Accepted
      ensures stage in {NotReceived, Rejected, Accepted}
      ensures stage != NotReceived ==> socket.consumed == old(socket.consumed) + size
      ensures stage != NotReceived ==> response == decode(socket.incoming[old(socket.consumed)..socket.consumed])
      ensures stage != NotReceived ==> (accepted <==> Accepts(response, op, pid))
      ensures accepted ==> code == response.result && usable == old(usable) && failed == old(failed)
      ensures !accepted ==> !usable && failed && code != 0
      ensures old(pid) > 0 || op != READY ==> pid == old(pid)
      ensures old(pid) <= 0 && op == READY && stage != NotReceived ==> pid == response.pid
    {
      response, accepted, stage := Response(0, 0, 0, 0, 0, "", ""), false, NotReceived;
      var message: Bytes;
      code, message := socket.Receive(size, timeout);
      if code != 0 {
        usable, failed := false, true;
        return;
      }
      response, stage := decode(message), Rejected;
      if pid <= 0 && op == READY { pid := response.pid; }
      if !Accepts(response, op, pid) {
        usable, failed := false, true;
        code := DISCONNECTED;
        return;
      }
      code, accepted, stage := response.result, true, Accepted;
    }

    /** exchange. The reply accepted is the message next in line, whatever happened before, and the books stay right. */
    method Exchange(request: Request, timeout: nat)
        returns (code: int, response: Response, accepted: bool, ghost stage: Stage)
      requires Valid() && isOpen
      modifies this`usable, this`failed, this`asked, this`stages, this`pid, socket
      ensures Valid() && stages == old(stages) + [stage] && Moves(encode, size, old(At()), request, stage, At())
      ensures accepted <==> stage == Accepted
      ensures stage in {Rejected, Accepted} ==>
        response == decode(socket.incoming[old(socket.consumed)..socket.consumed])
        && (accepted <==> Accepts(response, request.op, pid))
      ensures accepted ==> code == response.result && usable == old(usable) && failed == old(failed)
      ensures !accepted ==> !usable && failed && code != 0
      ensures request.op != READY ==> pid == old(pid)
      ensures Sequel(old(socket.turns), old(At()), request, timeout, code, stage)
    {
      hide TransferOf, Accepts, Booked;
      response, accepted, stage := Response(0, 0, 0, 0, 0, "", ""), false, NotSent;
      ghost var before, whole := At(), encode(request);
      code := socket.Transmit(encode(request), 10000);
      if code != 0 {
        ghost var k := |socket.sent| - |before.sent|;
        stage := if k == 0 then NotSent else CutSent;
        CutMoves(before.sent, whole, k);
        usable, failed := false, true;
      } else {
        assert whole[..|whole|] == whole;
        asked := asked + [request];
        code, response, accepted, stage := ReceiveResponse(request.op, timeout);
      }
      BookedKept(encode, size, before, request, stage, At(), stages);
      stages := stages + [stage];
    }

    /** What the kernel's turns make of an exchange. */
    ghost predicate Sequel(turns: seq<Turn>, p: Point, request: Request, timeout: nat, code: int, stage: Stage)
      reads socket`sent, socket`consumed, socket`turns
      requires p.consumed <= |socket.incoming|
    {
      var whole := encode(request);
      var t := TransferOf(turns, |whole|, |whole|, 10000);
      if t.code != 0 then
        && stage == (if t.moved == 0 then NotSent else CutSent)
        && code == t.code && socket.turns == t.rest && socket.sent == p.sent + whole[..t.moved]
      else
        var u := TransferOf(t.rest, size, |socket.incoming| - p.consumed, timeout);
        && socket.turns == u.rest && socket.consumed == p.consumed + u.moved
        && (stage == NotReceived <==> u.code != 0) && (u.code != 0 ==> code == u.code)
        && stage in {NotReceived, Rejected, Accepted}
    }

    /** open_service, once the process has been started and has connected. */
    method Open() returns (code: int)
      requires !isOpen && pid == -1 && asked == [] && stages == [] && !failed
      requires size > 0 && Fixed(encode, REQUEST_SIZE) && socket.consumed == 0 && socket.sent == []
      modifies this, socket
      ensures Valid() && isOpen && asked == [] && socket.sent == [] && |stages| == 1
      ensures usable <==> code == 0
      ensures code == 0 ==> size <= |socket.incoming| && Accepts(Message(0), READY, pid) && Message(0).result == 0
      ensures var t := TransferOf(old(socket.turns), size, |socket.incoming|, 30000);
        && socket.turns == t.rest && socket.consumed == t.moved
        && (code == 0 <==> t.code == 0 && Accepts(Message(0), READY, Message(0).pid) && Message(0).result == 0)
      ensures code == 0 ==> pid == Message(0).pid
    {
      isOpen, usable := true, false;
      var response: Response, accepted: bool;
      ghost var stage;
      RecordNext(size, 0);
      code, response, accepted, stage := ReceiveResponse(READY, 30000);
      stages := [stage];
      if code == 0 {
        usable := true;
        pid := response.pid;
      }
    }

    /** install_service_status, which does not look at `usable`: the status of the message next in line, if that
        passes the checks. */
    method Status() returns (code: int, status: string, accepted: bool, ghost stage: Stage)
      requires Valid() && isOpen
      modifies this`usable, this`failed, this`asked, this`stages, this`pid, socket
      ensures Valid() && stages == old(stages) + [stage] && Moves(encode, size, old(At()), StatusRequest(), stage, At())
      ensures pid == old(pid) && (accepted <==> stage == Accepted) && (!accepted ==> !usable)
      ensures stage in {Rejected, Accepted} ==>
        var r := decode(socket.incoming[old(socket.consumed)..socket.consumed]);
        (accepted <==> Accepts(r, STATUS, pid)) && (accepted ==> status == r.status && code == r.result)
      ensures accepted && old(usable) ==> usable
      ensures Sequel(old(socket.turns), old(At()), StatusRequest(), 10000, code, stage)
    {
      hide Booked, Moves, Accepts;
      var response: Response;
      code, response, accepted, stage := Exchange(StatusRequest(), 10000);
      status := response.status;
    }

    /** install_service_close: CLOSE is only sent over a connection that has never failed. */
    method Close() returns (closed: bool)
      requires Valid()
      modifies this, socket
      ensures !isOpen && !usable && pid == -1
      ensures closed ==> old(isOpen && usable) && |asked| == old(|asked|) + 1 && asked[|asked| - 1].op == CLOSE
      ensures !old(isOpen && usable) ==> asked == old(asked) && socket.sent == old(socket.sent)
    {
      closed := false;
      if isOpen && usable {
        var code: int, response: Response;
        ghost var stage;
        code, response, closed, stage := Exchange(Request(MAGIC, VERSION, CLOSE, "\0", "\0", "\0", "\0", "\0"), 1000);
      }
      isOpen, usable, pid := false, false, -1;
    }
  }

  // ---------------------------------------------------------------- the two ends together

  /** One record of what one end sent, as the other end receives it. */
  lemma RecordSent(incoming: Bytes, sent: Bytes, size: nat, n: nat)
    requires incoming <= sent && size * (n + 1) <= |incoming|
    ensures Record(incoming, size, n) == Record(sent, size, n)
  {
    RecordKept(incoming, sent, size, n);
  }

  lemma AtMost(size: nat, m: nat, n: nat)
    requires size > 0 && size * m <= size * n
    ensures m <= n
  {
    if n < m {
      Times(size, n + 1, m);
      RecordNext(size, n);
    }
  }

  /** Two first-in-first-out channels: all that one end receives is the beginning of what the other end sends. */
  ghost predicate Joined(h: Helper, greeting: Response, incoming: Bytes, sent: Bytes)
    reads h, h.socket
  {
    && h.Sized() && h.Received() && h.Sent(greeting)
    && |h.answers| == |h.requests| && AllAnswered(h.requests, h.answers, h.pid)
    && incoming <= h.socket.sent && h.socket.incoming <= sent
  }

  /** Message m + 1 is the helper's answer to record m of all that the client has sent, whole requests or not. Nothing
      is asked of the codecs but that messages have a fixed size and that an answer can be read back. */
  lemma MessageIsAnswer(h: Helper, greeting: Response, incoming: Bytes, sent: Bytes, decode: Bytes -> Response, m: nat)
    requires Joined(h, greeting, incoming, sent) && h.size * (m + 2) <= |incoming|
    requires forall k | 0 <= k < |h.answers| :: decode(h.encode(h.answers[k])) == h.answers[k]
    ensures m < |h.requests| && h.requests[m] == h.decode(Record(sent, REQUEST_SIZE, m))
    ensures REQUEST_SIZE * (m + 1) <= |sent|
    ensures decode(Record(incoming, h.size, m + 1)) == h.answers[m]
    ensures Answers(MemoryOf(h.requests[..m], h.answers[..m]), h.requests[m], h.answers[m], h.pid)
  {
    hide Answers, MemoryOf;
    var size, out := h.size, h.answers[..h.replies];
    var w := Packed(h.encode, out);
    PackedLength(h.encode, out, size);
    RecordNext(size, h.replies);
    RecordNext(size, h.replies + 1);
    if m >= h.replies { Times(size, h.replies + 2, m + 2); }
    PackedAt(h.encode, out, size, m);
    RecordBehind(h.encode(greeting), w, size, m);
    RecordKept(h.encode(greeting) + w, h.socket.sent, size, m + 1);
    RecordSent(incoming, h.socket.sent, size, m + 1);
    Times(REQUEST_SIZE, m + 1, |h.requests|);
    RecordSent(h.socket.incoming, sent, REQUEST_SIZE, m);
  }

  /** A request that is next in line is what the helper serves and answers with the message next in line. */
  lemma AnswersItsRequest(h: Helper, greeting: Response, incoming: Bytes, sent: Bytes, decode: Bytes -> Response,
                          encode: Request -> Bytes, p: Point, q: Request, n: nat)
    requires Joined(h, greeting, incoming, sent) && InLine(p, h.size, n)
    requires p.sent + encode(q) <= sent && |encode(q)| == REQUEST_SIZE && h.decode(encode(q)) == q
    requires p.consumed + h.size <= |incoming|
    requires forall k | 0 <= k < |h.answers| :: decode(h.encode(h.answers[k])) == h.answers[k]
    ensures n < |h.requests| && h.requests[n] == q
    ensures var response := decode(incoming[p.consumed..p.consumed + h.size]);
      response == h.answers[n] && Answers(MemoryOf(h.requests[..n], h.answers[..n]), q, response, h.pid)
  {
    hide Answers, MemoryOf, Joined, AllAnswered;
    RecordNext(h.size, n + 1);
    RecordNext(REQUEST_SIZE, n);
    MessageIsAnswer(h, greeting, incoming, sent, decode, n);
    assert Record(sent, REQUEST_SIZE, n) == encode(q);
  }

  // ---------------------------------------------------------------- going on after a failure

  lemma CutMoves(sent: Bytes, whole: Bytes, k: nat)
    requires k < |whole|
    ensures k == 0 ==> sent + whole[..k] == sent
    ensures k > 0 ==> sent < sent + whole[..k] < sent + whole
  {}

  lemma PackedNext(encode: Request -> Bytes, ms: seq<Request>, q: Request)
    ensures Packed(encode, ms + [q]) == Packed(encode, ms) + encode(q)
  {
    assert (ms + [q])[..|ms|] == ms;
  }

  /** No exchange spoils the books. */
  lemma BookedKept(encode: Request -> Bytes, size: nat, p: Point, q: Request, stage: Stage, r: Point,
                   stages: seq<Stage>)
    requires size > 0 && Fixed(encode, REQUEST_SIZE)
    requires Booked(encode, size, p, stages) && Moves(encode, size, p, q, stage, r)
    ensures Booked(encode, size, r, stages + [stage])
  {
    hide Packed;
    RecordNext(REQUEST_SIZE, |p.asked|);
    RecordNext(size, |p.asked| + 1);
    PackedLength(encode, p.asked, REQUEST_SIZE);
    PackedNext(encode, p.asked, q);
    assert |encode(q)| == REQUEST_SIZE;
    assert forall s: Stage :: s in stages + [stage] <==> s in stages || s == stage;
  }

  /** Any history of exchanges, from an open service on. */
  ghost predicate History(encode: Request -> Bytes, size: nat, points: seq<Point>, qs: seq<Request>,
                          stages: seq<Stage>) {
    && |points| == |stages| + 1 && |qs| == |stages| && points[0] == Point([], [], size)
    && forall k | 0 <= k < |stages| :: Moves(encode, size, points[k], qs[k], stages[k], points[k + 1])
  }

  lemma {:induction false} HistoryBooked(encode: Request -> Bytes, size: nat, points: seq<Point>, qs: seq<Request>,
                                         stages: seq<Stage>, k: nat)
    requires size > 0 && Fixed(encode, REQUEST_SIZE) && History(encode, size, points, qs, stages) && k < |points|
    ensures Booked(encode, size, points[k], stages[..k])
  {
    hide Moves;
    if k == 0 {
      RecordNext(size, 0);
      hide Booked;
      FirstBooked(encode, size);
      assert stages[..0] == [];
    } else {
      hide Booked;
      HistoryBooked(encode, size, points, qs, stages, k - 1);
      assert Moves(encode, size, points[k - 1], qs[k - 1], stages[k - 1], points[k]);
      BookedKept(encode, size, points[k - 1], qs[k - 1], stages[k - 1], points[k], stages[..k - 1]);
      assert stages[..k] == stages[..k - 1] + [stages[k - 1]];
    }
  }

  lemma FirstBooked(encode: Request -> Bytes, size: nat)
    ensures Booked(encode, size, Point([], [], size), [])
  {}

  /** The next request and the message next in line belong together exactly when no request was cut while it was sent
      and no reply while it was received. Rejected replies and requests of which nothing was sent do not matter; and
      nothing that happens later makes up for a cut. */
  lemma AlignedExactly(encode: Request -> Bytes, size: nat, p: Point, stages: seq<Stage>)
    requires size > 0 && Fixed(encode, REQUEST_SIZE) && Booked(encode, size, p, stages)
    ensures (exists n: nat :: InLine(p, size, n)) <==> CutSent !in stages && NotReceived !in stages
    ensures forall n: nat :: InLine(p, size, n) ==> n == |p.asked|
  {
    var a := |p.asked|;
    PackedLength(encode, p.asked, REQUEST_SIZE);
    forall n: nat | InLine(p, size, n) ensures n == a && |p.sent| == REQUEST_SIZE * a {
      AtMost(REQUEST_SIZE, a, n);
      AtMost(size, n + 1, a + 1);
    }
    if CutSent !in stages && NotReceived !in stages { assert InLine(p, size, a); }
  }

  /** The two ends together, over any history: a reply that was received whole is the helper's answer to its own request
      when nothing was cut before, and otherwise the request and the reply do not belong together. */
  lemma AnsweredExactly(h: Helper, greeting: Response, incoming: Bytes, decode: Bytes -> Response,
                        encode: Request -> Bytes, points: seq<Point>, qs: seq<Request>, stages: seq<Stage>, k: nat)
    requires h.size > 0 && Fixed(encode, REQUEST_SIZE) && History(encode, h.size, points, qs, stages)
    requires k < |stages| && stages[k] in {Rejected, Accepted}
    requires Joined(h, greeting, incoming, points[|stages|].sent) && points[|stages|].consumed <= |incoming|
    requires h.decode(encode(qs[k])) == qs[k]
    requires forall j | 0 <= j < |h.answers| :: decode(h.encode(h.answers[j])) == h.answers[j]
    ensures points[k].consumed + h.size == points[k + 1].consumed <= |incoming|
    ensures var p, n := points[k], |points[k].asked|;
      if CutSent !in stages[..k] && NotReceived !in stages[..k] then
        var response := decode(incoming[p.consumed..p.consumed + h.size]);
        && n < |h.requests| && h.requests[n] == qs[k] && response == h.answers[n]
        && Answers(MemoryOf(h.requests[..n], h.answers[..n]), qs[k], response, h.pid)
      else forall m: nat :: !InLine(p, h.size, m)
  {
    hide Answers, MemoryOf, Joined, AllAnswered, Booked, InLine, Packed;
    var p, q, last := points[k], qs[k], points[|stages|];
    HistoryBooked(encode, h.size, points, qs, stages, k);
    AlignedExactly(encode, h.size, p, stages[..k]);
    assert Moves(encode, h.size, p, q, stages[k], points[k + 1]);
    Grows(encode, h.size, points, qs, stages, k + 1, |stages|);
    if CutSent !in stages[..k] && NotReceived !in stages[..k] {
      AnswersItsRequest(h, greeting, incoming, last.sent, decode, encode, p, q, |p.asked|);
    }
  }

  lemma {:induction false} Grows(encode: Request -> Bytes, size: nat, points: seq<Point>, qs: seq<Request>,
                                 stages: seq<Stage>, j: nat, k: nat)
    requires History(encode, size, points, qs, stages) && j <= k < |points|
    ensures points[j].sent <= points[k].sent && points[j].consumed <= points[k].consumed
    decreases k
  {
    if j < k {
      Grows(encode, size, points, qs, stages, j, k - 1);
      assert Moves(encode, size, points[k - 1], qs[k - 1], stages[k - 1], points[k]);
    }
  }

  /** The turns of a kernel that delivers the greeting, takes the first request and is silent until the client gives up,
      then takes the second request and delivers a message. */
  function LateReply(size: nat): seq<Turn> {
    [Move(1, size), Move(1, REQUEST_SIZE), Wait(10000), Move(1, REQUEST_SIZE), Move(1, size)]
  }

  /** The turns of a kernel that delivers the greeting, takes only the beginning of the first request until the client
      gives up, then takes the second request and delivers a message. */
  function SlowTake(size: nat): seq<Turn> {
    [Move(1, size), Move(1, BEGINNING), Wait(10000), Move(1, REQUEST_SIZE), Move(1, size)]
  }

  const BEGINNING: nat := 100

  lemma SlowTurns(size: nat, avail: nat)
    requires size > 0 && avail >= size
    ensures |SlowTake(size)| == 5
    ensures var t := SlowTake(size);
      && TransferOf(t, size, avail, 30000) == Transfer(0, size, t[1..], 1)
      && TransferOf(t[1..], REQUEST_SIZE, REQUEST_SIZE, 10000) == Transfer(TIMEOUT, BEGINNING, t[3..], 10001)
      && TransferOf(t[3..], REQUEST_SIZE, REQUEST_SIZE, 10000) == Transfer(0, REQUEST_SIZE, t[4..], 1)
      && TransferOf(t[4..], size, avail, 10000) == Transfer(0, size, [], 1)
  {
    var t := SlowTake(size);
    assert t[1..][1..] == t[2..] && t[2..][1..] == t[3..] && t[3..][1..] == t[4..] && t[4..][1..] == [];
    assert t[0] == Move(1, size) && t[1..][0] == Move(1, BEGINNING) && t[2..][0] == Wait(10000);
    assert t[3..][0] == Move(1, REQUEST_SIZE) && t[4..][0] == Move(1, size);
    assert TransferOf(t[2..], REQUEST_SIZE - BEGINNING, REQUEST_SIZE - BEGINNING, 9999)
      == Transfer(TIMEOUT, 0, t[3..], 10000);
  }

  lemma LateTurns(size: nat, avail: nat)
    requires size > 0 && avail >= size
    ensures |LateReply(size)| == 5
    ensures var t := LateReply(size);
      && TransferOf(t, size, avail, 30000) == Transfer(0, size, t[1..], 1)
      && TransferOf(t[1..], REQUEST_SIZE, REQUEST_SIZE, 10000) == Transfer(0, REQUEST_SIZE, t[2..], 1)
      && TransferOf(t[2..], size, avail, 10000) == Transfer(TIMEOUT, 0, t[3..], 10000)
      && TransferOf(t[3..], REQUEST_SIZE, REQUEST_SIZE, 10000) == Transfer(0, REQUEST_SIZE, t[4..], 1)
      && TransferOf(t[4..], size, avail, 10000) == Transfer(0, size, [], 1)
  {
    var t := LateReply(size);
    assert t[1..][1..] == t[2..] && t[2..][1..] == t[3..] && t[3..][1..] == t[4..] && t[4..][1..] == [];
    assert t[0] == Move(1, size) && t[1..][0] == Move(1, REQUEST_SIZE) && t[2..][0] == Wait(10000);
    assert t[3..][0] == Move(1, REQUEST_SIZE) && t[4..][0] == Move(1, size);
  }

  lemma FixedAt<T(!new)>(encode: T -> Bytes, x: T, size: nat)
    requires Fixed(encode, size)
    ensures |encode(x)| == size
  {}

  /** A status request over a kernel whose second delivery is late. */
  method LateFirst(incoming: Bytes, size: nat, decode: Bytes -> Response, encode: Request -> Bytes)
      returns (code1: int, s: Service)
    requires size > 0 && size * 2 <= |incoming| && Fixed(encode, REQUEST_SIZE)
    requires var g := decode(Record(incoming, size, 0)); Accepts(g, READY, g.pid) && g.result == 0
    ensures fresh(s) && fresh(s.socket) && s.Valid() && s.isOpen && s.pid == decode(Record(incoming, size, 0)).pid
    ensures s.socket.incoming == incoming && s.size == size && s.decode == decode && s.encode == encode
    ensures code1 == TIMEOUT && s.asked == [StatusRequest()]
    ensures |LateReply(size)| == 5 && s.socket.turns == LateReply(size)[3..] && s.socket.consumed == size
  {
    hide TransferOf, Accepts, LateReply, Packed, Fixed;
    RecordNext(size, 0);
    RecordNext(size, 1);
    LateTurns(size, |incoming|);
    LateTurns(size, |incoming| - size);
    var socket := new Socket(incoming, LateReply(size));
    s := new Service(socket, size, decode, encode);
    var code := s.Open();
    assert code == 0 && socket.turns == LateReply(size)[1..] && socket.consumed == size;
    var status1: string, accepted: bool;
    ghost var stage;
    FixedAt(encode, StatusRequest(), REQUEST_SIZE);
    code1, status1, accepted, stage := s.Status();
  }

  /** Two status requests to any helper that greets and answers the first of them, over that kernel: the first request
      times out, and the second accepts the answer to the first, since the service goes on without looking at
      `usable`. */
  method StaleReply(incoming: Bytes, size: nat, decode: Bytes -> Response, encode: Request -> Bytes)
      returns (code1: int, accepted2: bool, status2: string, s: Service)
    requires size > 0 && size * 2 <= |incoming| && Fixed(encode, REQUEST_SIZE)
    requires var g, r := decode(Record(incoming, size, 0)), decode(Record(incoming, size, 1));
      Accepts(g, READY, g.pid) && g.result == 0 && Accepts(r, STATUS, g.pid)
    ensures code1 == TIMEOUT && s.asked == [StatusRequest(), StatusRequest()]
    ensures accepted2 && status2 == s.Message(1).status && s.socket.consumed == size * 2
  {
    hide TransferOf, Accepts, LateReply, Packed, Fixed;
    RecordNext(size, 0);
    RecordNext(size, 1);
    LateTurns(size, |incoming| - size);
    code1, s := LateFirst(incoming, size, decode, encode);
    FixedAt(encode, StatusRequest(), REQUEST_SIZE);
    var code2: int;
    ghost var stage;
    code2, status2, accepted2, stage := s.Status();
  }

  /** A status request of which only the beginning is sent, over a kernel that is slow to take it. */
  method CutFirst(incoming: Bytes, size: nat, decode: Bytes -> Response, encode: Request -> Bytes)
      returns (code1: int, s: Service)
    requires size > 0 && size * 2 <= |incoming| && Fixed(encode, REQUEST_SIZE)
    requires var g := decode(Record(incoming, size, 0)); Accepts(g, READY, g.pid) && g.result == 0
    ensures fresh(s) && fresh(s.socket) && s.Valid() && s.isOpen && s.pid == decode(Record(incoming, size, 0)).pid
    ensures s.socket.incoming == incoming && s.size == size && s.decode == decode && s.encode == encode
    ensures code1 == TIMEOUT && s.asked == [] && s.socket.sent == encode(StatusRequest())[..BEGINNING]
    ensures |SlowTake(size)| == 5 && s.socket.turns == SlowTake(size)[3..] && s.socket.consumed == size
  {
    hide TransferOf, Accepts, SlowTake, Packed, Fixed, Booked;
    RecordNext(size, 0);
    RecordNext(size, 1);
    SlowTurns(size, |incoming|);
    var socket := new Socket(incoming, SlowTake(size));
    s := new Service(socket, size, decode, encode);
    var code := s.Open();
    assert code == 0 && socket.turns == SlowTake(size)[1..] && socket.consumed == size;
    var status1: string, accepted: bool;
    ghost var stage;
    FixedAt(encode, StatusRequest(), REQUEST_SIZE);
    code1, status1, accepted, stage := s.Status();
  }

  /** Two status requests over that kernel: the first times out, and the second accepts the helper's answer to a
      record that neither of them is: the beginning of the first, header and all, followed by the beginning of the
      second. All that is asked of the layout is that a request's first byte, which belongs to its magic number,
      differs from the one at the cut, which belongs to the URI a status request leaves empty. */
  method CutRequest(incoming: Bytes, size: nat, decode: Bytes -> Response, encode: Request -> Bytes)
      returns (code1: int, accepted2: bool, status2: string, s: Service)
    requires size > 0 && size * 2 <= |incoming| && Fixed(encode, REQUEST_SIZE)
    requires |encode(StatusRequest())| == REQUEST_SIZE
      && encode(StatusRequest())[0] != encode(StatusRequest())[BEGINNING]
    requires var g, r := decode(Record(incoming, size, 0)), decode(Record(incoming, size, 1));
      Accepts(g, READY, g.pid) && g.result == 0 && Accepts(r, STATUS, g.pid)
    ensures code1 == TIMEOUT && s.asked == [StatusRequest()] && accepted2 && status2 == s.Message(1).status
    ensures var e := encode(StatusRequest());
      && s.socket.sent == e[..BEGINNING] + e && |Record(s.socket.sent, REQUEST_SIZE, 0)| == REQUEST_SIZE
      && Record(s.socket.sent, REQUEST_SIZE, 0) != e
      && Record(s.socket.sent, REQUEST_SIZE, 0)[..BEGINNING] == e[..BEGINNING]
  {
    hide TransferOf, Accepts, SlowTake, Packed, Fixed, Booked;
    RecordNext(size, 0);
    RecordNext(size, 1);
    SlowTurns(size, |incoming| - size);
    code1, s := CutFirst(incoming, size, decode, encode);
    ghost var e := encode(StatusRequest());
    FixedAt(encode, StatusRequest(), REQUEST_SIZE);
    var code2: int;
    ghost var stage;
    code2, status2, accepted2, stage := s.Status();
    MixedRecord(e);
  }

  lemma MixedRecord(e: Bytes)
    requires |e| == REQUEST_SIZE && e[0] != e[BEGINNING]
    ensures var r := Record(e[..BEGINNING] + e, REQUEST_SIZE, 0);
      |r| == REQUEST_SIZE && r != e && r[..BEGINNING] == e[..BEGINNING]
  {
    var r := Record(e[..BEGINNING] + e, REQUEST_SIZE, 0);
    assert r[BEGINNING] == e[0];
  }
}
