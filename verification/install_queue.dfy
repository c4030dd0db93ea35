/** The install queue of installer.c: the fixed array and its memmoves (src/installer.c:71-99, 118-127, 2912-2940). */
module InstallQueue {

  const QUEUE_MAX: nat := 16

  /** The ticket numbers the accepted requests; it is not part of the program's state. */
  datatype Entry = Entry(path: string, update: string, ticket: nat)

  predicate Waits(q: seq<Entry>, path: string) { exists i | 0 <= i < |q| :: q[i].path == path }

  lemma WaitsSomewhere(q: seq<Entry>, path: string)
    requires Waits(q, path)
    ensures q != []
  {}

  predicate FirstAt(q: seq<Entry>, path: string, i: nat) {
    i < |q| && q[i].path == path && forall k | 0 <= k < i :: q[k].path != path
  }

  function FirstIndex(q: seq<Entry>, path: string): (i: nat)
    requires Waits(q, path)
    ensures FirstAt(q, path, i)
  {
    if q[0].path == path then 0
    else
      assert Waits(q[1..], path) by { var i :| 0 <= i < |q| && q[i].path == path; assert q[1..][i - 1] == q[i]; }
      1 + FirstIndex(q[1..], path)
  }

  function WithoutAt(q: seq<Entry>, i: nat): seq<Entry>
    requires i < |q|
  {
    q[..i] + q[i + 1..]
  }

  class Queue {
    const slots: array<Entry>
    var len: nat

    constructor ()
      ensures Valid() && fresh(slots) && Contents() == []
    {
      slots := new Entry[QUEUE_MAX](_ => Entry("", "", 0));
      len := 0;
    }

    ghost predicate Valid()
      reads this
    {
      slots.Length == QUEUE_MAX && len <= QUEUE_MAX
    }

    ghost function Contents(): seq<Entry>
      reads this, slots
      requires Valid()
    {
      slots[..len]
    }

    method Find(path: string) returns (i: int)
      requires Valid()
      ensures i >= 0 ==> FirstAt(Contents(), path, i)
      ensures i < 0 ==> !Waits(Contents(), path)
    {
      i := 0;
      while i < len
        invariant 0 <= i <= len && forall k | 0 <= k < i :: slots[k].path != path
      {
        if slots[i].path == path { return; }
        i := i + 1;
      }
      i := -1;
    }

    /** queue_remove_at_locked: the entries behind move up. */
    method RemoveAt(i: int)
      requires Valid()
      modifies this`len, slots
      ensures Valid()
      ensures Contents() == if 0 <= i < old(len) then WithoutAt(old(Contents()), i) else old(Contents())
    {
      if i < 0 || i >= len { return; }
      var k, n := i, len;
      while k < n - 1
        invariant i <= k <= n - 1 && len == n
        invariant forall j | 0 <= j < n :: slots[j] == old(slots[if i <= j < k then j + 1 else j])
      {
        slots[k] := slots[k + 1];
        k := k + 1;
      }
      len := n - 1;
      assert slots[..len] == WithoutAt(old(slots[..len]), i);
    }

    /** installer_queue_remove. */
    method Remove(path: string) returns (code: int)
      requires Valid()
      modifies this`len, slots
      ensures Valid()
      ensures Waits(old(Contents()), path) ==>
        code == 0 && Contents() == WithoutAt(old(Contents()), FirstIndex(old(Contents()), path))
      ensures !Waits(old(Contents()), path) ==> code == -1 && Contents() == old(Contents())
    {
      var i := Find(path);
      RemoveAt(i);
      code := if i >= 0 then 0 else -1;
    }

    /** The locked part of installer_enqueue; `installingPath` is the path in the status record, even when that install
        is over. */
    method Enqueue(e: Entry, installingPath: string) returns (added: bool, full: bool)
      requires Valid()
      modifies this`len, slots
      ensures Valid()
      ensures added <==> !Waits(old(Contents()), e.path) && installingPath != e.path && |old(Contents())| < QUEUE_MAX
      ensures full <==> !Waits(old(Contents()), e.path) && installingPath != e.path && |old(Contents())| >= QUEUE_MAX
      ensures Contents() == if added then old(Contents()) + [e] else old(Contents())
    {
      var i := Find(e.path);
      if i >= 0 || installingPath == e.path { return false, false; }
      if len >= QUEUE_MAX { return false, true; }
      slots[len] := e;
      len := len + 1;
      assert slots[..len] == old(slots[..len]) + [e];
      added, full := true, false;
    }

    /** The locked part of installer_start_next_queued. */
    method Pop(running: bool, installing: bool) returns (next: seq<Entry>)
      requires Valid()
      modifies this`len, slots
      ensures Valid() && old(Contents()) == next + Contents() && |next| <= 1
      ensures next == [] <==> old(Contents()) == [] || !running || installing
    {
      if len == 0 || !running || installing { return []; }
      next := [slots[0]];
      RemoveAt(0);
    }

    /** An entry whose start was refused goes back to the head, if there is room. */
    method PutBack(e: Entry) returns (kept: bool)
      requires Valid()
      modifies this`len, slots
      ensures Valid() && (kept <==> |old(Contents())| < QUEUE_MAX)
      ensures Contents() == if kept then [e] + old(Contents()) else old(Contents())
    {
      kept := len < QUEUE_MAX;
      if kept {
        var k, n := len, len;
        while k > 0
          invariant 0 <= k <= n && len == n
          invariant forall j | 0 <= j <= k :: slots[j] == old(slots[j])
          invariant forall j | k < j <= n :: slots[j] == old(slots[j - 1])
        {
          slots[k] := slots[k - 1];
          k := k - 1;
        }
        slots[0] := e;
        len := len + 1;
        assert slots[..len] == [e] + old(slots[..len]);
      }
    }
  }
}

/** The installer's threads as one transition system. Every transition is one critical section of g_installer_mutex, or
    one thread's own decision between two of them; any thread may run next. */
module QueueHandoff {
  import opened Text
  import opened InstallQueue

  type Tid = nat

  /** On whose behalf a start runs: a request, a live session, the queue, or a finishing worker's own update. */
  datatype Origin = User | Live | Queued(entry: Entry) | Handoff

  datatype PC =
    | Asking(path: string, update: string, origin: Origin)       // before the fast check of installer_start_internal
    | Checked(path: string, update: string, origin: Origin)      // before taking the previous worker's handle
    | Joining(path: string, update: string, origin: Origin, prev: Tid)
    | Preparing(path: string, update: string, origin: Origin)    // parsing, space checks; before the commit
    | Refused(path: string, update: string)                      // answered -2, before installer_enqueue
    | PuttingBack(entry: Entry)                                  // a queued start answered -2
    | Body                                                       // a worker installing
    | Failing                                                    // a worker whose update could not be started
    | AtQueue                                                    // before the lock of installer_start_next_queued

  datatype Fate = Started | Skipped | Removed | Cleared | Dropped

  /** Where an accepted request is. */
  datatype Place = Waiting | InHand(t: Tid) | Gone(fate: Fate)

  /** `carriers` are the workers whose own exit will lower the installing flag: it was raised for them and nobody has
      lowered it since. `workers` are all workers ever created, `place` is where each accepted request is. */
  datatype State = State(
    queue: seq<Entry>, installing: bool, detached: bool, running: bool, path: string, handle: Option<Tid>,
    threads: map<Tid, PC>, carriers: set<Tid>, workers: set<Tid>, nextId: Tid, nextTicket: nat, place: map<nat, Place>)

  datatype Event =
    | Call(path: string, update: string, live: bool)
    | FastCheck(t: Tid)
    | TakeHandle(t: Tid)
    | Joined(t: Tid)
    | GiveUp(t: Tid)                        // missing file, wrong platform, no space, ...
    | Commit(t: Tid, created: bool)
    | Enqueue(t: Tid)
    | Pop(t: Tid)
    | PutBack(t: Tid)
    | Raise(t: Tid)                         // the body keeps the flag up for the queued update
    | LowerInBody(t: Tid)                   // the body reports success or failure
    | HandOff(t: Tid, path: string)         // the body starts the queued update
    | LeaveBody(t: Tid)
    | LowerFailed(t: Tid)                   // the update could not be started
    | Cancel
    | Detach
    | WaitTimedOut                          // the wait for a disc gives the install up
    | Remove(path: string)
    | Stop                                  // installer_shutdown, first step
    | Clear                                 // and its locked step

  predicate IsStart(pc: PC) { pc.Asking? || pc.Checked? || pc.Joining? || pc.Preparing? }

  /** A worker that has yet to come by the queue. */
  predicate Working(pc: PC) { pc.Body? || pc.Failing? || (IsStart(pc) && pc.origin.Handoff?) }

  /** A thread that is certain to look at the queue again, unless it raises the flag. A request on its way is not: it
      may fail without ever touching the queue. */
  predicate OnItsWay(pc: PC) { Working(pc) || pc.AtQueue? || (IsStart(pc) && pc.origin.Queued?) }

  predicate At(st: State, t: Tid) { t in st.threads }

  predicate Enabled(st: State, e: Event) {
    match e
    case Call(_, _, _) => true
    case FastCheck(t) => At(st, t) && st.threads[t].Asking?
    case TakeHandle(t) => At(st, t) && st.threads[t].Checked?
    case Joined(t) => At(st, t) && st.threads[t].Joining? && st.threads[t].prev !in st.threads
    case GiveUp(t) => At(st, t) && st.threads[t].Preparing?
    case Commit(t, _) => At(st, t) && st.threads[t].Preparing?
    case Enqueue(t) => At(st, t) && st.threads[t].Refused?
    case Pop(t) => At(st, t) && st.threads[t].AtQueue?
    case PutBack(t) => At(st, t) && st.threads[t].PuttingBack?
    case Raise(t) => At(st, t) && st.threads[t].Body? && !st.detached
    case LowerInBody(t) => At(st, t) && st.threads[t].Body?
    case HandOff(t, _) => At(st, t) && st.threads[t].Body? && st.running && !st.detached
    case LeaveBody(t) => At(st, t) && st.threads[t].Body? && (t !in st.carriers || !st.running)
    case LowerFailed(t) => At(st, t) && st.threads[t].Failing?
    case Cancel => st.installing
    case Detach => st.installing
    case WaitTimedOut => true
    case Remove(path) => Waits(st.queue, path)
    case Stop => true
    case Clear => !st.running
  }

  function Move(st: State, t: Tid, pc: PC): State { st.(threads := st.threads[t := pc]) }

  function End(st: State, t: Tid): State { st.(threads := st.threads - {t}) }

  function Lower(st: State): State { st.(installing := false, carriers := {}) }

  function Put(st: State, ticket: nat, place: Place): State { st.(place := st.place[ticket := place]) }

  /** The start was answered -2. */
  function Refuse(st: State, t: Tid, path: string, update: string, origin: Origin): State {
    match origin
    case User => Move(st, t, Refused(path, update))
    case Live => End(st, t)
    case Queued(entry) => Move(st, t, PuttingBack(entry))
    case Handoff => Move(st, t, Failing)
  }

  /** The start failed for good. */
  function Fail(st: State, t: Tid, origin: Origin): State {
    match origin
    case User => End(st, t)
    case Live => End(st, t)
    case Queued(entry) => Move(Put(st, entry.ticket, Gone(Skipped)), t, AtQueue)
    case Handoff => Move(st, t, Failing)
  }

  /** The start succeeded: a new worker carries the flag. */
  function Launch(st: State, t: Tid, path: string, origin: Origin): State {
    var w := st.nextId;
    var up := st.(installing := true, path := path, handle := Some(w), nextId := w + 1, workers := st.workers + {w},
                  carriers := st.carriers - {t} + {w}, threads := st.threads[w := Body]);
    match origin
    case User => End(up, t)
    case Live => End(up, t)
    case Queued(entry) => End(Put(up, entry.ticket, Gone(Started)), t)
    case Handoff => Move(up, t, AtQueue)
  }

  /** Both checks of installer_start_internal: a handoff is given up after a detach, any other start while something
      is installing. */
  function Gate(st: State, t: Tid, path: string, update: string, origin: Origin): Option<State> {
    if origin.Handoff? && st.detached then Some(Move(st, t, AtQueue))
    else if st.installing && !origin.Handoff? then Some(Refuse(st, t, path, update, origin))
    else None
  }

  function CommitStep(st: State, t: Tid, created: bool): State
    requires At(st, t) && st.threads[t].Preparing?
  {
    var pc := st.threads[t];
    var refused := Gate(st, t, pc.path, pc.update, pc.origin);
    if refused.Some? then refused.value
    else if created then Launch(st.(detached := false), t, pc.path, pc.origin)
    else Fail(Lower(st.(detached := false, path := pc.path)), t, pc.origin)
  }

  function EnqueueStep(st: State, t: Tid): State
    requires At(st, t) && st.threads[t].Refused?
  {
    var pc := st.threads[t];
    if Waits(st.queue, pc.path) || st.path == pc.path || |st.queue| >= QUEUE_MAX then End(st, t)
    else
      var added := Put(st, st.nextTicket, Waiting).(
        queue := st.queue + [Entry(pc.path, pc.update, st.nextTicket)], nextTicket := st.nextTicket + 1);
      if st.installing then End(added, t) else Move(added, t, AtQueue)
  }

  function PopStep(st: State, t: Tid): State {
    if st.queue == [] || !st.running || st.installing then End(st, t)
    else
      var next := st.queue[0];
      Move(Put(st, next.ticket, InHand(t)).(queue := st.queue[1..]), t, Asking(next.path, next.update, Queued(next)))
  }

  function PutBackStep(st: State, t: Tid): State
    requires At(st, t) && st.threads[t].PuttingBack?
  {
    var entry := st.threads[t].entry;
    if |st.queue| < QUEUE_MAX then End(Put(st, entry.ticket, Waiting).(queue := [entry] + st.queue), t)
    else End(Put(st, entry.ticket, Gone(Dropped)), t)
  }

  function TakeStep(st: State, t: Tid): State
    requires At(st, t) && st.threads[t].Checked?
  {
    var pc := st.threads[t];
    var taken := st.(handle := None);
    if st.handle.Some? && st.handle.value != t
    then Move(taken, t, Joining(pc.path, pc.update, pc.origin, st.handle.value))
    else Move(taken, t, Preparing(pc.path, pc.update, pc.origin))
  }

  function RemoveStep(st: State, path: string): State
    requires Waits(st.queue, path)
  {
    var i := FirstIndex(st.queue, path);
    Put(st, st.queue[i].ticket, Gone(Removed)).(queue := WithoutAt(st.queue, i))
  }

  function ClearStep(st: State): State {
    var waiting := set i | 0 <= i < |st.queue| :: st.queue[i].ticket;
    st.(queue := [], place := st.place + map k | k in waiting :: Gone(Cleared))
  }

  function Next(st: State, e: Event): State
    requires Enabled(st, e)
  {
    match e
    case Call(path, update, live) =>
      Move(st, st.nextId, Asking(path, update, if live then Live else User)).(nextId := st.nextId + 1)
    case FastCheck(t) =>
      var pc := st.threads[t];
      var refused := Gate(st, t, pc.path, pc.update, pc.origin);
      if refused.Some? then refused.value else Move(st, t, Checked(pc.path, pc.update, pc.origin))
    case TakeHandle(t) => TakeStep(st, t)
    case Joined(t) => Move(st, t, Preparing(st.threads[t].path, st.threads[t].update, st.threads[t].origin))
    case GiveUp(t) => Fail(st, t, st.threads[t].origin)
    case Commit(t, created) => CommitStep(st, t, created)
    case Enqueue(t) => EnqueueStep(st, t)
    case Pop(t) => PopStep(st, t)
    case PutBack(t) => PutBackStep(st, t)
    case Raise(t) => st.(installing := true, carriers := st.carriers + {t})
    case LowerInBody(t) => Lower(st)
    case HandOff(t, path) => Move(st, t, Asking(path, "", Handoff))
    case LeaveBody(t) => Move(st, t, AtQueue).(carriers := st.carriers - {t})
    case LowerFailed(t) => Move(Lower(st), t, AtQueue)
    case Cancel => Lower(st)
    case Detach => Lower(st).(detached := true)
    case WaitTimedOut => Lower(st)
    case Remove(path) => RemoveStep(st, path)
    case Stop => st.(running := false)
    case Clear => ClearStep(st)
  }

  const Boot: State := State([], false, false, true, "", None, map[], {}, {}, 0, 0, map[])

  ghost predicate IsRun(states: seq<State>, events: seq<Event>) {
    && |states| == |events| + 1 && states[0] == Boot
    && forall k | 0 <= k < |events| :: Enabled(states[k], events[k]) && states[k + 1] == Next(states[k], events[k])
  }

  // ---------------------------------------------------------------- nobody is stranded

  ghost predicate Ids(st: State) {
    (forall t | t in st.threads :: t < st.nextId) && (forall t | t in st.workers :: t < st.nextId)
  }

  /** While something installs, a worker is there to lower the flag. */
  ghost predicate Carried(st: State) {
    && (forall t | t in st.carriers :: t in st.threads && Working(st.threads[t]))
    && (st.installing && st.running ==> st.carriers != {})
    && (!st.installing || st.detached ==> st.carriers == {})
  }

  ghost predicate Somebody(st: State) { exists t | t in st.threads :: OnItsWay(st.threads[t]) }

  /** While the daemon runs, waiting packages imply an install in progress, or a thread on its way to the queue. */
  ghost predicate NotStranded(st: State) { st.running && st.queue != [] && !st.installing ==> Somebody(st) }

  /** The one step that can strand a package: an entry is put back after the install that refused it has come and
      gone. */
  ghost predicate Strands(st: State, e: Event) {
    e.PutBack? && st.running && !st.installing && |st.queue| < QUEUE_MAX && !Somebody(st)
  }

  lemma CommitKeeps(st: State, t: Tid, created: bool)
    requires Ids(st) && Carried(st) && At(st, t) && st.threads[t].Preparing?
    ensures Ids(CommitStep(st, t, created)) && Carried(CommitStep(st, t, created))
  {
    hide Gate, Fail, Launch;
    var pc := st.threads[t];
    RefuseKeeps(st, t, pc.path, pc.update, pc.origin);
    if Gate(st, t, pc.path, pc.update, pc.origin).None? {
      LaunchKeeps(st.(detached := false), t, pc.path, pc.origin);
      FailKeeps(Lower(st.(detached := false, path := pc.path)), t, pc.origin);
    }
  }

  lemma LaunchKeeps(st: State, t: Tid, path: string, origin: Origin)
    requires Ids(st) && !st.detached && At(st, t)
    requires forall u | u in st.carriers :: u in st.threads && Working(st.threads[u])
    ensures Ids(Launch(st, t, path, origin)) && Carried(Launch(st, t, path, origin))
  {
    assert st.nextId in Launch(st, t, path, origin).carriers;
  }

  lemma RefuseKeeps(st: State, t: Tid, path: string, update: string, origin: Origin)
    requires Ids(st) && Carried(st) && At(st, t) && IsStart(st.threads[t]) && st.threads[t].origin == origin
    ensures var r := Gate(st, t, path, update, origin);
      r.Some? ==> Ids(r.value) && Carried(r.value)
  {}

  lemma FailKeeps(st: State, t: Tid, origin: Origin)
    requires Ids(st) && Carried(st) && At(st, t) && IsStart(st.threads[t]) && st.threads[t].origin == origin
    ensures Ids(Fail(st, t, origin)) && Carried(Fail(st, t, origin))
  {}

  predicate IsStartEvent(e: Event) { e.FastCheck? || e.TakeHandle? || e.Joined? || e.GiveUp? || e.Commit? }

  predicate IsQueueEvent(e: Event) { e.Enqueue? || e.Pop? || e.PutBack? || e.Remove? || e.Clear? }

  lemma StartStepKeeps(st: State, e: Event)
    requires Ids(st) && Carried(st) && Enabled(st, e) && IsStartEvent(e)
    ensures Ids(Next(st, e)) && Carried(Next(st, e))
  {
    hide OnItsWay, CommitStep, Fail, Gate;
    match e
    case Commit(t, created) => CommitKeeps(st, t, created);
    case FastCheck(t) => RefuseKeeps(st, t, st.threads[t].path, st.threads[t].update, st.threads[t].origin);
    case GiveUp(t) => FailKeeps(st, t, st.threads[t].origin);
    case _ =>
  }

  lemma EnqueueKeeps(st: State, t: Tid)
    requires Ids(st) && Carried(st) && At(st, t) && st.threads[t].Refused?
    ensures Ids(EnqueueStep(st, t)) && Carried(EnqueueStep(st, t))
  {
    hide Waits, OnItsWay;
  }

  lemma QueueStepKeeps(st: State, e: Event)
    requires Ids(st) && Carried(st) && Enabled(st, e) && IsQueueEvent(e)
    ensures Ids(Next(st, e)) && Carried(Next(st, e))
  {
    hide Waits, FirstIndex, FirstAt, WithoutAt, OnItsWay, EnqueueStep;
    if e.Enqueue? { EnqueueKeeps(st, e.t); }
  }

  lemma StepKeeps(st: State, e: Event)
    requires Ids(st) && Carried(st) && Enabled(st, e)
    ensures Ids(Next(st, e)) && Carried(Next(st, e))
  {
    hide CommitStep, TakeStep, Fail, Gate, EnqueueStep, PopStep, PutBackStep, RemoveStep, ClearStep, OnItsWay;
    if IsStartEvent(e) {
      StartStepKeeps(st, e);
    } else if IsQueueEvent(e) {
      QueueStepKeeps(st, e);
    }
  }

  lemma OneIsEnough(st: State, t: Tid)
    ensures t in st.threads && OnItsWay(st.threads[t]) ==> Somebody(st)
  {}

  lemma CarrierOnItsWay(st: State, c: Tid)
    requires Carried(st) && c in st.carriers
    ensures c in st.threads && OnItsWay(st.threads[c])
  {}

  /** The thread a step belongs to, if any. */
  predicate Actor(e: Event, t: Tid) {
    !e.Call? && !e.Cancel? && !e.Detach? && !e.WaitTimedOut? && !e.Remove? && !e.Stop? && !e.Clear? && e.t == t
  }

  predicate Stays(st: State, st2: State, w: Tid) {
    w in st.threads && w in st2.threads && st2.threads[w] == st.threads[w]
  }

  lemma RefusedOthersStay(st: State, t: Tid, path: string, update: string, origin: Origin, w: Tid)
    requires w in st.threads && w != t
    ensures Gate(st, t, path, update, origin).Some? ==> Stays(st, Gate(st, t, path, update, origin).value, w)
    ensures Stays(st, Fail(st, t, origin), w)
    ensures w != st.nextId ==> Stays(st, Launch(st, t, path, origin), w)
  {}

  lemma CommitOthersStay(st: State, t: Tid, created: bool, w: Tid)
    requires Ids(st) && At(st, t) && st.threads[t].Preparing? && w in st.threads && w != t
    ensures Stays(st, CommitStep(st, t, created), w)
  {
    hide Gate, Fail, Launch, Ids;
    Known(st, w);
    var pc := st.threads[t];
    RefusedOthersStay(st, t, pc.path, pc.update, pc.origin, w);
    RefusedOthersStay(st.(detached := false), t, pc.path, pc.update, pc.origin, w);
    RefusedOthersStay(Lower(st.(detached := false, path := pc.path)), t, pc.path, pc.update, pc.origin, w);
  }

  lemma Known(st: State, w: Tid)
    requires Ids(st) && w in st.threads
    ensures w < st.nextId
  {}

  lemma StartOthersStay(st: State, e: Event, w: Tid)
    requires Ids(st) && Enabled(st, e) && w in st.threads && !Actor(e, w) && IsStartEvent(e)
    ensures Stays(st, Next(st, e), w)
  {
    hide Ids, Gate, Fail, CommitStep;
    var pc := st.threads[e.t];
    if e.Commit? {
      CommitOthersStay(st, e.t, e.created, w);
    } else {
      RefusedOthersStay(st, e.t, pc.path, pc.update, pc.origin, w);
    }
  }

  /** Another thread than the actor stays where it is. */
  lemma OthersStay(st: State, e: Event, w: Tid)
    requires Ids(st) && Enabled(st, e) && w in st.threads && !Actor(e, w)
    ensures Stays(st, Next(st, e), w)
  {
    hide Waits, FirstIndex, FirstAt, WithoutAt, OnItsWay, Working, CommitStep, Gate, Fail;
    if IsStartEvent(e) { StartOthersStay(st, e, w); }
  }

  /** The step of a thread that is on its way either keeps it so, or leaves nothing waiting or something installing. */
  lemma ActorStep(st: State, e: Event, t: Tid)
    requires Ids(st) && Enabled(st, e) && Actor(e, t) && OnItsWay(st.threads[t])
    ensures NotStranded(Next(st, e)) && !Strands(st, e)
  {
    hide Waits, FirstIndex, FirstAt, WithoutAt;
    OneIsEnough(Next(st, e), t);
  }

  /** A thread that puts an entry back leaves nobody behind who was not there before. */
  lemma PutBackAlone(st: State, t: Tid)
    requires At(st, t) && st.threads[t].PuttingBack? && NotStranded(st) && !Somebody(st)
      && (st.running ==> !st.installing)
    ensures NotStranded(PutBackStep(st, t)) <==> !Strands(st, PutBack(t))
  {
    hide OnItsWay;
    var st2 := PutBackStep(st, t);
    assert forall u | u in st2.threads :: u in st.threads && st2.threads[u] == st.threads[u];
  }

  /** Without anybody on the way, only an entry put back can be stranded. */
  lemma NobodyStep(st: State, e: Event)
    requires Enabled(st, e) && NotStranded(st) && !Somebody(st) && (st.running ==> !st.installing)
    ensures NotStranded(Next(st, e)) <==> !Strands(st, e)
  {
    hide Waits, FirstIndex, FirstAt, WithoutAt, PutBackStep;
    match e
    case Enqueue(t) => OneIsEnough(Next(st, e), t);
    case PutBack(t) => PutBackAlone(st, t);
    case LeaveBody(t) => OneIsEnough(st, t);
    case LowerInBody(t) => OneIsEnough(st, t);
    case LowerFailed(t) => OneIsEnough(st, t);
    case Pop(t) => OneIsEnough(st, t);
    case Remove(path) => WaitsSomewhere(st.queue, path);
    case _ =>
  }

  /** A step strands a waiting package exactly when it puts an entry back after the install that refused it has come and
      gone. */
  lemma StrandedExactly(st: State, e: Event)
    requires Ids(st) && Carried(st) && NotStranded(st) && Enabled(st, e)
    ensures NotStranded(Next(st, e)) <==> !Strands(st, e)
  {
    hide Waits, FirstIndex, FirstAt, WithoutAt, Next, OnItsWay, Enabled;
    if st.running && st.installing {
      var c :| c in st.carriers;
      OneIsEnough(st, c); CarrierOnItsWay(st, c);
    }
    if Somebody(st) {
      var w :| w in st.threads && OnItsWay(st.threads[w]);
      if Actor(e, w) {
        ActorStep(st, e, w);
      } else {
        OthersStay(st, e, w);
      }
    } else {
      NobodyStep(st, e);
    }
  }

  // ---------------------------------------------------------------- no request is lost or doubled

  function Held(pc: PC): Option<Entry> {
    match pc
    case PuttingBack(entry) => Some(entry)
    case Asking(_, _, Queued(entry)) => Some(entry)
    case Checked(_, _, Queued(entry)) => Some(entry)
    case Joining(_, _, Queued(entry), _) => Some(entry)
    case Preparing(_, _, Queued(entry)) => Some(entry)
    case _ => None
  }

  /** The waiting requests are those in the queue, each once. */
  ghost predicate QueueBooked(q: seq<Entry>, place: map<nat, Place>) {
    && (forall i | 0 <= i < |q| :: q[i].ticket in place && place[q[i].ticket].Waiting?)
    && (forall i, j | 0 <= i < j < |q| :: q[i].ticket != q[j].ticket)
    && (forall k | k in place && place[k].Waiting? :: exists i | 0 <= i < |q| :: q[i].ticket == k)
  }

  predicate Holds(threads: map<Tid, PC>, t: Tid, k: nat) {
    t in threads && Held(threads[t]).Some? && Held(threads[t]).value.ticket == k
  }

  /** The requests in hand are those the threads hold, each by one thread. */
  ghost predicate HandsBooked(threads: map<Tid, PC>, place: map<nat, Place>) {
    && (forall t: Tid, k: nat | Holds(threads, t, k) :: k in place && place[k] == InHand(t))
    && (forall k | k in place && place[k].InHand? :: Holds(threads, place[k].t, k))
  }

  /** The books agree with the queue and with the threads: each accepted request is waiting at one place of the queue,
      or in one thread's hands, or gone. */
  ghost predicate Placed(st: State) {
    && (forall k: nat :: k in st.place <==> k < st.nextTicket)
    && QueueBooked(st.queue, st.place) && HandsBooked(st.threads, st.place)
  }

  lemma TakenOut(q: seq<Entry>, place: map<nat, Place>, n: nat, p: Place)
    requires QueueBooked(q, place) && n < |q| && !p.Waiting?
    ensures QueueBooked(WithoutAt(q, n), place[q[n].ticket := p])
  {
    var q2, place2 := WithoutAt(q, n), place[q[n].ticket := p];
    forall k | k in place2 && place2[k].Waiting? ensures exists i | 0 <= i < |q2| :: q2[i].ticket == k {
      var i :| 0 <= i < |q| && q[i].ticket == k;
      assert q2[if i < n then i else i - 1] == q[i];
    }
  }

  lemma PutLast(q: seq<Entry>, place: map<nat, Place>, e: Entry)
    requires QueueBooked(q, place) && (e.ticket in place ==> !place[e.ticket].Waiting?)
    ensures QueueBooked(q + [e], place[e.ticket := Waiting])
  {
    var q2, place2 := q + [e], place[e.ticket := Waiting];
    forall k | k in place2 && place2[k].Waiting? ensures exists i | 0 <= i < |q2| :: q2[i].ticket == k {
      assert q2[|q|] == e;
      if k != e.ticket {
        var i :| 0 <= i < |q| && q[i].ticket == k;
        assert q2[i] == q[i];
      }
    }
  }

  lemma PutFirst(q: seq<Entry>, place: map<nat, Place>, e: Entry)
    requires QueueBooked(q, place) && (e.ticket in place ==> !place[e.ticket].Waiting?)
    ensures QueueBooked([e] + q, place[e.ticket := Waiting])
  {
    var q2, place2 := [e] + q, place[e.ticket := Waiting];
    forall k | k in place2 && place2[k].Waiting? ensures exists i | 0 <= i < |q2| :: q2[i].ticket == k {
      assert q2[0] == e;
      if k != e.ticket {
        var i :| 0 <= i < |q| && q[i].ticket == k;
        assert q2[i + 1] == q[i];
      }
    }
  }

  lemma NotInQueue(q: seq<Entry>, place: map<nat, Place>, k: nat, p: Place)
    requires QueueBooked(q, place) && k in place && !place[k].Waiting? && !p.Waiting?
    ensures QueueBooked(q, place[k := p])
  {}

  /** A thread goes on with what it held, or lets go of it, or picks it up. */
  lemma HandMoved(threads: map<Tid, PC>, place: map<nat, Place>, t: Tid, pc: PC, k: nat, p: Place)
    requires HandsBooked(threads, place)
    requires t in threads && Held(threads[t]).Some? ==> k == Held(threads[t]).value.ticket
    requires k in place && place[k].InHand? ==> place[k] == InHand(t)
    requires if Held(pc).Some? then Held(pc).value.ticket == k && p == InHand(t) else !p.InHand?
    ensures HandsBooked(threads[t := pc], place[k := p])
  {
    var threads2 := threads[t := pc];
    assert forall u, j: nat | u != t :: Holds(threads2, u, j) <==> Holds(threads, u, j);
    assert forall j: nat :: Holds(threads, t, j) ==> j == k;
  }

  lemma HandEmpty(threads: map<Tid, PC>, place: map<nat, Place>, t: Tid, pc: PC)
    requires HandsBooked(threads, place) && Held(pc) == if t in threads then Held(threads[t]) else None
    ensures HandsBooked(threads[t := pc], place)
  {
    var threads2 := threads[t := pc];
    assert forall u, j: nat | u != t :: Holds(threads2, u, j) <==> Holds(threads, u, j);
    assert forall j: nat :: Holds(threads2, t, j) <==> Holds(threads, t, j);
  }

  lemma HandGone(threads: map<Tid, PC>, place: map<nat, Place>, t: Tid)
    requires HandsBooked(threads, place) && t in threads && Held(threads[t]).None?
    ensures HandsBooked(threads - {t}, place)
  {
    assert forall u, k: nat :: Holds(threads - {t}, u, k) <==> Holds(threads, u, k);
  }

  lemma HandLeft(threads: map<Tid, PC>, place: map<nat, Place>, t: Tid, p: Place)
    requires HandsBooked(threads, place) && t in threads && Held(threads[t]).Some? && !p.InHand?
    ensures HandsBooked(threads - {t}, place[Held(threads[t]).value.ticket := p])
  {
    var k0 := Held(threads[t]).value.ticket;
    assert Holds(threads, t, k0);
    assert forall u, k: nat | u != t :: Holds(threads - {t}, u, k) <==> Holds(threads, u, k);
  }

  lemma FailPlaced(st: State, t: Tid, origin: Origin)
    requires Placed(st) && At(st, t) && IsStart(st.threads[t]) && st.threads[t].origin == origin
    ensures Placed(Fail(st, t, origin))
  {
    hide QueueBooked, HandsBooked;
    match origin
    case User => HandGone(st.threads, st.place, t);
    case Live => HandGone(st.threads, st.place, t);
    case Handoff => HandEmpty(st.threads, st.place, t, Failing);
    case Queued(entry) =>
      assert Holds(st.threads, t, entry.ticket);
      InHandBooked(st, t, entry.ticket);
      HandMoved(st.threads, st.place, t, AtQueue, entry.ticket, Gone(Skipped));
      NotInQueue(st.queue, st.place, entry.ticket, Gone(Skipped));
  }

  lemma InHandBooked(st: State, t: Tid, k: nat)
    requires Placed(st) && Holds(st.threads, t, k)
    ensures k in st.place && st.place[k] == InHand(t)
  {}

  lemma LaunchPlaced(st: State, t: Tid, path: string, origin: Origin)
    requires Ids(st) && Placed(st) && At(st, t) && IsStart(st.threads[t]) && st.threads[t].origin == origin
    ensures Placed(Launch(st, t, path, origin))
  {
    hide QueueBooked, HandsBooked;
    HandEmpty(st.threads, st.place, st.nextId, Body);
    var threads := st.threads[st.nextId := Body];
    match origin
    case User => HandGone(threads, st.place, t);
    case Live => HandGone(threads, st.place, t);
    case Handoff => HandEmpty(threads, st.place, t, AtQueue);
    case Queued(entry) =>
      assert Holds(st.threads, t, entry.ticket);
      InHandBooked(st, t, entry.ticket);
      HandLeft(threads, st.place, t, Gone(Started));
      NotInQueue(st.queue, st.place, entry.ticket, Gone(Started));
  }

  lemma RefusePlaced(st: State, t: Tid, path: string, update: string, origin: Origin)
    requires Placed(st) && At(st, t) && IsStart(st.threads[t]) && st.threads[t].origin == origin
    ensures Gate(st, t, path, update, origin).Some? ==> Placed(Gate(st, t, path, update, origin).value)
  {
    hide QueueBooked, HandsBooked;
    HandEmpty(st.threads, st.place, t, st.threads[t]);
    match origin
    case User => HandEmpty(st.threads, st.place, t, Refused(path, update));
    case Live => HandGone(st.threads, st.place, t);
    case Handoff => HandEmpty(st.threads, st.place, t, AtQueue);
    case Queued(entry) => HandEmpty(st.threads, st.place, t, PuttingBack(entry));
  }

  lemma StartStepPlaced(st: State, e: Event)
    requires Ids(st) && Placed(st) && Enabled(st, e) && IsStartEvent(e)
    ensures Placed(Next(st, e))
  {
    hide QueueBooked, HandsBooked, Gate, Fail, Launch;
    var t, pc := e.t, st.threads[e.t];
    match e
    case Commit(_, created) =>
      RefusePlaced(st, t, pc.path, pc.update, pc.origin);
      if Gate(st, t, pc.path, pc.update, pc.origin).None? {
        LaunchPlaced(st.(detached := false), t, pc.path, pc.origin);
        FailPlaced(Lower(st.(detached := false, path := pc.path)), t, pc.origin);
      }
    case FastCheck(_) =>
      RefusePlaced(st, t, pc.path, pc.update, pc.origin);
      HandEmpty(st.threads, st.place, t, Checked(pc.path, pc.update, pc.origin));
    case GiveUp(_) => FailPlaced(st, t, pc.origin);
    case TakeHandle(_) =>
      HandEmpty(st.threads, st.place, t, TakeStep(st, t).threads[t]);
    case Joined(_) => HandEmpty(st.threads, st.place, t, Preparing(pc.path, pc.update, pc.origin));
  }

  lemma EnqueuePlaced(st: State, t: Tid)
    requires Placed(st) && At(st, t) && st.threads[t].Refused?
    ensures Placed(EnqueueStep(st, t))
  {
    hide QueueBooked, HandsBooked, Waits;
    PutLast(st.queue, st.place, Entry(st.threads[t].path, st.threads[t].update, st.nextTicket));
    NewTicket(st);
    HandGone(st.threads, st.place, t);
    HandGone(st.threads, st.place[st.nextTicket := Waiting], t);
    HandEmpty(st.threads, st.place[st.nextTicket := Waiting], t, AtQueue);
  }

  lemma PopPlaced(st: State, t: Tid)
    requires Placed(st) && At(st, t) && st.threads[t].AtQueue?
    ensures Placed(PopStep(st, t))
  {
    hide QueueBooked, HandsBooked;
    HandGone(st.threads, st.place, t);
    if st.queue != [] {
      var next := st.queue[0];
      TakenOut(st.queue, st.place, 0, InHand(t));
      assert WithoutAt(st.queue, 0) == st.queue[1..];
      AtHead(st);
      HandMoved(st.threads, st.place, t, Asking(next.path, next.update, Queued(next)), next.ticket, InHand(t));
    }
  }

  lemma PutBackPlaced(st: State, t: Tid)
    requires Placed(st) && At(st, t) && st.threads[t].PuttingBack?
    ensures Placed(PutBackStep(st, t))
  {
    hide QueueBooked, HandsBooked;
    var entry := st.threads[t].entry;
    assert Holds(st.threads, t, entry.ticket);
    InHandBooked(st, t, entry.ticket);
    PutFirst(st.queue, st.place, entry);
    NotInQueue(st.queue, st.place, entry.ticket, Gone(Dropped));
    HandLeft(st.threads, st.place, t, Waiting);
    HandLeft(st.threads, st.place, t, Gone(Dropped));
  }

  lemma RemovePlaced(st: State, path: string)
    requires Placed(st) && Waits(st.queue, path)
    ensures Placed(RemoveStep(st, path))
  {
    hide QueueBooked, HandsBooked, WithoutAt;
    TakenOut(st.queue, st.place, FirstIndex(st.queue, path), Gone(Removed));
    QueueOnly(st, FirstIndex(st.queue, path), Gone(Removed));
  }

  lemma QueueStepPlaced(st: State, e: Event)
    requires Placed(st) && Enabled(st, e) && IsQueueEvent(e)
    ensures Placed(Next(st, e))
  {
    hide Placed, Waits, EnqueueStep, PopStep, PutBackStep, RemoveStep, ClearStep;
    match e
    case Enqueue(t) => EnqueuePlaced(st, t);
    case Pop(t) => PopPlaced(st, t);
    case PutBack(t) => PutBackPlaced(st, t);
    case Remove(path) => RemovePlaced(st, path);
    case Clear => AllCleared(st);
  }

  lemma NewTicket(st: State)
    requires Placed(st)
    ensures HandsBooked(st.threads, st.place[st.nextTicket := Waiting])
  {}

  lemma AtHead(st: State)
    requires Placed(st) && st.queue != []
    ensures st.queue[0].ticket in st.place && st.place[st.queue[0].ticket].Waiting?
  {}

  lemma QueueOnly(st: State, n: nat, p: Place)
    requires Placed(st) && n < |st.queue| && !p.InHand?
    ensures HandsBooked(st.threads, st.place[st.queue[n].ticket := p])
    ensures st.queue[n].ticket in st.place
  {}

  lemma AllCleared(st: State)
    requires Placed(st)
    ensures Placed(ClearStep(st))
  {}

  lemma PlacedKept(st: State, e: Event)
    requires Ids(st) && Placed(st) && Enabled(st, e)
    ensures Placed(Next(st, e))
  {
    hide QueueBooked, HandsBooked, Waits, FirstIndex, CommitStep, TakeStep, Fail, Gate;
    hide EnqueueStep, PopStep, PutBackStep, RemoveStep, ClearStep;
    if IsStartEvent(e) {
      StartStepPlaced(st, e);
    } else if IsQueueEvent(e) {
      QueueStepPlaced(st, e);
    } else {
      match e
      case Call(path, update, live) =>
        HandEmpty(st.threads, st.place, st.nextId, Asking(path, update, if live then Live else User));
      case HandOff(t, path) => HandEmpty(st.threads, st.place, t, Asking(path, "", Handoff));
      case LeaveBody(t) => HandEmpty(st.threads, st.place, t, AtQueue);
      case LowerFailed(t) => HandEmpty(st.threads, st.place, t, AtQueue);
      case _ =>
    }
  }

  /** What a start leaves alone. */
  ghost predicate SameBut(st: State, st2: State, origin: Origin) {
    && st2.queue == st.queue
    && forall k | k in st.place && !(origin.Queued? && k == origin.entry.ticket) ::
         k in st2.place && st2.place[k] == st.place[k]
  }

  lemma StartFrame(st: State, t: Tid, path: string, update: string, origin: Origin)
    ensures Gate(st, t, path, update, origin).Some? ==> SameBut(st, Gate(st, t, path, update, origin).value, origin)
    ensures SameBut(st, Fail(st, t, origin), origin) && SameBut(st, Launch(st, t, path, origin), origin)
  {}

  /** A thread's start changes neither the queue nor the place of any request but the one it holds. */
  lemma StartTouches(st: State, e: Event)
    requires Enabled(st, e) && IsStartEvent(e)
    ensures SameBut(st, Next(st, e), st.threads[e.t].origin)
  {
    hide Gate, Fail, Launch;
    var t, pc := e.t, st.threads[e.t];
    StartFrame(st, t, pc.path, pc.update, pc.origin);
    StartFrame(st.(detached := false), t, pc.path, pc.update, pc.origin);
    StartFrame(Lower(st.(detached := false, path := pc.path)), t, pc.path, pc.update, pc.origin);
  }

  /** Only the five queue events change the queue. */
  lemma QueueAlone(st: State, e: Event)
    requires Enabled(st, e) && !IsQueueEvent(e)
    ensures Next(st, e).queue == st.queue
  {
    hide CommitStep, TakeStep, Fail, Gate, EnqueueStep, PopStep, PutBackStep, RemoveStep, ClearStep, Waits;
    if IsStartEvent(e) { StartTouches(st, e); }
  }

  lemma GoneAside(st: State, k: nat)
    requires Placed(st) && k in st.place && st.place[k].Gone?
    ensures k < st.nextTicket && (forall i | 0 <= i < |st.queue| :: st.queue[i].ticket != k)
    ensures forall t | t in st.threads && st.threads[t].PuttingBack? :: st.threads[t].entry.ticket != k
  {
    forall t | t in st.threads && st.threads[t].PuttingBack? ensures st.threads[t].entry.ticket != k {
      assert Holds(st.threads, t, st.threads[t].entry.ticket);
    }
  }

  lemma QueueTouches(st: State, e: Event, k: nat)
    requires Placed(st) && Enabled(st, e) && IsQueueEvent(e) && k in st.place && st.place[k].Gone?
    ensures k in Next(st, e).place && Next(st, e).place[k] == st.place[k]
  {
    hide Placed, Waits, WithoutAt;
    GoneAside(st, k);
  }

  /** What became of a request is never taken back. */
  lemma GoneForGood(st: State, e: Event, k: nat)
    requires Placed(st) && Enabled(st, e) && k in st.place && st.place[k].Gone?
    ensures k in Next(st, e).place && Next(st, e).place[k] == st.place[k]
  {
    hide QueueBooked, Waits, FirstIndex, CommitStep, TakeStep, Fail, Gate, EnqueueStep, PopStep, PutBackStep,
      RemoveStep;
    hide ClearStep;
    if IsStartEvent(e) {
      StartTouches(st, e);
      assert !Holds(st.threads, e.t, k);
    } else if IsQueueEvent(e) {
      QueueTouches(st, e, k);
    }
  }

  // ---------------------------------------------------------------- order, bounds, and joins

  ghost predicate InOrder(q: seq<Entry>) { forall i, j | 0 <= i < j < |q| :: q[i].ticket < q[j].ticket }

  ghost predicate DistinctPaths(q: seq<Entry>) { forall i, j | 0 <= i < j < |q| :: q[i].path != q[j].path }

  lemma WithoutKeeps(q: seq<Entry>, n: nat)
    requires n < |q|
    ensures InOrder(q) ==> InOrder(WithoutAt(q, n))
    ensures DistinctPaths(q) ==> DistinctPaths(WithoutAt(q, n))
  {
    var q2 := WithoutAt(q, n);
    assert forall i | 0 <= i < |q2| :: q2[i] == q[if i < n then i else i + 1];
  }

  lemma PutFirstKeeps(q: seq<Entry>, e: Entry)
    ensures InOrder(q) ==> (InOrder([e] + q) <==> (q != [] ==> e.ticket < q[0].ticket))
    ensures DistinctPaths(q) ==> (DistinctPaths([e] + q) <==> !Waits(q, e.path))
  {
    hide InOrder, DistinctPaths;
    FirstInOrder(q, e);
    FirstDistinct(q, e);
  }

  lemma FirstInOrder(q: seq<Entry>, e: Entry)
    ensures InOrder(q) ==> (InOrder([e] + q) <==> (q != [] ==> e.ticket < q[0].ticket))
  {
    var q2 := [e] + q;
    assert q2[0] == e && forall i | 0 <= i < |q| :: q2[i + 1] == q[i];
  }

  lemma FirstDistinct(q: seq<Entry>, e: Entry)
    ensures DistinctPaths(q) ==> (DistinctPaths([e] + q) <==> !Waits(q, e.path))
  {
    var q2 := [e] + q;
    assert q2[0] == e && forall i | 0 <= i < |q| :: q2[i + 1] == q[i];
  }

  lemma EmptyInOrder()
    ensures InOrder([])
  {}

  lemma PutLastKeeps(q: seq<Entry>, e: Entry)
    requires forall i | 0 <= i < |q| :: q[i].ticket < e.ticket
    ensures InOrder(q) ==> InOrder(q + [e])
  {}

  /** The queue hands requests out in the order they came, unless one is put back while an older one waits. */
  lemma OrderKept(st: State, e: Event)
    requires Placed(st) && InOrder(st.queue) && Enabled(st, e)
    ensures InOrder(Next(st, e).queue)
      <==> (e.PutBack? && 0 < |st.queue| < QUEUE_MAX ==> st.threads[e.t].entry.ticket < st.queue[0].ticket)
  {
    hide Waits, HandsBooked, InOrder, CommitStep, TakeStep, Fail, Gate;
    if !IsQueueEvent(e) {
      QueueAlone(st, e);
    } else {
      match e
      case Remove(path) => WithoutKeeps(st.queue, FirstIndex(st.queue, path));
      case Pop(_) =>
        if st.queue != [] {
          WithoutKeeps(st.queue, 0);
          assert WithoutAt(st.queue, 0) == st.queue[1..];
        }
      case PutBack(t) => PutFirstKeeps(st.queue, st.threads[t].entry);
      case Enqueue(t) =>
        assert forall i | 0 <= i < |st.queue| :: st.queue[i].ticket in st.place;
        PutLastKeeps(st.queue, Entry(st.threads[t].path, st.threads[t].update, st.nextTicket));
      case Clear => EmptyInOrder();
    }
  }

  /** It never holds a path twice, unless an entry is put back after its path was queued again. */
  lemma DistinctKept(st: State, e: Event)
    requires DistinctPaths(st.queue) && Enabled(st, e)
    ensures DistinctPaths(Next(st, e).queue)
      <==> (e.PutBack? && |st.queue| < QUEUE_MAX ==> !Waits(st.queue, st.threads[e.t].entry.path))
  {
    hide Waits, HandsBooked, DistinctPaths, CommitStep, TakeStep, Fail, Gate;
    if !IsQueueEvent(e) {
      QueueAlone(st, e);
    } else {
      match e
      case Remove(path) => WithoutKeeps(st.queue, FirstIndex(st.queue, path));
      case Pop(_) =>
        if st.queue != [] {
          WithoutKeeps(st.queue, 0);
          assert WithoutAt(st.queue, 0) == st.queue[1..];
        }
      case PutBack(t) => PutFirstKeeps(st.queue, st.threads[t].entry);
      case Enqueue(t) => LastDistinct(st.queue, Entry(st.threads[t].path, st.threads[t].update, st.nextTicket));
      case Clear => EmptyDistinct();
    }
  }

  lemma LastDistinct(q: seq<Entry>, e: Entry)
    ensures DistinctPaths(q) && !Waits(q, e.path) ==> DistinctPaths(q + [e])
  {}

  lemma EmptyDistinct()
    ensures DistinctPaths([])
  {}

  /** The request handed out is the oldest one waiting. */
  lemma OldestFirst(st: State, k: nat)
    requires Placed(st) && InOrder(st.queue) && k in st.place && st.place[k].Waiting?
    ensures st.queue != [] && st.queue[0].ticket <= k
  {
    var i :| 0 <= i < |st.queue| && st.queue[i].ticket == k;
  }

  lemma LengthKept(st: State, e: Event)
    requires |st.queue| <= QUEUE_MAX && Enabled(st, e)
    ensures |Next(st, e).queue| <= QUEUE_MAX
  {
    hide Waits, CommitStep, TakeStep, Fail, Gate;
    if !IsQueueEvent(e) { QueueAlone(st, e); }
  }

  /** The handle kept for joining is the youngest worker's, so a worker only ever waits for a younger one. */
  ghost predicate Joinable(threads: map<Tid, PC>, workers: set<Tid>, handle: Option<Tid>) {
    && (handle.Some? ==> handle.value in workers && forall w | w in workers :: w <= handle.value)
    && forall t | t in threads && threads[t].Joining? ::
         threads[t].prev in workers && (t in workers ==> t < threads[t].prev)
  }

  lemma Unjoined(threads: map<Tid, PC>, workers: set<Tid>, handle: Option<Tid>, t: Tid, pc: PC)
    requires Joinable(threads, workers, handle)
    ensures !pc.Joining? ==> Joinable(threads[t := pc], workers, handle)
    ensures Joinable(threads - {t}, workers, handle)
  {}

  lemma HandlesKept(st: State, t: Tid, path: string, update: string, origin: Origin)
    requires Ids(st) && Joinable(st.threads, st.workers, st.handle) && At(st, t)
    ensures var r := Gate(st, t, path, update, origin);
      r.Some? ==> Joinable(r.value.threads, r.value.workers, r.value.handle)
    ensures var r := Fail(st, t, origin); Joinable(r.threads, r.workers, r.handle)
    ensures var r := Launch(st, t, path, origin); Joinable(r.threads, r.workers, r.handle)
  {}

  lemma TakeJoinable(st: State, t: Tid)
    requires Joinable(st.threads, st.workers, st.handle) && At(st, t) && st.threads[t].Checked?
    ensures Joinable(TakeStep(st, t).threads, st.workers, None)
  {}

  lemma StartJoinable(st: State, e: Event)
    requires Ids(st) && Joinable(st.threads, st.workers, st.handle) && Enabled(st, e) && IsStartEvent(e)
    ensures var r := Next(st, e); Joinable(r.threads, r.workers, r.handle)
  {
    hide Gate, Fail, Launch, Joinable;
    var t, pc := e.t, st.threads[e.t];
    match e
    case Commit(_, _) =>
      HandlesKept(st, t, pc.path, pc.update, pc.origin);
      HandlesKept(st.(detached := false), t, pc.path, pc.update, pc.origin);
      HandlesKept(Lower(st.(detached := false, path := pc.path)), t, pc.path, pc.update, pc.origin);
    case TakeHandle(_) => TakeJoinable(st, t);
    case FastCheck(_) =>
      HandlesKept(st, t, pc.path, pc.update, pc.origin);
      Unjoined(st.threads, st.workers, st.handle, t, Checked(pc.path, pc.update, pc.origin));
    case GiveUp(_) => HandlesKept(st, t, pc.path, pc.update, pc.origin);
    case Joined(_) => Unjoined(st.threads, st.workers, st.handle, t, Preparing(pc.path, pc.update, pc.origin));
  }

  lemma JoinableKept(st: State, e: Event)
    requires Ids(st) && Joinable(st.threads, st.workers, st.handle) && Enabled(st, e)
    ensures var r := Next(st, e); Joinable(r.threads, r.workers, r.handle)
  {
    hide Waits, FirstIndex, FirstAt, WithoutAt, CommitStep, TakeStep, Fail, Gate, Joinable;
    if IsStartEvent(e) {
      StartJoinable(st, e);
    } else {
      match e
      case Call(path, update, live) =>
        Unjoined(st.threads, st.workers, st.handle, st.nextId, Asking(path, update, if live then Live else User));
      case Enqueue(t) => Unjoined(st.threads, st.workers, st.handle, t, AtQueue);
      case Pop(t) =>
        var pc := if t in Next(st, e).threads then Next(st, e).threads[t] else AtQueue;
        Unjoined(st.threads, st.workers, st.handle, t, pc);
      case PutBack(t) => Unjoined(st.threads, st.workers, st.handle, t, AtQueue);
      case HandOff(t, path) => Unjoined(st.threads, st.workers, st.handle, t, Asking(path, "", Handoff));
      case LeaveBody(t) => Unjoined(st.threads, st.workers, st.handle, t, AtQueue);
      case LowerFailed(t) => Unjoined(st.threads, st.workers, st.handle, t, AtQueue);
      case _ =>
    }
  }

  predicate Blocked(st: State, t: Tid) {
    t in st.threads && st.threads[t].Joining? && st.threads[t].prev in st.threads
  }

  /** The joins never block all threads: from any thread the chain of joins ends at one that can go on. */
  lemma {:induction false} NoDeadlock(st: State, t: Tid) returns (u: Tid)
    requires Ids(st) && Joinable(st.threads, st.workers, st.handle) && t in st.threads
    ensures u in st.threads && !Blocked(st, u)
    decreases if t in st.workers then 0 else 1, st.nextId - t
  {
    if Blocked(st, t) { u := NoDeadlock(st, st.threads[t].prev); } else { u := t; }
  }

  // ---------------------------------------------------------------- whole runs

  ghost predicate Sound(st: State) {
    && Ids(st) && Carried(st) && Placed(st) && Joinable(st.threads, st.workers, st.handle) && |st.queue| <= QUEUE_MAX
  }

  lemma SoundKept(st: State, e: Event)
    requires Sound(st) && Enabled(st, e)
    ensures Sound(Next(st, e))
  {
    hide Ids, Carried, Placed, Joinable, Next, Enabled;
    StepKeeps(st, e);
    PlacedKept(st, e);
    JoinableKept(st, e);
    LengthKept(st, e);
  }

  /** Over every run of any number of threads: no request is lost or doubled, the queue keeps its bound, the installing
      flag always has somebody to lower it, and the joins cannot block all threads (NoDeadlock). */
  lemma {:induction false} RunSound(states: seq<State>, events: seq<Event>, n: nat)
    requires IsRun(states, events) && n < |states|
    ensures Sound(states[n])
    decreases n
  {
    hide Next, Enabled, Ids, Carried, Placed, Joinable;
    if n == 0 {
      BootSound();
    } else {
      RunSound(states, events, n - 1);
      SoundKept(states[n - 1], events[n - 1]);
    }
  }

  lemma BootSound()
    ensures Sound(Boot) && NotStranded(Boot) && InOrder(Boot.queue) && DistinctPaths(Boot.queue)
  {}

  ghost predicate Unstranded(states: seq<State>, n: nat)
    requires n <= |states|
  {
    forall k | 0 <= k < n :: NotStranded(states[k])
  }

  ghost predicate HarmlessUpTo(states: seq<State>, events: seq<Event>, n: nat)
    requires n <= |events| < |states|
  {
    forall k | 0 <= k < n :: !Strands(states[k], events[k])
  }

  /** A run never strands a waiting package exactly when no entry is ever put back into an idle installer. */
  lemma {:induction false} RunStranded(states: seq<State>, events: seq<Event>, n: nat)
    requires IsRun(states, events) && n < |states|
    ensures Unstranded(states, n + 1) <==> HarmlessUpTo(states, events, n)
    decreases n
  {
    hide Next, Enabled, Ids, Carried, Placed, Joinable, NotStranded, Strands;
    if n == 0 {
      BootSound();
    } else {
      RunStranded(states, events, n - 1);
      if Unstranded(states, n) {
        RunSound(states, events, n - 1);
        StrandedExactly(states[n - 1], events[n - 1]);
        assert HarmlessUpTo(states, events, n) <==> !Strands(states[n - 1], events[n - 1]);
        assert Unstranded(states, n + 1) <==> NotStranded(states[n]);
      }
    }
  }

  /** In a run where no queued start is answered -2, requests are handed out first come first served, no path waits
      twice, and nothing is stranded. */
  lemma {:induction false} UndisturbedRun(states: seq<State>, events: seq<Event>, n: nat)
    requires IsRun(states, events) && n < |states| && forall k | 0 <= k < |events| :: !events[k].PutBack?
    ensures InOrder(states[n].queue) && DistinctPaths(states[n].queue) && NotStranded(states[n])
    decreases n
  {
    hide Next, Enabled, Ids, Carried, Placed, Joinable, NotStranded, InOrder, DistinctPaths;
    if n == 0 {
      BootSound();
    } else {
      UndisturbedRun(states, events, n - 1);
      RunSound(states, events, n - 1);
      assert !events[n - 1].PutBack?;
      OrderKept(states[n - 1], events[n - 1]);
      DistinctKept(states[n - 1], events[n - 1]);
      StrandedExactly(states[n - 1], events[n - 1]);
    }
  }

  /** When every thread has returned, nothing installs and nothing waits. */
  lemma AllReturned(st: State)
    requires Sound(st) && NotStranded(st) && st.running && st.threads == map[]
    ensures !st.installing && st.queue == []
  {}

  lemma Extend(states: seq<State>, events: seq<Event>, e: Event) returns (states2: seq<State>, events2: seq<Event>)
    requires IsRun(states, events) && Enabled(states[|events|], e)
    ensures IsRun(states2, events2) && |events2| == |events| + 1 && |states2| == |states| + 1
    ensures states2[|events2|] == Next(states[|events|], e)
    ensures states2[..|states|] == states && events2[..|events|] == events && events2[|events|] == e
  {
    hide Next, Enabled;
    states2, events2 := states + [Next(states[|events|], e)], events + [e];
  }

  const B: Entry := Entry("B", "", 0)

  /** A installs as worker 1, B waits. */
  const OneWaits: State := State([B], true, false, true, "A", Some(1), map[1 := Body], {1}, {1}, 3, 1,
                                 map[0 := Waiting])

  /** Worker 1 is done with A and has taken B from the queue; nothing installs. */
  const Taken: State := State([], false, false, true, "A", None, map[1 := Preparing("B", "", Queued(B))], {}, {1}, 3, 1,
                              map[0 := InHand(1)])

  /** C was faster. */
  const Overtaken: State := State([], true, false, true, "C", Some(4),
                                  map[1 := Preparing("B", "", Queued(B)), 4 := Body],
                                  {4}, {1, 4}, 5, 1, map[0 := InHand(1)])

  const Installing: State := State([], true, false, true, "A", Some(1), map[1 := Body], {1}, {1}, 2, 0, map[])

  lemma Booted()
    ensures IsRun([Boot], [])
  {}

  lemma ToInstalling() returns (states: seq<State>, events: seq<Event>)
    ensures IsRun(states, events) && |states| == |events| + 1 && states[|events|] == Installing
  {
    hide IsRun;
    Booted();
    states, events := Extend([Boot], [], Call("A", "", false));
    states, events := Extend(states, events, FastCheck(0));
    states, events := Extend(states, events, TakeHandle(0));
    states, events := Extend(states, events, Commit(0, true));
    assert states[|events|].threads == Installing.threads;
  }

  lemma ToOneWaits() returns (states: seq<State>, events: seq<Event>)
    ensures IsRun(states, events) && |states| == |events| + 1 && states[|events|] == OneWaits
  {
    hide IsRun;
    states, events := ToInstalling();
    states, events := Extend(states, events, Call("B", "", false));
    states, events := Extend(states, events, FastCheck(2));
    assert states[|events|].threads == map[1 := Body, 2 := Refused("B", "")];
    states, events := Extend(states, events, Enqueue(2));
    assert states[|events|].threads == OneWaits.threads;
  }

  lemma ToAtQueue(before: seq<State>, sofar: seq<Event>) returns (states: seq<State>, events: seq<Event>)
    requires IsRun(before, sofar) && |before| == |sofar| + 1 && before[|sofar|] == OneWaits
    ensures IsRun(states, events) && |states| == |events| + 1
    ensures states[|events|] == OneWaits.(installing := false, threads := map[1 := AtQueue], carriers := {})
  {
    hide IsRun;
    states, events := Extend(before, sofar, LowerInBody(1));
    states, events := Extend(states, events, LeaveBody(1));
    assert states[|events|].threads == map[1 := AtQueue];
  }

  lemma ToTaken(before: seq<State>, sofar: seq<Event>) returns (states: seq<State>, events: seq<Event>)
    requires IsRun(before, sofar) && |before| == |sofar| + 1 && before[|sofar|] == OneWaits
    ensures IsRun(states, events) && |states| == |events| + 1 && states[|events|] == Taken
  {
    hide IsRun;
    states, events := ToAtQueue(before, sofar);
    states, events := Extend(states, events, Pop(1));
    states, events := Extend(states, events, FastCheck(1));
    states, events := Extend(states, events, TakeHandle(1));
    assert states[|events|].threads == Taken.threads && states[|events|].place == Taken.place;
  }

  lemma ToOvertaken(before: seq<State>, sofar: seq<Event>) returns (states: seq<State>, events: seq<Event>)
    requires IsRun(before, sofar) && |before| == |sofar| + 1 && before[|sofar|] == Taken
    ensures IsRun(states, events) && |states| == |events| + 1 && states[|events|] == Overtaken
  {
    hide IsRun;
    states, events := Extend(before, sofar, Call("C", "", false));
    states, events := Extend(states, events, FastCheck(3));
    states, events := Extend(states, events, TakeHandle(3));
    states, events := Extend(states, events, Commit(3, true));
    assert states[|events|].threads == Overtaken.threads;
  }

  /** C is done, too, before worker 1 gets the lock again. */
  const Idle: State := State([], false, false, true, "C", Some(4), map[1 := PuttingBack(B)], {}, {1, 4}, 5, 1,
                             map[0 := InHand(1)])

  lemma ToRefused(before: seq<State>, sofar: seq<Event>) returns (states: seq<State>, events: seq<Event>)
    requires IsRun(before, sofar) && |before| == |sofar| + 1 && before[|sofar|] == Overtaken
    ensures IsRun(states, events) && |states| == |events| + 1
    ensures states[|events|]
         == Overtaken.(installing := false, threads := map[1 := PuttingBack(B), 4 := Body], carriers := {})
  {
    hide IsRun;
    states, events := Extend(before, sofar, Commit(1, true));
    assert states[|events|].threads == map[1 := PuttingBack(B), 4 := Body];
    states, events := Extend(states, events, LowerInBody(4));
  }

  lemma ToIdle(before: seq<State>, sofar: seq<Event>) returns (states: seq<State>, events: seq<Event>)
    requires IsRun(before, sofar) && |before| == |sofar| + 1 && before[|sofar|] == Overtaken
    ensures IsRun(states, events) && |states| == |events| + 1 && states[|events|] == Idle
  {
    hide IsRun;
    states, events := ToRefused(before, sofar);
    states, events := Extend(states, events, LeaveBody(4));
    states, events := Extend(states, events, Pop(4));
    assert states[|events|].threads == Idle.threads;
  }

  /** The window exists: worker 1 takes B from the queue just as a request starts C; B's start is refused at the commit,
      C comes and goes, and B is put back into a queue nobody will look at. */
  lemma StrandedExample() returns (states: seq<State>, events: seq<Event>)
    ensures IsRun(states, events) && |states| == |events| + 1
    ensures var end := states[|events|]; end.running && !end.installing && end.threads == map[] && end.queue == [B]
  {
    hide IsRun;
    states, events := ToOneWaits();
    states, events := ToTaken(states, events);
    states, events := ToOvertaken(states, events);
    states, events := ToIdle(states, events);
    states, events := Extend(states, events, PutBack(1));
    assert states[|events|].threads == map[];
  }

  // ---------------------------------------------------------------- requests answered "queued"

  /** installer_enqueue answers "queued" unless the queue is full. */
  predicate AnsweredQueued(st: State, t: Tid)
    requires At(st, t) && st.threads[t].Refused?
  {
    Waits(st.queue, st.threads[t].path) || st.path == st.threads[t].path || |st.queue| < QUEUE_MAX
  }

  /** The package waits, or is being installed. */
  predicate LookedAfter(st: State, path: string) { Waits(st.queue, path) || (st.installing && st.path == path) }

  /** The path stands in the status record of an install that is over, and nowhere in the queue. */
  predicate Forgets(st: State, t: Tid)
    requires At(st, t) && st.threads[t].Refused?
  {
    st.path == st.threads[t].path && !st.installing && !Waits(st.queue, st.threads[t].path)
  }

  /** A request that is answered "queued" waits or is being installed, exactly unless its path is left over in the
      status record. */
  lemma QueuedExactly(st: State, t: Tid)
    requires At(st, t) && st.threads[t].Refused? && AnsweredQueued(st, t)
    ensures LookedAfter(EnqueueStep(st, t), st.threads[t].path) <==> !Forgets(st, t)
  {
    var st2, path := EnqueueStep(st, t), st.threads[t].path;
    if !Waits(st.queue, path) && st.path != path {
      assert st2.queue[|st.queue|].path == path;
    }
  }

  ghost predicate TicketFor(st: State, path: string, k: nat) {
    k in st.place && st.place[k].Waiting?
      && exists i | 0 <= i < |st.queue| :: st.queue[i] == Entry(path, st.queue[i].update, k)
  }

  lemma WaitingTicket(st: State, path: string) returns (k: nat)
    requires Placed(st) && Waits(st.queue, path)
    ensures TicketFor(st, path, k)
  {
    var i :| 0 <= i < |st.queue| && st.queue[i].path == path;
    k := st.queue[i].ticket;
    assert st.queue[i] == Entry(path, st.queue[i].update, k);
  }

  lemma StartTickets(st: State, t: Tid, path: string, update: string, origin: Origin)
    ensures Gate(st, t, path, update, origin).Some? ==>
      Gate(st, t, path, update, origin).value.nextTicket == st.nextTicket
    ensures Fail(st, t, origin).nextTicket == Launch(st, t, path, origin).nextTicket == st.nextTicket
  {}

  lemma TicketsGrow(st: State, e: Event)
    requires Enabled(st, e)
    ensures Next(st, e).nextTicket >= st.nextTicket
  {
    hide Gate, Fail, Launch, Waits, FirstIndex, WithoutAt;
    if IsStartEvent(e) {
      var t, pc := e.t, st.threads[e.t];
      StartTickets(st, t, pc.path, pc.update, pc.origin);
      StartTickets(st.(detached := false), t, pc.path, pc.update, pc.origin);
      StartTickets(Lower(st.(detached := false, path := pc.path)), t, pc.path, pc.update, pc.origin);
    }
  }

  /** No ticket is ever taken out of the books. */
  lemma {:induction false} TicketKept(states: seq<State>, events: seq<Event>, m: nat, n: nat, k: nat)
    requires IsRun(states, events) && m <= n < |states| && k in states[m].place
    ensures k in states[n].place
    decreases n - m
  {
    hide Next, Enabled, Ids, Carried, Joinable, QueueBooked, HandsBooked;
    if m < n {
      RunSound(states, events, m);
      RunSound(states, events, m + 1);
      TicketsGrow(states[m], events[m]);
      TicketKept(states, events, m + 1, n, k);
    }
  }

  /** In any run, a request that is answered "queued" is looked after from then on exactly unless its path is left
      over in the status record: either its package is being installed, or it has a ticket that waits, which the books
      never lose (PlacedKept says where it is, GoneForGood that its end is final). */
  lemma QueuedKept(states: seq<State>, events: seq<Event>, m: nat, n: nat) returns (k: nat)
    requires IsRun(states, events) && m < n < |states| && events[m].Enqueue?
    requires At(states[m], events[m].t) && states[m].threads[events[m].t].Refused?
      && AnsweredQueued(states[m], events[m].t)
    ensures var st, path := states[m + 1], states[m].threads[events[m].t].path;
      if Forgets(states[m], events[m].t) then
        !LookedAfter(st, path) && st.queue == states[m].queue && st.nextTicket == states[m].nextTicket
      else (st.installing && st.path == path) || (TicketFor(st, path, k) && k in states[n].place)
  {
    var t := events[m].t;
    var st, path := states[m + 1], states[m].threads[t].path;
    k := 0;
    assert st == EnqueueStep(states[m], t);
    QueuedExactly(states[m], t);
    if !Forgets(states[m], t) && !(st.installing && st.path == path) {
      RunSound(states, events, m + 1);
      k := WaitingTicket(st, path);
      TicketKept(states, events, m + 1, n, k);
    }
  }

  const TwoAsk: State := State([], false, false, true, "A", Some(1), map[1 := Body, 2 := Refused("A", "")],
                               {}, {1}, 3, 0, map[])

  lemma ToTwoAsk() returns (states: seq<State>, events: seq<Event>)
    ensures IsRun(states, events) && states[|events|] == TwoAsk
  {
    states, events := ToInstalling();
    states, events := Extend(states, events, Call("A", "", false));
    states, events := Extend(states, events, FastCheck(2));
    states, events := Extend(states, events, LowerInBody(1));
    assert states[|events|].threads == TwoAsk.threads;
  }

  /** Such a run: a second request for A is refused while A installs; the install ends, say with an error, before that
      request comes to the queue (step m); and the request is answered "queued" and forgotten: when all threads have
      returned nothing waits and nothing installs. */
  lemma ForgottenExample() returns (states: seq<State>, events: seq<Event>, m: nat)
    ensures IsRun(states, events) && m < |events| && events[m] == Enqueue(2) && states[m] == TwoAsk
    ensures AnsweredQueued(TwoAsk, 2) && Forgets(TwoAsk, 2)
    ensures var end := states[|events|]; end.running && !end.installing && end.threads == map[] && end.queue == []
  {
    states, events := ToTwoAsk();
    m := |events|;
    states, events := Extend(states, events, Enqueue(2));
    assert states[|events|].threads == map[1 := Body];
    states, events := Extend(states, events, LeaveBody(1));
    states, events := Extend(states, events, Pop(1));
    assert states[|events|].threads == map[];
  }
}
