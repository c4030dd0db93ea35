/** The connection slots of http_source.c under any interleaving of any number of threads. Every transition is one
    critical section of g_conn_lock or of a session's lock (src/http_source.c:917-976, 1164-1204, 2335-2356). */
module ConnSlots {
  import opened HttpLimits

  type Id = nat
  type Thread = nat
  type SessionId = nat

  /** Who answers for an open connection: a thread (on behalf of a session), a session's pool or its stream. */
  datatype Owner = Reader(t: Thread, s: SessionId) | Idle(s: SessionId) | Streaming(s: SessionId)

  datatype State = State(limits: Limits, live: nat, waiting: set<Id>, opening: set<Id>, owner: map<Id, Owner>)

  datatype Event =
    | Ask(i: Id)                              // conn_open reaches conn_slot_acquire
    | Granted(i: Id)                          // a slot was free
    | TimedOut(i: Id)                         // the wait ran out
    | OpenFailed(i: Id)                       // allocation, connect or handshake failed
    | Opened(i: Id, t: Thread, s: SessionId)
    | Closed(i: Id)                           // conn_close, by whoever owns the connection
    | Take(i: Id, t: Thread)                  // session_take
    | Give(i: Id)                             // session_give of a live connection
    | BeginStream(i: Id)                      // stream_open leaves the response unread
    | EndStream(i: Id, t: Thread)             // the response has been read to its end

  function IdleOf(st: State, s: SessionId): set<Id> { set i | i in st.owner && st.owner[i] == Idle(s) }

  function StreamOf(st: State, s: SessionId): set<Id> { set i | i in st.owner && st.owner[i] == Streaming(s) }

  function OwnedBy(st: State, s: SessionId): set<Id> { set i | i in st.owner && st.owner[i].s == s }

  /** The guard of conn_slot_release. */
  function Release(live: nat): nat { if live > 0 then live - 1 else live }

  predicate Unused(st: State, i: Id) { i !in st.waiting && i !in st.opening && i !in st.owner }

  /** What a step needs of the connection it is about. */
  predicate Possible(st: State, e: Event) {
    match e
    case Ask(i) => Unused(st, i)
    case Granted(i) => i in st.waiting && st.live < st.limits.maxLive
    case TimedOut(i) => i in st.waiting && st.live >= st.limits.maxLive
    case OpenFailed(i) => i in st.opening
    case Opened(i, _, _) => i in st.opening
    case Closed(i) => i in st.owner
    case Take(i, _) => i in st.owner && st.owner[i].Idle?
    case Give(i) => i in st.owner && st.owner[i].Reader?
    case BeginStream(i) => i in st.owner && st.owner[i].Reader?
    case EndStream(i, _) => i in st.owner && st.owner[i].Streaming?
  }

  predicate Enabled(st: State, e: Event) {
    && Possible(st, e)
    && (e.Give? ==> |IdleOf(st, st.owner[e.i].s)| < st.limits.poolMax)
    && (e.BeginStream? ==> StreamOf(st, st.owner[e.i].s) == {})
  }

  function Asked(st: State, i: Id): State { st.(waiting := st.waiting + {i}) }

  function SlotTaken(st: State, i: Id): State {
    st.(live := st.live + 1, waiting := st.waiting - {i}, opening := st.opening + {i})
  }

  function GaveUp(st: State, i: Id): State { st.(waiting := st.waiting - {i}) }

  function NotOpened(st: State, i: Id): State { st.(live := Release(st.live), opening := st.opening - {i}) }

  function NowOpen(st: State, i: Id, o: Owner): State { st.(opening := st.opening - {i}, owner := st.owner[i := o]) }

  function Shut(st: State, i: Id): State { st.(live := Release(st.live), owner := st.owner - {i}) }

  function Next(st: State, e: Event): State
    requires Possible(st, e)
  {
    match e
    case Ask(i) => Asked(st, i)
    case Granted(i) => SlotTaken(st, i)
    case TimedOut(i) => GaveUp(st, i)
    case OpenFailed(i) => NotOpened(st, i)
    case Opened(i, t, s) => NowOpen(st, i, Reader(t, s))
    case Closed(i) => Shut(st, i)
    case _ => HandedOver(st, e.i, NewOwner(st, e))
  }

  function HandedOver(st: State, i: Id, o: Owner): State { st.(owner := st.owner[i := o]) }

  predicate IsHandOver(e: Event) { e.Take? || e.Give? || e.BeginStream? || e.EndStream? }

  /** Who answers for a connection that changes hands. */
  function NewOwner(st: State, e: Event): Owner
    requires IsHandOver(e) && Possible(st, e)
  {
    var s := st.owner[e.i].s;
    match e
    case Give(_) => Idle(s)
    case BeginStream(_) => Streaming(s)
    case _ => Reader(e.t, s)
  }

  ghost predicate Counted(st: State) {
    && st.waiting !! st.opening && (st.waiting + st.opening) !! st.owner.Keys
    && st.live == |st.opening| + |st.owner.Keys| && st.live <= st.limits.maxLive
  }

  ghost predicate PoolsBounded(st: State) { forall s :: |IdleOf(st, s)| <= st.limits.poolMax && |StreamOf(st, s)| <= 1 }

  ghost predicate Inv(st: State) { Counted(st) && PoolsBounded(st) }

  function Boot(limits: Limits): State { State(limits, 0, {}, {}, map[]) }

  ghost predicate IsRun(limits: Limits, states: seq<State>, events: seq<Event>) {
    && |states| == |events| + 1 && states[0] == Boot(limits)
    && forall k | 0 <= k < |events| :: Enabled(states[k], events[k]) && states[k + 1] == Next(states[k], events[k])
  }

  /** The pools of all sessions after one connection changed hands. */
  lemma PoolsAfter(st: State, i: Id, o: Owner)
    requires Inv(st) && i !in st.waiting
    requires o.Idle? ==> |IdleOf(st, o.s)| < st.limits.poolMax
    requires o.Streaming? ==> StreamOf(st, o.s) == {}
    ensures PoolsBounded(HandedOver(st, i, o))
  {
    var st2 := HandedOver(st, i, o);
    forall s ensures |IdleOf(st2, s)| <= st.limits.poolMax && |StreamOf(st2, s)| <= 1 {
      assert |IdleOf(st, s)| <= st.limits.poolMax && |StreamOf(st, s)| <= 1;
      Smaller(IdleOf(st2, s), IdleOf(st, s), i, o == Idle(s));
      Smaller(StreamOf(st2, s), StreamOf(st, s), i, o == Streaming(s));
    }
  }

  lemma Smaller(a: set<Id>, b: set<Id>, i: Id, added: bool)
    requires a <= b + {i} && (!added ==> i !in a)
    ensures |a| <= |b| + if added then 1 else 0
  {
    if added {
      Subset(a, b + {i});
      assert |b + {i}| <= |b| + 1;
    } else {
      Subset(a, b);
    }
  }

  lemma {:induction false} Subset(a: set<Id>, b: set<Id>)
    requires a <= b
    ensures |a| <= |b|
  {
    assert b == a + (b - a);
  }

  lemma PoolsShrink(st: State, i: Id)
    requires Inv(st)
    ensures PoolsBounded(Shut(st, i))
  {
    var st2 := Shut(st, i);
    forall s ensures |IdleOf(st2, s)| <= st.limits.poolMax && |StreamOf(st2, s)| <= 1 {
      assert |IdleOf(st, s)| <= st.limits.poolMax && |StreamOf(st, s)| <= 1;
      Subset(IdleOf(st2, s), IdleOf(st, s));
      Subset(StreamOf(st2, s), StreamOf(st, s));
    }
  }

  lemma HandOver(st: State, i: Id, o: Owner)
    requires Counted(st) && i in st.owner
    ensures Counted(HandedOver(st, i, o))
  {
    assert st.owner[i := o].Keys == st.owner.Keys;
  }

  lemma SlotOpened(st: State, i: Id, o: Owner)
    requires Counted(st) && i in st.opening
    ensures Counted(NowOpen(st, i, o))
  {
    assert st.owner[i := o].Keys == st.owner.Keys + {i};
  }

  lemma SlotClosed(st: State, i: Id)
    requires Counted(st) && i in st.owner
    ensures Counted(Shut(st, i))
  {
    assert (st.owner - {i}).Keys == st.owner.Keys - {i};
    assert i in st.owner.Keys;
  }

  lemma SlotAsked(st: State, i: Id)
    requires Counted(st) && Unused(st, i)
    ensures Counted(Asked(st, i))
  {
    assert i !in st.owner.Keys;
  }

  lemma SlotGranted(st: State, i: Id)
    requires Counted(st) && i in st.waiting && st.live < st.limits.maxLive
    ensures Counted(SlotTaken(st, i))
  {}

  lemma SlotRefused(st: State, i: Id)
    requires Counted(st)
    ensures Counted(GaveUp(st, i))
    ensures i in st.opening ==> Counted(NotOpened(st, i))
  {}

  lemma StepCounts(st: State, e: Event)
    requires Counted(st) && Possible(st, e)
    ensures Counted(Next(st, e))
  {
    hide Counted, Unused, NewOwner, Asked, SlotTaken, GaveUp, NotOpened, NowOpen, Shut, HandedOver;
    match e
    case Ask(i) => SlotAsked(st, i);
    case Granted(i) => SlotGranted(st, i);
    case TimedOut(i) => SlotRefused(st, i);
    case OpenFailed(i) => SlotRefused(st, i);
    case Opened(i, t, s) => SlotOpened(st, i, Reader(t, s));
    case Closed(i) => SlotClosed(st, i);
    case _ => HandOver(st, e.i, NewOwner(st, e));
  }

  lemma StepPools(st: State, e: Event)
    requires Inv(st) && Enabled(st, e)
    ensures PoolsBounded(Next(st, e))
  {
    hide Counted, IdleOf, StreamOf, PoolsBounded, Inv, Unused, Release;
    OpenedFresh(st, e.i);
    match e
    case Opened(i, t, s) =>
      PoolsAfter(st, i, Reader(t, s));
      SameOwners(HandedOver(st, i, Reader(t, s)), Next(st, e));
    case Closed(i) => PoolsShrink(st, i);
    case Ask(_) => StillBounded(st, Next(st, e));
    case Granted(_) => StillBounded(st, Next(st, e));
    case TimedOut(_) => StillBounded(st, Next(st, e));
    case OpenFailed(_) => StillBounded(st, Next(st, e));
    case _ => PoolsAfter(st, e.i, NewOwner(st, e));
  }

  lemma StillBounded(a: State, b: State)
    requires Inv(a) && a.owner == b.owner && a.limits == b.limits
    ensures PoolsBounded(b)
  {
    SameOwners(a, b);
  }

  lemma OpenedFresh(st: State, i: Id)
    requires Inv(st)
    ensures i in st.opening || i in st.owner ==> i !in st.waiting
  {
    assert i in st.owner ==> i in st.owner.Keys;
  }

  /** Every step of every thread keeps the counter equal to the connections open or being opened. */
  lemma StepKeepsInv(st: State, e: Event)
    requires Inv(st) && Enabled(st, e)
    ensures Inv(Next(st, e))
  {
    hide Counted, PoolsBounded;
    StepCounts(st, e);
    StepPools(st, e);
  }

  lemma SameOwners(a: State, b: State)
    requires a.owner == b.owner && a.limits == b.limits && PoolsBounded(a)
    ensures PoolsBounded(b)
  {
    forall s ensures |IdleOf(b, s)| <= b.limits.poolMax && |StreamOf(b, s)| <= 1 {
      assert |IdleOf(a, s)| <= a.limits.poolMax && |StreamOf(a, s)| <= 1;
      assert IdleOf(a, s) == IdleOf(b, s) && StreamOf(a, s) == StreamOf(b, s);
    }
  }

  /** Slot conservation over every run. */
  lemma {:induction false} SlotsConserved(limits: Limits, states: seq<State>, events: seq<Event>, k: nat)
    requires IsRun(limits, states, events) && k < |states|
    ensures Inv(states[k]) && states[k].limits == limits
  {
    if k == 0 {
      var b := Boot(limits);
      forall s ensures |IdleOf(b, s)| <= limits.poolMax && |StreamOf(b, s)| <= 1 {
        assert IdleOf(b, s) == {} && StreamOf(b, s) == {};
      }
    } else {
      SlotsConserved(limits, states, events, k - 1);
      StepKeepsInv(states[k - 1], events[k - 1]);
    }
  }

  // ---------------------------------------------------------------- closing a session

  /** Closing a list of connections, one conn_close after another. */
  function CloseEach(st: State, list: seq<Id>): State
    requires forall k | 0 <= k < |list| :: list[k] in st.owner
    requires forall j, k | 0 <= j < k < |list| :: list[j] != list[k]
    decreases |list|
  {
    if list == [] then st
    else
      var st2 := Next(st, Closed(list[0]));
      assert forall k | 1 <= k < |list| :: list[k] in st2.owner;
      CloseEach(st2, list[1..])
  }

  /** After any history, once no thread reads on its behalf, closing a session's pool and stream gives back every slot
      it holds, as many as it had connections, and nobody else's. */
  lemma {:induction false} CloseGivesBack(st: State, s: SessionId, list: seq<Id>)
    requires Inv(st)
    requires forall i | i in OwnedBy(st, s) :: !st.owner[i].Reader?
    requires forall k | 0 <= k < |list| :: list[k] in OwnedBy(st, s)
    requires forall j, k | 0 <= j < k < |list| :: list[j] != list[k]
    requires forall i | i in OwnedBy(st, s) :: i in list
    ensures Inv(CloseEach(st, list))
    ensures OwnedBy(CloseEach(st, list), s) == {}
    ensures CloseEach(st, list).live == st.live - |OwnedBy(st, s)|
    ensures forall i | i in st.owner && st.owner[i].s != s ::
      i in CloseEach(st, list).owner && CloseEach(st, list).owner[i] == st.owner[i]
    decreases |list|
  {
    if list != [] {
      var i := list[0];
      var st2 := Next(st, Closed(i));
      StepKeepsInv(st, Closed(i));
      assert i in st.owner.Keys;
      assert OwnedBy(st2, s) == OwnedBy(st, s) - {i};
      forall j | j in OwnedBy(st2, s) ensures j in list[1..] {
        var k :| 0 <= k < |list| && list[k] == j;
        assert list[1..][k - 1] == j;
      }
      CloseGivesBack(st2, s, list[1..]);
    }
  }
}
