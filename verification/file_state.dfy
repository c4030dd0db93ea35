/** The per-file state table of http_source.c: open addressing over a fixed array, nothing ever deleted
    (src/http_source.c:1629-1692). A file is named by the 64-bit hash of its URL. */
module FileState {

  const SLOTS: nat := 8192

  datatype Info = Info(size: nat, unavailable: bool)

  datatype Slot = Slot(key: nat, info: Info)

  const UNKNOWN: Info := Info(0, false)

  /** What is known about a file. */
  function Known(m: map<nat, Info>, key: nat): Info { if key in m then m[key] else UNKNOWN }

  /** The key of a hash: 0 marks an empty slot. */
  function KeyOf(hash: nat): (key: nat)
    ensures key != 0
  {
    if hash == 0 then 1 else hash
  }

  /** The slot the probe sequence of a key visits at step j. */
  function Probe(key: nat, j: nat): (i: nat)
    ensures i < SLOTS
  {
    (key + j) % SLOTS
  }

  /** The steps of a probe visit every slot. */
  lemma StepTo(key: nat, i: nat) returns (j: nat)
    requires i < SLOTS
    ensures j < SLOTS && Probe(key, j) == i
  {
    j := (i + SLOTS - key % SLOTS) % SLOTS;
    var q := key / SLOTS;
    assert key == q * SLOTS + key % SLOTS;
    if i >= key % SLOTS {
      assert key + j == q * SLOTS + i;
    } else {
      assert key + j == (q + 1) * SLOTS + i;
    }
  }

  /** A key is found at step j of its probe, behind slots taken by other keys. */
  predicate FoundAt(slots: seq<Slot>, key: nat, j: nat)
    requires |slots| == SLOTS
  {
    && slots[Probe(key, j)].key == key
    && forall l | 0 <= l < j :: slots[Probe(key, l)].key != 0
  }

  ghost predicate Represents(slots: seq<Slot>, m: map<nat, Info>) {
    && |slots| == SLOTS
    && (forall i | 0 <= i < SLOTS :: if slots[i].key == 0 then slots[i].info == UNKNOWN
                                     else slots[i].key in m && m[slots[i].key] == slots[i].info)
    && (forall i, j | 0 <= i < j < SLOTS :: slots[i].key == slots[j].key ==> slots[i].key == 0)
    && (0 !in m && forall k | k in m :: exists j | 0 <= j < SLOTS :: FoundAt(slots, k, j))
  }

  predicate Full(slots: seq<Slot>) { forall i | 0 <= i < |slots| :: slots[i].key != 0 }

  /** A slot that is taken over by a new key, or whose information changes, breaks no other key's probe. */
  lemma Stored(slots: seq<Slot>, m: map<nat, Info>, key: nat, j: nat, info: Info)
    requires Represents(slots, m) && key != 0 && j < SLOTS
    requires forall l | 0 <= l < j :: slots[Probe(key, l)].key != 0
    requires if key in m then slots[Probe(key, j)].key == key else slots[Probe(key, j)].key == 0
    ensures Represents(slots[Probe(key, j) := Slot(key, info)], m[key := info])
  {
    var at := Probe(key, j);
    var slots2, m2 := slots[at := Slot(key, info)], m[key := info];
    forall k | k in m2 ensures exists l | 0 <= l < SLOTS :: FoundAt(slots2, k, l) {
      if k == key {
        assert FoundAt(slots2, key, j);
      } else {
        var l :| 0 <= l < SLOTS && FoundAt(slots, k, l);
        assert FoundAt(slots2, k, l);
      }
    }
    assert forall i | 0 <= i < SLOTS && i != at :: slots[i].key == key ==> key in m;
  }

  // ---------------------------------------------------------------- how much fits

  function Keys(slots: seq<Slot>): set<nat> {
    if slots == [] then {}
    else
      var last := slots[|slots| - 1];
      Keys(slots[..|slots| - 1]) + if last.key == 0 then {} else {last.key}
  }

  function Taken(slots: seq<Slot>): nat {
    if slots == [] then 0 else Taken(slots[..|slots| - 1]) + if slots[|slots| - 1].key == 0 then 0 else 1
  }

  lemma {:induction false} KeysAre(slots: seq<Slot>)
    ensures forall k :: k in Keys(slots) <==> k != 0 && exists i | 0 <= i < |slots| :: slots[i].key == k
    ensures Taken(slots) <= |slots| && (Taken(slots) == |slots| <==> Full(slots))
  {
    if slots != [] {
      var front, n := slots[..|slots| - 1], |slots| - 1;
      KeysAre(front);
      assert forall i | 0 <= i < n :: front[i] == slots[i];
      forall k ensures k in Keys(slots) <==> k != 0 && exists i | 0 <= i < |slots| :: slots[i].key == k {
        if k in Keys(front) { var i :| 0 <= i < n && front[i].key == k; assert slots[i].key == k; }
        if k != 0 && slots[n].key == k { assert slots[n].key == k; }
      }
    }
  }

  lemma {:induction false} KeyCount(slots: seq<Slot>)
    requires forall i, j | 0 <= i < j < |slots| :: slots[i].key == slots[j].key ==> slots[i].key == 0
    ensures |Keys(slots)| == Taken(slots)
  {
    if slots != [] {
      var front := slots[..|slots| - 1];
      assert forall i | 0 <= i < |front| :: front[i] == slots[i];
      KeyCount(front);
      KeysAre(front);
    }
  }

  /** The table is full exactly when it holds as many files as it has slots. */
  lemma FullExactly(slots: seq<Slot>, m: map<nat, Info>)
    requires Represents(slots, m)
    ensures |m| <= SLOTS && (|m| == SLOTS <==> Full(slots))
  {
    hide Represents, Keys, Taken, Full;
    KeysAre(slots);
    KeysOnce(slots, m);
    KeyCount(slots);
    KeysSame(slots, m);
    assert |m| == |m.Keys|;
  }

  lemma KeysOnce(slots: seq<Slot>, m: map<nat, Info>)
    requires Represents(slots, m)
    ensures |slots| == SLOTS && forall i, j | 0 <= i < j < |slots| :: slots[i].key == slots[j].key ==> slots[i].key == 0
  {}

  lemma KeysSame(slots: seq<Slot>, m: map<nat, Info>)
    requires Represents(slots, m)
    ensures m.Keys == Keys(slots)
  {
    hide Keys, Taken, Full;
    KeysAre(slots);
    forall k | k in m ensures k in Keys(slots) {
      var j :| 0 <= j < SLOTS && FoundAt(slots, k, j);
    }
  }

  /** A probe that comes all the way round has seen every slot. */
  lemma AllSeen(slots: seq<Slot>, m: map<nat, Info>, key: nat)
    requires Represents(slots, m)
    requires forall l | 0 <= l < SLOTS :: slots[Probe(key, l)].key != 0 && slots[Probe(key, l)].key != key
    ensures Full(slots) && key !in m
  {
    forall i | 0 <= i < SLOTS ensures slots[i].key != 0 && slots[i].key != key {
      var j := StepTo(key, i);
    }
    assert forall j | 0 <= j < SLOTS :: !FoundAt(slots, key, j);
  }

  /** An empty slot ends the search: the key is not behind it. */
  lemma NotBehind(slots: seq<Slot>, m: map<nat, Info>, key: nat, j: nat)
    requires Represents(slots, m) && key != 0 && j < SLOTS && slots[Probe(key, j)].key == 0
    requires forall l | 0 <= l < j :: slots[Probe(key, l)].key != key
    ensures key !in m && !Full(slots)
  {
    assert forall l | 0 <= l < SLOTS :: !FoundAt(slots, key, l);
  }

  lemma InMap(slots: seq<Slot>, m: map<nat, Info>, i: nat)
    requires Represents(slots, m) && i < |slots| && slots[i].key != 0
    ensures slots[i].key in m && slots[i].info == m[slots[i].key]
  {}

  lemma FirstProbe(key: nat)
    ensures Probe(key, 0) == key % SLOTS
  {}

  lemma NextProbe(key: nat, j: nat)
    ensures Probe(key, j + 1) == (Probe(key, j) + 1) % SLOTS
  {}

  // ---------------------------------------------------------------- the specification: a map of bounded size

  datatype Op = SetSize(key: nat, size: nat) | SetUnavailable(key: nat, unavailable: bool)

  /** What a setter asks for, given what is known. */
  function Wanted(op: Op, was: Info): Info {
    match op
    case SetSize(_, size) => was.(size := size)
    case SetUnavailable(_, unavailable) => was.(unavailable := unavailable)
  }

  /** Only a value worth remembering makes a new entry. */
  predicate Creates(op: Op) {
    match op
    case SetSize(_, size) => size != 0
    case SetUnavailable(_, unavailable) => unavailable
  }

  function After(m: map<nat, Info>, op: Op): map<nat, Info> {
    if op.key in m || (Creates(op) && |m| < SLOTS) then m[op.key := Wanted(op, Known(m, op.key))] else m
  }

  function AfterAll(ops: seq<Op>): map<nat, Info> {
    if ops == [] then map[] else After(AfterAll(ops[..|ops| - 1]), ops[|ops| - 1])
  }

  /** The last values set for a key, as if there were room for everything. */
  function LastSet(ops: seq<Op>, key: nat): Info {
    if ops == [] then UNKNOWN
    else
      var was, op := LastSet(ops[..|ops| - 1], key), ops[|ops| - 1];
      if op.key == key then Wanted(op, was) else was
  }

  /** After any history a file in the table has the values set last, and a file that is not has nothing worth
      remembering, or the table is full. */
  lemma {:induction false} Remembers(ops: seq<Op>, key: nat)
    ensures |AfterAll(ops)| <= SLOTS
    ensures key in AfterAll(ops) ==> Known(AfterAll(ops), key) == LastSet(ops, key)
    ensures key !in AfterAll(ops) ==> LastSet(ops, key) == UNKNOWN || |AfterAll(ops)| == SLOTS
  {
    if ops != [] {
      var m, op := AfterAll(ops[..|ops| - 1]), ops[|ops| - 1];
      Remembers(ops[..|ops| - 1], key);
      OneMore(m, op.key, Wanted(op, Known(m, op.key)));
    }
  }

  lemma OneMore(m: map<nat, Info>, key: nat, info: Info)
    ensures |m[key := info]| == |m| + if key in m then 0 else 1
  {
    assert m[key := info].Keys == m.Keys + {key};
    assert |m[key := info].Keys| == |m[key := info]| && |m.Keys| == |m|;
  }

  /** Setting one value changes no other file and no other value. */
  lemma OnlyThat(m: map<nat, Info>, op: Op, key: nat)
    ensures key != op.key ==> Known(After(m, op), key) == Known(m, key)
    ensures op.SetSize? ==> Known(After(m, op), key).unavailable == Known(m, key).unavailable
    ensures op.SetUnavailable? ==> Known(After(m, op), key).size == Known(m, key).size
  {}

  // ---------------------------------------------------------------- the table

  class Table {
    const slots: array<Slot>
    ghost var files: map<nat, Info>

    ghost predicate Valid()
      reads this, slots
    {
      Represents(slots[..], files)
    }

    constructor ()
      ensures Valid() && fresh(slots) && files == map[]
    {
      slots := new Slot[SLOTS](_ => Slot(0, UNKNOWN));
      files := map[];
    }

    lemma Basics()
      requires Valid()
      ensures slots.Length == SLOTS
      ensures forall i | 0 <= i < SLOTS && slots[i].key != 0 :: slots[i].info == Known(files, slots[i].key)
    {}

    /** Fills or overwrites the slot the probe of a key has led to. */
    method Store(at: nat, key: nat, info: Info, ghost j: nat)
      requires Valid() && key != 0 && j < SLOTS && at == Probe(key, j) && slots.Length == SLOTS
      requires forall l | 0 <= l < j :: slots[Probe(key, l)].key != 0
      requires if key in files then slots[at].key == key else slots[at].key == 0
      modifies this`files, slots
      ensures Valid() && files == old(files)[key := info]
      ensures slots[..] == old(slots[..])[at := Slot(key, info)]
    {
      hide Represents, Probe, FoundAt;
      assert forall l | 0 <= l < j :: slots[..][Probe(key, l)].key != 0;
      Stored(slots[..], files, key, j, info);
      slots[at] := Slot(key, info);
      files := files[key := info];
      assert slots[..] == old(slots[..])[at := Slot(key, info)];
    }

    /** fstate_find: the slot of the key, a new one if it is to be created and there is room, or -1. */
    method Find(key: nat, create: bool) returns (at: int, ghost j: nat)
      requires Valid() && key != 0
      modifies this`files, slots
      ensures Valid() && slots.Length == SLOTS && |old(files)| <= SLOTS
      ensures at == -1 <==> key !in old(files) && (!create || |old(files)| == SLOTS)
      ensures at == -1
        || (0 <= at < SLOTS && slots[at] == Slot(key, Known(files, key)) && j < SLOTS && at == Probe(key, j))
      ensures at != -1 ==> forall l | 0 <= l < j :: slots[Probe(key, l)].key != 0
      ensures files == if at == -1 || key in old(files) then old(files) else old(files)[key := UNKNOWN]
    {
      hide Represents, Probe, FoundAt, Full;
      Basics();
      j := 0;
      FullExactly(slots[..], files);
      var i: nat := 0;
      var idx := key % SLOTS;
      FirstProbe(key);
      while i < SLOTS
        invariant i <= SLOTS && idx == Probe(key, i)
        invariant slots[..] == old(slots[..]) && files == old(files)
        invariant forall l | 0 <= l < i :: slots[Probe(key, l)].key != 0 && slots[Probe(key, l)].key != key
      {
        if slots[idx].key == key {
          InMap(slots[..], files, idx);
          return idx, i;
        }
        if slots[idx].key == 0 {
          NotBehind(slots[..], files, key, i);
          if !create { return -1, i; }
          Store(idx, key, UNKNOWN, i);
          return idx, i;
        }
        NextProbe(key, i);
        i, idx := i + 1, (idx + 1) % SLOTS;
      }
      AllSeen(slots[..], files, key);
      at := -1;
    }

    /** http_source_set_unavailable. */
    method SetUnavailable(hash: nat, unavailable: bool)
      requires Valid()
      modifies this`files, slots
      ensures Valid() && files == After(old(files), Op.SetUnavailable(KeyOf(hash), unavailable))
    {
      hide Represents, Probe, FoundAt;
      var at, j := Find(KeyOf(hash), unavailable);
      if at != -1 {
        Store(at, KeyOf(hash), slots[at].info.(unavailable := unavailable), j);
      }
    }

    /** expected_size_set. */
    method SetExpectedSize(hash: nat, size: nat)
      requires Valid()
      modifies this`files, slots
      ensures Valid() && files == After(old(files), SetSize(KeyOf(hash), size))
    {
      hide Represents, Probe, FoundAt;
      var at, j := Find(KeyOf(hash), size != 0);
      if at != -1 {
        Store(at, KeyOf(hash), slots[at].info.(size := size), j);
      }
    }

    /** http_source_is_unavailable. */
    method IsUnavailable(hash: nat) returns (v: bool)
      requires Valid()
      modifies this`files, slots
      ensures Valid() && files == old(files) && v == Known(files, KeyOf(hash)).unavailable
    {
      hide Represents, Probe, FoundAt;
      var at, j := Find(KeyOf(hash), false);
      v := if at != -1 then slots[at].info.unavailable else false;
    }

    /** http_source_expected_size. */
    method ExpectedSize(hash: nat) returns (v: nat)
      requires Valid()
      modifies this`files, slots
      ensures Valid() && files == old(files) && v == Known(files, KeyOf(hash)).size
    {
      hide Represents, Probe, FoundAt;
      var at, j := Find(KeyOf(hash), false);
      v := if at != -1 then slots[at].info.size else 0;
    }
  }
}
