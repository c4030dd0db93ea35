/** Whole responses on a connection whose receives may fail and be followed by more data: when http_source.c reads them
    as they were sent or gives the connection up, and what it makes of them otherwise. */
module HttpFaults {
  import opened Text
  import opened HttpFraming
  import opened HttpEvents
  import opened HttpLines
  import opened HttpWire

  // ---------------------------------------------------------------- where a failure does no harm

  predicate AtLineStart(s: string, k: nat)
    requires k <= |s|
  {
    k == 0 || s[k - 1] == '\n'
  }

  /** The number of bytes in front of the first failed receive. */
  function Reach(evs: seq<Event>): (k: nat)
    ensures k <= |evs|
  {
    |Front(evs)|
  }

  /** Nothing is delivered behind the first failed receive. */
  predicate Final(evs: seq<Event>) { Data(evs[Reach(evs)..]) == [] }

  /** The first receive that fails within the lines s, and is not the end, fails in front of a line. */
  predicate LinesIntact(s: string, evs: seq<Event>) { Reach(evs) < |s| && !Final(evs) ==> AtLineStart(s, Reach(evs)) }

  /** The lines s are ahead; a receive fails among them only in front of a line, inside their last line terminator, or
      for good. */
  predicate LinesAhead(s: string, tail: string, evs: seq<Event>) {
    Carries(evs, s + tail) && (LinesIntact(s, evs) || Reach(evs) == |s| - 1)
  }

  lemma FrontLines(a: string, b: string, tail: string, evs: seq<Event>)
    requires a != [] && a[|a| - 1] == '\n' && |b| != 1 && LinesAhead(a + b, tail, evs)
    ensures Reach(evs) < |a| ==> Final(evs) || AtLineStart(a, Reach(evs)) || (b == [] && Reach(evs) == |a| - 1)
    ensures LinesAhead(a, b + tail, evs)
  {
    hide Front, Data;
    var k := Reach(evs);
    assert a + b + tail == a + (b + tail);
    if 0 < k < |a| { assert (a + b)[k - 1] == a[k - 1]; }
  }

  lemma BackLines(a: string, b: string, tail: string, evs: seq<Event>)
    requires a != [] && a[|a| - 1] == '\n' && LinesAhead(a + b, tail, evs) && Reach(evs) >= |a|
    ensures LinesAhead(b, tail, evs[|a|..]) && Reach(evs[|a|..]) == Reach(evs) - |a|
    ensures evs[|a|..][Reach(evs) - |a|..] == evs[Reach(evs)..]
  {
    hide Front, Data;
    var k, n := Reach(evs), |a|;
    assert a + b + tail == a + (b + tail);
    RestCarried(evs, a, b + tail);
    FrontSplit(evs, n);
    assert evs[n..][k - n..] == evs[k..];
    if n < k < |a + b| { assert (a + b)[k - 1] == b[k - n - 1]; }
  }

  lemma AfterEnd(evs: seq<Event>)
    requires Final(evs)
    ensures Data(AfterFault(evs[Reach(evs)..])) == []
  {
    NoData(evs[Reach(evs)..]);
  }

  /** A line whose reading begins and does not end. */
  predicate CutLine(l: string, b: string, evs: seq<Event>, r: Line) {
    && r.n >= 0 && (r.n == 0 <==> l == [])
    && (Data(r.rest) == [] || (b == [] && Reach(evs) == |l| + 1))
    && r.rest == AfterFault(evs[Reach(evs)..])
  }

  /** A line read whole. */
  predicate WholeLine(l: string, b: string, tail: string, evs: seq<Event>, r: Line) {
    && |l| + 2 <= Reach(evs) && r.rest == evs[|l| + 2..]
    && r.n >= 0 && (r.n == 0 <==> l == []) && (|l| < |r.buf| ==> CStr(r.buf) == CStr(l))
    && LinesAhead(b, tail, r.rest) && Reach(r.rest) == Reach(evs) - (|l| + 2)
  }

  /** One line at the front of the lines ahead: not begun, cut, or read whole. */
  lemma LineTaken(l: string, b: string, tail: string, evs: seq<Event>, buf: string)
    requires |buf| > 1 && OneLine(l) && |b| != 1 && LinesAhead(LineWire(l) + b, tail, evs)
    ensures var r := LineOf(evs, buf);
      || (Reach(evs) == 0 && r.n == -1)
      || (0 < Reach(evs) < |l| + 2 && CutLine(l, b, evs, r))
      || (Reach(evs) >= |l| + 2 && WholeLine(l, b, tail, evs, r))
  {
    LineShape(l);
    assert LineWire(l) + b + tail == LineWire(l) + (b + tail);
    hide LineWire, Front, Data, Laid, Terminated, AfterFault, LinesAhead, LineOf;
    FrontLines(LineWire(l), b, tail, evs);
    LineCarried(l, b, tail, evs, buf);
    if Reach(evs) >= |l| + 2 {
      BackLines(LineWire(l), b, tail, evs);
      TerminatedText(Clip(l, |buf|), buf);
    } else if Reach(evs) > 0 {
      NotAtLineStart(l, Reach(evs));
      if Final(evs) { AfterEnd(evs); }
    }
  }

  lemma LineCarried(l: string, b: string, tail: string, evs: seq<Event>, buf: string)
    requires |buf| > 1 && OneLine(l) && LinesAhead(LineWire(l) + b, tail, evs)
    ensures var k := Reach(evs);
            LineOf(evs, buf) ==
              if k == 0 then Line(-1, buf, AfterFault(evs))
              else if k < |l| + 2 then
                var t := Clip(l[..if k < |l| then k else |l|], |buf|);
                Line(|t|, Laid(t, buf), AfterFault(evs[k..]))
              else Line(|Clip(l, |buf|)|, Terminated(Clip(l, |buf|), buf), evs[|l| + 2..])
  {
    assert LineWire(l) + b + tail == LineWire(l) + (b + tail);
    hide LineWire, Front, Data, Laid, Terminated, AfterFault, LineOf;
    WireLineRead(l, b + tail, evs, buf);
  }

  lemma LineShape(l: string)
    ensures var w := LineWire(l); |w| == |l| + 2 && w[|w| - 1] == '\n'
  {}

  lemma NotAtLineStart(l: string, k: nat)
    requires OneLine(l) && 0 < k < |LineWire(l)|
    ensures !AtLineStart(LineWire(l), k)
  {
    var w := LineWire(l);
    assert forall i | 0 <= i < |l| :: w[i] == l[i];
    assert w[|l|] == '\r';
  }

  lemma Stopped(evs: seq<Event>, buf: string)
    requires |buf| > 1 && Data(evs) == []
    ensures LineOf(evs, buf).n == -1 && Data(LineOf(evs, buf).rest) == []
  {
    LineRead(evs, buf);
    NoData(evs);
  }

  // ---------------------------------------------------------------- lines up to a blank one

  /** n bytes of lines ending with a blank one, skipped: all of them; or up to a receive that failed inside their last
      line terminator, which is then not all read; or given up. */
  predicate SkipAt(r: Line, n: nat, evs: seq<Event>)
    requires n > 0
  {
    if Reach(evs) >= n then r.n == 0 && r.rest == evs[n..]
    else if Reach(evs) == n - 1 then r.n == 0 && r.rest == AfterFault(evs[Reach(evs)..])
    else r.n == -1
  }

  lemma SkipFurther(r: Line, m: nat, n: nat, evs: seq<Event>, rest: seq<Event>)
    requires m <= Reach(evs) && rest == evs[m..] && n > 0 && SkipAt(r, n, rest)
    ensures SkipAt(r, m + n, evs)
  {
    hide Front, AfterFault;
    FrontSplit(evs, m);
    assert m + n <= |evs| ==> evs[m..][n..] == evs[m + n..];
    assert evs[m..][Reach(evs) - m..] == evs[Reach(evs)..];
  }

  lemma NotSkipped(r: Line, n: nat, evs: seq<Event>)
    requires Reach(evs) + 1 < n && r.n == -1
    ensures SkipAt(r, n, evs)
  {}

  lemma SkipUnfold(evs: seq<Event>, buf: string)
    requires buf != []
    ensures var l := LineOf(evs, buf);
            SkipOf(evs, buf) == if l.n > 0 then SkipOf(l.rest, l.buf) else l
  {
    hide LineOf;
  }

  lemma BlockFirst(ls: seq<string>)
    requires ls != [] ==> NonBlank(ls[0])
    ensures ls == [] ==> Block(ls) == LineWire([]) + [] && |Block(ls)| == 2 && OneLine([])
    ensures ls != [] ==>
      && Block(ls) == LineWire(ls[0]) + Block(ls[1..]) && |Block(ls)| == |ls[0]| + 2 + |Block(ls[1..])|
      && |Block(ls[1..])| >= 2 && OneLine(ls[0]) && ls[0] != []
  {
    assert "\r\n" + [] == "\r\n";
  }

  lemma BlockScanEnd(tail: string, evs: seq<Event>, buf: string)
    requires |buf| > 1 && LinesAhead(LineWire([]) + [], tail, evs)
    ensures SkipAt(SkipOf(evs, buf), 2, evs)
  {
    hide LinesAhead, LineOf, SkipOf, Front, AfterFault, Data, LineWire;
    SkipUnfold(evs, buf);
    LineTaken([], [], tail, evs, buf);
  }

  lemma CutBlock(l: string, b: string, evs: seq<Event>, buf: string)
    requires |buf| > 1 && l != [] && b != [] && CutLine(l, b, evs, LineOf(evs, buf))
    ensures SkipOf(evs, buf).n == -1
  {
    hide LineOf, SkipOf, Data, AfterFault;
    var r := LineOf(evs, buf);
    SkipUnfold(evs, buf);
    Stopped(r.rest, r.buf);
    SkipUnfold(r.rest, r.buf);
  }

  lemma {:induction false} BlockScanned(ls: seq<string>, tail: string, evs: seq<Event>, buf: string)
    requires |buf| > 1 && (forall i | 0 <= i < |ls| :: NonBlank(ls[i])) && LinesAhead(Block(ls), tail, evs)
    ensures |Block(ls)| >= 2 && SkipAt(SkipOf(evs, buf), |Block(ls)|, evs)
    decreases |ls|
  {
    hide *;
    BlockFirst(ls);
    if ls == [] {
      BlockScanEnd(tail, evs, buf);
    } else {
      var l, b, r := ls[0], Block(ls[1..]), LineOf(evs, buf);
      LineTaken(l, b, tail, evs, buf);
      SkipUnfold(evs, buf);
      if Reach(evs) >= |l| + 2 {
        LineParts(l, b, tail, evs, r);
        BlockScanned(ls[1..], tail, r.rest, r.buf);
        SkipFurther(SkipOf(evs, buf), |l| + 2, |b|, evs, r.rest);
      } else {
        if Reach(evs) > 0 { CutBlock(l, b, evs, buf); }
        NotSkipped(SkipOf(evs, buf), |Block(ls)|, evs);
      }
    }
  }

  lemma LineParts(l: string, b: string, tail: string, evs: seq<Event>, r: Line)
    requires WholeLine(l, b, tail, evs, r) && |l| + 2 <= Reach(evs)
    ensures LinesAhead(b, tail, r.rest) && r.rest == evs[|l| + 2..] && Reach(r.rest) == Reach(evs) - (|l| + 2)
    ensures r.n >= 0 && (r.n == 0 <==> l == []) && (|l| < |r.buf| ==> CStr(r.buf) == CStr(l))
  {
    hide LinesAhead, CStr;
  }

  // ---------------------------------------------------------------- the head

  /** A head of n bytes as the reader finds it, in the same three ways. */
  function HeadAt(h: Head, n: nat, evs: seq<Event>): HeadScan
    requires n > 0
  {
    if Reach(evs) >= n then Got(h, evs[n..])
    else if Reach(evs) == n - 1 then Got(h, AfterFault(evs[Reach(evs)..]))
    else NoHead
  }

  lemma HeadFurther(h: Head, m: nat, n: nat, evs: seq<Event>, rest: seq<Event>)
    requires m <= Reach(evs) && rest == evs[m..] && n > 0
    ensures HeadAt(h, n, rest) == HeadAt(h, m + n, evs)
  {
    hide Front, AfterFault;
    FrontSplit(evs, m);
    assert m + n <= |evs| ==> evs[m..][n..] == evs[m + n..];
    assert evs[m..][Reach(evs) - m..] == evs[Reach(evs)..];
  }

  lemma NotReached(h: Head, n: nat, evs: seq<Event>)
    requires Reach(evs) + 1 < n
    ensures HeadAt(h, n, evs) == NoHead
  {}

  lemma LongBuffer(buf: string)
    requires |buf| == HEAD_LINE_MAX
    ensures |buf| > 1
  {}

  lemma SameField(h: Head, a: string, b: string)
    requires CStr(a) == CStr(b)
    ensures ApplyField(h, a) == ApplyField(h, b)
  {}

  /** One unfolding of the header loop. */
  lemma FieldsUnfold(evs: seq<Event>, buf: string, h: Head, count: nat)
    requires buf != [] && count <= MAX_FIELDS
    ensures var l := LineOf(evs, buf);
            FieldsOf(evs, buf, h, count)
            == if count == MAX_FIELDS || l.n < 0 then NoHead
               else if l.n == 0 then Got(h, l.rest)
               else FieldsOf(l.rest, TakenApart(l.buf), ApplyField(h, l.buf), count + 1)
  {
    hide LineOf, ApplyField, TakenApart;
  }

  lemma NoFields(evs: seq<Event>, buf: string, h: Head, count: nat)
    requires |buf| > 1 && Data(evs) == [] && count <= MAX_FIELDS
    ensures FieldsOf(evs, buf, h, count) == NoHead
  {
    hide LineOf, FieldsOf, Data;
    Stopped(evs, buf);
    FieldsUnfold(evs, buf, h, count);
  }

  lemma FieldFirst(fs: seq<Field>, m: Meaning, h: Head)
    requires fs != [] && Says(fs[0], m)
    ensures var l, b := FieldLine(fs[0]), FieldsWire(fs[1..]);
      && FieldsWire(fs) == LineWire(l) + b && |b| >= 2 && |FieldsWire(fs)| == |l| + 2 + |b|
      && OneLine(l) && l != [] && |l| < HEAD_LINE_MAX && MeaningOk(m) && ApplyField(h, l) == Effect(h, m)
  {
    FieldLineOk(fs[0], m);
    FieldApplied(h, fs[0], m);
    hide FieldLine, ApplyField, Effect, Says, Lacks;
  }

  lemma FieldLineOk(f: Field, m: Meaning)
    requires Says(f, m)
    ensures OneLine(FieldLine(f)) && FieldLine(f) != [] && |FieldLine(f)| < HEAD_LINE_MAX && MeaningOk(m)
  {
    FieldSplit(f);
    hide FieldLine, Means, Lacks;
  }

  lemma FieldsScanEnd(h: Head, count: nat, tail: string, evs: seq<Event>, buf: string)
    requires count <= MAX_FIELDS && |buf| > 1 && LinesAhead(LineWire([]) + [], tail, evs)
    ensures FieldsOf(evs, buf, h, count) == if count == MAX_FIELDS then NoHead else HeadAt(h, 2, evs)
  {
    hide LinesAhead, LineOf, FieldsOf, Front, AfterFault, Data, LineWire;
    FieldsUnfold(evs, buf, h, count);
    LineTaken([], [], tail, evs, buf);
  }

  lemma CutField(l: string, b: string, evs: seq<Event>, buf: string, h: Head, count: nat)
    requires |buf| > 1 && count <= MAX_FIELDS && l != [] && b != [] && CutLine(l, b, evs, LineOf(evs, buf))
    ensures FieldsOf(evs, buf, h, count) == NoHead
  {
    hide LineOf, FieldsOf, Data, AfterFault, TakenApart, ApplyField;
    var r := LineOf(evs, buf);
    FieldsUnfold(evs, buf, h, count);
    if count < MAX_FIELDS { NoFields(r.rest, TakenApart(r.buf), ApplyField(h, r.buf), count + 1); }
  }

  lemma TooMany(evs: seq<Event>, buf: string, h: Head)
    requires buf != []
    ensures FieldsOf(evs, buf, h, MAX_FIELDS) == NoHead
  {}

  /** A field line read whole is folded into the record. */
  lemma FieldTaken(l: string, evs: seq<Event>, buf: string, h: Head, count: nat, next: Head)
    requires buf != [] && count < MAX_FIELDS && ApplyField(h, l) == next
    requires var r := LineOf(evs, buf); r.n > 0 && CStr(r.buf) == CStr(l)
    ensures var r := LineOf(evs, buf);
      FieldsOf(evs, buf, h, count) == FieldsOf(r.rest, TakenApart(r.buf), next, count + 1)
  {
    hide LineOf, FieldsOf, ApplyField, TakenApart, CStr;
    FieldsUnfold(evs, buf, h, count);
    SameField(h, LineOf(evs, buf).buf, l);
  }

  lemma MeaningsOk(fs: seq<Field>, ms: seq<Meaning>)
    requires |fs| == |ms| && forall i | 0 <= i < |fs| :: Says(fs[i], ms[i])
    ensures AllMeaningsOk(ms)
  {
    forall i | 0 <= i < |ms| ensures MeaningOk(ms[i]) { assert Says(fs[i], ms[i]); }
  }

  lemma MeaningFirst(h: Head, ms: seq<Meaning>)
    requires AllMeaningsOk(ms)
    ensures ms == [] ==> HeadFrom(h, ms) == h
    ensures ms != [] ==>
      MeaningOk(ms[0]) && AllMeaningsOk(ms[1..]) && HeadFrom(h, ms) == HeadFrom(Effect(h, ms[0]), ms[1..])
  {
    hide MeaningOk, Effect;
  }

  lemma FieldsEmpty()
    ensures FieldsWire([]) == LineWire([]) + [] && |FieldsWire([])| == 2
  {}

  /** The header block of a response: the record its fields describe, with the reader right behind the block, or inside
      its last line terminator if a receive failed there; and no head if one failed in front of a line or for good. */
  lemma {:induction false} FieldsScanned(fs: seq<Field>, ms: seq<Meaning>, h: Head, count: nat, tail: string,
                                         evs: seq<Event>, buf: string)
    requires |fs| == |ms| && count <= MAX_FIELDS && |buf| == HEAD_LINE_MAX
    requires (forall i | 0 <= i < |fs| :: Says(fs[i], ms[i])) && LinesAhead(FieldsWire(fs), tail, evs)
    ensures AllMeaningsOk(ms) && |FieldsWire(fs)| >= 2
    ensures FieldsOf(evs, buf, h, count)
         == if count + |fs| >= MAX_FIELDS then NoHead else HeadAt(HeadFrom(h, ms), |FieldsWire(fs)|, evs)
    decreases |fs|, 1
  {
    hide *;
    LongBuffer(buf);
    MeaningsOk(fs, ms);
    MeaningFirst(h, ms);
    if fs == [] {
      FieldsEmpty();
      FieldsScanEnd(h, count, tail, evs, buf);
    } else {
      FieldFirst(fs, ms[0], h);
      FieldsScanNext(fs, ms, h, count, tail, evs, buf);
    }
  }

  lemma {:induction false} FieldsScanNext(fs: seq<Field>, ms: seq<Meaning>, h: Head, count: nat, tail: string,
                                          evs: seq<Event>, buf: string)
    requires |fs| == |ms| > 0 && count <= MAX_FIELDS && |buf| == HEAD_LINE_MAX
    requires (forall i | 0 <= i < |fs| :: Says(fs[i], ms[i])) && LinesAhead(FieldsWire(fs), tail, evs)
    requires MeaningOk(ms[0]) && AllMeaningsOk(ms) && AllMeaningsOk(ms[1..])
    requires HeadFrom(h, ms) == HeadFrom(Effect(h, ms[0]), ms[1..])
    requires var l, b := FieldLine(fs[0]), FieldsWire(fs[1..]);
      && FieldsWire(fs) == LineWire(l) + b && |b| >= 2 && |FieldsWire(fs)| == |l| + 2 + |b|
      && OneLine(l) && l != [] && |l| < |buf| && ApplyField(h, l) == Effect(h, ms[0])
    ensures FieldsOf(evs, buf, h, count)
         == if count + |fs| >= MAX_FIELDS then NoHead else HeadAt(HeadFrom(h, ms), |FieldsWire(fs)|, evs)
    decreases |fs|, 0
  {
    hide *;
    LongBuffer(buf);
    var l, b, r := FieldLine(fs[0]), FieldsWire(fs[1..]), LineOf(evs, buf);
    LineTaken(l, b, tail, evs, buf);
    if count == MAX_FIELDS {
      TooMany(evs, buf, h);
    } else if Reach(evs) >= |l| + 2 {
      LineParts(l, b, tail, evs, r);
      FieldTaken(l, evs, buf, h, count, Effect(h, ms[0]));
      FieldsScanned(fs[1..], ms[1..], Effect(h, ms[0]), count + 1, tail, r.rest, TakenApart(r.buf));
      HeadFurther(HeadFrom(h, ms), |l| + 2, |b|, evs, r.rest);
    } else {
      if Reach(evs) > 0 { CutField(l, b, evs, buf, h, count); } else { FieldsUnfold(evs, buf, h, count); }
      NotReached(HeadFrom(h, ms), |FieldsWire(fs)|, evs);
    }
  }

  lemma SameStatus(a: string, b: string)
    requires CStr(a) == CStr(b)
    ensures StatusLineOk(a) == StatusLineOk(b)
    ensures StatusLineOk(a) ==> StatusOf(a) == StatusOf(b) && a[7] == b[7]
  {
    hide AtoI, CStr;
    var c := CStr(a);
    if StatusLineOk(a) { assert forall i | 0 <= i < 8 :: a[i] == c[i] == b[i]; }
    if StatusLineOk(b) { assert forall i | 0 <= i < 8 :: a[i] == c[i] == b[i]; }
  }

  /** The record at the status line. */
  function StatusHead(l: string): Head
    requires StatusLineOk(l)
  {
    EmptyHead(StatusOf(l), l[7] == '0')
  }

  lemma HeadUnfold(evs: seq<Event>, buf: string)
    requires buf != []
    ensures var r := LineOf(evs, buf);
            HeadScanOf(evs, buf) ==
              if r.n <= 0 || !StatusLineOk(r.buf) then NoHead
              else if StatusOf(r.buf) >= 200 then FieldsOf(r.rest, r.buf, StatusHead(r.buf), 0)
              else var s := SkipOf(r.rest, r.buf); if s.n < 0 then NoHead else HeadScanOf(s.rest, s.buf)
  {
    hide LineOf, StatusLineOk, StatusOf, FieldsOf, SkipOf;
  }

  lemma NoResponse(evs: seq<Event>, buf: string)
    requires |buf| > 1 && Data(evs) == []
    ensures HeadScanOf(evs, buf) == NoHead
  {
    hide LineOf, HeadScanOf, Data;
    Stopped(evs, buf);
    HeadUnfold(evs, buf);
  }

  /** A status line cut short by the end of everything is followed by nothing. */
  lemma CutStatus(l: string, b: string, evs: seq<Event>, buf: string)
    requires |buf| > 1 && b != [] && CutLine(l, b, evs, LineOf(evs, buf))
    ensures HeadScanOf(evs, buf) == NoHead
  {
    hide LineOf, HeadScanOf, SkipOf, FieldsOf, StatusLineOk, StatusOf, AfterFault, Data;
    var r := LineOf(evs, buf);
    HeadUnfold(evs, buf);
    Stopped(r.rest, r.buf);
    SkipUnfold(r.rest, r.buf);
    if StatusLineOk(r.buf) { NoFields(r.rest, r.buf, StatusHead(r.buf), 0); }
  }

  /** A status line read whole says what was sent. */
  lemma StatusTaken(l: string, evs: seq<Event>, buf: string)
    requires |buf| > 1 && StatusLineOk(l)
    requires var r := LineOf(evs, buf); r.n > 0 && CStr(r.buf) == CStr(l)
    ensures var r := LineOf(evs, buf);
            HeadScanOf(evs, buf) ==
              if StatusOf(l) >= 200 then FieldsOf(r.rest, r.buf, StatusHead(l), 0)
              else var s := SkipOf(r.rest, r.buf); if s.n < 0 then NoHead else HeadScanOf(s.rest, s.buf)
  {
    hide LineOf, HeadScanOf, SkipOf, FieldsOf, StatusLineOk, StatusOf, CStr;
    HeadUnfold(evs, buf);
    SameStatus(LineOf(evs, buf).buf, l);
  }

  lemma StatusShape(l: string, lo: nat, hi: nat)
    requires StatusText(l, lo, hi) && hi <= 1000
    ensures OneLine(l) && l != [] && |l| < HEAD_LINE_MAX && StatusLineOk(l) && lo <= StatusOf(l) < hi
    ensures StatusHead(l) == EmptyHead(Value(l[9..12], 10), l[7] == '0')
  {
    StatusRead(l, lo, hi);
    hide StatusOf, StatusLineOk, Value;
  }

  // ---------------------------------------------------------------- without interim responses

  lemma PlainHead(r: Response)
    requires MessageHeadOk(r) && r.interim == []
    ensures var l, b := r.status, FieldsWire(r.fields);
      && HeadWire(r) == LineWire(l) + b && |b| >= 2 && |HeadWire(r)| == |l| + 2 + |b|
      && StatusText(l, 200, 1000)
  {
    hide Says, Value, FieldLine, StatusText;
    assert InterimWire([]) == [];
  }

  lemma PlainFields(r: Response, tail: string, evs: seq<Event>, buf: string)
    requires MessageHeadOk(r) && |buf| == HEAD_LINE_MAX && LinesAhead(FieldsWire(r.fields), tail, evs)
    ensures StatusLineOk(r.status) && |FieldsWire(r.fields)| >= 2
    ensures FieldsOf(evs, buf, StatusHead(r.status), 0)
         == if |r.fields| >= MAX_FIELDS then NoHead else HeadAt(HeadOf(r), |FieldsWire(r.fields)|, evs)
  {
    StatusShape(r.status, 200, 1000);
    hide FieldsOf, FieldsWire, HeadAt, Says, LinesAhead, Value, StatusText, InterimOk, StatusOf, StatusLineOk,
      StatusHead;
    FieldsScanned(r.fields, r.meanings, StatusHead(r.status), 0, tail, evs, buf);
  }

  lemma HeadScanEnd(r: Response, tail: string, evs: seq<Event>, buf: string)
    requires MessageHeadOk(r) && r.interim == [] && |buf| == HEAD_LINE_MAX && LinesAhead(HeadWire(r), tail, evs)
    ensures |HeadWire(r)| >= 2
    ensures HeadScanOf(evs, buf) == if |r.fields| >= MAX_FIELDS then NoHead else HeadAt(HeadOf(r), |HeadWire(r)|, evs)
  {
    hide *;
    LongBuffer(buf);
    PlainHead(r);
    StatusShape(r.status, 200, 1000);
    var l, b, s := r.status, FieldsWire(r.fields), LineOf(evs, buf);
    StatusScanned(l, 200, 1000, b, tail, evs, buf);
    if Reach(evs) >= |l| + 2 {
      StatusFinal(l, b, tail, evs, buf);
      PlainFields(r, tail, s.rest, s.buf);
      HeadFurther(HeadOf(r), |l| + 2, |b|, evs, s.rest);
    } else {
      NotReached(HeadOf(r), |HeadWire(r)|, evs);
    }
  }

  lemma StatusFinal(l: string, b: string, tail: string, evs: seq<Event>, buf: string)
    requires StatusLineOk(l) && StatusOf(l) >= 200 && buf != [] && StatusDone(l, b, tail, evs, buf, LineOf(evs, buf))
    ensures var r := LineOf(evs, buf);
      && |l| + 2 <= Reach(evs) && r.rest == evs[|l| + 2..] && LinesAhead(b, tail, r.rest)
      && HeadScanOf(evs, buf) == FieldsOf(r.rest, r.buf, StatusHead(l), 0)
  {
    hide LineOf, LinesAhead, HeadScanOf, FieldsOf, StatusOf, StatusLineOk;
  }

  // ---------------------------------------------------------------- behind interim responses

  lemma {:induction false} BlockEnds(ls: seq<string>)
    ensures |Block(ls)| >= 2 && Block(ls)[|Block(ls)| - 1] == '\n' && Block(ls)[|Block(ls)| - 2] == '\r'
    decreases |ls|
  {
    if ls != [] { BlockEnds(ls[1..]); }
  }

  lemma InterimParts(r: Response)
    requires r.interim != [] && InterimOk(r.interim[0])
    ensures var b, w := r.interim[0], HeadWire(r.(interim := r.interim[1..]));
      && b != [] && StatusText(b[0], 100, 200) && (forall i | 0 <= i < |b[1..]| :: NonBlank(b[1..][i]))
      && HeadWire(r) == LineWire(b[0]) + (Block(b[1..]) + w) && |Block(b[1..])| >= 2
      && |HeadWire(r)| == |b[0]| + 2 + |Block(b[1..])| + |w|
  {
    hide FieldLine, Block, StatusText;
    var b, w := r.interim[0], HeadWire(r.(interim := r.interim[1..]));
    InterimCons(r, []);
    assert HeadWire(r) + [] == HeadWire(r) && w + [] == w;
    BlockEnds(b[1..]);
    forall i | 0 <= i < |b[1..]| ensures NonBlank(b[1..][i]) { assert LineOk(b[i + 1]); }
  }

  lemma InterimOff(r: Response)
    requires MessageHeadOk(r) && r.interim != []
    ensures var r1 := r.(interim := r.interim[1..]);
            MessageHeadOk(r1) && HeadOf(r) == HeadOf(r1) && r1.fields == r.fields && |HeadWire(r1)| >= 2
    ensures InterimOk(r.interim[0])
  {
    hide InterimOk, StatusText, Says;
  }

  /** The rest of an interim response, w being what comes behind it. */
  lemma InterimSkipped(ls: seq<string>, w: string, tail: string, evs: seq<Event>, buf: string)
    requires |buf| > 1 && |w| >= 2 && (forall i | 0 <= i < |ls| :: NonBlank(ls[i]))
      && LinesAhead(Block(ls) + w, tail, evs)
    ensures var s, n := SkipOf(evs, buf), |Block(ls)|;
      || (Reach(evs) < n && (s.n == -1 || HeadScanOf(s.rest, s.buf) == NoHead))
      || (Reach(evs) >= n && s.n == 0 && s.rest == evs[n..] && LinesAhead(w, tail, s.rest)
        && Reach(s.rest) == Reach(evs) - n)
  {
    BlockEnds(ls);
    hide NonBlank, LinesAhead, Front, Data, SkipOf, AfterFault, HeadScanOf, Block;
    FrontLines(Block(ls), w, tail, evs);
    BlockScanned(ls, w + tail, evs, buf);
    var s := SkipOf(evs, buf);
    if Reach(evs) >= |Block(ls)| {
      BackLines(Block(ls), w, tail, evs);
    } else if Reach(evs) == |Block(ls)| - 1 {
      AfterEnd(evs);
      NoResponse(s.rest, s.buf);
    }
  }

  /** A status line in front of lines b: read as it was sent, or there is no head. */
  lemma StatusScanned(l: string, lo: nat, hi: nat, b: string, tail: string, evs: seq<Event>, buf: string)
    requires |buf| == HEAD_LINE_MAX && |b| >= 2 && StatusText(l, lo, hi) && hi <= 1000
    requires LinesAhead(LineWire(l) + b, tail, evs)
    ensures StatusLineOk(l)
    ensures if Reach(evs) < |l| + 2 then HeadScanOf(evs, buf) == NoHead
            else StatusDone(l, b, tail, evs, buf, LineOf(evs, buf))
  {
    hide *;
    LongBuffer(buf);
    StatusShape(l, lo, hi);
    LineTaken(l, b, tail, evs, buf);
    if Reach(evs) == 0 {
      HeadUnfold(evs, buf);
    } else if Reach(evs) < |l| + 2 {
      CutStatus(l, b, evs, buf);
    } else {
      LineParts(l, b, tail, evs, LineOf(evs, buf));
      StatusTaken(l, evs, buf);
      StatusDoneSo(l, b, tail, evs, buf);
    }
  }

  predicate StatusDone(l: string, b: string, tail: string, evs: seq<Event>, buf: string, r: Line)
    requires StatusLineOk(l) && buf != []
  {
    && |r.buf| == |buf| && |l| + 2 <= Reach(evs) && r.rest == evs[|l| + 2..] && LinesAhead(b, tail, r.rest)
    && Reach(r.rest) == Reach(evs) - (|l| + 2)
    && HeadScanOf(evs, buf) ==
         if StatusOf(l) >= 200 then FieldsOf(r.rest, r.buf, StatusHead(l), 0)
         else var s := SkipOf(r.rest, r.buf); if s.n < 0 then NoHead else HeadScanOf(s.rest, s.buf)
  }

  lemma StatusDoneSo(l: string, b: string, tail: string, evs: seq<Event>, buf: string)
    requires StatusLineOk(l) && buf != []
    requires var r := LineOf(evs, buf);
      && |l| + 2 <= Reach(evs) && r.rest == evs[|l| + 2..] && LinesAhead(b, tail, r.rest)
      && Reach(r.rest) == Reach(evs) - (|l| + 2)
      && HeadScanOf(evs, buf) ==
           if StatusOf(l) >= 200 then FieldsOf(r.rest, r.buf, StatusHead(l), 0)
           else var s := SkipOf(r.rest, r.buf); if s.n < 0 then NoHead else HeadScanOf(s.rest, s.buf)
    ensures StatusDone(l, b, tail, evs, buf, LineOf(evs, buf))
  {}

  /** A whole interim response, w being what comes behind it: skipped, or there is no head. */
  lemma InterimTaken(l: string, ls: seq<string>, w: string, tail: string, evs: seq<Event>, buf: string)
    returns (t: Line)
    requires |buf| == HEAD_LINE_MAX && |w| >= 2 && StatusText(l, 100, 200) && |Block(ls)| >= 2
    requires forall i | 0 <= i < |ls| :: NonBlank(ls[i])
    requires LinesAhead(LineWire(l) + (Block(ls) + w), tail, evs)
    ensures if Reach(evs) < |l| + 2 + |Block(ls)| then HeadScanOf(evs, buf) == NoHead
            else InterimDone(|l| + 2 + |Block(ls)|, w, tail, evs, buf, t)
  {
    hide *;
    LongBuffer(buf);
    StatusShape(l, 100, 200);
    StatusScanned(l, 100, 200, Block(ls) + w, tail, evs, buf);
    t := LineOf(evs, buf);
    if Reach(evs) >= |l| + 2 {
      StatusInterim(l, Block(ls) + w, tail, evs, buf);
      InterimRest(ls, w, tail, |l| + 2, evs, buf, t);
      t := SkipOf(t.rest, t.buf);
    }
  }

  /** Behind the status line of an interim response. */
  predicate AtInterim(n: nat, s: string, tail: string, evs: seq<Event>, buf: string, r: Line)
    requires buf != []
  {
    && |r.buf| == |buf| && n <= Reach(evs) && r.rest == evs[n..] && LinesAhead(s, tail, r.rest)
    && Reach(r.rest) == Reach(evs) - n
    && HeadScanOf(evs, buf) == var s := SkipOf(r.rest, r.buf); if s.n < 0 then NoHead else HeadScanOf(s.rest, s.buf)
  }

  lemma StatusInterim(l: string, b: string, tail: string, evs: seq<Event>, buf: string)
    requires StatusLineOk(l) && StatusOf(l) < 200 && buf != [] && StatusDone(l, b, tail, evs, buf, LineOf(evs, buf))
    ensures AtInterim(|l| + 2, b, tail, evs, buf, LineOf(evs, buf))
  {
    hide LineOf, LinesAhead, HeadScanOf, SkipOf, StatusOf, StatusLineOk;
  }

  lemma InterimRest(ls: seq<string>, w: string, tail: string, n: nat, evs: seq<Event>, buf: string, r: Line)
    requires |buf| == HEAD_LINE_MAX && |w| >= 2 && (forall i | 0 <= i < |ls| :: NonBlank(ls[i]))
    requires AtInterim(n, Block(ls) + w, tail, evs, buf, r)
    ensures if Reach(evs) < n + |Block(ls)| then HeadScanOf(evs, buf) == NoHead
            else InterimDone(n + |Block(ls)|, w, tail, evs, buf, SkipOf(r.rest, r.buf))
  {
    hide NonBlank, LinesAhead, SkipOf, HeadScanOf, Block, Reach;
    InterimSkipped(ls, w, tail, r.rest, r.buf);
    if Reach(evs) >= n + |Block(ls)| { Twice(evs, n, |Block(ls)|); }
  }

  /** n bytes have been skipped and the head goes on with the lines w. */
  predicate InterimDone(n: nat, w: string, tail: string, evs: seq<Event>, buf: string, t: Line)
    requires buf != []
  {
    && n <= |evs| && |t.buf| == |buf| && t.rest == evs[n..] && LinesAhead(w, tail, t.rest)
    && HeadScanOf(evs, buf) == HeadScanOf(t.rest, t.buf)
  }

  lemma Twice(evs: seq<Event>, m: nat, n: nat)
    requires m + n <= |evs|
    ensures evs[m..][n..] == evs[m + n..]
  {}

  /** The head of any response, interim responses in front: read as it was sent when no receive fails in it; given up
      when one fails in front of a line or for good; and read one byte short when one fails inside the terminator of its
      blank line. */
  lemma {:induction false} HeadScanned(r: Response, tail: string, evs: seq<Event>, buf: string)
    requires MessageHeadOk(r) && |buf| == HEAD_LINE_MAX && LinesAhead(HeadWire(r), tail, evs)
    ensures |HeadWire(r)| >= 2
    ensures HeadScanOf(evs, buf) == if |r.fields| >= MAX_FIELDS then NoHead else HeadAt(HeadOf(r), |HeadWire(r)|, evs)
    decreases |r.interim|, 1
  {
    hide *;
    if r.interim == [] {
      HeadScanEnd(r, tail, evs, buf);
    } else {
      InterimOff(r);
      InterimParts(r);
      HeadScanNext(r, tail, evs, buf);
    }
  }

  lemma {:induction false} HeadScanNext(r: Response, tail: string, evs: seq<Event>, buf: string)
    requires MessageHeadOk(r) && |buf| == HEAD_LINE_MAX && LinesAhead(HeadWire(r), tail, evs) && r.interim != []
    requires var b, r1 := r.interim[0], r.(interim := r.interim[1..]);
      && MessageHeadOk(r1) && HeadOf(r) == HeadOf(r1) && r1.fields == r.fields && |HeadWire(r1)| >= 2
      && b != [] && StatusText(b[0], 100, 200) && (forall i | 0 <= i < |b[1..]| :: NonBlank(b[1..][i]))
      && HeadWire(r) == LineWire(b[0]) + (Block(b[1..]) + HeadWire(r1)) && |Block(b[1..])| >= 2
      && |HeadWire(r)| == |b[0]| + 2 + |Block(b[1..])| + |HeadWire(r1)|
    ensures HeadScanOf(evs, buf) == if |r.fields| >= MAX_FIELDS then NoHead else HeadAt(HeadOf(r), |HeadWire(r)|, evs)
    decreases |r.interim|, 0
  {
    hide *;
    LongBuffer(buf);
    var b, r1 := r.interim[0], r.(interim := r.interim[1..]);
    var n := |b[0]| + 2 + |Block(b[1..])|;
    var t := InterimTaken(b[0], b[1..], HeadWire(r1), tail, evs, buf);
    if Reach(evs) >= n {
      InterimParted(n, HeadWire(r1), tail, evs, buf, t);
      HeadScanned(r1, tail, t.rest, t.buf);
      HeadFurther(HeadOf(r), n, |HeadWire(r1)|, evs, t.rest);
    } else {
      NotReached(HeadOf(r), |HeadWire(r)|, evs);
    }
  }

  lemma InterimParted(n: nat, w: string, tail: string, evs: seq<Event>, buf: string, t: Line)
    requires buf != [] && InterimDone(n, w, tail, evs, buf, t)
    ensures n <= |evs| && |t.buf| == |buf| && t.rest == evs[n..] && LinesAhead(w, tail, t.rest)
    ensures HeadScanOf(evs, buf) == HeadScanOf(t.rest, t.buf)
  {
    hide LinesAhead, HeadScanOf;
  }
}
