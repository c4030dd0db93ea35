/** A line of text on a connection whose receives may fail: what conn_read_line makes of it, by where the first failure
    falls. */
module HttpLines {
  import opened Text
  import opened HttpFraming
  import opened HttpEvents
  import W = HttpWire

  // ---------------------------------------------------------------- bytes and events

  lemma ByteFirst(evs: seq<Event>)
    requires Front(evs) != []
    ensures evs != [] && evs[0] == Byte(Front(evs)[0])
    ensures Front(evs)[1..] == Front(evs[1..]) && Data(evs) == [Front(evs)[0]] + Data(evs[1..])
  {}

  lemma {:induction false} DataSplit(evs: seq<Event>, k: nat)
    requires k <= |Front(evs)|
    ensures Data(evs) == Front(evs)[..k] + Data(evs[k..])
    decreases k
  {
    hide Data, Front;
    if k == 0 {
      assert evs[0..] == evs;
    } else {
      ByteFirst(evs);
      DataSplit(evs[1..], k - 1);
      assert evs[k..] == evs[1..][k - 1..];
      assert Front(evs)[..k] == [Front(evs)[0]] + Front(evs)[1..][..k - 1];
    }
  }

  lemma NoData(evs: seq<Event>)
    requires Data(evs) == []
    ensures Front(evs) == [] && Data(AfterFault(evs)) == []
  {
    if evs != [] { assert evs[0].Fault?; }
  }

  /** The events deliver a text, or the beginning of one. */
  predicate Carries(evs: seq<Event>, text: string) { Data(evs) <= text }

  lemma FrontCarried(evs: seq<Event>, text: string)
    requires Carries(evs, text)
    ensures Front(evs) <= text
  {
    DataSplit(evs, |Front(evs)|);
  }

  lemma RestCarried(evs: seq<Event>, a: string, b: string)
    requires Carries(evs, a + b) && |Front(evs)| >= |a|
    ensures Carries(evs[|a|..], b) && Front(evs[|a|..]) == Front(evs)[|a|..] && a <= Front(evs)
  {
    DataSplit(evs, |a|);
    FrontCarried(evs, a + b);
    FrontSplit(evs, |a|);
    assert Front(evs)[..|a|] == (a + b)[..|a|] == a;
    assert (a + b)[|a|..] == b;
    assert Data(evs) == a + Data(evs[|a|..]);
    assert Data(evs)[|a|..] == Data(evs[|a|..]);
  }

  // ---------------------------------------------------------------- one line

  /** A line buffer with a text in it, without and with its terminator. */
  function Laid(t: string, buf: string): (r: string)
    requires |t| < |buf|
    ensures |r| == |buf|
  {
    t + buf[|t|..]
  }

  function Terminated(t: string, buf: string): (r: string)
    requires |t| < |buf|
    ensures |r| == |buf|
  {
    t + ['\0'] + buf[|t| + 1..]
  }

  lemma TerminatedText(t: string, buf: string)
    requires |t| < |buf|
    ensures CStr(Terminated(t, buf)) == CStr(t)
  {
    CStrThen(t, ['\0'] + buf[|t| + 1..]);
    hide CStr;
    var a := ['\0'];
    assert t + a + buf[|t| + 1..] == t + (a + buf[|t| + 1..]);
  }

  lemma {:induction false} CStrThen(t: string, more: string)
    requires more != [] && more[0] == '\0'
    ensures CStr(t + more) == CStr(t)
  {
    if t == [] {
      assert t + more == more;
    } else {
      assert (t + more)[0] == t[0] && (t + more)[1..] == t[1..] + more;
      CStrThen(t[1..], more);
    }
  }

  lemma LineGrows(s: string, c: char, max: nat)
    requires max > 1
    ensures LineText(s + [c], max) == LineText(s, max) + if c != '\r' && |LineText(s, max)| + 1 < max then [c] else []
  {
    assert (s + [c])[..|s|] == s;
  }

  /** A line in progress: the bytes s of it have been read. */
  lemma {:induction false} LineGoesOn(evs: seq<Event>, buf: string, s: string)
    requires |buf| > 1
    ensures var t := LineText(s, |buf|);
            var f := Front(evs);
            var j := IndexOf(f, '\n');
            var u := LineText(s + f[..j], |buf|);
            ScanLine(evs, Laid(t, buf), |t|, s != []) ==
              if j < |f| then Line(|u|, Terminated(u, buf), evs[j + 1..])
              else if s + f == [] then Line(-1, buf, AfterFault(evs))
              else Line(|u|, Laid(u, buf), AfterFault(evs[|f|..]))
    decreases |evs|
  {
    hide LineText, AfterFault, Front, ScanLine, Laid, Terminated;
    var f := Front(evs);
    if f == [] {
      LineStops(evs, buf, s);
    } else if f[0] == '\n' {
      LineEnds(evs, buf, s);
    } else {
      LineStep(evs, buf, s);
      LineGoesOn(evs[1..], buf, s + [f[0]]);
      ByteFirst(evs);
      Shifted(f, s, evs);
    }
  }

  lemma Shifted(f: string, s: string, evs: seq<Event>)
    requires f != [] && f[0] != '\n' && |f| <= |evs|
    ensures var j := IndexOf(f, '\n');
            && j > 0 && IndexOf(f[1..], '\n') == j - 1
            && s + [f[0]] + f[1..][..j - 1] == s + f[..j]
            && (j < |f| ==> evs[1..][j..] == evs[j + 1..])
    ensures evs[1..][|f[1..]|..] == evs[|f|..]
  {
    var j := IndexOf(f, '\n');
    assert j > 0 && IndexOf(f[1..], '\n') == j - 1;
    hide IndexOf;
    OneMore(f, s, j);
  }

  lemma OneMore(f: string, s: string, j: nat)
    requires 0 < j <= |f|
    ensures s + [f[0]] + f[1..][..j - 1] == s + f[..j]
  {
    assert f[..j] == [f[0]] + f[1..][..j - 1];
  }

  lemma LineStops(evs: seq<Event>, buf: string, s: string)
    requires |buf| > 1 && Front(evs) == []
    ensures var t := LineText(s, |buf|);
            ScanLine(evs, Laid(t, buf), |t|, s != [])
            == if s == [] then Line(-1, buf, AfterFault(evs)) else Line(|t|, Laid(t, buf), AfterFault(evs))
    ensures s + Front(evs)[..0] == s && evs[0..] == evs && IndexOf(Front(evs), '\n') == 0
  {
    if s == [] { assert Laid(LineText(s, |buf|), buf) == buf; }
  }

  lemma LineEnds(evs: seq<Event>, buf: string, s: string)
    requires |buf| > 1 && Front(evs) != [] && Front(evs)[0] == '\n'
    ensures var t := LineText(s, |buf|);
            ScanLine(evs, Laid(t, buf), |t|, s != []) == Line(|t|, Terminated(t, buf), evs[1..])
    ensures IndexOf(Front(evs), '\n') == 0 && s + Front(evs)[..0] == s
  {
    var t := LineText(s, |buf|);
    assert evs[0] == Byte('\n');
    assert Laid(t, buf)[|t| := '\0'] == Terminated(t, buf);
  }

  lemma LineStep(evs: seq<Event>, buf: string, s: string)
    requires |buf| > 1 && Front(evs) != [] && Front(evs)[0] != '\n'
    ensures var t := LineText(s, |buf|);
            var t1 := LineText(s + [Front(evs)[0]], |buf|);
            ScanLine(evs, Laid(t, buf), |t|, s != []) == ScanLine(evs[1..], Laid(t1, buf), |t1|, true)
  {
    hide LineText, Front;
    var t, c := LineText(s, |buf|), Front(evs)[0];
    LineGrows(s, c, |buf|);
    assert evs[0] == Byte(c);
    if c != '\r' && |t| + 1 < |buf| {
      assert Laid(t, buf)[|t| := c] == Laid(t + [c], buf);
    } else {
      assert t + [] == t;
    }
  }

  /** What conn_read_line returns: the line up to its line feed; -1 when a receive fails in front of it; and what has
      been read when a receive fails within it, without terminator. */
  lemma LineRead(evs: seq<Event>, buf: string)
    requires |buf| > 1
    ensures var f := Front(evs);
            var j := IndexOf(f, '\n');
            var t := LineText(f[..j], |buf|);
            LineOf(evs, buf) ==
              if j < |f| then Line(|t|, Terminated(t, buf), evs[j + 1..])
              else if f == [] then Line(-1, buf, AfterFault(evs))
              else Line(|t|, Laid(t, buf), AfterFault(evs[|f|..]))
  {
    hide LineText, IndexOf, Front, ScanLine, Laid, AfterFault;
    LineGoesOn(evs, buf, []);
    NoText(buf);
    var f := Front(evs);
    assert [] + f[..IndexOf(f, '\n')] == f[..IndexOf(f, '\n')] && [] + f == f;
  }

  lemma NoText(buf: string)
    requires |buf| > 1
    ensures LineText([], |buf|) == [] && Laid([], buf) == buf
  {}


  predicate OneLine(l: string) { Lacks(l, {'\r', '\n'}) }

  /** The same for a line as it is written on the wire. */
  lemma WireLineRead(l: string, tail: string, evs: seq<Event>, buf: string)
    requires |buf| > 1 && OneLine(l) && Carries(evs, W.LineWire(l) + tail)
    ensures var k := |Front(evs)|;
            LineOf(evs, buf) ==
              if k == 0 then Line(-1, buf, AfterFault(evs))
              else if k < |l| + 2 then
                var t := Clip(l[..if k < |l| then k else |l|], |buf|);
                Line(|t|, Laid(t, buf), AfterFault(evs[k..]))
              else Line(|Clip(l, |buf|)|, Terminated(Clip(l, |buf|), buf), evs[|l| + 2..])
  {
    hide LineText, StripCR, Front, AfterFault;
    LineRead(evs, buf);
    var f := Front(evs);
    var w := W.LineWire(l) + tail;
    FrontCarried(evs, w);
    assert forall i | 0 <= i < |f| :: f[i] == w[i];
    assert forall i | 0 <= i < |l| :: w[i] == l[i];
    assert w[|l|] == '\r' && w[|l| + 1] == '\n';
    if |f| >= |l| + 2 {
      assert IndexOf(f, '\n') == |l| + 1;
      assert f[..|l| + 1] == l + "\r";
      TextOf(l, "\r", |buf|);
    } else if f != [] {
      assert IndexOf(f, '\n') == |f|;
      var k := if |f| < |l| then |f| else |l|;
      assert f[..|f|] == f == l[..k] + if |f| <= |l| then [] else "\r";
      TextOf(l[..k], if |f| <= |l| then [] else "\r", |buf|);
    }
  }

  lemma TextOf(l: string, cr: string, max: nat)
    requires OneLine(l) && (cr == [] || cr == "\r") && max > 1
    ensures LineText(l + cr, max) == Clip(l, max)
  {
    StripCRClean(l);
    assert l + [] == l;
  }
}
