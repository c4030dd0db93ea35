/** The loops of http_source.c that read lines up to a blank one, on a connection whose receives may fail and be
    followed by more data (a receive timeout on a slow peer): the trailer section of a chunked body
    (src/http_source.c:1439), whose loop does not look at how it ended, and the header block
    (src/http_source.c:1363-1372). Where they stop is decided by the line feeds and the failures alone. */
module TrailerFaults {
  import opened Text
  import opened HttpFraming
  import opened HttpEvents
  import opened HttpLines
  import opened HttpWire

  /** How far conn_read_line is in its line: no byte yet, only carriage returns, or some text. */
  datatype Progress = Start | Blank | Text

  /** What is left after "while (conn_read_line(...) > 0) {}". A failed receive ends the current line early; a line
      without text ends the loop, and so does a failure before any byte. */
  function Drain(evs: seq<Event>, p: Progress): (rest: seq<Event>)
    ensures |rest| <= |evs|
  {
    if evs == [] then []
    else if evs[0].Fault? || evs[0].c == '\n' then (if p.Text? then Drain(evs[1..], Start) else evs[1..])
    else if evs[0].c == '\r' then Drain(evs[1..], if p.Text? then Text else Blank)
    else Drain(evs[1..], Text)
  }

  /** The same section read without regard to failures: up to the line feed of its blank line. */
  function Section(evs: seq<Event>, p: Progress): (rest: Option<seq<Event>>)
    ensures rest.Some? ==> |rest.value| <= |evs|
  {
    if evs == [] then None
    else if evs[0].Fault? then Section(evs[1..], p)
    else if evs[0].c == '\n' then (if p.Text? then Section(evs[1..], Start) else Some(evs[1..]))
    else if evs[0].c == '\r' then Section(evs[1..], if p.Text? then Text else Blank)
    else Section(evs[1..], Text)
  }

  /** The next thing in this line, carriage returns aside, is one of its characters. */
  predicate TextNext(evs: seq<Event>) {
    evs != [] && evs[0].Byte? && if evs[0].c == '\r' then TextNext(evs[1..]) else evs[0].c != '\n'
  }

  /** Every failure inside the section, the reader being at p, stands between two characters of one line with no other
      failure between them (in a line without stray carriage returns: directly between two characters), or nothing is
      delivered behind it. */
  predicate Harmless(evs: seq<Event>, p: Progress) {
    if evs == [] then true
    else if evs[0].Fault? then Data(evs[1..]) == [] || (p.Text? && TextNext(evs[1..]) && Harmless(evs[1..], Start))
    else if evs[0].c == '\n' then p.Text? ==> Harmless(evs[1..], Start)
    else Harmless(evs[1..], if evs[0].c == '\r' && !p.Text? then Blank else Text)
  }

  function Rank(p: Progress): nat { match p case Start => 0 case Blank => 1 case Text => 2 }

  /** A reader that has seen less text of the current line never reads further. */
  lemma {:induction false} NeverFurther(evs: seq<Event>, p: Progress, q: Progress)
    requires Rank(p) <= Rank(q) && Section(evs, q).Some?
    ensures |Data(Drain(evs, p))| >= |Data(Section(evs, q).value)|
  {
    if evs[0].Fault? || evs[0].c == '\n' {
      if p.Text? {
        NeverFurther(evs[1..], Start, if evs[0].Fault? then q else Start);
      } else if evs[0].Fault? {
        SectionShrinks(evs[1..], q);
      } else if q.Text? {
        SectionShrinks(evs[1..], Start);
      }
    } else if evs[0].c == '\r' {
      NeverFurther(evs[1..], if p.Text? then Text else Blank, if q.Text? then Text else Blank);
    } else {
      NeverFurther(evs[1..], Text, Text);
    }
  }

  /** Reading a section to its end takes at least the final line feed. */
  lemma {:induction false} SectionShrinks(evs: seq<Event>, q: Progress)
    requires Section(evs, q).Some?
    ensures |Data(evs)| > |Data(Section(evs, q).value)|
  {
    if evs[0].Fault? {
      SectionShrinks(evs[1..], q);
    } else if evs[0].c == '\n' {
      if q.Text? { SectionShrinks(evs[1..], Start); }
    } else {
      SectionShrinks(evs[1..], if evs[0].c != '\r' || q.Text? then Text else Blank);
    }
  }

  /** With a line's text behind it in truth but not in the reader's count, the line's end stops the reader early. */
  lemma {:induction false} StopsAtLineEnd(evs: seq<Event>, p: Progress)
    requires !p.Text? && Section(evs, Text).Some? && !TextNext(evs)
    ensures |Data(Drain(evs, p))| > |Data(Section(evs, Text).value)|
  {
    if evs[0].Fault? {
      SectionShrinks(evs[1..], Text);
    } else if evs[0].c == '\n' {
      SectionShrinks(evs[1..], Start);
    } else {
      StopsAtLineEnd(evs[1..], Blank);
    }
  }

  /** In front of a character of the line it does not matter what has been read of it. */
  lemma {:induction false} TextSame(evs: seq<Event>, p: Progress)
    requires TextNext(evs)
    ensures Section(evs, p) == Section(evs, Text)
  {
    if evs[0].c == '\r' { TextSame(evs[1..], if p.Text? then Text else Blank); }
  }

  /** The exact condition, for any bytes: the loop stops right behind the section if and only if every failed receive
      inside it is harmless. Otherwise bytes of the section are left for the next response. */
  lemma {:induction false} DrainExact(evs: seq<Event>, p: Progress)
    requires Section(evs, p).Some?
    ensures Data(Drain(evs, p)) == Data(Section(evs, p).value) <==> Harmless(evs, p)
  {
    if evs[0].Fault? {
      SectionShrinks(evs[1..], p);
      if p.Text? && TextNext(evs[1..]) {
        TextSame(evs[1..], Start);
        DrainExact(evs[1..], Start);
      } else if p.Text? {
        StopsAtLineEnd(evs[1..], Start);
      }
    } else if evs[0].c == '\n' {
      if p.Text? { DrainExact(evs[1..], Start); }
    } else {
      DrainExact(evs[1..], if evs[0].c == '\r' && !p.Text? then Blank else Text);
    }
  }

  /** Section on the bytes alone. */
  function SectionOf(d: string, p: Progress): Option<string> {
    if d == [] then None
    else if d[0] == '\n' then (if p.Text? then SectionOf(d[1..], Start) else Some(d[1..]))
    else if d[0] == '\r' then SectionOf(d[1..], if p.Text? then Text else Blank)
    else SectionOf(d[1..], Text)
  }

  lemma {:induction false} FaultsIgnored(evs: seq<Event>, p: Progress)
    ensures Section(evs, p).Some? == SectionOf(Data(evs), p).Some?
    ensures Section(evs, p).Some? ==> Data(Section(evs, p).value) == SectionOf(Data(evs), p).value
  {
    if evs != [] {
      var e := evs[0];
      assert e.Fault? ==> Data(evs) == Data(evs[1..]);
      assert !e.Fault? ==> Data(evs)[0] == e.c && Data(evs)[1..] == Data(evs[1..]);
      var q := if e.Fault? then p else if e.c == '\n' then Start else if e.c == '\r' && !p.Text? then Blank else Text;
      FaultsIgnored(evs[1..], q);
    }
  }

  lemma {:induction false} LineSkipped(line: string, rest: string, p: Progress)
    requires Lacks(line, {'\r', '\n'}) && (line != [] || p.Text?)
    ensures SectionOf(line + rest, p) == SectionOf(rest, Text)
  {
    if line == [] {
      assert line + rest == rest;
    } else {
      assert (line + rest)[0] == line[0] && (line + rest)[1..] == line[1..] + rest;
      LineSkipped(line[1..], rest, Text);
    }
  }

  lemma {:induction false} BlockIsSection(ls: seq<string>, tail: string)
    requires forall i | 0 <= i < |ls| :: NonBlank(ls[i])
    ensures SectionOf(Block(ls) + tail, Start) == Some(tail)
    decreases |ls|
  {
    var end := "\r\n";
    if ls == [] {
      var d := end + tail;
      assert d[0] == '\r' && d[1..][0] == '\n' && d[1..][1..] == tail;
    } else {
      var rest := Block(ls[1..]) + tail;
      var d := end + rest;
      assert Block(ls) + tail == ls[0] + d;
      LineSkipped(ls[0], d, Start);
      assert d[0] == '\r' && d[1..][0] == '\n' && d[1..][1..] == rest;
      BlockIsSection(ls[1..], tail);
    }
  }

  // ---------------------------------------------------------------- what the loops do

  function ProgressOf(n: nat, any: bool): Progress { if n > 0 then Text else if any then Blank else Start }

  lemma {:induction false} LineDrains(evs: seq<Event>, buf: string, n: nat, any: bool)
    requires |buf| > 1 && n < |buf| && (n > 0 ==> any)
    ensures var l := ScanLine(evs, buf, n, any);
            Drain(evs, ProgressOf(n, any)) == if l.n > 0 then Drain(l.rest, Start) else l.rest
    decreases |evs|
  {
    if evs != [] && evs[0].Byte? && evs[0].c != '\n' {
      var c := evs[0].c;
      if c != '\r' && n + 1 < |buf| {
        LineDrains(evs[1..], buf[n := c], n + 1, true);
      } else {
        LineDrains(evs[1..], buf, n, true);
      }
    }
  }

  /** Skipping lines ends where the failures and the line feeds say, whatever the buffer holds. */
  lemma {:induction false} SkipDrains(evs: seq<Event>, buf: string)
    requires |buf| > 1
    ensures SkipOf(evs, buf).rest == Drain(evs, Start)
    decreases |evs|
  {
    hide Drain, ScanLine;
    LineDrains(evs, buf, 0, false);
    var l := LineOf(evs, buf);
    if l.n > 0 { SkipDrains(l.rest, l.buf); }
  }

  /** So does the header loop, when it does not give up. */
  lemma {:induction false} FieldsDrain(evs: seq<Event>, buf: string, h: Head, count: nat)
    requires |buf| > 1 && count <= MAX_FIELDS && FieldsOf(evs, buf, h, count).Got?
    ensures FieldsOf(evs, buf, h, count).rest == Drain(evs, Start)
    decreases |evs|
  {
    hide Drain, ScanLine, ApplyField, TakenApart;
    LineDrains(evs, buf, 0, false);
    var l := LineOf(evs, buf);
    if l.n > 0 { FieldsDrain(l.rest, TakenApart(l.buf), ApplyField(h, l.buf), count + 1); }
  }

  /** For the trailer section of any response, its bytes interleaved with failed receives in any way: the connection is
      left at the next response exactly when every failure in it is harmless. */
  lemma TrailerBoundary(trailers: seq<string>, evs: seq<Event>, buf: string)
    requires |buf| > 1 && forall i | 0 <= i < |trailers| :: NonBlank(trailers[i])
    requires Data(evs) == Block(trailers)
    ensures Data(SkipOf(evs, buf).rest) == [] <==> Harmless(evs, Start)
  {
    hide Drain, Section, Harmless, Data, Block, SectionOf, SkipOf;
    assert Block(trailers) + [] == Block(trailers);
    BlockIsSection(trailers, []);
    FaultsIgnored(evs, Start);
    DrainExact(evs, Start);
    SkipDrains(evs, buf);
  }

  /** A section that never ends is read to the last byte. */
  lemma {:induction false} HarmlessDrained(evs: seq<Event>, p: Progress)
    requires Section(evs, p).None? && Harmless(evs, p)
    ensures Data(Drain(evs, p)) == []
    decreases |evs|
  {
    if evs != [] {
      if evs[0].Fault? {
        if Data(evs[1..]) == [] {
          DrainShrinks(evs, p);
        } else {
          TextSame(evs[1..], Start);
          HarmlessDrained(evs[1..], Start);
        }
      } else {
        var c := evs[0].c;
        HarmlessDrained(evs[1..], if c == '\n' then Start else if c == '\r' && !p.Text? then Blank else Text);
      }
    }
  }

  lemma {:induction false} DrainShrinks(evs: seq<Event>, p: Progress)
    ensures |Data(Drain(evs, p))| <= |Data(evs)|
    decreases |evs|
  {
    if evs != [] {
      if evs[0].Fault? || evs[0].c == '\n' {
        if p.Text? { DrainShrinks(evs[1..], Start); }
      } else {
        DrainShrinks(evs[1..], if evs[0].c == '\r' && !p.Text? then Blank else Text);
      }
    }
  }

  /** The end of a section is not moved by what comes behind it. */
  lemma {:induction false} SectionPrefix(d: string, more: string, p: Progress)
    requires SectionOf(d, p).Some?
    ensures SectionOf(d + more, p) == Some(SectionOf(d, p).value + more)
  {
    assert (d + more)[0] == d[0] && (d + more)[1..] == d[1..] + more;
    if d[0] == '\n' {
      if p.Text? { SectionPrefix(d[1..], more, Start); }
    } else {
      SectionPrefix(d[1..], more, if d[0] == '\r' && !p.Text? then Blank else Text);
    }
  }

  /** The trailer section of a response, or the beginning of one: nothing of it is left when the failures are
      harmless. */
  lemma TrailerTaken(trailers: seq<string>, evs: seq<Event>, buf: string)
    requires |buf| > 1 && forall i | 0 <= i < |trailers| :: NonBlank(trailers[i])
    requires Carries(evs, Block(trailers)) && Harmless(evs, Start)
    ensures Data(SkipOf(evs, buf).rest) == []
  {
    hide Drain, Section, Harmless, Data, Block, SectionOf, SkipOf;
    var d, b := Data(evs), Block(trailers);
    if d == b {
      TrailerBoundary(trailers, evs, buf);
    } else {
      assert b + [] == b && b == d + b[|d|..];
      BlockIsSection(trailers, []);
      if SectionOf(d, Start).Some? { SectionPrefix(d, b[|d|..], Start); }
      FaultsIgnored(evs, Start);
      HarmlessDrained(evs, Start);
      SkipDrains(evs, buf);
    }
  }

  /** For the header block of any response under such receives: either it is given up, or the reader ends right at what
      comes behind it, whatever bytes that is, exactly when every failure is harmless. */
  lemma HeadBoundary(fields: seq<string>, tail: string, evs: seq<Event>, buf: string, h: Head)
    requires |buf| > 1 && forall i | 0 <= i < |fields| :: NonBlank(fields[i])
    requires Data(evs) == Block(fields) + tail
    requires FieldsOf(evs, buf, h, 0).Got?
    ensures Data(FieldsOf(evs, buf, h, 0).rest) == tail <==> Harmless(evs, Start)
  {
    hide Drain, Section, Harmless, Data, Block, SectionOf, FieldsOf;
    BlockIsSection(fields, tail);
    FaultsIgnored(evs, Start);
    DrainExact(evs, Start);
    FieldsDrain(evs, buf, h, 0);
  }

  /** A receive that times out in front of the blank line: the loop is over and the two bytes of that line are still to
      come when the next response is expected. */
  lemma TimeoutExample(buf: string)
    requires |buf| > 1
    ensures Data([Fault, Byte('\r'), Byte('\n')]) == Block([])
    ensures Data(SkipOf([Fault, Byte('\r'), Byte('\n')], buf).rest) == "\r\n"
  {
    assert [Fault, Byte('\r'), Byte('\n')][1..] == [Byte('\r'), Byte('\n')];
    assert [Byte('\r'), Byte('\n')][1..] == [Byte('\n')];
    assert [Byte('\n')][1..] == [];
    SkipDrains([Fault, Byte('\r'), Byte('\n')], buf);
  }
}
