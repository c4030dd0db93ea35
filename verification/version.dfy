/** Version strings of app_info.c: normalization, comparison and the search for the installed version. */
module Version {
  import opened Text

  predicate Skipped(c: char) { c == 'v' || c == 'V' || IsSpace(c) }

  function SkipPrefix(s: string): (r: string)
    ensures r == [] || !Skipped(r[0])
    ensures s == [] || !Skipped(s[0]) ==> r == s
  {
    if s != [] && Skipped(s[0]) then SkipPrefix(s[1..]) else s
  }

  /** How many numbers sscanf(s, "%d.%d.%d") assigns, and the numbers; the others keep their 0. */
  datatype Scanned = Scanned(matched: nat, a: int, b: int, c: int)

  /** A '.' and the next number. */
  function ScanNext(s: string): Option<(int, string)> { if s != [] && s[0] == '.' then ScanInt(s[1..]) else None }

  function ScanThree(s: string): Scanned {
    var a := ScanInt(s);
    if a.None? then Scanned(0, 0, 0, 0) else
    var b := ScanNext(a.value.1);
    if b.None? then Scanned(1, a.value.0, 0, 0) else
    var c := ScanNext(b.value.1);
    if c.None? then Scanned(2, a.value.0, b.value.0, 0) else Scanned(3, a.value.0, b.value.0, c.value.0)
  }

  datatype Triple = Triple(maj: int, min: int, patch: int)

  /** parse_version_parts. */
  function Parse(v: string): Triple {
    var r := ScanThree(SkipPrefix(v));
    if r.matched == 3 && r.b == 0 && r.c > 0 then Triple(r.a, r.c, 0) else Triple(r.a, r.b, r.c)
  }

  function At(s: string, i: nat): char { if i < |s| then s[i] else '\0' }

  /** app_info_normalize_version, into a buffer that is large enough. */
  function Normalized(s: string): string {
    var v := SkipPrefix(s);
    if s == [] then []
    else if v == [] then "v1.00"
    else
      var r := ScanThree(v);
      if r.matched == 3 then
        (if r.b == 0 && r.c > 0 then "v" + (ShowInt(r.a) + ("." + ShowTwo(r.c)))
         else if r.c == 0 then "v" + (ShowInt(r.a) + ("." + ShowTwo(r.b)))
         else "v" + (ShowInt(r.a) + ("." + (ShowInt(r.b) + ("." + ShowInt(r.c))))))
      else if r.matched == 2 then
        (if v[0] == '0' || (At(v, 1) != '.' && At(v, 1) != '\0' && At(v, 2) == '.') then
           "v" + (ShowTwo(r.a) + ("." + ShowTwo(r.b)))
         else "v" + (ShowInt(r.a) + ("." + ShowTwo(r.b))))
      else if r.matched == 1 then "v" + (ShowInt(r.a) + ".00")
      else "v" + v
  }

  // ---------------------------------------------------------------- normalizing preserves the meaning

  lemma ScannedInRange(s: string)
    ensures var r := ScanThree(s); IsInt32(r.a) && IsInt32(r.b) && IsInt32(r.c)
  {
    hide ScanNumber;
  }

  /** A printed number in front of a '.' or the end. */
  lemma NextRead(n: int, two: bool, tail: string)
    requires IsInt32(n) && (tail == [] || tail[0] == '.')
    ensures ScanNext("." + ((if two then ShowTwo(n) else ShowInt(n)) + tail)) == Some((n, tail))
  {
    hide ScanInt, ShowTwo, ShowInt;
    var s := (if two then ShowTwo(n) else ShowInt(n)) + tail;
    assert ("." + s)[1..] == s;
    IntRead(n, tail);
    TwoRead(n, tail);
  }

  lemma TwoNumbersRead(a: int, wide: bool, b: int)
    requires IsInt32(a) && IsInt32(b)
    ensures ScanThree((if wide then ShowTwo(a) else ShowInt(a)) + ("." + ShowTwo(b))) == Scanned(2, a, b, 0)
  {
    hide ScanInt, ShowTwo, ShowInt;
    var tail := "." + ShowTwo(b);
    IntRead(a, tail);
    TwoRead(a, tail);
    NextRead(b, true, "");
    assert ShowTwo(b) + "" == ShowTwo(b);
  }

  lemma ThreeNumbersRead(a: int, b: int, c: int)
    requires IsInt32(a) && IsInt32(b) && IsInt32(c)
    ensures ScanThree(ShowInt(a) + ("." + (ShowInt(b) + ("." + ShowInt(c))))) == Scanned(3, a, b, c)
  {
    hide ScanInt, ShowTwo, ShowInt;
    IntRead(a, "." + (ShowInt(b) + ("." + ShowInt(c))));
    NextRead(b, false, "." + ShowInt(c));
    NextRead(c, false, "");
    assert ShowInt(c) + "" == ShowInt(c);
  }

  /** A printed number begins with a digit or a sign. */
  lemma PrintedPlain(n: int, tail: string)
    ensures var s := ShowInt(n) + tail; s != [] && !Skipped(s[0]) && SkipPrefix("v" + s) == s
    ensures var s := ShowTwo(n) + tail; s != [] && !Skipped(s[0]) && SkipPrefix("v" + s) == s
  {
    var i, t := ShowInt(n) + tail, ShowTwo(n) + tail;
    assert i[0] == ShowInt(n)[0] && t[0] == ShowTwo(n)[0];
    assert ("v" + i)[1..] == i && ("v" + t)[1..] == t;
  }

  lemma ZeroZero()
    ensures ShowTwo(0) == "00"
  {}

  /** Normalizing preserves the version exactly when there is text behind the prefix, or none at all. */
  lemma SameVersion(s: string)
    ensures Parse(Normalized(s)) == Parse(s) <==> s == [] || SkipPrefix(s) != []
  {
    hide ScanThree, ShowTwo, ShowInt, IsInt32;
    var v := SkipPrefix(s);
    var r := ScanThree(v);
    ScannedInRange(v);
    if s == [] {
    } else if v == [] {
      DefaultRead();
      EmptyRead(s);
    } else if r.matched == 3 {
      PrintedPlain(r.a, "." + ShowTwo(r.c));
      PrintedPlain(r.a, "." + ShowTwo(r.b));
      PrintedPlain(r.a, "." + (ShowInt(r.b) + ("." + ShowInt(r.c))));
      TwoNumbersRead(r.a, false, r.c);
      TwoNumbersRead(r.a, false, r.b);
      ThreeNumbersRead(r.a, r.b, r.c);
    } else if r.matched == 2 {
      PrintedPlain(r.a, "." + ShowTwo(r.b));
      TwoNumbersRead(r.a, false, r.b);
      TwoNumbersRead(r.a, true, r.b);
      OthersZero(v);
    } else if r.matched == 1 {
      OthersZero(v);
      PrintedPlain(r.a, ".00");
      TwoNumbersRead(r.a, false, r.b);
      ZeroZero();
      assert "." + ShowTwo(r.b) == ".00";
    } else {
      OthersZero(v);
      assert ("v" + v)[1..] == v;
    }
  }

  lemma OthersZero(v: string)
    ensures var r := ScanThree(v);
      r.matched <= 3 && (r.matched < 3 ==> r.c == 0) && (r.matched < 2 ==> r.b == 0) && (r.matched < 1 ==> r.a == 0)
  {
    hide ScanInt;
  }

  lemma DefaultRead()
    ensures Parse("v1.00") == Triple(1, 0, 0)
  {
    hide ScanInt, SkipPrefix;
    OneShown();
    PrintedPlain(1, ".00");
    TwoNumbersRead(1, false, 0);
  }

  lemma EmptyRead(s: string)
    requires SkipPrefix(s) == []
    ensures Parse(s) == Triple(0, 0, 0)
  {
    hide SkipPrefix;
  }

  lemma OneShown()
    ensures "v" + (ShowInt(1) + ".00") == "v1.00" && ShowInt(1) + ("." + ShowTwo(0)) == ShowInt(1) + ".00"
  {
    ZeroZero();
    assert Dec(1) == "1";
  }

  // ---------------------------------------------------------------- comparing

  /** The intended order. */
  predicate Less(x: Triple, y: Triple) {
    x.maj < y.maj || (x.maj == y.maj && (x.min < y.min || (x.min == y.min && x.patch < y.patch)))
  }

  /** The difference the comparison comes down to. */
  function Difference(x: Triple, y: Triple): int {
    if x.maj != y.maj then x.maj - y.maj else if x.min != y.min then x.min - y.min else x.patch - y.patch
  }

  /** app_info_compare_versions on parsed versions; the subtraction is one of 32-bit numbers. */
  function CompareTriples(x: Triple, y: Triple): int {
    if x.maj != y.maj then ToInt32(x.maj - y.maj)
    else if x.min != y.min then ToInt32(x.min - y.min)
    else ToInt32(x.patch - y.patch)
  }

  /** app_info_compare_versions. */
  function Compare(a: string, b: string): int { CompareTriples(Parse(a), Parse(b)) }

  predicate InRange(x: Triple) { IsInt32(x.maj) && IsInt32(x.min) && IsInt32(x.patch) }

  /** The sign of the comparison is the order of the versions exactly when the deciding difference is a 32-bit number.
      */
  lemma CompareExactly(x: Triple, y: Triple)
    requires InRange(x) && InRange(y)
    ensures (CompareTriples(x, y) < 0 <==> Less(x, y)) && (CompareTriples(x, y) > 0 <==> Less(y, x))
      <==> IsInt32(Difference(x, y))
  {
    var d := Difference(x, y);
    assert CompareTriples(x, y) == ToInt32(d);
    WrapSign(d);
  }

  lemma WrapSign(d: int)
    requires -0x1_0000_0000 < d < 0x1_0000_0000
    ensures IsInt32(d) ==> ToInt32(d) == d
    ensures !IsInt32(d) ==> d != 0 && (d > 0 ==> ToInt32(d) < 0) && (d < 0 ==> ToInt32(d) >= 0)
  {}

  lemma ParsedInRange(a: string)
    ensures InRange(Parse(a))
  {
    hide ScanThree;
    ScannedInRange(SkipPrefix(a));
  }

  predicate NaturalTriple(x: Triple) { InRange(x) && x.maj >= 0 && x.min >= 0 && x.patch >= 0 }

  predicate Natural(v: string) { NaturalTriple(Parse(v)) }

  /** Among versions without negative numbers comparing is a total preorder: the three laws. */
  lemma TotalPreorder(x: Triple, y: Triple, z: Triple)
    requires NaturalTriple(x) && NaturalTriple(y) && NaturalTriple(z)
    ensures CompareTriples(x, x) == 0
    ensures (CompareTriples(x, y) < 0 <==> CompareTriples(y, x) > 0)
    ensures CompareTriples(x, y) <= 0 && CompareTriples(y, z) <= 0 ==> CompareTriples(x, z) <= 0
    ensures CompareTriples(x, y) == 0 <==> x == y
  {
    hide CompareTriples;
    CompareExactly(x, x);
    CompareExactly(x, y);
    CompareExactly(y, x);
    CompareExactly(y, z);
    CompareExactly(x, z);
  }

  /** The deciding difference of two versions is a 32-bit number, as it is for all without negative numbers. */
  predicate Comparable(a: string, b: string) { IsInt32(Difference(Parse(a), Parse(b))) }

  lemma NaturalComparable(a: string, b: string)
    requires Natural(a) && Natural(b)
    ensures Comparable(a, b)
  {
    hide Parse;
  }

  lemma CompareRight(a: string, b: string)
    requires Comparable(a, b)
    ensures (Compare(a, b) < 0 <==> Less(Parse(a), Parse(b))) && (Compare(a, b) > 0 <==> Less(Parse(b), Parse(a)))
  {
    hide Parse, CompareTriples;
    ParsedInRange(a);
    ParsedInRange(b);
    CompareExactly(Parse(a), Parse(b));
  }

  lemma NumberParsed(n: int)
    requires IsInt32(n)
    ensures Parse(ShowInt(n)) == Triple(n, 0, 0)
  {
    hide ScanInt, ShowInt;
    IntRead(n, "");
    PrintedPlain(n, "");
    assert ShowInt(n) + "" == ShowInt(n);
  }

  /** With negative numbers it is none: the largest version comes out smaller than one that begins with -1. */
  lemma OverflowExample()
    ensures Less(Parse("-1"), Parse("2147483647")) && Compare("2147483647", "-1") < 0
  {
    hide Parse, ShowInt;
    NumberParsed(2147483647);
    NumberParsed(-1);
    MaxShown();
    MinusOneShown();
  }

  lemma MinusOneShown()
    ensures ShowInt(-1) == "-1"
  {
    assert Dec(1) == "1";
  }

  lemma MaxShown()
    ensures ShowInt(2147483647) == "2147483647"
  {
    ThousandsShown();
    assert Dec(21474836) == "21474836";
    assert Dec(214748364) == "214748364";
  }

  lemma ThousandsShown()
    ensures Dec(2147483) == "2147483"
  {
    assert Dec(2147) == "2147";
    assert Dec(21474) == "21474";
    assert Dec(214748) == "214748";
  }

  // ---------------------------------------------------------------- the installed version

  /** A file asked for the version: whether it could be read, and what it says ("" for nothing). */
  datatype Probe = Missing | Eboot | Read(version: string)

  predicate AtLeast(v: string, w: string) { !Less(Parse(v), Parse(w)) }

  /** The versions the probes and the start value offer. */
  predicate Offered(start: string, probes: seq<Probe>, v: string) {
    v != [] && (v == start || Read(v) in probes)
  }

  /** Any two versions offered can be compared. */
  ghost predicate AllComparable(start: string, probes: seq<Probe>) {
    forall v, w | Offered(start, probes, v) && Offered(start, probes, w) :: Comparable(v, w)
  }

  /** As they can when no version offered has a negative number. */
  lemma NaturalsComparable(start: string, probes: seq<Probe>)
    requires forall v | Offered(start, probes, v) :: Natural(v)
    ensures AllComparable(start, probes)
  {
    hide Comparable, Natural, Offered;
    forall v, w | Offered(start, probes, v) && Offered(start, probes, w) ensures Comparable(v, w) {
      NaturalComparable(v, w);
    }
  }

  /** Nothing offered, or the best of what is offered. */
  ghost predicate Best(start: string, probes: seq<Probe>, v: string) {
    && (v == [] ==> forall w :: !Offered(start, probes, w))
    && (v != [] ==> Offered(start, probes, v) && forall w | Offered(start, probes, w) :: AtLeast(v, w))
  }

  /** One of the candidate loops of app_info_check_installed. */
  method PickBest(start: string, probes: seq<Probe>) returns (best: string, found: bool)
    requires AllComparable(start, probes)
    ensures Best(start, probes, best)
    ensures found <==> exists i | 0 <= i < |probes| :: !probes[i].Missing?
  {
    hide Parse, Less, Comparable;
    best, found := start, false;
    StartBest(start);
    var k := 0;
    while k < |probes|
      invariant 0 <= k <= |probes| && (best == start || Read(best) in probes)
      invariant Best(start, probes[..k], best)
      invariant found <==> exists i | 0 <= i < k :: !probes[i].Missing?
    {
      if !probes[k].Missing? { found := true; }
      assert probes[..k + 1] == probes[..k] + [probes[k]];
      SameOffers(start, probes[..k], probes[k], best);
      if probes[k].Read? && probes[k].version != [] {
        var cand := probes[k].version;
        assert Read(cand) in probes;
        if best == [] || Compare(cand, best) > 0 {
          Better(start, probes[..k], best, cand);
          best := cand;
        } else {
          NotBetter(start, probes[..k], best, cand);
        }
      }
      k := k + 1;
    }
    assert probes[..k] == probes;
  }

  lemma SameOffers(start: string, probes: seq<Probe>, probe: Probe, best: string)
    requires Best(start, probes, best)
    ensures !probe.Read? || probe.version == [] ==> Best(start, probes + [probe], best)
  {
    hide AtLeast;
    if !probe.Read? || probe.version == [] {
      assert forall w :: Offered(start, probes + [probe], w) <==> Offered(start, probes, w);
    }
  }

  lemma StartBest(start: string)
    ensures Best(start, [], start)
  {}

  lemma Better(start: string, probes: seq<Probe>, best: string, cand: string)
    requires Best(start, probes, best) && cand != []
    requires best == [] || (Comparable(cand, best) && Compare(cand, best) > 0)
    ensures Best(start, probes + [Read(cand)], cand)
  {
    hide Parse, Compare, Comparable;
    if best != [] { CompareRight(cand, best); }
    assert Read(cand) in probes + [Read(cand)];
    assert forall w :: Offered(start, probes + [Read(cand)], w) <==> Offered(start, probes, w) || w == cand;
  }

  lemma NotBetter(start: string, probes: seq<Probe>, best: string, cand: string)
    requires Best(start, probes, best) && cand != []
    requires best != [] && Comparable(cand, best) && Compare(cand, best) <= 0
    ensures Best(start, probes + [Read(cand)], best)
  {
    hide Parse, Compare, Comparable;
    CompareRight(cand, best);
    assert forall w :: Offered(start, probes + [Read(cand)], w) <==> Offered(start, probes, w) || w == cand;
  }

  /** app_info_check_installed, after the title ID has been checked: nothing for a title that is registered as partially
      installed; else the database and the base package's files, and, only if the base is there, the files of its
      patches. The version reported is one of those found and at least each of them. */
  method Installed(partial: bool, fromDb: bool, dbVersion: string, base: seq<Probe>, patches: seq<Probe>)
      returns (installed: bool, version: string)
    requires AllComparable(dbVersion, base + patches)
    ensures installed <==> !partial && (fromDb || exists i | 0 <= i < |base| :: !base[i].Missing?)
    ensures installed ==> version != []
    ensures installed && (exists w :: Offered(dbVersion, base + patches, w)) ==>
      Best(dbVersion, base + patches, version)
    ensures installed && (forall w :: !Offered(dbVersion, base + patches, w)) ==> version == "v1.00"
    ensures !installed ==> if partial then version == [] else Best(dbVersion, base, version)
  {
    hide Parse, Less, Comparable;
    if partial { return false, []; }
    var found: bool;
    assert forall w :: Offered(dbVersion, base, w) ==> Offered(dbVersion, base + patches, w);
    version, found := PickBest(dbVersion, base);
    installed := fromDb || found;
    if !installed { return; }
    ghost var fromBase := version;
    var other: bool;
    assert forall w :: Offered(version, patches, w) ==> Offered(dbVersion, base + patches, w);
    version, other := PickBest(version, patches);
    BestOfBoth(dbVersion, base, patches, fromBase, version);
    if version == [] { version := "v1.00"; }
  }

  lemma BestOfBoth(start: string, base: seq<Probe>, patches: seq<Probe>, fromBase: string, best: string)
    requires Best(start, base, fromBase) && Best(fromBase, patches, best)
    ensures Best(start, base + patches, best)
  {
    hide Parse;
    forall w | Offered(start, base + patches, w) ensures best != [] && AtLeast(best, w) {
      if Offered(start, base, w) {
        assert AtLeast(fromBase, w) && Offered(fromBase, patches, fromBase);
      } else {
        assert Offered(fromBase, patches, w);
      }
    }
    if best != [] && best == fromBase { assert Offered(start, base, best); }
    if best != [] { assert Offered(start, base + patches, best); }
  }
}
