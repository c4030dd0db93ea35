/** C-library text primitives shared by the parsers: character classes, case-insensitive comparison,
    trimming and the number scanners behind strtoull, strtoll, atoi and sscanf.

    A C string is modelled by the characters in front of its terminator. */
module Text {

  const U64_MAX: nat := 0xFFFF_FFFF_FFFF_FFFF
  const I64_MAX: nat := 0x7FFF_FFFF_FFFF_FFFF

  datatype Option<+T> = None | Some(value: T)

  // ---------------------------------------------------------------- characters

  /** isspace in the C locale. */
  predicate IsSpace(c: char) { c == ' ' || '\t' <= c <= '\r' }

  predicate IsDecimal(c: char) { '0' <= c <= '9' }

  function Lower(c: char): char { if 'A' <= c <= 'Z' then (c as int + 32) as char else c }

  /** hexval: the value of a hexadecimal digit, or -1. */
  function DigitOf(c: char): (d: int)
    ensures -1 <= d < 16
  {
    if '0' <= c <= '9' then c as int - 48
    else if 'a' <= c <= 'f' then c as int - 87
    else if 'A' <= c <= 'F' then c as int - 55
    else -1
  }

  predicate IsDigitIn(c: char, base: nat) { 0 <= DigitOf(c) < base }

  // ---------------------------------------------------------------- whole strings

  predicate Lacks(s: string, bad: set<char>) { forall i | 0 <= i < |s| :: s[i] !in bad }

  predicate EqCI(a: string, b: string) {
    |a| == |b| && forall i | 0 <= i < |a| :: Lower(a[i]) == Lower(b[i])
  }

  predicate StartsWithCI(s: string, p: string) { |p| <= |s| && EqCI(s[..|p|], p) }

  /** What copy_str keeps in a buffer of this size. */
  function Clip(s: string, size: nat): string
    requires size > 0
  {
    if |s| < size then s else s[..size - 1]
  }

  /** The C string held in a character buffer. */
  function CStr(s: string): (r: string)
    ensures r <= s && '\0' !in r
    ensures |r| < |s| ==> s[|r|] == '\0'
  {
    if s == [] || s[0] == '\0' then [] else [s[0]] + CStr(s[1..])
  }

  lemma CStrClean(s: string)
    requires '\0' !in s
    ensures CStr(s) == s
  {
    assert forall i | 0 <= i < |s| :: s[i] in s;
  }

  lemma {:induction false} StringIn(buf: string, s: string)
    requires |s| < |buf| && buf[..|s|] == s && buf[|s|] == '\0' && '\0' !in s
    ensures CStr(buf) == s
  {
    if s != [] {
      assert buf[0] == s[0] && s[0] in s;
      assert buf[1..][..|s| - 1] == s[1..];
      StringIn(buf[1..], s[1..]);
    }
  }

  lemma Assoc(a: string, b: string, c: string)
    ensures (a + b) + c == a + (b + c)
  {}

  /** strchr: the first position of c, or |s|. */
  function IndexOf(s: string, c: char): (i: nat)
    ensures i <= |s|
    ensures forall j | 0 <= j < i :: s[j] != c
    ensures i < |s| ==> s[i] == c
  {
    if s == [] || s[0] == c then 0 else 1 + IndexOf(s[1..], c)
  }

  /** strchr finds the separator in front of which it does not occur. */
  lemma CutAt(a: string, sep: char, b: string)
    requires sep !in a
    ensures var s := a + ([sep] + b); IndexOf(s, sep) == |a| && s[..|a|] == a && s[|a| + 1..] == b
  {
    var s := a + ([sep] + b);
    assert s[|a|] == sep;
    assert forall i | 0 <= i < |a| :: s[i] == a[i];
  }

  function SkipSpaces(s: string): (r: string)
    ensures |r| <= |s| && r == s[|s| - |r|..]
    ensures r != [] ==> !IsSpace(r[0])
    ensures s == [] || !IsSpace(s[0]) ==> r == s
    ensures forall i | 0 <= i < |s| - |r| :: IsSpace(s[i])
  {
    if s == [] || !IsSpace(s[0]) then s
    else
      var r := SkipSpaces(s[1..]);
      assert s[1..][|s| - 1 - |r|..] == s[|s| - |r|..];
      assert forall i | 1 <= i < |s| - |r| :: s[i] == s[1..][i - 1];
      r
  }

  function DropTrailingSpaces(s: string): (r: string)
    ensures r <= s
    ensures r != [] ==> !IsSpace(r[|r| - 1])
    ensures s == [] || !IsSpace(s[|s| - 1]) ==> r == s
  {
    if s != [] && IsSpace(s[|s| - 1]) then DropTrailingSpaces(s[..|s| - 1]) else s
  }

  /** trim_inplace. */
  function Trim(s: string): string { SkipSpaces(DropTrailingSpaces(s)) }

  /** Neither end is white space: what Trim leaves alone. */
  predicate Trimmed(s: string) { s == [] || (!IsSpace(s[0]) && !IsSpace(s[|s| - 1])) }

  lemma TrimFixed(s: string)
    requires Trimmed(s)
    ensures Trim(s) == s
  {}

  /** Trimming yields a trimmed string, so a second trim changes nothing. */
  lemma TrimIdempotent(s: string)
    ensures Trimmed(Trim(s))
    ensures Trim(Trim(s)) == Trim(s)
  {
    var d := DropTrailingSpaces(s);
    var t := SkipSpaces(d);
    if t != [] {
      assert t[|t| - 1] == d[|d| - 1];
    }
    TrimFixed(t);
  }

  // ---------------------------------------------------------------- numbers

  predicate AllDigits(s: string, base: nat) { forall i | 0 <= i < |s| :: IsDigitIn(s[i], base) }

  /** The number a digit string denotes. */
  function Value(s: string, base: nat): nat
    requires AllDigits(s, base)
  {
    if s == [] then 0 else Value(s[..|s| - 1], base) * base + DigitOf(s[|s| - 1])
  }

  /** Length of the maximal digit prefix. */
  function Run(s: string, base: nat): (n: nat)
    ensures n <= |s| && AllDigits(s[..n], base)
    ensures n < |s| ==> !IsDigitIn(s[n], base)
  {
    if s == [] || !IsDigitIn(s[0], base) then 0
    else
      var n := 1 + Run(s[1..], base);
      assert forall i | 0 <= i < n :: s[..n][i] == if i == 0 then s[0] else s[1..][..n - 1][i - 1];
      n
  }

  datatype Scan = NoNumber | Number(negative: bool, magnitude: nat, rest: string)

  /** The common grammar of strtoull, strtoll and %llu / %d: white space, a sign, an optional 0x in base 16,
      then at least one digit. */
  function ScanNumber(s: string, base: nat): Scan {
    var t := SkipSpaces(s);
    var signed := t != [] && (t[0] == '-' || t[0] == '+');
    var u := if signed then t[1..] else t;
    var v := if base == 16 && |u| > 2 && u[0] == '0' && Lower(u[1]) == 'x' && IsDigitIn(u[2], 16) then u[2..] else u;
    var n := Run(v, base);
    if n == 0 then NoNumber else Number(signed && t[0] == '-', Value(v[..n], base), v[n..])
  }

  function SaturateU64(r: Scan): nat {
    if r.NoNumber? then 0
    else if r.magnitude > U64_MAX then U64_MAX
    else if r.negative && r.magnitude > 0 then U64_MAX + 1 - r.magnitude
    else r.magnitude
  }

  /** strtoull. */
  function StrToULL(s: string, base: nat): nat { SaturateU64(ScanNumber(s, base)) }

  /** strtoll in base 10. */
  function StrToLL(s: string): int {
    var r := ScanNumber(s, 10);
    if r.NoNumber? then 0
    else if r.negative then (if r.magnitude > I64_MAX then -(I64_MAX as int) - 1 else -(r.magnitude as int))
    else if r.magnitude > I64_MAX then I64_MAX
    else r.magnitude
  }

  function ToInt32(n: int): int {
    var m := n % 0x1_0000_0000;
    if m >= 0x8000_0000 then m - 0x1_0000_0000 else m
  }

  /** atoi. */
  function AtoI(s: string): int { ToInt32(StrToLL(s)) }

  /** %d of sscanf. */
  function ScanInt(s: string): Option<(int, string)> {
    var r := ScanNumber(s, 10);
    if r.NoNumber? then None else Some((AtoI(s), r.rest))
  }

  lemma RunOf(ds: string, tail: string, base: nat)
    requires AllDigits(ds, base) && (tail == [] || !IsDigitIn(tail[0], base))
    ensures Run(ds + tail, base) == |ds| && (ds + tail)[..|ds|] == ds && (ds + tail)[|ds|..] == tail
  {
    hide DigitOf;
    var s := ds + tail;
    var n := Run(s, base);
    assert forall i | 0 <= i < |ds| :: s[i] == ds[i] && IsDigitIn(ds[i], base);
    assert forall i | 0 <= i < n :: IsDigitIn(s[i], base) by {
      assert forall i | 0 <= i < n :: s[..n][i] == s[i];
    }
    assert tail != [] ==> s[|ds|] == tail[0];
  }

  /** Digits followed by something that does not continue the number scan to exactly that number. */
  lemma ScanPlain(ds: string, tail: string, base: nat)
    requires base == 10 || base == 16
    requires ds != [] && AllDigits(ds, base)
    requires tail == [] || (!IsDigitIn(tail[0], base) && Lower(tail[0]) != 'x')
    ensures ScanNumber(ds + tail, base) == Number(false, Value(ds, base), tail)
  {
    hide Run, Value, SkipSpaces;
    var s := ds + tail;
    assert s[0] == ds[0] && IsDigitIn(ds[0], base);
    assert !IsSpace(s[0]) && SkipSpaces(s) == s;
    RunOf(ds, tail, base);
    if |s| > 2 {
      assert s[1] == if |ds| > 1 then ds[1] else tail[0];
      assert |ds| > 1 ==> IsDigitIn(ds[1], base);
      assert Lower(s[1]) != 'x';
    }
  }

  function Digit(d: nat): (c: char)
    requires d < 10
    ensures IsDecimal(c) && DigitOf(c) == d
  {
    (48 + d) as char
  }

  /** %llu / %u / %d of a non-negative number. */
  function Dec(n: nat): (s: string)
    ensures s != [] && AllDigits(s, 10) && Value(s, 10) == n
    ensures forall i | 0 <= i < |s| :: IsDecimal(s[i])
  {
    if n < 10 then
      assert [Digit(n)][..0] == [];
      [Digit(n)]
    else
      var s := Dec(n / 10) + [Digit(n % 10)];
      assert s[..|s| - 1] == Dec(n / 10);
      s
  }

  /** A decimal number is below the power of ten given by its length, so short digit strings stay in range. */
  function Pow10(n: nat): (p: nat)
    ensures p > 0
  {
    if n == 0 then 1 else 10 * Pow10(n - 1)
  }

  lemma {:induction false} ValueBound(s: string)
    requires AllDigits(s, 10)
    ensures Value(s, 10) < Pow10(|s|)
  {
    if s != [] {
      ValueBound(s[..|s| - 1]);
      var d := DigitOf(s[|s| - 1]);
      assert IsDigitIn(s[|s| - 1], 10);
    }
  }

  lemma {:induction false} Pow10Grows(m: nat, n: nat)
    requires m <= n
    ensures Pow10(m) <= Pow10(n)
  {
    if m < n { Pow10Grows(m, n - 1); }
  }

  predicate Ends(tail: string) { tail == [] || (!IsDigitIn(tail[0], 10) && Lower(tail[0]) != 'x') }

  predicate IsInt32(n: int) { -0x8000_0000 <= n < 0x8000_0000 }

  /** %d. */
  function ShowInt(n: int): string { if n < 0 then "-" + Dec(-n) else Dec(n) }

  /** %02d. */
  function ShowTwo(n: int): string { if 0 <= n < 10 then "0" + Dec(n) else ShowInt(n) }

  /** Numbers are scanned past leading white space. */
  lemma SpaceScanned(c: char, s: string, base: nat)
    requires IsSpace(c)
    ensures ScanNumber([c] + s, base) == ScanNumber(s, base)
  {
    hide Run, Value, Lower, IsDigitIn, IsSpace, SkipSpaces;
    SpaceSkipped(c, s);
  }

  lemma SpaceSkipped(c: char, s: string)
    requires IsSpace(c)
    ensures SkipSpaces([c] + s) == SkipSpaces(s)
  {
    hide IsSpace;
    var t := [c] + s;
    assert t[0] == c && t[1..] == s;
  }

  lemma Unsigned(s: string)
    requires s != [] && IsDigitIn(s[0], 10)
    ensures SkipSpaces(s) == s && s[0] != '-' && s[0] != '+'
  {
    hide ScanNumber, Run, Value, Lower;
  }

  lemma Signed(s: string)
    ensures var t := "-" + s; SkipSpaces(t) == t && t[0] == '-' && t[1..] == s
  {
    hide ScanNumber, Run, Value, Lower;
  }

  lemma SignRead(s: string)
    requires s != [] && IsDigitIn(s[0], 10)
    ensures ScanNumber(s, 10).Number? ==> ScanNumber("-" + s, 10) == ScanNumber(s, 10).(negative := true)
  {
    hide Run, Value, SkipSpaces, Lower, IsDigitIn, IsSpace;
    Signed(s);
    Unsigned(s);
  }

  lemma ShownRead(ds: string, negative: bool, tail: string)
    requires ds != [] && AllDigits(ds, 10) && Ends(tail) && Value(ds, 10) <= 0x8000_0000
    requires negative || Value(ds, 10) < 0x8000_0000
    ensures ScanInt((if negative then "-" + ds else ds) + tail)
         == Some((if negative then 0 - Value(ds, 10) else Value(ds, 10), tail))
  {
    hide ScanNumber, Value;
    assert (ds + tail)[0] == ds[0];
    assert IsDigitIn(ds[0], 10);
    ScanPlain(ds, tail, 10);
    SignRead(ds + tail);
    assert ("-" + ds) + tail == "-" + (ds + tail);
  }

  /** A printed number reads back. */
  lemma IntRead(n: int, tail: string)
    requires IsInt32(n) && Ends(tail)
    ensures ScanInt(ShowInt(n) + tail) == Some((n, tail))
  {
    hide ScanInt, Value, Ends;
    ShownRead(Dec(if n < 0 then -n else n), n < 0, tail);
  }

  lemma TwoRead(n: int, tail: string)
    requires IsInt32(n) && Ends(tail)
    ensures ScanInt(ShowTwo(n) + tail) == Some((n, tail))
  {
    hide ScanInt, Ends;
    if 0 <= n < 10 {
      var s := "0" + Dec(n);
      assert Dec(n) == [Digit(n)];
      assert s[..1][..0] == [] && s[..1] == "0";
      assert Value(s[..1], 10) == 0;
      assert Value(s, 10) == n;
      ShownRead(s, false, tail);
    } else {
      IntRead(n, tail);
    }
  }
}
