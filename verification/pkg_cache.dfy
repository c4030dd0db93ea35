/** The cache record of pkg_cache.c: printing a package's details as JSON and reading them back
    (src/pkg_cache.c:287-337, 418-572). */
module PkgCache {
  import opened Quoted
  import opened Text

  const BUFFER: nat := 8192
  const X_RULES: nat := 2

  datatype Detail = Detail(
    titleId: string, titleName: string, localized: string, language: string, contentId: string, appVersion: string,
    fileSize: nat, totalSize: nat, iconOffset: nat, iconSize: nat, hasIcon: bool, isMultipart: bool, partIndex: nat,
    totalParts: nat, pkgType: int, typeStr: string, category: string, mtime: nat, blurhash: string, platform: string)

  /** A C string that fits a buffer. */
  predicate Fits(s: string, size: nat) { |s| < size && '\0' !in s }

  const U32: nat := 0x1_0000_0000

  /** The ranges of pkg_detail_t's fields. */
  predicate DetailOk(d: Detail) {
    && Fits(d.titleId, 32) && Fits(d.titleName, 256) && Fits(d.localized, 2048) && Fits(d.language, 32)
    && Fits(d.contentId, 64) && Fits(d.appVersion, 32) && Fits(d.typeStr, 16) && Fits(d.category, 16)
    && Fits(d.blurhash, 64) && Fits(d.platform, 8)
    && d.fileSize <= U64_MAX && d.totalSize <= U64_MAX && d.iconOffset <= U64_MAX && d.mtime <= U64_MAX
    && d.iconSize < U32 && d.partIndex < U32 && d.totalParts < U32 && 0 <= d.pkgType < 4
  }

  // ---------------------------------------------------------------- escaping

  predicate Control(c: char) { c < ' ' }

  function EscapeChar(c: char): string {
    if c == '"' || c == '\\' then ['\\', c]
    else if c == '\n' then "\\n"
    else if c == '\r' then "\\r"
    else if c == '\t' then "\\t"
    else if Control(c) then ""
    else [c]
  }

  function Escape(s: string): string { if s == [] then [] else Escape(s[..|s| - 1]) + EscapeChar(s[|s| - 1]) }

  lemma {:induction false} EscapeLength(s: string)
    ensures |Escape(s)| <= 2 * |s|
    ensures '\0' !in Escape(s)
  {
    if s != [] { EscapeLength(s[..|s| - 1]); }
  }

  method PutEscaped(dst: array<char>, d: nat, c: char) returns (d2: nat)
    requires d + 2 < dst.Length
    modifies dst
    ensures d <= d2 <= d + 2 && dst[..d2] == old(dst[..d]) + EscapeChar(c)
  {
    d2 := d;
    if c == '"' || c == '\\' {
      dst[d], dst[d + 1] := '\\', c;
      d2 := d + 2;
    } else if c == '\n' {
      dst[d], dst[d + 1] := '\\', 'n';
      d2 := d + 2;
    } else if c == '\r' {
      dst[d], dst[d + 1] := '\\', 'r';
      d2 := d + 2;
    } else if c == '\t' {
      dst[d], dst[d + 1] := '\\', 't';
      d2 := d + 2;
    } else if c >= ' ' {
      dst[d] := c;
      d2 := d + 1;
    }
    assert dst[..d] == old(dst[..d]) && dst[d..d2] == EscapeChar(c);
    assert dst[..d2] == dst[..d] + dst[d..d2];
  }

  /** escape_json_str. A buffer of twice the size of the source's is always enough. */
  method EscapeJson(src: string, dst: array<char>)
    requires '\0' !in src && dst.Length > 0
    modifies dst
    ensures 2 * |src| + 2 <= dst.Length ==> CStr(dst[..]) == Escape(src)
  {
    hide CStr, EscapeChar;
    var d, s := 0, 0;
    while s < |src| && d + 2 < dst.Length
      invariant s <= |src| && d <= 2 * s && d < dst.Length && dst[..d] == Escape(src[..s])
    {
      assert src[..s + 1][..s] == src[..s];
      d := PutEscaped(dst, d, src[s]);
      s := s + 1;
    }
    dst[d] := '\0';
    assert dst[..d] == Escape(src[..s]);
    if 2 * |src| + 2 <= dst.Length {
      assert src[..s] == src;
      EscapeLength(src);
      StringIn(dst[..], Escape(src));
    }
  }

  // ---------------------------------------------------------------- extracting

  /** strstr. */
  predicate At(t: string, p: nat, pattern: string) { p + |pattern| <= |t| && t[p..p + |pattern|] == pattern }

  function Find(t: string, pattern: string): Option<nat> {
    if |t| < |pattern| then None
    else if At(t, 0, pattern) then Some(0)
    else if t == [] then None
    else
      match Find(t[1..], pattern)
      case None => None
      case Some(p) => Some(p + 1)
  }

  function SkipBlanks(s: string): string { if s != [] && (s[0] == ' ' || s[0] == '\t') then SkipBlanks(s[1..]) else s }

  /** A quoted value: up to the next quote that is not escaped, or until the buffer is full. */
  function ReadQuoted(s: string, room: nat): string {
    if room <= 1 || s == [] || s[0] == '"' then []
    else if s[0] == '\\' && |s| > 1 then [s[1]] + ReadQuoted(s[2..], room - 1)
    else [s[0]] + ReadQuoted(s[1..], room - 1)
  }

  predicate EndsBare(c: char) { c == ',' || c == '}' || c == '\n' || c == '\r' || c == ' ' }

  function ReadBare(s: string, room: nat): string {
    if room <= 1 || s == [] || EndsBare(s[0]) then [] else [s[0]] + ReadBare(s[1..], room - 1)
  }

  function Pattern(key: string): string { "\"" + key + "\":" }

  function ReadValue(s: string, room: nat): string {
    var t := SkipBlanks(s);
    if t != [] && t[0] == '"' then ReadQuoted(t[1..], room) else ReadBare(t, room)
  }

  /** extract_json_field. */
  function Field(json: string, key: string, room: nat): string {
    match Find(json, Pattern(key))
    case None => []
    case Some(p) => if p + |Pattern(key)| <= |json| then ReadValue(json[p + |Pattern(key)|..], room) else []
  }

  method CopyQuoted(t: string, out: array<char>)
    requires t != [] && '\0' !in t && out.Length > 0
    modifies out
    ensures CStr(out[..]) == ReadQuoted(t[1..], out.Length)
  {
    hide CStr, ReadQuoted;
    var d, p := 0, 1;
    assert out[..0] + ReadQuoted(t[1..], out.Length) == ReadQuoted(t[1..], out.Length);
    while p < |t| && t[p] != '"' && d + 1 < out.Length
      invariant 1 <= p <= |t| && d < out.Length && '\0' !in out[..d]
      invariant out[..d] + ReadQuoted(t[p..], out.Length - d) == ReadQuoted(t[1..], out.Length)
    {
      ghost var before, was := out[..d], p;
      if t[p] == '\\' && p + 1 < |t| { p := p + 1; }
      out[d] := t[p];
      assert out[..d + 1] == before + [t[p]] && t[p] in t;
      QuotedStep(t, was, p, out.Length - d);
      assert before + ([t[p]] + ReadQuoted(t[p + 1..], out.Length - d - 1))
          == out[..d + 1] + ReadQuoted(t[p + 1..], out.Length - d - 1);
      d, p := d + 1, p + 1;
    }
    QuotedEnd(t, p, out.Length - d);
    assert out[..d] + [] == out[..d];
    out[d] := '\0';
    assert out[..d] == ReadQuoted(t[1..], out.Length);
    StringIn(out[..], out[..d]);
  }

  lemma QuotedEnd(t: string, p: nat, room: nat)
    requires p <= |t| && (p == |t| || t[p] == '"' || room <= 1)
    ensures ReadQuoted(t[p..], room) == []
  {}

  lemma QuotedStep(t: string, was: nat, p: nat, room: nat)
    requires was < |t| && t[was] != '"' && room > 1
    requires p == if t[was] == '\\' && was + 1 < |t| then was + 1 else was
    ensures ReadQuoted(t[was..], room) == [t[p]] + ReadQuoted(t[p + 1..], room - 1)
  {
    assert t[was..][1..] == t[was + 1..];
    if p == was + 1 { assert t[was..][2..] == t[p + 1..]; }
  }

  lemma BareEnd(t: string, p: nat, room: nat)
    requires p <= |t| && (p == |t| || EndsBare(t[p]) || room <= 1)
    ensures ReadBare(t[p..], room) == []
  {}

  lemma BareStep(t: string, p: nat, room: nat)
    requires p < |t| && !EndsBare(t[p]) && room > 1
    ensures ReadBare(t[p..], room) == [t[p]] + ReadBare(t[p + 1..], room - 1)
  {
    assert t[p..][1..] == t[p + 1..];
  }

  method CopyBare(t: string, out: array<char>)
    requires '\0' !in t && out.Length > 0
    modifies out
    ensures CStr(out[..]) == ReadBare(t, out.Length)
  {
    hide CStr, EndsBare, ReadBare;
    var d, p := 0, 0;
    while p < |t| && !EndsBare(t[p]) && d + 1 < out.Length
      invariant p <= |t| && d < out.Length && '\0' !in out[..d]
      invariant out[..d] + ReadBare(t[p..], out.Length - d) == ReadBare(t, out.Length)
    {
      ghost var before := out[..d];
      out[d] := t[p];
      assert out[..d + 1] == before + [t[p]] && t[p] in t;
      BareStep(t, p, out.Length - d);
      assert before + ([t[p]] + ReadBare(t[p + 1..], out.Length - d - 1))
          == out[..d + 1] + ReadBare(t[p + 1..], out.Length - d - 1);
      d, p := d + 1, p + 1;
    }
    BareEnd(t, p, out.Length - d);
    assert out[..d] + [] == out[..d];
    out[d] := '\0';
    assert out[..d] == ReadBare(t, out.Length);
    StringIn(out[..], out[..d]);
  }

  /** extract_json_field, into the caller's buffer. */
  method ExtractField(json: string, key: string, out: array<char>)
    requires '\0' !in json && out.Length > 0
    modifies out
    ensures CStr(out[..]) == Field(json, key, out.Length)
  {
    hide Find, SkipBlanks, CStr, ReadQuoted, ReadBare;
    out[0] := '\0';
    StringIn(out[..], []);
    var at := Find(json, Pattern(key));
    if at.None? || at.value + |Pattern(key)| > |json| { return; }
    var t := SkipBlanks(json[at.value + |Pattern(key)|..]);
    SkipsClean(json[at.value + |Pattern(key)|..]);
    if t != [] && t[0] == '"' { CopyQuoted(t, out); } else { CopyBare(t, out); }
  }

  lemma {:induction false} SkipsClean(s: string)
    requires '\0' !in s
    ensures '\0' !in SkipBlanks(s)
  {
    if s != [] && (s[0] == ' ' || s[0] == '\t') { SkipsClean(s[1..]); }
  }

  // ---------------------------------------------------------------- the printed record

  datatype Line = Line(key: string, value: string)

  function LineText(l: Line, last: bool): string {
    "  \"" + l.key + "\": " + l.value + if last then "\n" else ",\n"
  }

  function Body(lines: seq<Line>): string {
    if lines == [] then "}\n" else LineText(lines[0], |lines| == 1) + Body(lines[1..])
  }

  function Flag(b: bool): string { if b then "true" else "false" }

  function Lines(d: Detail): seq<Line> {
    [Line("title_id", Quote(Escape(d.titleId))),
     Line("title_name", Quote(Escape(d.titleName))),
     Line("localized_titles", Quote(Escape(d.localized))),
     Line("default_language", Quote(Escape(d.language))),
     Line("content_id", Quote(Escape(d.contentId))),
     Line("app_version", Quote(Escape(d.appVersion))),
     Line("file_size", Dec(d.fileSize)),
     Line("total_pkg_size", Dec(if d.totalSize > 0 then d.totalSize else d.fileSize)),
     Line("icon_offset", Dec(d.iconOffset)),
     Line("icon_size", Dec(d.iconSize)),
     Line("has_icon", Flag(d.hasIcon)),
     Line("is_multipart", Flag(d.isMultipart)),
     Line("part_index", Dec(d.partIndex)),
     Line("total_parts", Dec(d.totalParts)),
     Line("pkg_type", ShowInt(d.pkgType)),
     Line("pkg_type_str", Quote(Escape(d.typeStr))),
     Line("category", Quote(Escape(d.category))),
     Line("mtime", Dec(d.mtime)),
     Line("blurhash", Quote(d.blurhash)),
     Line("platform", Quote(d.platform)),
     Line("x_rules", Dec(X_RULES))]
  }

  /** write_meta_json. */
  function Meta(d: Detail): string { "{\n" + Body(Lines(d)) }

  // ---------------------------------------------------------------- a key is found where it was printed

  predicate BareOk(v: string) { v != [] && forall i | 0 <= i < |v| :: v[i] != '"' && !EndsBare(v[i]) && v[i] != '\t' }

  predicate ValueOk(v: string) { BareOk(v) || QuotedOk(v) }

  predicate LineOk(l: Line) { KeyOk(l.key) && ValueOk(l.value) }

  lemma LineChars(l: Line, last: bool, rest: string)
    ensures var t := LineText(l, last) + rest;
      var n, vs := |l.key|, |l.key| + 6;
      && |LineText(l, last)| == vs + |l.value| + (if last then 1 else 2)
      && t[0] == t[1] == ' ' && t[2] == '"' && t[3 + n] == '"' && t[4 + n] == ':' && t[5 + n] == ' '
      && (forall i | 0 <= i < n :: t[3 + i] == l.key[i])
      && (forall i | 0 <= i < |l.value| :: t[vs + i] == l.value[i])
      && t[vs + |l.value|] == (if last then '\n' else ',') && (!last ==> t[vs + |l.value| + 1] == '\n')
  {
    var head := "  \"" + l.key + "\": ";
    var tail := if last then "\n" else ",\n";
    var t := LineText(l, last) + rest;
    assert t == head + (l.value + (tail + rest));
    assert head[..3] == "  \"" && head[3..3 + |l.key|] == l.key && head[3 + |l.key|..] == "\": ";
    assert forall i | 0 <= i < |head| :: t[i] == head[i];
  }

  /** Behind a quote in a value, no key followed by a quote and a colon. */
  lemma InValue(l: Line, last: bool, rest: string, k: string, p: nat)
    requires LineOk(l) && KeyOk(k) && |l.key| + 6 <= p < |LineText(l, last)|
    requires var t := LineText(l, last) + rest;
      p + |k| + 2 < |t| && t[p] == '"' && forall i | p < i <= p + |k| :: t[i] == k[i - p - 1]
    ensures var t := LineText(l, last) + rest; t[p + |k| + 1] != '"' || t[p + |k| + 2] != ':'
  {
    hide LineText, QuotedOk;
    LineChars(l, last, rest);
    var t := LineText(l, last) + rest;
    var vs, v := |l.key| + 6, l.value;
    assert forall i | p < i <= p + |k| :: KeyChar(t[i]);
    assert p < vs + |v| && t[p] == v[p - vs];
    if !BareOk(v) { InQuoted(v, t, vs, |k|, p); }
  }

  /** A key's pattern matches in a line only at the line's own key: a quote that is followed by a colon and preceded
      by a letter never comes from a value. */
  lemma OnlyOwnKey(l: Line, last: bool, rest: string, k: string, p: nat)
    requires LineOk(l) && KeyOk(k) && p < |LineText(l, last)|
    ensures At(LineText(l, last) + rest, p, Pattern(k)) ==> p == 2 && k == l.key
  {
    hide LineText, LineOk;
    if At(LineText(l, last) + rest, p, Pattern(k)) {
      Matched(LineText(l, last) + rest, k, p);
      LineChars(l, last, rest);
      if p == 2 {
        KeysAgree(l, last, rest, k);
      } else if p >= |l.key| + 6 {
        InValue(l, last, rest, k, p);
      } else {
        NotInHead(l, last, rest, k, p);
      }
    }
  }

  lemma Matched(t: string, k: string, p: nat)
    requires At(t, p, Pattern(k))
    ensures p + |k| + 2 < |t| && t[p] == '"' && t[p + |k| + 1] == '"' && t[p + |k| + 2] == ':'
    ensures forall i | p < i <= p + |k| :: t[i] == k[i - p - 1]
    ensures k != [] ==> t[p + 1] == k[0]
  {
    var m, a := t[p..p + |Pattern(k)|], Pattern(k);
    assert a[0] == '"' && a[|k| + 1] == '"' && a[|k| + 2] == ':';
    assert forall i | 0 < i <= |k| :: a[i] == k[i - 1];
    assert forall i | 0 <= i < |a| :: t[p + i] == m[i];
  }

  lemma KeysAgree(l: Line, last: bool, rest: string, k: string)
    requires LineOk(l) && KeyOk(k)
    requires var t := LineText(l, last) + rest;
      |k| + 4 < |t| && t[|k| + 3] == '"' && forall i | 2 < i <= 2 + |k| :: t[i] == k[i - 3]
    ensures k == l.key
  {
    hide LineText, ValueOk;
    LineChars(l, last, rest);
    var t, n := LineText(l, last) + rest, |l.key|;
    assert forall i | 3 <= i < 3 + |k| :: KeyChar(t[i]);
    assert forall i | 0 <= i < n :: KeyChar(l.key[i]) && t[3 + i] == l.key[i];
    assert forall i | 3 <= i < 3 + n :: KeyChar(t[i]) by {
      assert forall i | 3 <= i < 3 + n :: t[i] == l.key[i - 3];
    }
    assert !KeyChar(t[3 + |k|]) && !KeyChar(t[3 + n]);
  }

  lemma NotInHead(l: Line, last: bool, rest: string, k: string, p: nat)
    requires LineOk(l) && KeyOk(k) && p < |l.key| + 6 && p != 2
    requires p + |k| + 2 < |LineText(l, last) + rest|
    ensures var t := LineText(l, last) + rest; t[p] == '"' ==> t[p + 1] != k[0]
  {
    hide LineText, ValueOk;
    LineChars(l, last, rest);
    var t, n := LineText(l, last) + rest, |l.key|;
    assert forall i | 0 <= i < n :: KeyChar(l.key[i]) && t[3 + i] == l.key[i];
    assert KeyChar(k[0]);
    if 3 <= p < 3 + n { assert t[p] == l.key[p - 3]; }
  }

  // ---- the search

  lemma AtShifts(t: string, p: nat, pattern: string)
    requires t != []
    ensures At(t[1..], p, pattern) <==> At(t, p + 1, pattern)
  {
    if p + 1 + |pattern| <= |t| { assert t[1..][p..p + |pattern|] == t[p + 1..p + 1 + |pattern|]; }
  }

  lemma {:induction false} FindSkips(t: string, pattern: string, n: nat)
    requires n <= |t| && pattern != [] && forall p | 0 <= p < n :: !At(t, p, pattern)
    ensures Find(t, pattern) == match Find(t[n..], pattern) case None => None case Some(p) => Some(p + n)
  {
    hide At;
    if n == 0 {
      assert t[0..] == t;
    } else if |t| >= |pattern| {
      forall p | 0 <= p < n - 1 ensures !At(t[1..], p, pattern) { AtShifts(t, p, pattern); }
      FindSkips(t[1..], pattern, n - 1);
      assert t[1..][n - 1..] == t[n..];
    }
  }

  /** What follows a key's pattern where it is found first. */
  predicate FoundBefore(t: string, key: string, tail: string) {
    var p := Find(t, Pattern(key));
    p.Some? && p.value + |Pattern(key)| <= |t| && t[p.value + |Pattern(key)|..] == tail
  }

  lemma FoundAtOnce(pattern: string, tail: string)
    ensures Find(pattern + tail, pattern) == Some(0)
  {
    assert At(pattern + tail, 0, pattern);
  }

  lemma OwnLineFound(l: Line, last: bool, rest: string)
    requires KeyOk(l.key)
    ensures FoundBefore(LineText(l, last) + rest, l.key, " " + l.value + (if last then "\n" else ",\n") + rest)
  {
    hide Find, KeyOk;
    var sep := if last then "\n" else ",\n";
    var t, a := LineText(l, last) + rest, Pattern(l.key);
    var tail := " " + l.value + sep + rest;
    assert t == "  " + (a + tail);
    FoundBehind("  ", a, tail);
  }

  lemma FoundBehind(lead: string, a: string, tail: string)
    requires a != [] && forall p | 0 <= p < |lead| :: lead[p] != a[0]
    ensures var t := lead + (a + tail); Find(t, a) == Some(|lead|) && t[|lead| + |a|..] == tail
  {
    hide *;
    FoundAtOnce(a, tail);
    FindPast(lead, a + tail, a);
    BehindBoth(lead, a, tail);
  }

  lemma FindPast(lead: string, s: string, a: string)
    requires a != [] && forall p | 0 <= p < |lead| :: lead[p] != a[0]
    requires Find(s, a) == Some(0)
    ensures Find(lead + s, a) == Some(|lead|)
  {
    hide *;
    NotBefore(lead, a, s);
    FindSkips(lead + s, a, |lead|);
    Behind(lead, s);
  }

  lemma Behind(lead: string, s: string)
    ensures (lead + s)[|lead|..] == s
  {}

  lemma BehindBoth(lead: string, a: string, tail: string)
    ensures (lead + (a + tail))[|lead| + |a|..] == tail
  {}

  lemma NotBefore(lead: string, a: string, s: string)
    requires a != [] && forall p | 0 <= p < |lead| :: lead[p] != a[0]
    ensures forall p | 0 <= p < |lead| :: !At(lead + s, p, a)
  {
    hide *;
    forall p | 0 <= p < |lead| ensures !At(lead + s, p, a) {
      assert (lead + s)[p] == lead[p];
      Mismatch(lead + s, p, a);
    }
  }

  lemma Mismatch(t: string, p: nat, pattern: string)
    requires pattern != [] && p < |t| && t[p] != pattern[0]
    ensures !At(t, p, pattern)
  {
    if p + |pattern| <= |t| { assert t[p..p + |pattern|][0] == t[p]; }
  }

  lemma OtherLineSkipped(l: Line, last: bool, rest: string, key: string, tail: string)
    requires LineOk(l) && KeyOk(key) && l.key != key && FoundBefore(rest, key, tail)
    ensures FoundBefore(LineText(l, last) + rest, key, tail)
  {
    hide Find, KeyOk, LineOk, LineText;
    var t, n := LineText(l, last) + rest, |LineText(l, last)|;
    forall p | 0 <= p < n ensures !At(t, p, Pattern(key)) {
      OnlyOwnKey(l, last, rest, key, p);
    }
    FindSkips(t, Pattern(key), n);
    assert t[n..] == rest;
  }

  function TailOf(lines: seq<Line>, j: nat): string
    requires j < |lines|
  {
    " " + lines[j].value + (if j == |lines| - 1 then "\n" else ",\n") + Body(lines[j + 1..])
  }

  lemma {:induction false} LineFound(lines: seq<Line>, j: nat)
    requires j < |lines| && KeyOk(lines[j].key)
    requires forall i | 0 <= i < j :: LineOk(lines[i]) && lines[i].key != lines[j].key
    ensures FoundBefore(Body(lines), lines[j].key, TailOf(lines, j))
    decreases j
  {
    hide FoundBefore, KeyOk, LineOk, LineText;
    if j == 0 {
      OwnLineFound(lines[0], |lines| == 1, Body(lines[1..]));
    } else {
      LineFound(lines[1..], j - 1);
      assert lines[1..][j..] == lines[j + 1..];
      OtherLineSkipped(lines[0], |lines| == 1, Body(lines[1..]), lines[j].key, TailOf(lines, j));
    }
  }

  // ---------------------------------------------------------------- values read back

  /** What an escaped string reads back as: line breaks and tabs lose their backslash, other control characters are
      gone. */
  function Flat(c: char): (r: string)
    ensures |r| <= 1
  {
    if c == '\n' then "n" else if c == '\r' then "r" else if c == '\t' then "t" else if Control(c) then "" else [c]
  }

  function Flatten(s: string): (r: string)
    ensures |r| <= |s|
  {
    if s == [] then [] else Flat(s[0]) + Flatten(s[1..])
  }

  predicate Clean(s: string) { forall i | 0 <= i < |s| :: !Control(s[i]) }

  lemma {:induction false} FlattenExactly(s: string)
    ensures Flatten(s) == s <==> Clean(s)
  {
    if s != [] {
      FlattenExactly(s[1..]);
      var r := Flatten(s);
      assert s == [s[0]] + s[1..];
      if Clean(s) { assert forall i | 0 <= i < |s[1..]| :: s[1..][i] == s[i + 1]; }
      if !Control(s[0]) {
        assert r == [s[0]] + Flatten(s[1..]);
        assert r == s ==> r[1..] == s[1..];
        assert Clean(s[1..]) ==> Clean(s) by { assert forall i | 0 < i < |s| :: s[i] == s[1..][i - 1]; }
      } else {
        if Flat(s[0]) != [] { assert r[0] == Flat(s[0])[0]; }
      }
    }
  }

  lemma {:induction false} EscapeFront(c: char, s: string)
    ensures Escape([c] + s) == EscapeChar(c) + Escape(s)
  {
    hide EscapeChar;
    if s == [] {
      assert ([c] + s)[..0] == [];
    } else {
      var n := |s| - 1;
      EscapeFront(c, s[..n]);
      assert ([c] + s)[..|s|] == [c] + s[..n];
    }
  }

  /** An escaped string, its closing quote and anything behind. */
  lemma {:induction false} EscapedRead(s: string, rest: string, room: nat)
    requires |s| < room
    ensures ReadQuoted(Escape(s) + ("\"" + rest), room) == Flatten(s)
  {
    hide EscapeChar, Flat, ReadQuoted;
    if s != [] {
      var c, tail := s[0], Escape(s[1..]) + ("\"" + rest);
      EscapeFront(c, s[1..]);
      assert [c] + s[1..] == s;
      assert Escape(s) + ("\"" + rest) == EscapeChar(c) + tail;
      EscapedRead(s[1..], rest, room - |Flat(c)|);
      OneRead(c, tail, room);
    } else {
      assert Escape(s) + ("\"" + rest) == "\"" + rest;
      QuotedEnd("\"" + rest, 0, room);
      assert ("\"" + rest)[0..] == "\"" + rest;
    }
  }

  lemma OneRead(c: char, tail: string, room: nat)
    requires room > 1
    ensures Flat(c) == [] ==> EscapeChar(c) + tail == tail
    ensures Flat(c) != [] ==> ReadQuoted(EscapeChar(c) + tail, room) == Flat(c) + ReadQuoted(tail, room - 1)
  {
    var t := EscapeChar(c) + tail;
    if |EscapeChar(c)| == 2 { assert t[0] == '\\' && t[1] == Flat(c)[0] && t[2..] == tail; }
    else if |EscapeChar(c)| == 1 { assert t[0] == c && t[1..] == tail; }
  }

  /** Raw strings come back exactly when they hold no quote and no backslash. */
  predicate Plain(s: string) { forall i | 0 <= i < |s| :: s[i] != '"' && s[i] != '\\' }

  predicate Slashes(s: string) { forall i | 0 <= i < |s| :: s[i] == '\\' }

  lemma {:induction false} SlashesGrow(b: string, u: string, rest: string, room: nat)
    requires b != [] && Slashes(b)
    ensures ReadQuoted(u + ("\"" + rest), room) != b + u
    decreases |u|
  {
    var t := u + ("\"" + rest);
    var r := ReadQuoted(t, room);
    assert (b + u)[0] == '\\';
    if u != [] && room > 1 && u[0] == '\\' {
      assert t[0] == '\\' && t[1] == if |u| > 1 then u[1] else '"';
      if |u| > 1 && u[1] == '\\' {
        assert t[2..] == u[2..] + ("\"" + rest);
        SlashesGrow(b + "\\", u[2..], rest, room - 1);
        assert r == "\\" + ReadQuoted(t[2..], room - 1);
        assert r[1..] == ReadQuoted(t[2..], room - 1);
        assert (b + u)[1..] == (b + "\\") + u[2..] by { OneMoreSlash(b, u); }
      }
    } else if u != [] && room > 1 && u[0] != '"' {
      assert t[0] == u[0];
    }
  }

  lemma OneMoreSlash(b: string, u: string)
    requires b != [] && Slashes(b) && |u| > 1 && u[0] == '\\' && u[1] == '\\'
    ensures (b + u)[1..] == (b + "\\") + u[2..]
  {
    var x, y := (b + u)[1..], (b + "\\") + u[2..];
    assert |x| == |y|;
    assert forall i | 0 <= i < |x| :: x[i] == y[i];
  }

  lemma {:induction false} RawRead(s: string, rest: string, room: nat)
    requires |s| < room
    ensures ReadQuoted(s + ("\"" + rest), room) == s <==> Plain(s)
  {
    var t := s + ("\"" + rest);
    if s != [] {
      assert t[0] == s[0] && s == [s[0]] + s[1..];
      if s[0] == '\\' {
        assert t[1] == if |s| > 1 then s[1] else '"';
        if |s| > 1 && s[1] == '\\' {
          assert t[2..] == s[2..] + ("\"" + rest) && s[1..] == "\\" + s[2..];
          SlashesGrow("\\", s[2..], rest, room - 1);
          assert ReadQuoted(t, room) == "\\" + ReadQuoted(t[2..], room - 1);
          assert s == "\\" + s[1..];
        }
      } else if s[0] != '"' {
        assert t[1..] == s[1..] + ("\"" + rest);
        RawRead(s[1..], rest, room - 1);
        assert Plain(s) <==> Plain(s[1..]) by {
          assert forall i | 0 < i < |s| :: s[i] == s[1..][i - 1];
          assert forall i | 0 <= i < |s[1..]| :: s[1..][i] == s[i + 1];
        }
      }
    }
  }

  lemma {:induction false} BareRead(v: string, tail: string, room: nat)
    requires BareOk(v) && |v| < room && tail != [] && EndsBare(tail[0])
    ensures ReadBare(v + tail, room) == v
  {
    var t := v + tail;
    assert t[0] == v[0] && t[1..] == v[1..] + tail;
    if |v| > 1 {
      assert forall i | 0 <= i < |v[1..]| :: v[1..][i] == v[i + 1];
      BareRead(v[1..], tail, room - 1);
    } else {
      assert v[1..] == [] && v[1..] + tail == tail;
    }
  }

  // ---------------------------------------------------------------- the lookup

  const VALUE: nat := 512

  function Number(json: string, key: string): nat { StrToULL(Field(json, key, VALUE), 10) }

  function IsTrue(v: string): bool { v == "true" || v == "1" }

  function TotalOf(json: string, fileSize: nat): nat {
    if Field(json, "total_pkg_size", VALUE) != [] then Number(json, "total_pkg_size") else fileSize
  }

  function Parsed(json: string, iconFile: bool): Detail {
    Detail(
      Field(json, "title_id", 32), Field(json, "title_name", 256), Field(json, "localized_titles", 2048),
      Field(json, "default_language", 32), Field(json, "content_id", 64), Field(json, "app_version", 32),
      Number(json, "file_size"), TotalOf(json, Number(json, "file_size")), Number(json, "icon_offset"),
      Number(json, "icon_size") % U32, IsTrue(Field(json, "has_icon", VALUE)) || iconFile,
      IsTrue(Field(json, "is_multipart", VALUE)), Number(json, "part_index") % U32, Number(json, "total_parts") % U32,
      AtoI(Field(json, "pkg_type", VALUE)), Field(json, "pkg_type_str", 16), Field(json, "category", 16),
      Number(json, "mtime"), Field(json, "blurhash", 64), Field(json, "platform", 8))
  }

  predicate Unknown(d: Detail) { d.titleId == "" && d.titleName == "Unknown Package" }

  /** pkg_cache_lookup on a record file's contents; iconFile says whether a cached icon is there. */
  function LookupOf(contents: string, iconFile: bool): Option<Detail> {
    if |contents| >= BUFFER - 1 || contents == [] then None
    else
      var json := CStr(contents);
      var d := Parsed(json, iconFile);
      if AtoI(Field(json, "x_rules", VALUE)) != X_RULES || Unknown(d) then None else Some(d)
  }

  method GetText(json: string, key: string, room: nat) returns (s: string)
    requires '\0' !in json && room > 0
    ensures s == Field(json, key, room)
  {
    var out := new char[room](_ => '\0');
    ExtractField(json, key, out);
    s := CStr(out[..]);
  }

  const ZERO: Detail := Detail("", "", "", "", "", "", 0, 0, 0, 0, false, false, 0, 0, 0, "", "", 0, "", "")

  function TextsOf(json: string): Detail {
    ZERO.(titleId := Field(json, "title_id", 32), titleName := Field(json, "title_name", 256),
          localized := Field(json, "localized_titles", 2048), language := Field(json, "default_language", 32),
          contentId := Field(json, "content_id", 64), appVersion := Field(json, "app_version", 32),
          typeStr := Field(json, "pkg_type_str", 16), category := Field(json, "category", 16))
  }

  method FillTexts(json: string) returns (d: Detail)
    requires '\0' !in json
    ensures d == TextsOf(json)
  {
    hide Field;
    d := ZERO;
    var v := GetText(json, "title_id", 32);
    d := d.(titleId := v);
    v := GetText(json, "title_name", 256);
    d := d.(titleName := v);
    v := GetText(json, "localized_titles", 2048);
    d := d.(localized := v);
    v := GetText(json, "default_language", 32);
    d := d.(language := v);
    v := GetText(json, "content_id", 64);
    d := d.(contentId := v);
    v := GetText(json, "app_version", 32);
    d := d.(appVersion := v);
    v := GetText(json, "pkg_type_str", 16);
    d := d.(typeStr := v);
    v := GetText(json, "category", 16);
    d := d.(category := v);
  }

  /** A value that is there is converted; otherwise the field keeps its 0. */
  method GetNumber(json: string, key: string) returns (n: nat)
    requires '\0' !in json
    ensures n == Number(json, key)
  {
    hide Field;
    EmptyIsZero();
    n := 0;
    var v := GetText(json, key, VALUE);
    if v != [] { n := StrToULL(v, 10); }
  }

  method FillSizes(json: string, d0: Detail) returns (d: Detail)
    requires '\0' !in json
    ensures d == d0.(fileSize := Number(json, "file_size"), totalSize := TotalOf(json, Number(json, "file_size")),
                     iconOffset := Number(json, "icon_offset"), iconSize := Number(json, "icon_size") % U32)
  {
    hide Field, Number;
    var n := GetNumber(json, "file_size");
    d := d0.(fileSize := n);
    var v := GetText(json, "total_pkg_size", VALUE);
    if v != [] {
      n := GetNumber(json, "total_pkg_size");
      d := d.(totalSize := n);
    } else {
      d := d.(totalSize := d.fileSize);
    }
    n := GetNumber(json, "icon_offset");
    d := d.(iconOffset := n);
    n := GetNumber(json, "icon_size");
    d := d.(iconSize := n % U32);
  }

  /** pkg_cache_lookup, field by field. */
  method Lookup(contents: string, iconFile: bool) returns (r: Option<Detail>)
    ensures r == LookupOf(contents, iconFile)
  {
    hide Field, Number, AtoI, CStr;
    if |contents| >= BUFFER - 1 || contents == [] { return None; }
    var json := CStr(contents);
    var d := FillTexts(json);
    d := FillSizes(json, d);
    var v := GetText(json, "has_icon", VALUE);
    d := d.(hasIcon := IsTrue(v));
    v := GetText(json, "is_multipart", VALUE);
    d := d.(isMultipart := IsTrue(v));
    var n := GetNumber(json, "part_index");
    d := d.(partIndex := n % U32);
    n := GetNumber(json, "total_parts");
    d := d.(totalParts := n % U32);
    v := GetText(json, "pkg_type", VALUE);
    EmptyIsZero();
    if v != [] { d := d.(pkgType := AtoI(v)); }
    n := GetNumber(json, "mtime");
    d := d.(mtime := n);
    v := GetText(json, "blurhash", 64);
    d := d.(blurhash := v);
    v := GetText(json, "platform", 8);
    d := d.(platform := v);
    v := GetText(json, "x_rules", VALUE);
    if AtoI(v) != X_RULES { return None; }
    if iconFile { d := d.(hasIcon := true); }
    if d.titleId == [] && d.titleName == "Unknown Package" { return None; }
    r := Some(d);
  }

  lemma EmptyIsZero()
    ensures StrToULL([], 10) == 0 && AtoI([]) == 0
  {
    hide SkipSpaces, Run, Value, Lower, IsDigitIn;
  }

  // ---------------------------------------------------------------- the round trip

  const KEYS: seq<string> := [
    "title_id", "title_name", "localized_titles", "default_language", "content_id", "app_version", "file_size",
    "total_pkg_size", "icon_offset", "icon_size", "has_icon", "is_multipart", "part_index", "total_parts", "pkg_type",
    "pkg_type_str", "category", "mtime", "blurhash", "platform", "x_rules"]

  lemma KeysDiffer(i: nat, j: nat)
    requires i < j < 21
    ensures KEYS[i] != KEYS[j]
  {
  }

  lemma KeysOk(j: nat)
    requires j < 21
    ensures KeyOk(KEYS[j])
  {
    hide KeyOk, KEYS;
    if j < 7 { FirstKeysOk(j); } else if j < 14 { MiddleKeysOk(j); } else { LastKeysOk(j); }
  }

  lemma FirstKeysOk(j: nat)
    requires j < 7
    ensures |KEYS| == 21 && KeyOk(KEYS[j])
  {
    assert j in {0, 1, 2, 3, 4, 5, 6};
  }

  lemma MiddleKeysOk(j: nat)
    requires 7 <= j < 14
    ensures |KEYS| == 21 && KeyOk(KEYS[j])
  {
    assert j in {7, 8, 9, 10, 11, 12, 13};
  }

  lemma LastKeysOk(j: nat)
    requires 14 <= j < 21
    ensures |KEYS| == 21 && KeyOk(KEYS[j])
  {
    assert j in {14, 15, 16, 17, 18, 19, 20};
  }

  lemma KeyOf(d: Detail, j: nat)
    requires j < 21
    ensures |Lines(d)| == 21 && Lines(d)[j].key == KEYS[j]
  {
    hide Escape, Dec, Quote;
  }

  lemma {:induction false} EscapedOk(s: string)
    ensures BodyOk(Escape(s))
  {
    hide EscapeChar, BodyOk;
    if s != [] {
      EscapedOk(s[..|s| - 1]);
      CharOk(s[|s| - 1]);
      BodiesJoin(Escape(s[..|s| - 1]), EscapeChar(s[|s| - 1]));
    } else {
      assert BodyOk([]) by { PlainOk([]); }
    }
  }

  lemma CharOk(c: char)
    ensures BodyOk(EscapeChar(c))
  {}

  lemma DigitsOk(s: string)
    requires s != [] && AllDigits(s, 10)
    ensures ValueOk(s) && BareOk(s)
  {
    assert forall i | 0 <= i < |s| :: IsDigitIn(s[i], 10);
  }

  lemma FlagOk(b: bool)
    ensures ValueOk(Flag(b)) && BareOk(Flag(b))
  {}

  /** The string printed, escaped, in line j. */
  function TextIn(d: Detail, j: nat): string {
    if j == 0 then d.titleId else if j == 1 then d.titleName else if j == 2 then d.localized
    else if j == 3 then d.language else if j == 4 then d.contentId else if j == 5 then d.appVersion
    else if j == 15 then d.typeStr else d.category
  }

  predicate IsText(j: nat) { j < 6 || j == 15 || j == 16 }

  function NumberIn(d: Detail, j: nat): nat
    requires DetailOk(d)
  {
    if j == 6 then d.fileSize else if j == 7 then (if d.totalSize > 0 then d.totalSize else d.fileSize)
    else if j == 8 then d.iconOffset else if j == 9 then d.iconSize else if j == 12 then d.partIndex
    else if j == 13 then d.totalParts else if j == 14 then d.pkgType else if j == 17 then d.mtime else X_RULES
  }

  predicate IsNumber(j: nat) { 6 <= j <= 9 || 12 <= j <= 14 || j == 17 || j == 20 }

  lemma TextLine(d: Detail, j: nat)
    requires IsText(j)
    ensures |Lines(d)| == 21 && Lines(d)[j].value == Quote(Escape(TextIn(d, j)))
  {
    hide Escape, Quote, Dec, Flag;
  }

  lemma NumberLine(d: Detail, j: nat)
    requires DetailOk(d) && IsNumber(j)
    ensures |Lines(d)| == 21 && Lines(d)[j].value == Dec(NumberIn(d, j))
  {
    hide Escape, Quote, Dec, Flag;
    assert d.pkgType >= 0 && ShowInt(d.pkgType) == Dec(d.pkgType);
  }

  lemma OtherLine(d: Detail)
    ensures |Lines(d)| == 21 && Lines(d)[10].value == Flag(d.hasIcon) && Lines(d)[11].value == Flag(d.isMultipart)
    ensures Lines(d)[18].value == Quote(d.blurhash) && Lines(d)[19].value == Quote(d.platform)
  {
    hide Escape, Quote, Dec, Flag;
  }

  /** Every printed value is well-formed, the two raw strings if they hold no quote. */
  lemma ValuesOk(d: Detail, j: nat)
    requires DetailOk(d) && j < 21
    requires j == 18 ==> Plain(d.blurhash)
    requires j == 19 ==> Plain(d.platform)
    ensures |Lines(d)| == 21 && ValueOk(Lines(d)[j].value)
  {
    hide QuotedOk, BareOk, Escape, AllDigits, Plain, Lines, DetailOk, TextIn, NumberIn, Flag, Quote, BodyOk;
    if IsText(j) {
      TextLine(d, j);
      EscapedOk(TextIn(d, j));
      QuotedIsOk(Escape(TextIn(d, j)));
    } else if IsNumber(j) {
      NumberLine(d, j);
      DigitsOk(Dec(NumberIn(d, j)));
    } else {
      OtherLine(d);
      FlagOk(d.hasIcon);
      FlagOk(d.isMultipart);
      if j == 18 { PlainOk(d.blurhash); QuotedIsOk(d.blurhash); }
      if j == 19 { PlainOk(d.platform); QuotedIsOk(d.platform); }
    }
  }

  lemma PlainOk(s: string)
    requires Plain(s)
    ensures BodyOk(s)
  {}

  /** The lines in front of a line do not hide it. */
  lemma Reached(d: Detail, j: nat)
    requires DetailOk(d) && j < 21 && (j > 18 ==> Plain(d.blurhash)) && (j > 19 ==> Plain(d.platform))
    ensures |Lines(d)| == 21 && FoundBefore(Meta(d), KEYS[j], TailOf(Lines(d), j))
  {
    hide Lines, ValueOk, KeyOk, FoundBefore, Plain;
    KeyOf(d, j);
    KeysOk(j);
    forall i | 0 <= i < j ensures LineOk(Lines(d)[i]) && Lines(d)[i].key != Lines(d)[j].key {
      KeyOf(d, i);
      KeysOk(i);
      KeysDiffer(i, j);
      ValuesOk(d, i);
    }
    LineFound(Lines(d), j);
    BehindBrace(Body(Lines(d)), KEYS[j], TailOf(Lines(d), j));
  }

  lemma BehindBrace(t: string, key: string, tail: string)
    requires FoundBefore(t, key, tail)
    ensures FoundBefore("{\n" + t, key, tail)
  {
    hide Find;
    var u, a := "{\n" + t, Pattern(key);
    assert a[0] == '"';
    forall p | 0 <= p < 2 ensures !At(u, p, a) {
      assert u[p] != '"';
      assert p + |a| <= |u| ==> u[p..p + |a|][0] == u[p];
    }
    FindSkips(u, a, 2);
    assert u[2..] == t;
  }

  // ---- each kind of field

  lemma FieldIs(d: Detail, j: nat, room: nat)
    requires DetailOk(d) && j < 21 && (j > 18 ==> Plain(d.blurhash)) && (j > 19 ==> Plain(d.platform))
    ensures |Lines(d)| == 21 && Field(Meta(d), KEYS[j], room) == ReadValue(TailOf(Lines(d), j), room)
  {
    hide Lines, Meta, Plain, DetailOk, TailOf, Find, ReadValue;
    Reached(d, j);
  }

  lemma QuotedTail(body: string, sep: string, room: nat)
    ensures ReadValue(" " + Quote(body) + sep, room) == ReadQuoted(body + ("\"" + sep), room)
  {
    hide ReadQuoted;
    var t := " " + Quote(body) + sep;
    var u := Quote(body) + sep;
    assert t[0] == ' ' && t[1..] == u && u[0] == '"';
    assert SkipBlanks(u) == u && SkipBlanks(t) == u;
    assert u[1..] == body + ("\"" + sep);
  }

  lemma BareTail(v: string, sep: string, room: nat)
    requires BareOk(v) && |v| < room && sep != [] && EndsBare(sep[0])
    ensures ReadValue(" " + v + sep, room) == v
  {
    hide ReadBare, ReadQuoted;
    var t := " " + v + sep;
    var u := v + sep;
    assert v[0] != '"' && v[0] != ' ' && v[0] != '\t';
    assert t[0] == ' ' && t[1..] == u && u[0] == v[0];
    assert SkipBlanks(u) == u && SkipBlanks(t) == u;
    BareRead(v, sep, room);
  }

  lemma TailSplit(lines: seq<Line>, j: nat) returns (sep: string)
    requires j < |lines|
    ensures TailOf(lines, j) == " " + lines[j].value + sep && sep != [] && EndsBare(sep[0])
  {
    var s := if j == |lines| - 1 then "\n" else ",\n";
    sep := s + Body(lines[j + 1..]);
    assert sep[0] == s[0];
    assert " " + lines[j].value + s + Body(lines[j + 1..]) == " " + lines[j].value + sep;
  }

  lemma TextField(d: Detail, j: nat, room: nat)
    requires DetailOk(d) && IsText(j) && |TextIn(d, j)| < room
    ensures Field(Meta(d), KEYS[j], room) == Flatten(TextIn(d, j))
  {
    hide Lines, Meta, Plain, DetailOk, TailOf, Field, ReadValue, Escape, Quote, EndsBare, TextIn;
    TextLine(d, j);
    FieldIs(d, j, room);
    var sep := TailSplit(Lines(d), j);
    QuotedTail(Escape(TextIn(d, j)), sep, room);
    EscapedRead(TextIn(d, j), sep, room);
  }

  lemma RawField(d: Detail, j: nat, room: nat)
    requires DetailOk(d) && (j == 18 || (j == 19 && Plain(d.blurhash)))
    requires |if j == 18 then d.blurhash else d.platform| < room
    ensures var s := if j == 18 then d.blurhash else d.platform; Field(Meta(d), KEYS[j], room) == s <==> Plain(s)
  {
    hide Lines, Meta, Plain, DetailOk, TailOf, Field, ReadValue, Quote, EndsBare;
    OtherLine(d);
    FieldIs(d, j, room);
    var sep := TailSplit(Lines(d), j);
    var s := if j == 18 then d.blurhash else d.platform;
    QuotedTail(s, sep, room);
    RawRead(s, sep, room);
  }

  lemma BareField(d: Detail, j: nat)
    requires DetailOk(d) && Plain(d.blurhash) && Plain(d.platform) && j < 21
    requires |Lines(d)| == 21 && BareOk(Lines(d)[j].value) && |Lines(d)[j].value| < VALUE
    ensures Field(Meta(d), KEYS[j], VALUE) == Lines(d)[j].value
  {
    hide Lines, Meta, Plain, DetailOk, TailOf, Field, ReadValue, EndsBare, BareOk;
    FieldIs(d, j, VALUE);
    var sep := TailSplit(Lines(d), j);
    BareTail(Lines(d)[j].value, sep, VALUE);
  }

  lemma {:induction false} DecShort(n: nat, k: nat)
    requires k >= 1 && n < Pow10(k)
    ensures |Dec(n)| <= k
  {
    if n >= 10 {
      assert k > 1 by { assert Pow10(1) == 10 * Pow10(0); }
      DecShort(n / 10, k - 1);
    }
  }

  lemma NumberShort(n: nat)
    requires n <= U64_MAX
    ensures |Dec(n)| <= 20
  {
    assert Pow10(5) == 100000;
    assert Pow10(10) == 10000000000;
    assert Pow10(15) == 1000000000000000;
    assert Pow10(20) == 100000000000000000000;
    DecShort(n, 20);
  }

  lemma NumberConverted(n: nat)
    requires n <= U64_MAX
    ensures StrToULL(Dec(n), 10) == n && (n < 0x8000_0000 ==> AtoI(Dec(n)) == n)
  {
    hide ScanNumber, Value;
    ScanPlain(Dec(n), "", 10);
    assert Dec(n) + "" == Dec(n);
  }

  lemma NumberInRange(d: Detail, j: nat)
    requires DetailOk(d)
    ensures NumberIn(d, j) <= U64_MAX
  {}

  lemma NumberField(d: Detail, j: nat)
    requires DetailOk(d) && Plain(d.blurhash) && Plain(d.platform) && IsNumber(j)
    ensures Field(Meta(d), KEYS[j], VALUE) == Dec(NumberIn(d, j))
    ensures Number(Meta(d), KEYS[j]) == NumberIn(d, j)
    ensures NumberIn(d, j) < 0x8000_0000 ==> AtoI(Field(Meta(d), KEYS[j], VALUE)) == NumberIn(d, j)
  {
    hide Lines, Meta, Plain, DetailOk, Field, StrToULL, AtoI, NumberIn, BareOk, ValueOk, AllDigits, Value;
    NumberInRange(d, j);
    NumberLine(d, j);
    DigitsOk(Dec(NumberIn(d, j)));
    NumberShort(NumberIn(d, j));
    BareField(d, j);
    NumberConverted(NumberIn(d, j));
  }

  lemma FlagField(d: Detail, j: nat)
    requires DetailOk(d) && Plain(d.blurhash) && Plain(d.platform) && (j == 10 || j == 11)
    ensures IsTrue(Field(Meta(d), KEYS[j], VALUE)) == if j == 10 then d.hasIcon else d.isMultipart
  {
    hide Lines, Meta, Plain, DetailOk, Field, BareOk, ValueOk;
    OtherLine(d);
    FlagOk(d.hasIcon);
    FlagOk(d.isMultipart);
    BareField(d, j);
    assert Flag(false) != "true" && Flag(false) != "1";
  }

  // ---- the record fits, and holds no terminator

  lemma {:induction false} BodySize(lines: seq<Line>, n: nat)
    requires forall i | 0 <= i < |lines| :: |lines[i].key| <= 16 && |lines[i].value| <= n
    requires forall i | 0 <= i < |lines| :: '\0' !in lines[i].key && '\0' !in lines[i].value
    ensures |Body(lines)| <= |lines| * (n + 24) + 2 && '\0' !in Body(lines)
  {
    if lines != [] {
      BodySize(lines[1..], n);
      assert |LineText(lines[0], |lines| == 1)| <= n + 24;
      assert '\0' !in LineText(lines[0], |lines| == 1);
      assert |lines| * (n + 24) == |lines[1..]| * (n + 24) + (n + 24);
    }
  }

  lemma KeySizes(j: nat)
    requires j < 21
    ensures |KEYS[j]| <= 16 && '\0' !in KEYS[j]
  {
    KeysOk(j);
    if j < 10 { assert j in {0, 1, 2, 3, 4, 5, 6, 7, 8, 9}; }
  }

  lemma ValueSize(d: Detail, j: nat)
    requires DetailOk(d) && j < 21
    ensures |Lines(d)| == 21 && '\0' !in Lines(d)[j].value
    ensures |Lines(d)[j].value| <= if j == 1 then 512 else if j == 2 then 4096 else 128
  {
    hide Lines, Escape, NumberIn, AllDigits, Value;
    if IsText(j) {
      TextLine(d, j);
      EscapeLength(TextIn(d, j));
    } else if IsNumber(j) {
      NumberLine(d, j);
      NumberInRange(d, j);
      NumberShort(NumberIn(d, j));
    } else {
      OtherLine(d);
    }
  }

  /** The longest record fits the reader's buffer. */
  lemma MetaFits(d: Detail)
    requires DetailOk(d)
    ensures |Meta(d)| < BUFFER - 1 && Meta(d) != [] && CStr(Meta(d)) == Meta(d)
  {
    hide Lines, LineText, DetailOk;
    var ls := Lines(d);
    KeyOf(d, 0);
    forall j | 0 <= j < 21
      ensures ls[j].key == KEYS[j] && |KEYS[j]| <= 16 && '\0' !in KEYS[j] && '\0' !in ls[j].value
      ensures |ls[j].value| <= if j == 1 then 512 else if j == 2 then 4096 else 128
    {
      KeyOf(d, j);
      KeySizes(j);
      ValueSize(d, j);
    }
    BodySize(ls[3..], 128);
    assert ls[1..][1..] == ls[2..] && ls[2..][1..] == ls[3..];
    assert Body(ls) == LineText(ls[0], false) + Body(ls[1..]);
    assert Body(ls[1..]) == LineText(ls[1], false) + Body(ls[2..]);
    assert Body(ls[2..]) == LineText(ls[2], false) + Body(ls[3..]);
    LineSize(ls[0], 128);
    LineSize(ls[1], 512);
    LineSize(ls[2], 4096);
    CStrClean(Meta(d));
  }

  lemma LineSize(l: Line, n: nat)
    requires |l.key| <= 16 && |l.value| <= n && '\0' !in l.key && '\0' !in l.value
    ensures |LineText(l, false)| <= n + 24 && '\0' !in LineText(l, false)
  {}

  // ---- the theorem

  /** What a lookup is to return: a total of 0 was printed as the file size, and an icon file counts as an icon. */
  function Kept(d: Detail, iconFile: bool): Detail {
    d.(totalSize := if d.totalSize > 0 then d.totalSize else d.fileSize, hasIcon := d.hasIcon || iconFile)
  }

  predicate AllClean(d: Detail) {
    && Clean(d.titleId) && Clean(d.titleName) && Clean(d.localized) && Clean(d.language) && Clean(d.contentId)
    && Clean(d.appVersion) && Clean(d.typeStr) && Clean(d.category)
  }

  function Flattened(d: Detail): Detail {
    d.(titleId := Flatten(d.titleId), titleName := Flatten(d.titleName), localized := Flatten(d.localized),
       language := Flatten(d.language), contentId := Flatten(d.contentId), appVersion := Flatten(d.appVersion),
       typeStr := Flatten(d.typeStr), category := Flatten(d.category))
  }

  lemma TextsRead(d: Detail)
    requires DetailOk(d)
    ensures var m, f := Meta(d), Flattened(d);
      && Field(m, "title_id", 32) == f.titleId && Field(m, "title_name", 256) == f.titleName
      && Field(m, "localized_titles", 2048) == f.localized && Field(m, "default_language", 32) == f.language
      && Field(m, "content_id", 64) == f.contentId && Field(m, "app_version", 32) == f.appVersion
      && Field(m, "pkg_type_str", 16) == f.typeStr && Field(m, "category", 16) == f.category
  {
    hide Meta, Field, Flatten;
    TextField(d, 0, 32);
    TextField(d, 1, 256);
    TextField(d, 2, 2048);
    TextField(d, 3, 32);
    TextField(d, 4, 64);
    TextField(d, 5, 32);
    TextField(d, 15, 16);
    TextField(d, 16, 16);
  }

  lemma NumbersRead(d: Detail)
    requires DetailOk(d) && Plain(d.blurhash) && Plain(d.platform)
    ensures var m := Meta(d);
      && Number(m, "part_index") == d.partIndex && Number(m, "total_parts") == d.totalParts
      && AtoI(Field(m, "pkg_type", VALUE)) == d.pkgType && Number(m, "mtime") == d.mtime
      && AtoI(Field(m, "x_rules", VALUE)) == X_RULES
  {
    hide Meta, Field, Number, AtoI, Plain;
    NumberField(d, 12);
    NumberField(d, 13);
    NumberField(d, 14);
    NumberField(d, 17);
    NumberField(d, 20);
  }

  lemma SizesRead(d: Detail)
    requires DetailOk(d) && Plain(d.blurhash) && Plain(d.platform)
    ensures var m, k := Meta(d), Kept(d, false);
      && Number(m, "file_size") == d.fileSize && TotalOf(m, d.fileSize) == k.totalSize
      && Number(m, "icon_offset") == d.iconOffset && Number(m, "icon_size") == d.iconSize
  {
    hide Meta, Field, Number, AtoI, Plain;
    NumberField(d, 6);
    NumberField(d, 7);
    NumberField(d, 8);
    NumberField(d, 9);
  }

  lemma AllRead(d: Detail, iconFile: bool)
    requires DetailOk(d) && Plain(d.blurhash) && Plain(d.platform)
    ensures Parsed(Meta(d), iconFile) == Kept(Flattened(d), iconFile)
  {
    hide Meta, Field, Number, AtoI, Plain, Flatten, TotalOf, IsTrue;
    TextsRead(d);
    SizesRead(d);
    NumbersRead(d);
    FlagField(d, 10);
    FlagField(d, 11);
    RawField(d, 18, 64);
    RawField(d, 19, 8);
  }

  lemma FlattenedExactly(d: Detail)
    ensures Flattened(d) == d <==> AllClean(d)
  {
    hide Flatten, Clean;
    FlattenExactly(d.titleId);
    FlattenExactly(d.titleName);
    FlattenExactly(d.localized);
    FlattenExactly(d.language);
    FlattenExactly(d.contentId);
    FlattenExactly(d.appVersion);
    FlattenExactly(d.typeStr);
    FlattenExactly(d.category);
  }

  /** A record comes back from the cache exactly when its escaped strings hold no control character, its two raw strings
      hold no quote and no backslash, and it is not the one record the reader distrusts. */
  lemma RoundTrip(d: Detail, iconFile: bool)
    requires DetailOk(d)
    ensures LookupOf(Meta(d), iconFile) == Some(Kept(d, iconFile))
      <==> AllClean(d) && Plain(d.blurhash) && Plain(d.platform) && !Unknown(d)
  {
    hide Meta, Field, Number, AtoI, Plain, Flatten, Clean, TotalOf, IsTrue, CStr, DetailOk;
    MetaFits(d);
    if Plain(d.blurhash) && Plain(d.platform) {
      AllRead(d, iconFile);
      XRulesRead(d);
      FlattenedExactly(d);
      assert Kept(Flattened(d), iconFile) == Kept(d, iconFile) <==> Flattened(d) == d;
    } else if !Plain(d.blurhash) {
      BlurhashLost(d);
    } else {
      PlatformLost(d);
    }
  }

  lemma XRulesRead(d: Detail)
    requires DetailOk(d) && Plain(d.blurhash) && Plain(d.platform)
    ensures AtoI(Field(Meta(d), "x_rules", VALUE)) == X_RULES
  {
    hide Meta, Field, Number, AtoI, Plain, TotalOf;
    NumbersRead(d);
  }

  lemma BlurhashLost(d: Detail)
    requires DetailOk(d) && !Plain(d.blurhash)
    ensures Field(Meta(d), "blurhash", 64) != d.blurhash
  {
    hide Meta, Field, Plain;
    RawField(d, 18, 64);
  }

  lemma PlatformLost(d: Detail)
    requires DetailOk(d) && Plain(d.blurhash) && !Plain(d.platform)
    ensures Field(Meta(d), "platform", 8) != d.platform
  {
    hide Meta, Field, Plain;
    RawField(d, 19, 8);
  }

  /** A title that holds a control character. */
  const Controlled: Detail := Detail("CUSA00001", [1 as char], "", "", "", "", 0, 0, 0, 0, false, false, 1, 1, 0,
                                    "", "", 0, "", "")

  lemma ControlLost(iconFile: bool)
    ensures DetailOk(Controlled) && LookupOf(Meta(Controlled), iconFile) != Some(Kept(Controlled, iconFile))
  {
    hide Meta, LookupOf;
    assert Control(Controlled.titleName[0]);
    RoundTrip(Controlled, iconFile);
  }
}
