/** The flat JSON helpers of http_source.c (src/http_source.c:228-343). */
module Json {
  import opened Quoted
  import opened Text

  // ---------------------------------------------------------------- writing a string

  function Hex(d: nat): (c: char)
    requires d < 16
    ensures DigitOf(c) == d
  {
    if d < 10 then (48 + d) as char else (87 + d) as char
  }

  function EscapeChar(c: char): (r: string)
    ensures 1 <= |r| <= 6
  {
    if c == '"' || c == '\\' then ['\\', c]
    else if c == '\n' then "\\n"
    else if c == '\r' then "\\r"
    else if c == '\t' then "\\t"
    else if c < ' ' then ['\\', 'u', '0', '0', Hex(c as int / 16), Hex(c as int % 16)]
    else [c]
  }

  /** json_escape into a buffer with `room` bytes left: it stops when fewer than eight are. */
  function Escape(s: string, room: nat): string {
    if s == [] || room <= 7 then [] else EscapeChar(s[0]) + Escape(s[1..], room - |EscapeChar(s[0])|)
  }

  /** How many characters get written. */
  function Escaped(s: string, room: nat): (n: nat)
    ensures n <= |s|
  {
    if s == [] || room <= 7 then 0 else 1 + Escaped(s[1..], room - |EscapeChar(s[0])|)
  }

  predicate Fits(s: string, room: nat) { Escaped(s, room) == |s| }

  predicate Short(c: char) { c >= ' ' || c == '\n' || c == '\r' || c == '\t' }

  /** Without characters that need a \u escape, a buffer of 2n + 6 bytes holds any n characters. */
  lemma {:induction false} FitsShort(s: string, room: nat)
    requires (forall i | 0 <= i < |s| :: Short(s[i])) && 2 * |s| + 6 <= room
    ensures Fits(s, room)
  {
    if s != [] {
      assert Short(s[0]) && |EscapeChar(s[0])| <= 2;
      assert forall i | 0 <= i < |s[1..]| :: s[1..][i] == s[i + 1];
      FitsShort(s[1..], room - |EscapeChar(s[0])|);
    }
  }

  /** json_escape. */
  method JsonEscape(src: string, dst: array<char>)
    requires '\0' !in src && dst.Length > 0
    modifies dst
    ensures CStr(dst[..]) == Escape(src, dst.Length)
  {
    hide CStr, EscapeChar, Escape;
    var d, s := 0, 0;
    assert src[0..] == src && dst[..0] + Escape(src, dst.Length) == Escape(src, dst.Length);
    while s < |src| && d + 7 < dst.Length
      invariant 0 <= s <= |src| && 0 <= d < dst.Length && '\0' !in dst[..d]
      invariant dst[..d] + Escape(src[s..], dst.Length - d) == Escape(src, dst.Length)
      decreases |src| - s
    {
      ghost var before := dst[..d];
      EscapeStep(src, s, dst.Length - d);
      ghost var rest := Escape(src[s + 1..], dst.Length - d - |EscapeChar(src[s])|);
      assert before + (EscapeChar(src[s]) + rest) == (before + EscapeChar(src[s])) + rest;
      assert src[s] in src;
      NoTerminator(src[s]);
      d := PutEscaped(dst, d, src[s]);
      s := s + 1;
    }
    EscapeEnd(src, s, dst.Length - d);
    assert dst[..d] + [] == dst[..d];
    dst[d] := '\0';
    assert dst[..d] == Escape(src, dst.Length);
    StringIn(dst[..], dst[..d]);
  }

  lemma EscapeStep(src: string, s: nat, room: nat)
    requires s < |src| && room > 7
    ensures Escape(src[s..], room) == EscapeChar(src[s]) + Escape(src[s + 1..], room - |EscapeChar(src[s])|)
  {
    assert src[s..][1..] == src[s + 1..];
  }

  lemma EscapeEnd(src: string, s: nat, room: nat)
    requires s <= |src| && (s == |src| || room <= 7)
    ensures Escape(src[s..], room) == []
  {}

  lemma NoTerminator(c: char)
    requires c != '\0'
    ensures '\0' !in EscapeChar(c)
  {}

  method PutEscaped(dst: array<char>, d: nat, c: char) returns (d2: nat)
    requires d + 7 < dst.Length
    modifies dst
    ensures d2 == d + |EscapeChar(c)| && dst[..d2] == old(dst[..d]) + EscapeChar(c)
  {
    if c == '"' || c == '\\' {
      dst[d], dst[d + 1] := '\\', c;
      d2 := d + 2;
    } else if c == '\n' {
      dst[d], dst[d + 1] := '\\', 'n';
      d2 := d + 2;
    } else if c == '\r' {
      dst[d], dst[d + 1] := '\\', 'r';
      d2 := d + 2;
    } else if c == '\t' {
      dst[d], dst[d + 1] := '\\', 't';
      d2 := d + 2;
    } else if c < ' ' {
      dst[d], dst[d + 1], dst[d + 2], dst[d + 3] := '\\', 'u', '0', '0';
      dst[d + 4], dst[d + 5] := Hex(c as int / 16), Hex(c as int % 16);
      d2 := d + 6;
    } else {
      dst[d] := c;
      d2 := d + 1;
    }
    assert dst[..d] == old(dst[..d]) && dst[d..d2] == EscapeChar(c);
    assert dst[..d2] == dst[..d] + dst[d..d2];
  }

  // ---------------------------------------------------------------- reading a string

  /** The value of up to four hexadecimal digits; anything else counts as 0. */
  function HexRun(s: string, k: nat): (r: (nat, string))
    ensures |r.1| <= |s|
    decreases k
  {
    if k == 0 || s == [] then (0, s)
    else
      var (low, rest) := HexRun(s[1..], k - 1);
      var d := if DigitOf(s[0]) < 0 then 0 else DigitOf(s[0]);
      (d * HexWeight(|s| - |rest| - 1) + low, rest)
  }

  function HexWeight(n: nat): nat { if n == 0 then 1 else 16 * HexWeight(n - 1) }

  /** One character of a quoted string: the UTF-8 bytes in front of the last one, the last one, and what follows. */
  datatype Unit = Unit(lead: string, c: char, rest: string)

  function CodePoint(v: nat, rest: string): Unit {
    if v < 0x80 then Unit([], v as char, rest)
    else if v < 0x800 then Unit([(0xC0 + v / 64) as char], (0x80 + v % 64) as char, rest)
    else Unit([(0xE0 + v / 4096 % 16) as char, (0x80 + v / 64 % 64) as char], (0x80 + v % 64) as char, rest)
  }

  function ReadUnit(s: string): (u: Unit)
    requires s != []
    ensures |u.rest| < |s|
  {
    if s[0] != '\\' || |s| == 1 then Unit([], s[0], s[1..])
    else if s[1] == 'n' then Unit([], '\n', s[2..])
    else if s[1] == 't' then Unit([], '\t', s[2..])
    else if s[1] == 'r' then Unit([], '\r', s[2..])
    else if s[1] == 'b' then Unit([], 8 as char, s[2..])
    else if s[1] == 'f' then Unit([], 12 as char, s[2..])
    else if s[1] == 'u' then
      var (v, rest) := HexRun(s[2..], 4);
      CodePoint(v % 0x10000, rest)
    else Unit([], s[1], s[2..])
  }

  /** json_parse_string behind the opening quote: what is stored in a buffer with `room` bytes left. A string too long
      for the buffer is read to its end all the same. */
  function ReadString(s: string, room: nat): string
    decreases |s|
  {
    if s == [] || s[0] == '"' then []
    else
      var u := ReadUnit(s);
      var lead := if u.lead != [] && room > |u.lead| + 1 then u.lead else [];
      var last := if room - |lead| > 1 then [u.c] else [];
      lead + last + ReadString(u.rest, room - |lead| - |last|)
  }

  // ---------------------------------------------------------------- the round trip of a string

  lemma EscapedUnit(c: char, tail: string)
    requires c != '\0'
    ensures var s := EscapeChar(c) + tail; s[0] != '"' && ReadUnit(s) == Unit([], c, tail)
  {
    hide HexRun;
    var e, s := EscapeChar(c), EscapeChar(c) + tail;
    assert s[0] == e[0];
    if c == '"' || c == '\\' || c == '\n' || c == '\r' || c == '\t' {
      assert s[1] == e[1] && s[2..] == tail;
    } else if c < ' ' {
      assert s[1] == e[1] == 'u';
      var d := s[2..];
      assert d == ['0', '0', e[4], e[5]] + tail;
      FourDigits('0', '0', e[4], e[5], tail);
      assert DigitOf('0') == 0;
      assert c as int == 16 * (c as int / 16) + c as int % 16;
    } else {
      assert s[1..] == tail;
    }
  }

  lemma FourDigits(a: char, b: char, c: char, d: char, tail: string)
    requires DigitOf(a) == 0 && DigitOf(b) == 0 && DigitOf(c) >= 0 && DigitOf(d) >= 0
    ensures HexRun([a, b, c, d] + tail, 4) == (16 * DigitOf(c) + DigitOf(d), tail)
  {
    var s3, s2, s1 := [d] + tail, [c, d] + tail, [b, c, d] + tail;
    assert ([a, b, c, d] + tail)[1..] == s1 && s1[1..] == s2 && s2[1..] == s3 && s3[1..] == tail;
    assert HexRun(tail, 0) == (0, tail);
    assert HexWeight(0) == 1 && HexWeight(1) == 16;
    assert HexRun(s3, 1) == (DigitOf(d), tail);
    assert HexRun(s2, 2) == (16 * DigitOf(c) + DigitOf(d), tail);
    assert HexRun(s1, 3) == (16 * DigitOf(c) + DigitOf(d), tail);
  }

  /** A written string reads back up to the character where its buffer was full, so exactly when it fitted. */
  lemma {:induction false} StringRead(s: string, room: nat, rest: string, size: nat)
    requires '\0' !in s && |s| < size
    ensures ReadString(Escape(s, room) + ("\"" + rest), size) == s[..Escaped(s, room)]
  {
    hide EscapeChar, ReadUnit;
    if s != [] && room > 7 {
      var c, room2 := s[0], room - |EscapeChar(s[0])|;
      var tail := Escape(s[1..], room2) + ("\"" + rest);
      assert Escape(s, room) + ("\"" + rest) == EscapeChar(c) + tail;
      EscapedUnit(c, tail);
      StringRead(s[1..], room2, rest, size - 1);
      assert s[..Escaped(s, room)] == [c] + s[1..][..Escaped(s[1..], room2)];
    }
  }

  /** No unescaped quote inside, and no escape that is cut off at the end. */
  predicate GoodBody(b: string) {
    b == [] || (b[0] == '\\' && |b| >= 2 && GoodBody(b[2..])) || (b[0] != '\\' && b[0] != '"' && GoodBody(b[1..]))
  }

  lemma GoodUnit(c: char, tail: string)
    requires GoodBody(tail)
    ensures GoodBody(EscapeChar(c) + tail)
  {
    var e, b := EscapeChar(c), EscapeChar(c) + tail;
    if |e| == 1 {
      assert b[1..] == tail;
    } else if |e| == 2 {
      assert b[2..] == tail;
    } else {
      var h, l := e[4], e[5];
      assert h != '\\' && h != '"' && l != '\\' && l != '"';
      assert b[5..][1..] == tail && b[4..][1..] == b[5..] && b[3..][1..] == b[4..] && b[2..][1..] == b[3..];
      assert GoodBody(b[5..]);
      assert GoodBody(b[4..]);
      assert b[3] == '0' && GoodBody(b[3..]);
      assert b[2] == '0' && GoodBody(b[2..]);
    }
  }

  lemma {:induction false} EscapeGood(s: string, room: nat)
    ensures GoodBody(Escape(s, room))
  {
    hide EscapeChar;
    if s != [] && room > 7 {
      EscapeGood(s[1..], room - |EscapeChar(s[0])|);
      GoodUnit(s[0], Escape(s[1..], room - |EscapeChar(s[0])|));
    }
  }

  // ---------------------------------------------------------------- matching brackets

  datatype Mode = Code | InString | InEscape

  function Close(open: char): char { if open == '{' then '}' else ']' }

  /** One character outside the bracket count. */
  function NextMode(c: char, m: Mode): Mode {
    match m
    case InEscape => InString
    case InString => if c == '\\' then InEscape else if c == '"' then Code else InString
    case Code => if c == '"' then InString else Code
  }

  /** json_match's loop: the position of the bracket that brings the depth back to 0. */
  function MatchFrom(t: string, open: char, depth: int, m: Mode): Option<nat> {
    if t == [] || t[0] == '\0' then None
    else
      var c := t[0];
      if m == Code && c == Close(open) && depth == 1 then Some(0)
      else
        var depth2 := if m != Code || c == '"' then depth
                      else if c == open then depth + 1
                      else if c == Close(open) then depth - 1
                      else depth;
        match MatchFrom(t[1..], open, depth2, NextMode(c, m))
        case None => None
        case Some(p) => Some(p + 1)
  }

  /** json_match. */
  function Match(t: string): Option<nat> {
    if t == [] then None else MatchFrom(t, if t[0] == '{' then '{' else '[', 0, Code)
  }

  method JsonMatch(t: string) returns (r: Option<nat>)
    requires t != [] && (t[0] == '{' || t[0] == '[')
    ensures r == Match(t)
  {
    var open := t[0];
    var depth, m, p := 0, Code, 0;
    assert t[0..] == t;
    while p < |t| && t[p] != '\0'
      invariant 0 <= p <= |t|
      invariant Match(t) == match MatchFrom(t[p..], open, depth, m) case None => None case Some(q) => Some(p + q)
      decreases |t| - p
    {
      var c := t[p];
      assert t[p..][1..] == t[p + 1..];
      if m == Code {
        if c == '"' {
        } else if c == open {
          depth := depth + 1;
        } else if c == Close(open) {
          depth := depth - 1;
          if depth == 0 { return Some(p); }
        }
      }
      m := NextMode(c, m);
      p := p + 1;
    }
    r := None;
  }

  /** Any well-formed JSON text: brackets nest, strings are closed, and everything else (names, numbers, commas, colons,
      white space) is a run of other characters. */
  datatype Doc =
    | End
    | Plain(chars: string, rest: Doc)
    | Str(body: string, rest: Doc)
    | Nest(obj: bool, inner: Doc, rest: Doc)

  predicate Other(c: char) { c != '"' && c != '{' && c != '}' && c != '[' && c != ']' && c != '\0' }

  predicate DocOk(t: Doc) {
    match t
    case End => true
    case Plain(chars, rest) => (forall i | 0 <= i < |chars| :: Other(chars[i])) && DocOk(rest)
    case Str(body, rest) => GoodBody(body) && '\0' !in body && DocOk(rest)
    case Nest(_, inner, rest) => DocOk(inner) && DocOk(rest)
  }

  function Brackets(obj: bool): (string, string) { if obj then ("{", "}") else ("[", "]") }

  function Show(t: Doc): string {
    match t
    case End => []
    case Plain(chars, rest) => chars + Show(rest)
    case Str(body, rest) => "\"" + (body + ("\"" + Show(rest)))
    case Nest(obj, inner, rest) => Brackets(obj).0 + (Show(inner) + (Brackets(obj).1 + Show(rest)))
  }

  function Shifted(r: Option<nat>, n: nat): Option<nat> {
    match r
    case None => None
    case Some(p) => Some(p + n)
  }

  lemma {:induction false} RunPassed(chars: string, after: string, open: char, depth: int)
    requires (open == '{' || open == '[') && forall i | 0 <= i < |chars| :: Other(chars[i])
    ensures MatchFrom(chars + after, open, depth, Code) == Shifted(MatchFrom(after, open, depth, Code), |chars|)
  {
    if chars == [] {
      assert chars + after == after;
    } else {
      assert Other(chars[0]);
      assert forall i | 0 <= i < |chars[1..]| :: chars[1..][i] == chars[i + 1];
      assert (chars + after)[1..] == chars[1..] + after;
      RunPassed(chars[1..], after, open, depth);
    }
  }

  lemma InStringStep(c: char, after: string, open: char, depth: int)
    requires c != '\0'
    ensures MatchFrom([c] + after, open, depth, InString)
         == Shifted(MatchFrom(after, open, depth, NextMode(c, InString)), 1)
    ensures MatchFrom([c] + after, open, depth, InEscape) == Shifted(MatchFrom(after, open, depth, InString), 1)
  {
    assert ([c] + after)[1..] == after;
  }

  lemma {:induction false} BodyPassed(b: string, after: string, open: char, depth: int)
    requires GoodBody(b) && '\0' !in b
    ensures MatchFrom(b + ("\"" + after), open, depth, InString)
         == Shifted(MatchFrom(after, open, depth, Code), |b| + 1)
    decreases |b|
  {
    hide MatchFrom;
    var tail := "\"" + after;
    if b == [] {
      assert b + tail == ['"'] + after;
      InStringStep('"', after, open, depth);
    } else {
      assert b[0] in b && b + tail == [b[0]] + (b[1..] + tail);
      InStringStep(b[0], b[1..] + tail, open, depth);
      if b[0] == '\\' {
        assert b[1] in b && b[1..] + tail == [b[1]] + (b[2..] + tail);
        InStringStep(b[1], b[2..] + tail, open, depth);
        BodyPassed(b[2..], after, open, depth);
      } else {
        BodyPassed(b[1..], after, open, depth);
      }
    }
  }

  lemma BracketStep(c: char, after: string, open: char, depth: int)
    requires (open == '{' || open == '[') && (c == '{' || c == '[' || c == '}' || c == ']')
    requires c == Close(open) ==> depth != 1
    ensures MatchFrom([c] + after, open, depth, Code) == Shifted(
      MatchFrom(after, open, if c == open then depth + 1 else if c == Close(open) then depth - 1 else depth, Code), 1)
  {
    assert ([c] + after)[1..] == after;
  }

  lemma StringPassed(body: string, after: string, open: char, depth: int)
    requires GoodBody(body) && '\0' !in body && (open == '{' || open == '[')
    ensures MatchFrom("\"" + (body + ("\"" + after)), open, depth, Code)
         == Shifted(MatchFrom(after, open, depth, Code), |body| + 2)
  {
    var tail := body + ("\"" + after);
    assert ("\"" + tail)[1..] == tail;
    BodyPassed(body, after, open, depth);
  }

  /** A well-formed text leaves the count as it was. */
  lemma {:induction false} DocPassed(t: Doc, after: string, open: char, depth: int)
    requires DocOk(t) && (open == '{' || open == '[') && depth >= 1
    ensures MatchFrom(Show(t) + after, open, depth, Code) == Shifted(MatchFrom(after, open, depth, Code), |Show(t)|)
    decreases t, 1
  {
    hide MatchFrom, GoodBody, Other;
    match t
    case End =>
      assert Show(t) + after == after;
    case Plain(chars, rest) =>
      Assoc(chars, Show(rest), after);
      RunPassed(chars, Show(rest) + after, open, depth);
      DocPassed(rest, after, open, depth);
    case Str(body, rest) =>
      assert Show(t) + after == "\"" + (body + ("\"" + (Show(rest) + after)));
      StringPassed(body, Show(rest) + after, open, depth);
      DocPassed(rest, after, open, depth);
    case Nest(obj, inner, rest) =>
      NestPassed(obj, inner, rest, after, open, depth);
  }

  lemma NestShown(obj: bool, inner: Doc, rest: Doc, after: string)
    ensures |Brackets(obj).0| == 1 && |Brackets(obj).1| == 1
    ensures var o, c := Brackets(obj).0[0], Brackets(obj).1[0];
      Show(Nest(obj, inner, rest)) + after == [o] + (Show(inner) + ([c] + (Show(rest) + after)))
    ensures |Show(Nest(obj, inner, rest))| == 1 + |Show(inner)| + 1 + |Show(rest)|
  {
    var o, c := Brackets(obj).0[0], Brackets(obj).1[0];
    var i, r := Show(inner), Show(rest);
    assert Brackets(obj).0 == [o] && Brackets(obj).1 == [c];
    assert ([o] + (i + ([c] + r))) + after == [o] + (i + ([c] + (r + after)));
  }

  lemma {:induction false} NestPassed(obj: bool, inner: Doc, rest: Doc, after: string, open: char, depth: int)
    requires DocOk(inner) && DocOk(rest) && (open == '{' || open == '[') && depth >= 1
    ensures var t := Nest(obj, inner, rest);
      MatchFrom(Show(t) + after, open, depth, Code) == Shifted(MatchFrom(after, open, depth, Code), |Show(t)|)
    decreases Nest(obj, inner, rest), 0
  {
    hide MatchFrom, GoodBody, Other, DocOk, Show;
    var t := Nest(obj, inner, rest);
    var o, c := Brackets(obj).0[0], Brackets(obj).1[0];
    var tail := Show(rest) + after;
    NestShown(obj, inner, rest, after);
    var d := if o == open then depth + 1 else depth;
    BracketStep(o, Show(inner) + ([c] + tail), open, depth);
    DocPassed(inner, [c] + tail, open, d);
    BracketStep(c, tail, open, d);
    DocPassed(rest, after, open, depth);
  }

  /** json_match returns the true closing bracket of any well-formed object or array, whatever follows it. */
  lemma MatchExact(obj: bool, inner: Doc, after: string)
    requires DocOk(inner)
    ensures Match(Show(Nest(obj, inner, End)) + after) == Some(|Show(Nest(obj, inner, End))| - 1)
  {
    hide MatchFrom, DocOk, Show;
    var o, c := Brackets(obj).0[0], Brackets(obj).1[0];
    NestShown(obj, inner, End, after);
    NothingShown(after);
    BracketStep(o, Show(inner) + ([c] + after), o, 0);
    DocPassed(inner, [c] + after, o, 1);
    LastBracket(c, after, o);
  }

  lemma NothingShown(after: string)
    ensures Show(End) == [] && Show(End) + after == after
  {}

  lemma LastBracket(c: char, after: string, open: char)
    requires (open == '{' || open == '[') && c == Close(open)
    ensures MatchFrom([c] + after, open, 1, Code) == Some(0)
  {}

  // ---------------------------------------------------------------- finding a key

  /** A quoted key at p, with a colon behind it. */
  predicate KeyAt(t: string, p: nat, key: string) {
    && p + |key| + 2 <= |t| && t[p..p + |key| + 2] == Quote(key)
    && var u := SkipSpaces(t[p + |key| + 2..]); u != [] && u[0] == ':'
  }

  /** json_value on the characters of the object: the text from the value on. */
  function ValueOf(t: string, key: string): (r: Option<string>)
    ensures r.Some? ==> r.value != []
  {
    if t == [] then None
    else if KeyAt(t, 0, key) then
      var v := SkipSpaces(SkipSpaces(t[|key| + 2..])[1..]);
      if v == [] then None else Some(v)
    else ValueOf(t[1..], key)
  }

  /** json_get_str into a zeroed buffer; what has been read stays there even if the string is not closed. */
  function GetString(t: string, key: string, size: nat): string {
    match ValueOf(t, key)
    case None => []
    case Some(v) => if v[..1] == "\"" then ReadString(v[1..], size) else []
  }

  /** json_get_bool, for a flag that is true to begin with. */
  function GetBool(t: string, key: string): bool {
    match ValueOf(t, key)
    case None => true
    case Some(v) => !((|v| >= 5 && v[..5] == "false") || v[..1] == "0")
  }

  // ---- the fields of a printed object

  datatype Field = Field(key: string, value: string)

  predicate Bare(v: string) { v != [] && forall i | 0 <= i < |v| :: 'a' <= v[i] <= 'z' }

  /** The last field of an object holds a bare value. */
  predicate FieldOk(f: Field, last: bool) { KeyOk(f.key) && (Bare(f.value) || (!last && QuotedOk(f.value))) }

  function FieldText(f: Field, last: bool): string { "\"" + f.key + "\": " + f.value + if last then "" else ", " }

  function FieldsText(fs: seq<Field>): string {
    if fs == [] then [] else FieldText(fs[0], |fs| == 1) + FieldsText(fs[1..])
  }

  lemma FieldChars(f: Field, last: bool, rest: string)
    ensures var t := FieldText(f, last) + rest;
      var n, vs := |f.key|, |f.key| + 4;
      && |FieldText(f, last)| == vs + |f.value| + (if last then 0 else 2)
      && t[0] == '"' && t[1 + n] == '"' && t[2 + n] == ':' && t[3 + n] == ' '
      && (forall i | 0 <= i < n :: t[1 + i] == f.key[i])
      && (forall i | 0 <= i < |f.value| :: t[vs + i] == f.value[i])
      && (!last ==> t[vs + |f.value|] == ',' && t[vs + |f.value| + 1] == ' ')
  {
    var head := "\"" + f.key + "\": ";
    var tail := if last then "" else ", ";
    var t := FieldText(f, last) + rest;
    assert t == head + (f.value + (tail + rest));
    assert head[..1] == "\"" && head[1..1 + |f.key|] == f.key && head[1 + |f.key|..] == "\": ";
    assert forall i | 0 <= i < |head| :: t[i] == head[i];
  }

  lemma KeyAtChars(t: string, p: nat, key: string)
    requires KeyAt(t, p, key) && KeyOk(key)
    ensures p + |key| + 2 < |t| && t[p] == '"' && t[p + |key| + 1] == '"' && t[p + 1] == key[0]
    ensures forall i | p < i <= p + |key| :: t[i] == key[i - p - 1]
    ensures t[p + |key| + 2] == ':' || IsSpace(t[p + |key| + 2])
  {
    hide SkipSpaces;
    var m, a := t[p..p + |key| + 2], Quote(key);
    assert a[0] == '"' && a[|key| + 1] == '"';
    assert forall i | 0 < i <= |key| :: a[i] == key[i - 1];
    assert forall i | 0 <= i < |a| :: t[p + i] == m[i];
    var u := t[p + |key| + 2..];
    assert u != [] && u[0] == t[p + |key| + 2];
  }

  /** In a printed object a key followed by a colon is only ever a field's own key. */
  lemma OnlyOwnKey(f: Field, last: bool, rest: string, key: string, p: nat)
    requires FieldOk(f, last) && KeyOk(key) && p < |FieldText(f, last)|
    ensures KeyAt(FieldText(f, last) + rest, p, key) ==> p == 0 && key == f.key
  {
    hide FieldText, QuotedOk, KeyAt;
    var t, n, vs := FieldText(f, last) + rest, |f.key|, |f.key| + 4;
    if KeyAt(t, p, key) {
      KeyAtChars(t, p, key);
      FieldChars(f, last, rest);
      assert forall i | p < i <= p + |key| :: KeyChar(t[i]);
      if p == 0 {
        assert forall i | 1 <= i < 1 + n :: KeyChar(t[i]) by {
          assert forall i | 1 <= i < 1 + n :: t[i] == f.key[i - 1];
        }
        assert !KeyChar(t[1 + |key|]) && !KeyChar(t[1 + n]);
        assert |key| == n;
        assert key == f.key;
      } else if p <= n + 3 {
        NotInHead(f, last, rest, p);
      } else if p < vs + |f.value| {
        assert t[p] == f.value[p - vs];
        if !Bare(f.value) { InQuoted(f.value, t, vs, |key|, p); }
      }
    }
  }

  lemma NotInHead(f: Field, last: bool, rest: string, p: nat)
    requires FieldOk(f, last) && 0 < p <= |f.key| + 3
    ensures var t := FieldText(f, last) + rest; p + 1 < |t| && t[p] == '"' ==> !KeyChar(t[p + 1])
  {
    hide FieldText, QuotedOk;
    FieldChars(f, last, rest);
    var t := FieldText(f, last) + rest;
    if 1 <= p <= |f.key| { assert t[1 + (p - 1)] == f.key[p - 1]; }
  }

  lemma {:induction false} SearchSkips(t: string, key: string, n: nat)
    requires n <= |t| && forall p | 0 <= p < n :: !KeyAt(t, p, key)
    ensures ValueOf(t, key) == ValueOf(t[n..], key)
  {
    if n == 0 {
      assert t[0..] == t;
    } else {
      forall p | 0 <= p < n - 1 ensures !KeyAt(t[1..], p, key) {
        assert !KeyAt(t, p + 1, key);
        KeyShift(t, p, key);
      }
      SearchSkips(t[1..], key, n - 1);
      assert t[1..][n - 1..] == t[n..];
      assert !KeyAt(t, 0, key);
    }
  }

  lemma KeyShift(t: string, p: nat, key: string)
    requires t != []
    ensures KeyAt(t[1..], p, key) == KeyAt(t, p + 1, key)
  {
    hide SkipSpaces, Quote;
    if p + 1 + |key| + 2 <= |t| {
      assert t[1..][p..p + |key| + 2] == t[p + 1..p + 1 + |key| + 2];
      assert t[1..][p + |key| + 2..] == t[p + 1 + |key| + 2..];
    }
  }

  function After(f: Field, last: bool, rest: string): string { f.value + (if last then "" else ", ") + rest }

  /** A value's text, as printed, with what follows it. */
  function TailOf(fs: seq<Field>, j: nat): string
    requires j < |fs|
  {
    After(fs[j], j == |fs| - 1, FieldsText(fs[j + 1..]))
  }

  lemma FieldSplit(f: Field, last: bool, rest: string)
    ensures FieldText(f, last) + rest == Quote(f.key) + (": " + After(f, last, rest))
  {
    assert "\"" + f.key + "\": " == Quote(f.key) + ": ";
  }

  lemma OwnFieldFound(f: Field, last: bool, rest: string)
    requires FieldOk(f, last)
    ensures ValueOf(FieldText(f, last) + rest, f.key) == Some(After(f, last, rest))
  {
    hide FieldOk, FieldText, ValueOf;
    ValueStart(f, last, rest);
    FieldSplit(f, last, rest);
    QuoteFound(f.key, After(f, last, rest));
  }

  lemma QuoteFound(key: string, tail: string)
    requires tail != [] && !IsSpace(tail[0])
    ensures ValueOf(Quote(key) + (": " + tail), key) == Some(tail)
  {
    hide SkipSpaces, IsSpace;
    var t, colon := Quote(key) + (": " + tail), ": " + tail;
    assert t[0..|key| + 2] == Quote(key) && t[|key| + 2..] == colon;
    ColonFirst(tail);
    SpaceSkipped(tail);
  }

  lemma ValueStart(f: Field, last: bool, rest: string)
    requires FieldOk(f, last)
    ensures After(f, last, rest) != [] && !IsSpace(After(f, last, rest)[0])
  {
    assert After(f, last, rest)[0] == f.value[0];
  }

  lemma ColonFirst(v: string)
    ensures SkipSpaces(": " + v) == ": " + v && (": " + v)[0] == ':' && (": " + v)[1..] == " " + v
  {
    hide SkipSpaces;
    assert (": " + v)[0] == ':';
  }

  lemma SpaceSkipped(v: string)
    requires v != [] && !IsSpace(v[0])
    ensures SkipSpaces(" " + v) == v
  {
    assert (" " + v)[1..] == v && (" " + v)[0] == ' ';
  }

  lemma OtherFieldSkipped(f: Field, last: bool, rest: string, key: string)
    requires FieldOk(f, last) && KeyOk(key) && f.key != key
    ensures ValueOf(FieldText(f, last) + rest, key) == ValueOf(rest, key)
  {
    hide FieldText, KeyAt, ValueOf, QuotedOk;
    var t, n := FieldText(f, last) + rest, |FieldText(f, last)|;
    forall p | 0 <= p < n ensures !KeyAt(t, p, key) {
      OnlyOwnKey(f, last, rest, key, p);
    }
    SearchSkips(t, key, n);
    assert t[n..] == rest;
  }

  /** Every key is found where it was printed. */
  lemma {:induction false} FieldFound(fs: seq<Field>, j: nat)
    requires j < |fs| && forall i | 0 <= i <= j :: FieldOk(fs[i], i == |fs| - 1)
    requires forall i | 0 <= i < j :: fs[i].key != fs[j].key
    ensures ValueOf(FieldsText(fs), fs[j].key) == Some(TailOf(fs, j))
    decreases j
  {
    hide ValueOf, FieldText, QuotedOk, Bare;
    if j == 0 {
      OwnFieldFound(fs[0], |fs| == 1, FieldsText(fs[1..]));
    } else {
      assert FieldOk(fs[0], false);
      forall i | 0 <= i <= j - 1 ensures FieldOk(fs[1..][i], i == |fs[1..]| - 1) {
        assert FieldOk(fs[i + 1], i + 1 == |fs| - 1);
      }
      FieldFound(fs[1..], j - 1);
      assert fs[1..][j..] == fs[j + 1..];
      OtherFieldSkipped(fs[0], false, FieldsText(fs[1..]), fs[j].key);
    }
  }

  /** The quotes in an escaped body have a backslash in front. */
  lemma {:induction false} GoodIsOk(b: string)
    requires GoodBody(b)
    ensures BodyOk(b)
  {
    if b != [] {
      var k := if b[0] == '\\' then 2 else 1;
      GoodIsOk(b[k..]);
      assert b == b[..k] + b[k..];
      BodiesJoin(b[..k], b[k..]);
    }
  }
}
