/** HTTP/1.1 response framing as the client of http_source.c reads it, stated as functions on byte streams.
    Each char stands for one octet. */
module HttpFraming {
  import opened Text

  const HEAD_LINE_MAX: nat := 4096
  const CHUNK_LINE_MAX: nat := 128
  const MAX_FIELDS: nat := 128
  const URL_MAX: nat := 1024

  // ---------------------------------------------------------------- lines

  predicate HasLine(s: string) { IndexOf(s, '\n') < |s| }

  function StripCR(raw: string): (t: string)
    ensures |t| <= |raw|
  {
    if raw == [] then []
    else StripCR(raw[..|raw| - 1]) + if raw[|raw| - 1] == '\r' then [] else [raw[|raw| - 1]]
  }

  /** What a line buffer of the given size keeps of the bytes in front of the line feed. */
  function LineText(raw: string, max: nat): (t: string)
    requires max > 0
    ensures |t| < max
  {
    Clip(StripCR(raw), max)
  }

  datatype Parsed<+T> = Done(value: T, rest: string) | Short | Bad

  function NextLine(s: string, max: nat): (r: Parsed<string>)
    requires max > 0
    ensures r.Done? ==> |r.rest| < |s|
    ensures !r.Bad?
  {
    if HasLine(s) then Done(LineText(s[..IndexOf(s, '\n')], max), s[IndexOf(s, '\n') + 1..]) else Short
  }

  /** Lines up to and including the first blank one. */
  function SkipBlock(s: string, max: nat): (r: Parsed<()>)
    requires max > 0
    ensures r.Done? ==> |r.rest| < |s|
    ensures !r.Bad?
    decreases |s|
  {
    match NextLine(s, max)
    case Done(line, rest) => if line == [] then Done((), rest) else SkipBlock(rest, max)
    case _ => Short
  }

  // ---------------------------------------------------------------- the head

  datatype Head = Head(status: int, contentLength: int, chunked: bool, connClose: bool,
                       hasRange: bool, rangeStart: nat, rangeEnd: nat, rangeTotal: nat, location: string)

  function EmptyHead(status: int, connClose: bool): Head {
    Head(status, -1, false, connClose, false, 0, 0, 0, [])
  }

  predicate ContainsCI(s: string, p: string) { exists i | 0 <= i <= |s| :: StartsWithCI(s[i..], p) }

  /** sscanf's "%llu-%llu/%llu" with all three numbers assigned. */
  function ScanTriple(s: string): Option<(nat, nat, nat)> {
    var a := ScanNumber(s, 10);
    if a.NoNumber? || a.rest == [] || a.rest[0] != '-' then None
    else
      var b := ScanNumber(a.rest[1..], 10);
      if b.NoNumber? || b.rest == [] || b.rest[0] != '/' then None
      else
        var t := ScanNumber(b.rest[1..], 10);
        if t.NoNumber? then None else Some((SaturateU64(a), SaturateU64(b), SaturateU64(t)))
  }

  /** sscanf(val, "bytes %llu-%llu/%llu"). */
  function ScanRange(val: string): Option<(nat, nat, nat)> {
    if "bytes" <= val then ScanTriple(val[5..]) else None
  }

  /** sscanf(val, "bytes *" "/%llu"): the total of an unsatisfied range. */
  function ScanUnsatisfied(val: string): Option<nat> {
    if !("bytes" <= val) then None
    else
      var r := SkipSpaces(val[5..]);
      if !("*/" <= r) then None
      else
        var t := ScanNumber(r[2..], 10);
        if t.NoNumber? then None else Some(SaturateU64(t))
  }

  /** One header field folded into the record. */
  function ApplyNamed(h: Head, name: string, val: string): Head {
    if EqCI(name, "Content-Length") then h.(contentLength := StrToLL(val))
    else if EqCI(name, "Transfer-Encoding") then
      if ContainsCI(val, "chunked") then h.(chunked := true) else h
    else if EqCI(name, "Connection") then
      if EqCI(val, "close") then h.(connClose := true)
      else if EqCI(val, "keep-alive") then h.(connClose := false)
      else h
    else if EqCI(name, "Location") then h.(location := Clip(val, URL_MAX))
    else if EqCI(name, "Content-Range") then ApplyRange(h, val)
    else h
  }

  function ApplyRange(h: Head, val: string): Head {
    match ScanRange(val)
    case Some(r) => h.(hasRange := true, rangeStart := r.0, rangeEnd := r.1, rangeTotal := r.2)
    case None =>
      match ScanUnsatisfied(val)
      case Some(t) => h.(rangeTotal := t)
      case None => h
  }

  /** One header line; a line without a colon is ignored. */
  function ApplyField(h: Head, line: string): Head {
    var c := CStr(line);
    var i := IndexOf(c, ':');
    if i == |c| then h else ApplyNamed(h, c[..i], Trim(c[i + 1..]))
  }

  function ParseFields(s: string, h: Head, count: nat): (r: Parsed<Head>)
    requires count <= MAX_FIELDS
    decreases |s|
  {
    if count == MAX_FIELDS then Bad
    else
      match NextLine(s, HEAD_LINE_MAX)
      case Done(line, rest) => if line == [] then Done(h, rest) else ParseFields(rest, ApplyField(h, line), count + 1)
      case _ => Short
  }

  predicate StatusLineOk(line: string) { "HTTP/1." <= line && |CStr(line)| >= 12 }

  function StatusOf(line: string): int
    requires StatusLineOk(line)
  {
    AtoI(CStr(line)[9..])
  }

  /** A status line, any interim 1xx responses in front of it, and the header block. */
  function ParseHead(s: string): (r: Parsed<Head>)
    decreases |s|
  {
    match NextLine(s, HEAD_LINE_MAX)
    case Done(line, rest) =>
      if !StatusLineOk(line) then Bad
      else if StatusOf(line) >= 200 then ParseFields(rest, EmptyHead(StatusOf(line), line[7] == '0'), 0)
      else (match SkipBlock(rest, HEAD_LINE_MAX)
            case Done(_, rest2) => ParseHead(rest2)
            case _ => Short)
    case _ => Short
  }

  // ---------------------------------------------------------------- the body

  datatype Body = Whole(data: string, rest: string) | TooBig | Cut

  function Prepend(acc: string, b: Body): Body {
    match b case Whole(d, r) => Whole(acc + d, r) case other => other
  }

  /** The chunked coding, len bytes of the body having been read already. */
  function DecodeChunks(s: string, len: nat, max: nat): (b: Body)
    decreases |s|
  {
    match NextLine(s, CHUNK_LINE_MAX)
    case Done(line, rest) => DecodeChunk(rest, StrToULL(CStr(line), 16), len, max)
    case _ => Cut
  }

  /** The same behind a size line. */
  function DecodeChunk(s: string, chunk: nat, len: nat, max: nat): (b: Body)
    decreases |s|
  {
    if chunk == 0 then (match SkipBlock(s, CHUNK_LINE_MAX) case Done(_, r) => Whole([], r) case _ => Cut)
    else if (len + chunk) % (U64_MAX + 1) > max then TooBig
    else if |s| < chunk then Cut
    else
      (match NextLine(s[chunk..], CHUNK_LINE_MAX)
       case Done(_, r) => Prepend(s[..chunk], DecodeChunks(r, len + chunk, max))
       case _ => Cut)
  }

  predicate Bodyless(h: Head, isHead: bool) { isHead || h.status == 204 || h.status == 304 }

  function BodyOf(h: Head, isHead: bool, s: string, max: nat): Body {
    if Bodyless(h, isHead) then Whole([], s)
    else if h.chunked then DecodeChunks(s, 0, max)
    else if h.contentLength >= 0 then
      if h.contentLength > max then TooBig
      else if |s| < h.contentLength then Cut
      else Whole(s[..h.contentLength], s[h.contentLength..])
    else if |s| > max then TooBig
    else Whole(s, [])
  }

  function AfterLastChunk(s: string): Body {
    match SkipBlock(s, CHUNK_LINE_MAX) case Done(_, t) => Whole([], t) case _ => Cut
  }

  /** One unfolding of the chunk decoder at a chunk-size line. */
  lemma ChunkStart(s: string, len: nat, max: nat)
    requires NextLine(s, CHUNK_LINE_MAX).Done?
    ensures var r := NextLine(s, CHUNK_LINE_MAX);
      var chunk := StrToULL(CStr(r.value), 16);
      && (chunk == 0 ==> DecodeChunks(s, len, max) == AfterLastChunk(r.rest))
      && (chunk > 0 && (len + chunk) % (U64_MAX + 1) > max ==> DecodeChunks(s, len, max) == TooBig)
  {
    hide NextLine, StrToULL, CStr;
  }

  /** A chunk taken whole moves its data from what is to be decoded to what has been decoded. */
  lemma ChunkDone(s: string, len: nat, max: nat, acc: string)
    requires NextLine(s, CHUNK_LINE_MAX).Done?
    requires var r := NextLine(s, CHUNK_LINE_MAX);
      var chunk := StrToULL(CStr(r.value), 16);
      && chunk > 0 && (len + chunk) % (U64_MAX + 1) <= max && chunk <= |r.rest|
      && NextLine(r.rest[chunk..], CHUNK_LINE_MAX).Done?
    ensures var r := NextLine(s, CHUNK_LINE_MAX);
      var chunk := StrToULL(CStr(r.value), 16);
      && Prepend(acc, DecodeChunks(s, len, max))
         == Prepend(acc + r.rest[..chunk],
                    DecodeChunks(NextLine(r.rest[chunk..], CHUNK_LINE_MAX).rest, len + chunk, max))
  {
    hide NextLine, StrToULL, CStr;
    var r := NextLine(s, CHUNK_LINE_MAX);
    var chunk := StrToULL(CStr(r.value), 16);
    var d := DecodeChunks(NextLine(r.rest[chunk..], CHUNK_LINE_MAX).rest, len + chunk, max);
    if d.Whole? { assert acc + (r.rest[..chunk] + d.data) == acc + r.rest[..chunk] + d.data; }
  }

  lemma {:induction false} StripCRClean(l: string)
    requires Lacks(l, {'\r'})
    ensures StripCR(l) == l && StripCR(l + "\r") == l
  {
    assert (l + "\r")[..|l|] == l;
    if l != [] {
      StripCRClean(l[..|l| - 1]);
    }
  }
}
