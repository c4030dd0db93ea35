/** The sending side of RFC 7230: responses as a server writes them, and the proof that the client's framing
    functions undo the writing, whatever follows on the connection. */
module HttpWire {
  import opened Text
  import opened HttpFraming

  /** A header field; pad is the optional white space between the colon and the value. */
  datatype Field = Field(name: string, pad: string, value: string)

  /** What a field says about the message, in the terms of RFC 7230 sections 3.3 and 6.1, RFC 7231 section 7.1.2
      and RFC 7233 section 4.2. */
  datatype Meaning =
    | Length(digits: string)
    | ChunkedCoding
    | Close
    | KeepAlive
    | Range(first: string, last: string, total: string)
    | Target(url: string)
    | Neutral

  function FieldLine(f: Field): string { f.name + ":" + f.pad + f.value }

  predicate FieldOk(f: Field) {
    && f.name != [] && Lacks(f.name, {':', '\r', '\n', '\0'})
    && (forall i | 0 <= i < |f.pad| :: f.pad[i] == ' ' || f.pad[i] == '\t')
    && Lacks(f.value, {'\r', '\n', '\0'}) && Trimmed(f.value)
    && |FieldLine(f)| < HEAD_LINE_MAX
  }

  predicate Number64(s: string) { s != [] && AllDigits(s, 10) && Value(s, 10) <= I64_MAX }

  predicate Known(name: string) {
    || EqCI(name, "Content-Length") || EqCI(name, "Transfer-Encoding") || EqCI(name, "Connection")
    || EqCI(name, "Location") || EqCI(name, "Content-Range")
  }

  predicate Says(f: Field, m: Meaning) { FieldOk(f) && MeaningOk(m) && Means(f, m) }

  predicate Means(f: Field, m: Meaning) {
    match m
    case Length(d) => EqCI(f.name, "Content-Length") && Number64(d) && f.value == d
    case ChunkedCoding =>
      EqCI(f.name, "Transfer-Encoding") && |f.value| >= 7 && EqCI(f.value[|f.value| - 7..], "chunked")
    case Close => EqCI(f.name, "Connection") && EqCI(f.value, "close")
    case KeepAlive => EqCI(f.name, "Connection") && EqCI(f.value, "keep-alive")
    case Range(a, b, t) =>
      EqCI(f.name, "Content-Range") && Number64(a) && Number64(b) && Number64(t)
      && f.value == "bytes" + ([' '] + RangeText(a, b, t))
    case Target(u) => EqCI(f.name, "Location") && f.value == u && |u| < URL_MAX
    case Neutral => !Known(f.name)
  }

  predicate MeaningOk(m: Meaning) {
    && (m.Length? ==> Number64(m.digits))
    && (m.Range? ==> Number64(m.first) && Number64(m.last) && Number64(m.total))
  }

  function Effect(h: Head, m: Meaning): Head
    requires MeaningOk(m)
  {
    match m
    case Length(d) => h.(contentLength := Value(d, 10))
    case ChunkedCoding => h.(chunked := true)
    case Close => h.(connClose := true)
    case KeepAlive => h.(connClose := false)
    case Range(a, b, t) =>
      h.(hasRange := true, rangeStart := Value(a, 10), rangeEnd := Value(b, 10), rangeTotal := Value(t, 10))
    case Target(u) => h.(location := u)
    case Neutral => h
  }

  // ---------------------------------------------------------------- responses

  /** size is the chunk-size text, ext the chunk extension. */
  datatype Chunk = Chunk(size: string, ext: string, data: string)

  datatype Payload =
    | Sized
    | Chunks(chunks: seq<Chunk>, last: string, trailers: seq<string>)
    | UntilClose

  /** interim holds the 1xx responses in front, each a status line and its header lines. */
  datatype Response = Response(interim: seq<seq<string>>, status: string, fields: seq<Field>, meanings: seq<Meaning>,
                               body: string, payload: Payload)

  predicate NonBlank(l: string) { l != [] && Lacks(l, {'\r', '\n'}) }

  predicate LineOk(l: string) { NonBlank(l) && |l| < HEAD_LINE_MAX }

  predicate StatusText(l: string, lo: nat, hi: nat) {
    && LineOk(l) && Lacks(l, {'\0'}) && "HTTP/1." <= l && |l| > 12
    && AllDigits(l[9..12], 10) && l[12] == ' ' && lo <= Value(l[9..12], 10) < hi
  }

  predicate InterimOk(block: seq<string>) {
    block != [] && StatusText(block[0], 100, 200) && forall i | 1 <= i < |block| :: LineOk(block[i])
  }

  predicate ChunkOk(c: Chunk) {
    && c.size != [] && AllDigits(c.size, 16) && Value(c.size, 16) == |c.data| && 0 < |c.data| <= U64_MAX
    && (c.ext == [] || c.ext[0] == ';') && Lacks(c.ext, {'\r', '\n', '\0'}) && |c.size + c.ext| < CHUNK_LINE_MAX
  }

  function Concat(cs: seq<Chunk>): string { if cs == [] then [] else cs[0].data + Concat(cs[1..]) }

  predicate AllMeaningsOk(ms: seq<Meaning>) { forall i | 0 <= i < |ms| :: MeaningOk(ms[i]) }

  /** The record the fields describe. */
  function HeadFrom(h: Head, ms: seq<Meaning>): Head
    requires AllMeaningsOk(ms)
    decreases |ms|
  {
    if ms == [] then h else HeadFrom(Effect(h, ms[0]), ms[1..])
  }

  predicate MessageHeadOk(r: Response) {
    && (forall i | 0 <= i < |r.interim| :: InterimOk(r.interim[i]))
    && StatusText(r.status, 200, 1000)
    && |r.fields| == |r.meanings|
    && forall i | 0 <= i < |r.fields| :: Says(r.fields[i], r.meanings[i])
  }

  function HeadOf(r: Response): Head
    requires MessageHeadOk(r)
  {
    HeadFrom(EmptyHead(Value(r.status[9..12], 10), r.status[7] == '0'), r.meanings)
  }

  /** RFC 7230 section 3.3.3: the fields announce the framing that is used. */
  predicate ResponseOk(r: Response) {
    && MessageHeadOk(r)
    && match r.payload
       case Sized =>
         || ((HeadOf(r).status == 204 || HeadOf(r).status == 304) && r.body == [])
         || (HeadOf(r).contentLength == |r.body| && !HeadOf(r).chunked)
       case Chunks(cs, last, trailers) =>
         && HeadOf(r).chunked && HeadOf(r).status != 204 && HeadOf(r).status != 304
         && (forall i | 0 <= i < |cs| :: ChunkOk(cs[i])) && r.body == Concat(cs) && |r.body| <= U64_MAX
         && last != [] && AllDigits(last, 16) && Value(last, 16) == 0 && |last| < CHUNK_LINE_MAX
         && forall i | 0 <= i < |trailers| :: NonBlank(trailers[i])
       case UntilClose =>
         && HeadOf(r).connClose && HeadOf(r).contentLength < 0 && !HeadOf(r).chunked
         && HeadOf(r).status != 204 && HeadOf(r).status != 304
  }

  // ---------------------------------------------------------------- bytes on the wire

  function LineWire(l: string): string { l + "\r\n" }

  /** Header or trailer lines and the blank line closing them. */
  function Block(ls: seq<string>): string { if ls == [] then "\r\n" else LineWire(ls[0]) + Block(ls[1..]) }

  function FieldsWire(fs: seq<Field>): string {
    if fs == [] then "\r\n" else LineWire(FieldLine(fs[0])) + FieldsWire(fs[1..])
  }

  function InterimWire(bs: seq<seq<string>>): string { if bs == [] then [] else Block(bs[0]) + InterimWire(bs[1..]) }

  function ChunksWire(cs: seq<Chunk>): string {
    if cs == [] then [] else LineWire(cs[0].size + cs[0].ext) + cs[0].data + "\r\n" + ChunksWire(cs[1..])
  }

  function BodyWire(r: Response): string {
    match r.payload
    case Sized => r.body
    case Chunks(cs, last, trailers) => ChunksWire(cs) + LineWire(last) + Block(trailers)
    case UntilClose => r.body
  }

  function HeadWire(r: Response): string { InterimWire(r.interim) + LineWire(r.status) + FieldsWire(r.fields) }

  /** The answer to a HEAD request, and 204 and 304 responses, end with their header block. */
  function Wire(r: Response, isHead: bool): string
    requires ResponseOk(r)
  {
    if Bodyless(HeadOf(r), isHead) then HeadWire(r) else HeadWire(r) + BodyWire(r)
  }

  // ---------------------------------------------------------------- reading undoes writing

  /** A line is read back from its wire form, cut to the buffer, with the reader left right behind it. */
  lemma NextLineWire(l: string, tail: string, max: nat)
    requires max > 1 && (l == [] || Lacks(l, {'\r', '\n'}))
    ensures NextLine(LineWire(l) + tail, max) == Done(if |l| < max then l else l[..max - 1], tail)
    ensures l != [] ==> (LineWire(l) + tail)[0] == l[0]
  {
    hide StripCR, IndexOf;
    var s := LineWire(l) + tail;
    assert forall i | 0 <= i < |l| :: s[i] == l[i];
    assert s[|l|] == '\r' && s[|l| + 1] == '\n';
    assert IndexOf(s, '\n') == |l| + 1;
    assert s[..|l| + 1] == l + "\r" && s[|l| + 2..] == tail;
    StripCRClean(l);
  }

  lemma {:induction false} BlockSkipped(ls: seq<string>, tail: string, max: nat)
    requires max > 1 && forall i | 0 <= i < |ls| :: NonBlank(ls[i])
    ensures SkipBlock(Block(ls) + tail, max) == Done((), tail)
    decreases |ls|
  {
    hide LineWire, NextLine, Lacks, Block;
    BlockCons(ls, tail);
    if ls == [] {
      NextLineWire([], tail, max);
    } else {
      NextLineWire(ls[0], Block(ls[1..]) + tail, max);
      BlockSkipped(ls[1..], tail, max);
    }
  }

  lemma BlockCons(ls: seq<string>, tail: string)
    ensures ls == [] ==> Block(ls) == LineWire([])
    ensures ls != [] ==> Block(ls) + tail == LineWire(ls[0]) + (Block(ls[1..]) + tail)
  {}

  lemma ScanThen(d: string, sep: char, rest: string)
    requires Number64(d) && (sep == '-' || sep == '/')
    ensures ScanNumber(d + ([sep] + rest), 10) == Number(false, Value(d, 10), [sep] + rest)
    ensures ([sep] + rest)[0] == sep && ([sep] + rest)[1..] == rest
  {
    ScanPlain(d, [sep] + rest, 10);
  }

  function RangeText(a: string, b: string, t: string): string { a + (['-'] + (b + (['/'] + t))) }

  lemma TripleScanned(a: string, b: string, t: string)
    requires Number64(a) && Number64(b) && Number64(t)
    ensures ScanTriple([' '] + RangeText(a, b, t)) == Some((Value(a, 10), Value(b, 10), Value(t, 10)))
  {
    hide ScanNumber, Value;
    SpaceScanned(' ', RangeText(a, b, t), 10);
    ScanThen(a, '-', b + (['/'] + t));
    ScanThen(b, '/', t);
    assert t + [] == t;
    ScanPlain(t, [], 10);
  }

  lemma RangeScanned(a: string, b: string, t: string)
    requires Number64(a) && Number64(b) && Number64(t)
    ensures ScanRange("bytes" + ([' '] + RangeText(a, b, t))) == Some((Value(a, 10), Value(b, 10), Value(t, 10)))
  {
    var tail := [' '] + RangeText(a, b, t);
    assert ("bytes" + tail)[5..] == tail;
    TripleScanned(a, b, t);
  }

  /** The client cuts a header line into the name and the value the server meant. */
  lemma FieldSplit(f: Field)
    requires FieldOk(f)
    ensures NonBlank(FieldLine(f)) && FieldLine(f)[0] != '\r'
    ensures CStr(FieldLine(f)) == FieldLine(f)
    ensures IndexOf(FieldLine(f), ':') == |f.name| < |FieldLine(f)|
    ensures FieldLine(f)[..|f.name|] == f.name
    ensures Trim(FieldLine(f)[|f.name| + 1..]) == f.value
  {
    var line := FieldLine(f);
    LacksConcat(f.pad, f.value, {'\r', '\n', '\0'});
    assert line == f.name + ([':'] + (f.pad + f.value));
    LacksConcat([':'], f.pad + f.value, {'\r', '\n', '\0'});
    LacksConcat(f.name, [':'] + (f.pad + f.value), {'\r', '\n', '\0'});
    assert '\0' !in line;
    CStrClean(line);
    CutAt(f.name, ':', f.pad + f.value);
    PaddedTrim(f.pad, f.value);
  }

  lemma LacksConcat(a: string, b: string, bad: set<char>)
    requires Lacks(a, bad) && Lacks(b, bad)
    ensures Lacks(a + b, bad)
  {}

  lemma LengthRead(d: string)
    requires Number64(d)
    ensures StrToLL(d) == Value(d, 10)
  {
    assert d + [] == d;
    ScanPlain(d, [], 10);
  }

  lemma SuffixFound(val: string, p: string)
    requires |val| >= |p| && EqCI(val[|val| - |p|..], p)
    ensures ContainsCI(val, p)
  {
    hide EqCI;
    var i := |val| - |p|;
    assert val[i..][..|p|] == val[i..];
    assert StartsWithCI(val[i..], p);
  }

  lemma RangeApplied(h: Head, a: string, b: string, t: string)
    requires Number64(a) && Number64(b) && Number64(t)
    ensures ApplyRange(h, "bytes" + ([' '] + RangeText(a, b, t)))
         == h.(hasRange := true, rangeStart := Value(a, 10), rangeEnd := Value(b, 10), rangeTotal := Value(t, 10))
  {
    hide ScanRange, Value, Number64, RangeText;
    RangeScanned(a, b, t);
  }

  lemma MeaningApplied(h: Head, f: Field, m: Meaning)
    requires Says(f, m)
    ensures ApplyNamed(h, f.name, f.value) == Effect(h, m)
  {
    hide ApplyRange, Value, StrToLL, ContainsCI, Number64, RangeText, Lower, Trimmed, Lacks;
    match m
    case Length(d) => LengthRead(d);
    case ChunkedCoding => SuffixFound(f.value, "chunked");
    case Range(a, b, t) => RangeApplied(h, a, b, t);
    case _ =>
  }

  /** Every field is read as what it means, whatever the record held before. */
  lemma FieldApplied(h: Head, f: Field, m: Meaning)
    requires Says(f, m)
    ensures ApplyField(h, FieldLine(f)) == Effect(h, m)
  {
    FieldSplit(f);
    MeaningApplied(h, f, m);
  }

  lemma {:induction false} PaddedTrim(pad: string, value: string)
    requires forall i | 0 <= i < |pad| :: IsSpace(pad[i])
    requires Trimmed(value)
    ensures Trim(pad + value) == value
  {
    if value == [] {
      AllSpaces(pad);
      assert pad + value == pad;
    } else {
      assert (pad + value)[|pad + value| - 1] == value[|value| - 1];
      if pad != [] {
        assert (pad + value)[0] == pad[0] && (pad + value)[1..] == pad[1..] + value;
        assert (pad[1..] + value)[|pad[1..] + value| - 1] == value[|value| - 1];
        PaddedTrim(pad[1..], value);
      } else {
        assert pad + value == value;
      }
    }
  }

  lemma {:induction false} AllSpaces(pad: string)
    requires forall i | 0 <= i < |pad| :: IsSpace(pad[i])
    ensures Trim(pad) == []
  {
    if pad != [] { AllSpaces(pad[..|pad| - 1]); }
  }

  lemma FieldsCons(fs: seq<Field>, tail: string)
    requires fs != []
    ensures FieldsWire(fs) + tail == LineWire(FieldLine(fs[0])) + (FieldsWire(fs[1..]) + tail)
  {
    hide LineWire, FieldLine;
    assert FieldsWire(fs) == LineWire(FieldLine(fs[0])) + FieldsWire(fs[1..]);
  }

  /** The parser at the blank line, and at a field line. */
  lemma FieldsEnd(h: Head, count: nat, tail: string)
    requires count <= MAX_FIELDS
    ensures ParseFields(FieldsWire([]) + tail, h, count) == if count < MAX_FIELDS then Done(h, tail) else Bad
  {
    assert LineWire([]) == "\r\n" == FieldsWire([]);
    hide *;
    NextLineWire([], tail, HEAD_LINE_MAX);
    FieldsStep(LineWire([]) + tail, h, count);
  }

  lemma FieldsNext(fs: seq<Field>, m: Meaning, h: Head, count: nat, tail: string)
    requires fs != [] && Says(fs[0], m) && count <= MAX_FIELDS
    ensures MeaningOk(m)
    ensures var rest := FieldsWire(fs[1..]) + tail;
      && ParseFields(FieldsWire(fs) + tail, h, count)
         == (if count < MAX_FIELDS then ParseFields(rest, Effect(h, m), count + 1) else Bad)
  {
    var l, rest := FieldLine(fs[0]), FieldsWire(fs[1..]) + tail;
    assert NonBlank(l) && l[0] != '\r' && |l| < HEAD_LINE_MAX by { FieldSplit(fs[0]); }
    FieldApplied(h, fs[0], m);
    hide *;
    NextLineWire(l, rest, HEAD_LINE_MAX);
    FieldsCons(fs, tail);
    FieldsStep(LineWire(l) + rest, h, count);
  }

  /** The whole header block is read as the record its fields describe, up to the client's 128-line bound. */
  lemma {:induction false} FieldsRead(fs: seq<Field>, ms: seq<Meaning>, h: Head, count: nat, tail: string)
    requires |fs| == |ms| && count <= MAX_FIELDS
    requires forall i | 0 <= i < |fs| :: Says(fs[i], ms[i])
    ensures AllMeaningsOk(ms)
    ensures ParseFields(FieldsWire(fs) + tail, h, count)
         == if count + |fs| < MAX_FIELDS then Done(HeadFrom(h, ms), tail) else Bad
    decreases |fs|
  {
    forall i | 0 <= i < |ms| ensures MeaningOk(ms[i]) { assert Says(fs[i], ms[i]); }
    hide Says, MeaningOk, Effect, FieldsWire, ParseFields;
    if fs == [] {
      FieldsEnd(h, count, tail);
    } else {
      FieldsNext(fs, ms[0], h, count, tail);
      FieldsRead(fs[1..], ms[1..], Effect(h, ms[0]), if count < MAX_FIELDS then count + 1 else count, tail);
    }
  }

  /** One unfolding of the field parser. */
  lemma FieldsStep(s: string, h: Head, count: nat)
    requires count <= MAX_FIELDS && NextLine(s, HEAD_LINE_MAX).Done?
    ensures ParseFields(s, h, count)
         == var r := NextLine(s, HEAD_LINE_MAX);
            if count == MAX_FIELDS then Bad
            else if r.value == [] then Done(h, r.rest)
            else ParseFields(r.rest, ApplyField(h, r.value), count + 1)
  {}

  lemma SmallNumber(s: string, v: nat, rest: string)
    requires ScanNumber(s, 10) == Number(false, v, rest) && v < 1000
    ensures AtoI(s) == v
  {
    hide ScanNumber;
  }

  lemma CodeRead(ds: string, tail: string)
    requires ds != [] && AllDigits(ds, 10) && Value(ds, 10) < 1000 && tail != [] && tail[0] == ' '
    ensures AtoI(ds + tail) == Value(ds, 10)
  {
    assert !IsDigitIn(' ', 10) && Lower(' ') == ' ';
    hide *;
    ScanPlain(ds, tail, 10);
    SmallNumber(ds + tail, Value(ds, 10), tail);
  }

  lemma StatusRead(l: string, lo: nat, hi: nat)
    requires StatusText(l, lo, hi) && hi <= 1000
    ensures StatusLineOk(l) && StatusOf(l) == Value(l[9..12], 10)
  {
    assert CStr(l) == l by {
      assert '\0' !in l;
      CStrClean(l);
    }
    assert l[9..] == l[9..12] + l[12..] && l[12..][0] == ' ';
    hide CStr, Value, AtoI;
    CodeRead(l[9..12], l[12..]);
  }

  lemma InterimCons(r: Response, tail: string)
    requires r.interim != [] && r.interim[0] != []
    ensures var b := r.interim[0];
      HeadWire(r) + tail == LineWire(b[0]) + (Block(b[1..]) + (HeadWire(r.(interim := r.interim[1..])) + tail))
  {
    hide LineWire, FieldsWire, InterimWire;
    var b, rest := r.interim[0], r.interim[1..];
    FirstBlock(r.interim);
    var s, f, i := LineWire(r.status), FieldsWire(r.fields), InterimWire(rest);
    Assoc(Block(b), i, s);
    Assoc(Block(b), i + s, f);
    Assoc(Block(b), i + s + f, tail);
    Assoc(LineWire(b[0]), Block(b[1..]), i + s + f + tail);
  }

  lemma FirstBlock(bs: seq<seq<string>>)
    requires bs != []
    ensures InterimWire(bs) == Block(bs[0]) + InterimWire(bs[1..])
  {
    hide Block;
  }

  /** The head of every well-formed response is read back, interim responses skipped, the reader left at the body;
      only a head of 128 or more header lines is refused. */
  lemma {:induction false} HeadRead(r: Response, tail: string)
    requires MessageHeadOk(r)
    ensures ParseHead(HeadWire(r) + tail) == if |r.fields| < MAX_FIELDS then Done(HeadOf(r), tail) else Bad
    decreases |r.interim|
  {
    hide LineWire, NextLine, StatusLineOk, StatusOf, FieldsWire, Block, Value;
    var s := HeadWire(r) + tail;
    if r.interim == [] {
      var rest := FieldsWire(r.fields) + tail;
      assert s == LineWire(r.status) + rest;
      NextLineWire(r.status, rest, HEAD_LINE_MAX);
      StatusRead(r.status, 200, 1000);
      FieldsRead(r.fields, r.meanings, EmptyHead(Value(r.status[9..12], 10), r.status[7] == '0'), 0, tail);
    } else {
      var b := r.interim[0];
      var r1 := r.(interim := r.interim[1..]);
      assert InterimOk(b);
      var rest := HeadWire(r1) + tail;
      InterimCons(r, tail);
      NextLineWire(b[0], Block(b[1..]) + rest, HEAD_LINE_MAX);
      StatusRead(b[0], 100, 200);
      BlockSkipped(b[1..], rest, HEAD_LINE_MAX);
      HeadRead(r1, tail);
    }
  }

  lemma Regroup(a: string, b: string, c: string, d: string, e: string)
    ensures (a + b + c + d) + e == a + (b + (c + (d + e)))
  {
    assert (a + b + c + d) + e == (a + b + c) + (d + e);
    assert (a + b + c) + (d + e) == (a + b) + (c + (d + e));
  }

  lemma ChunksCons(cs: seq<Chunk>, last: string, trailers: seq<string>, tail: string)
    requires cs != []
    ensures ChunksWire(cs) + LineWire(last) + Block(trailers) + tail
         == LineWire(cs[0].size + cs[0].ext)
            + (cs[0].data + (LineWire([]) + (ChunksWire(cs[1..]) + LineWire(last) + Block(trailers) + tail)))
  {
    assert LineWire([]) == "\r\n";
    hide LineWire, Block;
    var l, d, e, w := LineWire(cs[0].size + cs[0].ext), cs[0].data, LineWire([]), ChunksWire(cs[1..]);
    var x, y := LineWire(last), Block(trailers);
    assert ChunksWire(cs) == l + d + e + w;
    Regroup(l, d, e, w, x + y + tail);
    assert (l + d + e + w) + x + y + tail == (l + d + e + w) + (x + y + tail);
    assert w + x + y + tail == w + (x + y + tail);
  }

  /** The decoder at one chunk, and at the last-chunk line. */
  lemma ChunkRead(c: Chunk, s1: string, len: nat, max: nat)
    requires SizeLine(c.size, c.ext) && Value(c.size, 16) == |c.data| && c.data != []
    requires len + |c.data| <= U64_MAX
    ensures DecodeChunks(LineWire(c.size + c.ext) + (c.data + (LineWire([]) + s1)), len, max)
         == if len + |c.data| > max then TooBig else Prepend(c.data, DecodeChunks(s1, len + |c.data|, max))
  {
    hide *;
    var line, tail := c.size + c.ext, LineWire([]) + s1;
    var rest := c.data + tail;
    SizeLineRead(c.size, c.ext, rest);
    BlankLineWire(s1);
    Halves(c.data, tail);
    ChunkTaken(LineWire(line) + rest, rest, |c.data|, s1, len, max);
  }

  lemma BlankLineWire(tail: string)
    ensures NextLine(LineWire([]) + tail, CHUNK_LINE_MAX) == Done([], tail)
  {
    hide NextLine, LineWire;
    NextLineWire([], tail, CHUNK_LINE_MAX);
  }

  lemma Halves(a: string, b: string)
    ensures (a + b)[..|a|] == a && (a + b)[|a|..] == b
  {}

  lemma ChunkTaken(s: string, rest: string, chunk: nat, s1: string, len: nat, max: nat)
    requires NextLine(s, CHUNK_LINE_MAX).Done? && NextLine(s, CHUNK_LINE_MAX).rest == rest
    requires StrToULL(CStr(NextLine(s, CHUNK_LINE_MAX).value), 16) == chunk
    requires 0 < chunk <= |rest| && len + chunk <= U64_MAX
    requires NextLine(rest[chunk..], CHUNK_LINE_MAX) == Done([], s1)
    ensures DecodeChunks(s, len, max)
         == if len + chunk > max then TooBig else Prepend(rest[..chunk], DecodeChunks(s1, len + chunk, max))
  {
    hide NextLine, StrToULL, CStr, DecodeChunks, AfterLastChunk;
    ChunkStart(s, len, max);
    if len + chunk <= max {
      ChunkDone(s, len, max, []);
      NothingPrepended(DecodeChunks(s, len, max));
      assert [] + rest[..chunk] == rest[..chunk];
    }
  }

  lemma ChunkParts(c: Chunk)
    requires ChunkOk(c)
    ensures SizeLine(c.size, c.ext) && Value(c.size, 16) == |c.data| && c.data != []
  {}

  lemma NothingPrepended(b: Body)
    ensures Prepend([], b) == b
  {
    if b.Whole? { assert [] + b.data == b.data; }
  }

  lemma LastRead(last: string, trailers: seq<string>, tail: string, len: nat, max: nat)
    requires last != [] && AllDigits(last, 16) && Value(last, 16) == 0 && |last| < CHUNK_LINE_MAX
    requires forall i | 0 <= i < |trailers| :: NonBlank(trailers[i])
    ensures DecodeChunks(LineWire(last) + (Block(trailers) + tail), len, max) == Whole([], tail)
  {
    assert last + [] == last;
    SizeLineRead(last, [], Block(trailers) + tail);
    BlockSkipped(trailers, tail, CHUNK_LINE_MAX);
    hide LineWire, NextLine, StrToULL, Value, CStr, NonBlank, Block, AllDigits, SkipBlock;
  }

  /** A chunked body decodes to the concatenation of its chunks, and trailers are consumed with it; a body over the
      caller's limit is reported as such before any byte of the offending chunk is taken. */
  lemma {:induction false} ChunksRead(cs: seq<Chunk>, last: string, trailers: seq<string>, tail: string, len: nat,
                                      max: nat)
    requires forall i | 0 <= i < |cs| :: ChunkOk(cs[i])
    requires last != [] && AllDigits(last, 16) && Value(last, 16) == 0 && |last| < CHUNK_LINE_MAX
    requires forall i | 0 <= i < |trailers| :: NonBlank(trailers[i])
    requires len <= max && len + |Concat(cs)| <= U64_MAX
    ensures DecodeChunks(ChunksWire(cs) + LineWire(last) + Block(trailers) + tail, len, max)
         == if len + |Concat(cs)| <= max then Whole(Concat(cs), tail) else TooBig
    decreases |cs|
  {
    hide LineWire, DecodeChunks, Block, NonBlank, ChunkOk, Value;
    if cs == [] {
      assert ChunksWire(cs) + LineWire(last) + Block(trailers) + tail == LineWire(last) + (Block(trailers) + tail);
      LastRead(last, trailers, tail, len, max);
    } else {
      var c := cs[0];
      ChunkParts(c);
      var s1 := ChunksWire(cs[1..]) + LineWire(last) + Block(trailers) + tail;
      ChunksCons(cs, last, trailers, tail);
      ChunkRead(c, s1, len, max);
      if len + |c.data| <= max {
        ChunksRead(cs[1..], last, trailers, tail, len + |c.data|, max);
      }
    }
  }

  predicate SizeLine(size: string, ext: string) {
    && size != [] && AllDigits(size, 16) && Value(size, 16) <= U64_MAX
    && (ext == [] || ext[0] == ';') && Lacks(ext, {'\r', '\n', '\0'}) && |size + ext| < CHUNK_LINE_MAX
  }

  lemma SizeLineClean(size: string, ext: string)
    requires SizeLine(size, ext)
    ensures Lacks(size + ext, {'\r', '\n'}) && CStr(size + ext) == size + ext
  {
    var l := size + ext;
    assert forall i | 0 <= i < |size| :: IsDigitIn(size[i], 16);
    assert forall i | 0 <= i < |l| :: if i < |size| then l[i] == size[i] else l[i] == ext[i - |size|];
    assert Lacks(l, {'\r', '\n', '\0'});
    assert '\0' !in l;
    CStrClean(l);
  }

  lemma SizeLineRead(size: string, ext: string, rest: string)
    requires SizeLine(size, ext)
    ensures NextLine(LineWire(size + ext) + rest, CHUNK_LINE_MAX) == Done(size + ext, rest)
    ensures StrToULL(CStr(size + ext), 16) == Value(size, 16)
  {
    assert !IsDigitIn(';', 16) && Lower(';') != 'x';
    hide NextLine, LineWire, CStr, Value, ScanNumber, Run, Lacks;
    SizeLineClean(size, ext);
    NextLineWire(size + ext, rest, CHUNK_LINE_MAX);
    ScanPlain(size, ext, 16);
  }

  /** The whole message: what the body reader returns and where it leaves the connection. */
  lemma BodyRead(r: Response, isHead: bool, tail: string, max: nat)
    requires ResponseOk(r)
    requires r.payload.UntilClose? && !Bodyless(HeadOf(r), isHead) ==> tail == []
    ensures BodyOf(HeadOf(r), isHead, (if Bodyless(HeadOf(r), isHead) then [] else BodyWire(r)) + tail, max)
         == if Bodyless(HeadOf(r), isHead) then Whole([], tail)
            else if |r.body| <= max then Whole(r.body, tail) else TooBig
  {
    if Bodyless(HeadOf(r), isHead) {
      assert [] + tail == tail;
    } else {
      match r.payload
      case Sized =>
        assert (r.body + tail)[..|r.body|] == r.body && (r.body + tail)[|r.body|..] == tail;
      case Chunks(cs, last, trailers) =>
        ChunksRead(cs, last, trailers, tail, 0, max);
      case UntilClose =>
        assert r.body + [] == r.body;
        assert HeadOf(r).contentLength < 0;
    }
  }
}
