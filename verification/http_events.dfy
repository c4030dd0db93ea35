/** What the readers of http_source.c make of a connection whose receives may fail at any point and be followed by more
    data: SO_RCVTIMEO turns a slow peer into a failed receive (src/http_source.c:1053), and not every reader gives up.

    A connection's input is a sequence of events, each a delivered byte or a failed receive; behind the last event every
    receive fails. Line buffers are modelled with all they contain, because a line whose reading is cut short is left
    without terminator in front of what the buffer held before. */
module HttpEvents {
  import opened Text
  import opened HttpFraming

  datatype Event = Byte(c: char) | Fault

  function Data(evs: seq<Event>): (d: string)
    ensures |d| <= |evs|
  {
    if evs == [] then [] else (if evs[0].Fault? then [] else [evs[0].c]) + Data(evs[1..])
  }

  function Bytes(s: string): (evs: seq<Event>)
    ensures |evs| == |s| && forall i | 0 <= i < |s| :: evs[i] == Byte(s[i])
  {
    seq(|s|, i requires 0 <= i < |s| => Byte(s[i]))
  }

  /** The bytes in front of the first failed receive. */
  function Front(evs: seq<Event>): (s: string)
    ensures |s| <= |evs| && forall i | 0 <= i < |s| :: evs[i] == Byte(s[i])
    ensures |s| < |evs| ==> evs[|s|].Fault?
  {
    if evs == [] || evs[0].Fault? then [] else [evs[0].c] + Front(evs[1..])
  }

  lemma {:induction false} FrontIs(evs: seq<Event>, s: string)
    requires |s| <= |evs| && forall i | 0 <= i < |s| :: evs[i] == Byte(s[i])
    requires |s| < |evs| ==> evs[|s|].Fault?
    ensures Front(evs) == s
  {
    if s != [] {
      assert evs[0] == Byte(s[0]);
      FrontIs(evs[1..], s[1..]);
    }
  }

  lemma FrontSplit(evs: seq<Event>, k: nat)
    requires k <= |Front(evs)|
    ensures Front(evs[k..]) == Front(evs)[k..]
  {
    hide Front;
    FrontIs(evs[k..], Front(evs)[k..]);
  }

  lemma FrontOfBytes(s: string, evs: seq<Event>)
    ensures Front(Bytes(s) + evs) == s + Front(evs)
  {
    hide Front, Bytes;
    FrontIs(Bytes(s) + evs, s + Front(evs));
  }

  /** What is left when a receive has failed in front of everything. */
  function AfterFault(evs: seq<Event>): seq<Event> { if evs == [] then [] else evs[1..] }

  // ---------------------------------------------------------------- lines

  /** n is the length returned, or -1. */
  datatype Line = Line(n: int, buf: string, rest: seq<Event>)

  /** conn_read_line with n characters stored, and whether any byte of the line has been read. */
  function ScanLine(evs: seq<Event>, buf: string, n: nat, any: bool): (r: Line)
    requires n < |buf| && (n > 0 ==> any)
    ensures -1 <= r.n < |r.buf| == |buf| && |r.rest| <= |evs|
    ensures r.n >= 0 && !any ==> |r.rest| < |evs|
    ensures any ==> r.n >= 0
  {
    if evs == [] || evs[0].Fault? then Line(if any then n else -1, buf, AfterFault(evs))
    else if evs[0].c == '\n' then Line(n, buf[n := '\0'], evs[1..])
    else if evs[0].c != '\r' && n + 1 < |buf| then ScanLine(evs[1..], buf[n := evs[0].c], n + 1, true)
    else ScanLine(evs[1..], buf, n, true)
  }

  function LineOf(evs: seq<Event>, buf: string): (r: Line)
    requires buf != []
    ensures -1 <= r.n < |r.buf| == |buf| && |r.rest| <= |evs|
    ensures r.n >= 0 ==> |r.rest| < |evs|
  {
    ScanLine(evs, buf, 0, false)
  }

  /** while (conn_read_line(...) > 0) {}: the last line read. */
  function SkipOf(evs: seq<Event>, buf: string): (r: Line)
    requires buf != []
    ensures -1 <= r.n <= 0 && |r.buf| == |buf| && |r.rest| <= |evs|
    decreases |evs|
  {
    var l := LineOf(evs, buf);
    if l.n > 0 then SkipOf(l.rest, l.buf) else l
  }

  // ---------------------------------------------------------------- the head

  /** trim_inplace on the string at the front of s. */
  function TrimInPlace(s: string): (r: string)
    ensures |r| == |s|
  {
    var c := CStr(s);
    var d := DropTrailingSpaces(c);
    var t := SkipSpaces(d);
    var e := d + seq(|c| - |d|, i => '\0') + s[|c|..];
    if |t| == |d| then e else t + ['\0'] + e[|t| + 1..]
  }

  predicate IsBlank(c: char) { c == ' ' || c == '\t' }

  function SkipBlanks(s: string): (k: nat)
    ensures k <= |s|
  {
    if s != [] && IsBlank(s[0]) then 1 + SkipBlanks(s[1..]) else 0
  }

  /** The line buffer after a header line has been taken apart in it: the name and the trimmed value terminated. */
  function TakenApart(buf: string): (r: string)
    ensures |r| == |buf|
  {
    var c := CStr(buf);
    var i := IndexOf(c, ':');
    if i == |c| then buf
    else
      var v := i + 1 + SkipBlanks(c[i + 1..]);
      buf[..i] + ['\0'] + buf[i + 1..v] + TrimInPlace(buf[v..])
  }

  datatype HeadScan = Got(h: Head, rest: seq<Event>) | NoHead

  function FieldsOf(evs: seq<Event>, buf: string, h: Head, count: nat): (r: HeadScan)
    requires buf != [] && count <= MAX_FIELDS
    ensures r.Got? ==> r.h.status == h.status && |r.rest| <= |evs|
    decreases |evs|
  {
    if count == MAX_FIELDS then NoHead
    else
      var l := LineOf(evs, buf);
      if l.n < 0 then NoHead
      else if l.n == 0 then Got(h, l.rest)
      else StatusKept(h, l.buf); FieldsOf(l.rest, TakenApart(l.buf), ApplyField(h, l.buf), count + 1)
  }

  lemma StatusKept(h: Head, line: string)
    ensures ApplyField(h, line).status == h.status
  {
    hide EqCI, Trim, ScanRange, ScanUnsatisfied, ContainsCI, CStr, IndexOf, StrToLL;
  }

  /** http_read_response. */
  function HeadScanOf(evs: seq<Event>, buf: string): (r: HeadScan)
    requires buf != []
    ensures r.Got? ==> r.h.status >= 200 && |r.rest| <= |evs|
    decreases |evs|
  {
    var l := LineOf(evs, buf);
    if l.n <= 0 || !StatusLineOk(l.buf) then NoHead
    else if StatusOf(l.buf) >= 200 then FieldsOf(l.rest, l.buf, EmptyHead(StatusOf(l.buf), l.buf[7] == '0'), 0)
    else
      var s := SkipOf(l.rest, l.buf);
      if s.n < 0 then NoHead else HeadScanOf(s.rest, s.buf)
  }

  // ---------------------------------------------------------------- the body

  /** Kept: the body, and the connection stays alive in front of rest. Last: the body, but the connection is given up.
      Refused: over the limit. Lost: the connection failed. */
  datatype BodyScan = Kept(data: string, rest: seq<Event>) | Last(data: string) | Refused | Lost

  function After(data: string, b: BodyScan): BodyScan {
    match b
    case Kept(d, rest) => Kept(data + d, rest)
    case Last(d) => Last(data + d)
    case other => other
  }

  /** The chunked branch of http_read_body, len bytes of the body having been read. */
  function ChunksOf(evs: seq<Event>, buf: string, len: nat, max: nat): (b: BodyScan)
    requires buf != []
    ensures b.Kept? ==> |b.data| + |b.rest| <= |evs|
    ensures !b.Last?
    decreases |evs|
  {
    var l := LineOf(evs, buf);
    if l.n < 0 then Lost else ChunkOf(l.rest, l.buf, StrToULL(CStr(l.buf), 16), len, max)
  }

  /** The same behind a size line. */
  function ChunkOf(evs: seq<Event>, buf: string, chunk: nat, len: nat, max: nat): (b: BodyScan)
    requires buf != []
    ensures b.Kept? ==> |b.data| + |b.rest| <= |evs|
    ensures !b.Last?
    decreases |evs|
  {
    if chunk == 0 then Kept([], SkipOf(evs, buf).rest)
    else if (len + chunk) % (U64_MAX + 1) > max then Refused
    else if |Front(evs)| < chunk then Lost
    else
      var e := LineOf(evs[chunk..], buf);
      if e.n < 0 then Lost else After(Front(evs)[..chunk], ChunksOf(e.rest, e.buf, len + chunk, max))
  }

  lemma ChunksUnfold(evs: seq<Event>, buf: string, len: nat, max: nat)
    requires buf != []
    ensures ChunksOf(evs, buf, len, max) ==
      var l := LineOf(evs, buf);
      if l.n < 0 then Lost else ChunkOf(l.rest, l.buf, StrToULL(CStr(l.buf), 16), len, max)
  {
    hide LineOf, StrToULL, CStr, ChunkOf;
  }

  function Closing(close: bool, b: BodyScan): BodyScan {
    if close && b.Kept? then Last(b.data) else b
  }

  function SizedOf(length: nat, evs: seq<Event>, max: nat): BodyScan {
    if length > max then Refused
    else if |Front(evs)| < length then Lost
    else Kept(Front(evs)[..length], evs[length..])
  }

  /** http_read_body. */
  function BodyScanOf(h: Head, isHead: bool, evs: seq<Event>, buf: string, max: nat): BodyScan
    requires buf != []
  {
    if Bodyless(h, isHead) then Kept([], evs)
    else if h.chunked then Closing(h.connClose, ChunksOf(evs, buf, 0, max))
    else if h.contentLength >= 0 then Closing(h.connClose, SizedOf(h.contentLength, evs, max))
    else if |Front(evs)| > max then Refused
    else Last(Front(evs))
  }
}
