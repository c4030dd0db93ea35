/** URL helpers of http_source.c: parsing, printing, reference resolution and percent-encoding. */
module Url {
  import opened Text

  const URL_MAX: nat := 1024
  const HOST_MAX: nat := 256

  datatype HttpUrl = HttpUrl(https: bool, host: string, port: nat, path: string)

  predicate SameEndpoint(a: HttpUrl, b: HttpUrl) { a.https == b.https && a.port == b.port && EqCI(a.host, b.host) }

  // ---------------------------------------------------------------- parsing

  predicate EndsAuthority(c: char) { c == '/' || c == '?' || c == '#' }

  /** strcspn(s, "/?#"). */
  function AuthorityLen(s: string): (n: nat)
    ensures n <= |s|
    ensures forall i | 0 <= i < n :: !EndsAuthority(s[i])
    ensures n < |s| ==> EndsAuthority(s[n])
  {
    if s == [] || EndsAuthority(s[0]) then 0 else 1 + AuthorityLen(s[1..])
  }

  /** strrchr: the position behind the last occurrence of c, or 0. */
  function PastLast(s: string, c: char): (k: nat)
    ensures k <= |s| && forall i | k <= i < |s| :: s[i] != c
    ensures k > 0 ==> s[k - 1] == c
  {
    if s == [] then 0 else if s[|s| - 1] == c then |s| else PastLast(s[..|s| - 1], c)
  }

  /** What follows the last occurrence of c. */
  function AfterLast(s: string, c: char): (r: string)
    ensures |r| <= |s| && r == s[|s| - |r|..]
    ensures c !in r
    ensures c !in s ==> r == s
    ensures |r| < |s| ==> s[|s| - |r| - 1] == c
  {
    s[PastLast(s, c)..]
  }

  datatype Authority = Authority(host: string, port: Option<string>)

  function SplitAuthority(a: string): Option<Authority> {
    if a != [] && a[0] == '[' then
      var rb := IndexOf(a, ']');
      if rb == |a| then None
      else Some(Authority(a[1..rb], if rb + 1 < |a| && a[rb + 1] == ':' then Some(a[rb + 2..]) else None))
    else
      var colon := IndexOf(a, ':');
      Some(Authority(a[..colon], if colon < |a| then Some(a[colon + 1..]) else None))
  }

  /** The port text: one or more digits with a value in 1..65535. */
  function PortOf(s: string): Option<nat> {
    if s == [] || !(forall i | 0 <= i < |s| :: IsDecimal(s[i])) then None
    else
      assert AllDigits(s, 10);
      if 1 <= Value(s, 10) <= 65535 then Some(Value(s, 10)) else None
  }

  function PathOf(rest: string): Option<string> {
    var p := rest[..IndexOf(rest, '#')];
    if p == [] then Some("/")
    else if p[0] == '?' then (if |p| + 2 > URL_MAX then None else Some("/" + p))
    else if |p| + 1 > URL_MAX then None
    else Some(p)
  }

  function ParseRest(https: bool, p: string): Option<HttpUrl> {
    var n := AuthorityLen(p);
    match SplitAuthority(AfterLast(p[..n], '@'))
    case None => None
    case Some(a) =>
      if |a.host| == 0 || |a.host| >= HOST_MAX then None
      else
        var port := match a.port
                    case None => Some(if https then 443 else 80)
                    case Some(s) => PortOf(s);
        if port.None? || PathOf(p[n..]).None? then None
        else Some(HttpUrl(https, a.host, port.value, PathOf(p[n..]).value))
  }

  /** http_url_parse. */
  function UrlParse(url: string): Option<HttpUrl> {
    if StartsWithCI(url, "https://") then ParseRest(true, url[8..])
    else if StartsWithCI(url, "http://") then ParseRest(false, url[7..])
    else None
  }

  /** The port loop: it stops at the first non-digit and as soon as the value leaves the port range, before the
      accumulator could overflow an int. */
  method ParsePort(s: string) returns (port: Option<nat>)
    ensures port == PortOf(s)
  {
    if s == [] { return None; }
    var v, i := 0, 0;
    while i < |s|
      invariant 0 <= i <= |s| && 0 <= v <= 65535
      invariant forall j | 0 <= j < i :: IsDecimal(s[j])
      invariant AllDigits(s[..i], 10) && v == Value(s[..i], 10)
    {
      if !IsDecimal(s[i]) { return None; }
      assert s[..i + 1][..i] == s[..i];
      v := v * 10 + DigitOf(s[i]);
      if v > 65535 {
        if forall j | 0 <= j < |s| :: IsDecimal(s[j]) { PrefixBelow(s, i + 1); }
        return None;
      }
      i := i + 1;
    }
    assert s[..i] == s;
    if v == 0 { return None; }
    return Some(v);
  }

  lemma {:induction false} PrefixBelow(s: string, k: nat)
    requires k <= |s| && AllDigits(s, 10)
    ensures AllDigits(s[..k], 10) && Value(s[..k], 10) <= Value(s, 10)
    decreases |s|
  {
    if k == |s| {
      assert s[..k] == s;
    } else {
      var t := s[..|s| - 1];
      assert t[..k] == s[..k];
      assert IsDigitIn(s[|s| - 1], 10);
      PrefixBelow(t, k);
    }
  }

  // ---------------------------------------------------------------- printing

  predicate IsV6(u: HttpUrl) { ':' in u.host }

  function HostText(u: HttpUrl): string { if IsV6(u) then "[" + u.host + "]" else u.host }

  function PortText(u: HttpUrl): string {
    if u.port != (if u.https then 443 else 80) then ":" + Dec(u.port) else ""
  }

  /** url_origin. */
  function Origin(u: HttpUrl): string {
    (if u.https then "https://" else "http://") + (HostText(u) + PortText(u))
  }

  /** Characters that can stand in an authority behind the user information. */
  ghost predicate Plain(s: string) { forall i | 0 <= i < |s| :: !EndsAuthority(s[i]) && s[i] != '@' }

  /** What the parser guarantees of its result. */
  ghost predicate UrlOk(u: HttpUrl) {
    && 0 < |u.host| < HOST_MAX && Plain(u.host)
    && (':' in u.host ==> ']' !in u.host)
    && 1 <= u.port <= 65535
    && PathOk(u.path)
  }

  ghost predicate PathOk(p: string) { p != [] && p[0] == '/' && '#' !in p && |p| < URL_MAX }

  /** A host that prints without brackets although it starts with one. */
  predicate Unprintable(u: HttpUrl) { u.host != [] && u.host[0] == '[' && !IsV6(u) }

  lemma ParsedOk(url: string)
    requires UrlParse(url).Some?
    ensures UrlOk(UrlParse(url).value)
  {
    hide AuthorityLen, AfterLast, SplitAuthority, PathOf, PortOf, EqCI, PathOk, Plain;
    if StartsWithCI(url, "https://") { RestOk(true, url[8..]); } else { RestOk(false, url[7..]); }
  }

  lemma RestOk(https: bool, p: string)
    requires ParseRest(https, p).Some?
    ensures UrlOk(ParseRest(https, p).value)
  {
    hide AuthorityLen, AfterLast, SplitAuthority, PathOf, Value, Plain, PathOk;
    var n := AuthorityLen(p);
    var a := AfterLast(p[..n], '@');
    AuthorityPlain(p);
    HostOk(a);
    PathParsedOk(p[n..]);
  }

  lemma AuthorityPlain(p: string)
    ensures Plain(AfterLast(p[..AuthorityLen(p)], '@'))
  {
    hide AuthorityLen, AfterLast, EndsAuthority;
    var n := AuthorityLen(p);
    var a := AfterLast(p[..n], '@');
    forall i | 0 <= i < |a| ensures !EndsAuthority(a[i]) && a[i] != '@' {
      assert a[i] == p[n - |a| + i] && a[i] in a;
    }
  }

  lemma HostOk(a: string)
    requires Plain(a) && SplitAuthority(a).Some?
    ensures var h := SplitAuthority(a).value.host; Plain(h) && (':' in h ==> ']' !in h)
  {
    hide IndexOf;
    var h := SplitAuthority(a).value.host;
    if a != [] && a[0] == '[' {
      assert forall i | 0 <= i < |h| :: h[i] == a[i + 1];
    } else {
      assert forall i | 0 <= i < |h| :: h[i] == a[i];
    }
  }

  lemma PathParsedOk(rest: string)
    requires PathOf(rest).Some? && (rest == [] || EndsAuthority(rest[0]))
    ensures PathOk(PathOf(rest).value)
  {
    hide IndexOf;
    var p := rest[..IndexOf(rest, '#')];
    assert '#' !in p;
  }

  // ---------------------------------------------------------------- parse and print undo each other

  lemma PortTextPlain(u: HttpUrl)
    ensures var pt := PortText(u);
      && Plain(pt) && ']' !in pt && '#' !in pt && '[' !in pt
      && (pt != "" ==> pt[0] == ':' && pt[1..] == Dec(u.port))
  {
    hide Dec;
    var pt, d := PortText(u), Dec(u.port);
    assert pt != "" ==> forall i | 0 <= i < |pt| :: pt[i] == if i == 0 then ':' else d[i - 1];
    assert forall i | 0 <= i < |pt| :: pt[i] == ':' || IsDecimal(pt[i]);
  }

  lemma BracketsRead(host: string, pt: string)
    requires ']' !in host
    ensures SplitAuthority("[" + host + "]" + pt)
         == Some(Authority(host, if pt != [] && pt[0] == ':' then Some(pt[1..]) else None))
  {
    hide IndexOf, SplitAuthority;
    var a := host + ([']'] + pt);
    assert "[" + host + "]" + pt == ['['] + a;
    CutAt(host, ']', pt);
    BracketCut(a, |host|, pt);
  }

  lemma PlainConcat(a: string, b: string)
    requires Plain(a) && Plain(b)
    ensures Plain(a + b)
  {}

  /** A printed authority splits into the host and the port text it was printed from. */
  lemma AuthorityRead(u: HttpUrl)
    requires UrlOk(u) && !Unprintable(u)
    ensures Plain(HostText(u) + PortText(u))
    ensures SplitAuthority(HostText(u) + PortText(u))
         == Some(Authority(u.host, if PortText(u) == "" then None else Some(Dec(u.port))))
  {
    hide IndexOf, PortText, Dec;
    PortTextPlain(u);
    var pt := PortText(u);
    assert Plain("[") && Plain("]");
    if IsV6(u) {
      BracketsRead(u.host, pt);
      hide Plain, SplitAuthority;
      PlainConcat("[", u.host);
      PlainConcat("[" + u.host, "]");
      PlainConcat(HostText(u), pt);
    } else if pt == "" {
      assert u.host + pt == u.host;
    } else {
      PlainConcat(u.host, pt);
      hide Plain;
      assert u.host + pt == u.host + ([':'] + pt[1..]);
      CutAt(u.host, ':', pt[1..]);
    }
  }

  lemma BracketCut(a: string, k: nat, after: string)
    requires IndexOf(a, ']') == k < |a| && a[k + 1..] == after
    ensures SplitAuthority(['['] + a)
         == Some(Authority(a[..k], if after != [] && after[0] == ':' then Some(after[1..]) else None))
  {
    var s := ['['] + a;
    assert s[1..] == a;
    assert IndexOf(s, ']') == k + 1;
    hide IndexOf;
    assert s[1..k + 1] == a[..k];
    assert s[k + 2..] == after;
    assert after != [] ==> s[k + 2] == after[0] && s[k + 3..] == after[1..];
  }

  /** The authority of "authority/path" is what stands in front of the path. */
  lemma AuthorityExtent(a: string, path: string)
    requires Plain(a) && path != [] && path[0] == '/'
    ensures var p := a + path; AuthorityLen(p) == |a| && p[..|a|] == a && p[|a|..] == path && AfterLast(a, '@') == a
  {
    hide AuthorityLen, AfterLast;
    var p := a + path;
    assert p[|a|] == '/';
    assert forall i | 0 <= i < |a| :: p[i] == a[i];
    assert '@' !in a;
  }

  /** A printed origin followed by any path parses to that endpoint and path. */
  lemma OriginRead(u: HttpUrl, path: string)
    requires UrlOk(u) && !Unprintable(u) && PathOk(path)
    ensures UrlParse(Origin(u) + path) == Some(u.(path := path))
  {
    hide HostText, PortText, PortOf, SplitAuthority, AuthorityLen, AfterLast, PathOf, Value, Plain, UrlParse;
    hide Unprintable;
    var a := HostText(u) + PortText(u);
    AuthorityRead(u);
    AuthorityExtent(a, path);
    SchemeRead(u.https, a + path);
    OriginSplit(u, path);
    PathKept(path);
    PortRead(u);
  }

  lemma OriginSplit(u: HttpUrl, path: string)
    ensures Origin(u) + path == (if u.https then "https://" else "http://") + ((HostText(u) + PortText(u)) + path)
  {
    hide HostText, PortText;
  }

  lemma PathKept(path: string)
    requires PathOk(path)
    ensures PathOf(path) == Some(path)
  {
    hide IndexOf;
    assert forall i | 0 <= i < |path| :: path[i] in path;
    assert path[..|path|] == path;
  }

  lemma PortRead(u: HttpUrl)
    requires 1 <= u.port <= 65535
    ensures PortText(u) == "" ==> u.port == if u.https then 443 else 80
    ensures PortText(u) != "" ==> PortOf(Dec(u.port)) == Some(u.port)
  {
    hide Dec;
  }

  lemma SchemeRead(https: bool, p: string)
    ensures UrlParse((if https then "https://" else "http://") + p) == ParseRest(https, p)
  {
    hide ParseRest;
    if https {
      var s := "https://" + p;
      assert s[..8] == "https://" && s[8..] == p;
    } else {
      var s := "http://" + p;
      assert s[..7] == "http://" && s[7..] == p;
      assert |s| >= 8 ==> s[..8][4] == ':' && Lower(s[..8][4]) != Lower("https://"[4]);
    }
  }

  /** The exact domain of the round trip: it fails for one family of hosts, those that start with '[' and contain
      no ':', and for every one of them. */
  lemma UrlRoundTrip(url: string)
    requires UrlParse(url).Some?
    ensures var u := UrlParse(url).value;
      UrlParse(Origin(u) + u.path) == Some(u) <==> !(u.host[0] == '[' && ':' !in u.host)
  {
    hide UrlParse, PathOk, Plain;
    ParsedOk(url);
    var u := UrlParse(url).value;
    if Unprintable(u) {
      BracketHostLost(u);
    } else {
      OriginRead(u, u.path);
    }
  }

  lemma BracketHostLost(u: HttpUrl)
    requires UrlOk(u) && Unprintable(u)
    ensures UrlParse(Origin(u) + u.path) != Some(u)
  {
    hide PortText, SplitAuthority, AuthorityLen, AfterLast, PathOf, PortOf, UrlParse;
    var a := HostText(u) + PortText(u);
    PortTextPlain(u);
    assert Plain(a) by {
      assert forall i | 0 <= i < |a| :: a[i] == if i < |u.host| then u.host[i] else PortText(u)[i - |u.host|];
    }
    AuthorityExtent(a, u.path);
    SchemeRead(u.https, a + u.path);
    assert Origin(u) + u.path == (if u.https then "https://" else "http://") + (a + u.path);
    HostLost(u.host, PortText(u));
  }

  /** No bracket pair in "[...port" encloses the whole host text. */
  lemma HostLost(host: string, pt: string)
    requires host != [] && host[0] == '[' && ']' !in pt
    ensures SplitAuthority(host + pt).Some? ==> SplitAuthority(host + pt).value.host != host
  {
    hide IndexOf;
    var a := host + pt;
    var rb := IndexOf(a, ']');
    assert forall i | |host| <= i < |a| :: a[i] == pt[i - |host|] && a[i] != ']';
    assert 1 <= rb;
    assert rb < |a| ==> |a[1..rb]| < |host|;
  }

  lemma BracketedX()
    ensures Plain("[[x]") && SplitAuthority("[[x]") == Some(Authority("[x", None))
  {
    hide IndexOf, SplitAuthority;
    var h := "[x";
    var a := h + ([']'] + []);
    assert a == ['[', 'x', ']'];
    CutAt(h, ']', []);
    BracketCut(a, 2, []);
    assert ['['] + a == "[[x]";
    assert a[..2] == h;
  }

  /** The failing family is inhabited: a doubly bracketed host. */
  lemma BracketHostExample()
    ensures UrlParse("http://" + ("[[x]" + "/")) == Some(HttpUrl(false, "[x", 80, "/"))
    ensures UrlParse(Origin(HttpUrl(false, "[x", 80, "/")) + "/") != Some(HttpUrl(false, "[x", 80, "/"))
  {
    hide AuthorityLen, AfterLast, IndexOf, SplitAuthority, PathOf, UrlParse, Origin;
    BracketedX();
    AuthorityExtent("[[x]", "/");
    PathKept("/");
    SchemeRead(false, "[[x]" + "/");
    var u := HttpUrl(false, "[x", 80, "/");
    assert UrlParse("http://" + ("[[x]" + "/")) == Some(u);
    ParsedOk("http://" + ("[[x]" + "/"));
    BracketHostLost(u);
  }

  // ---------------------------------------------------------------- resolving links

  /** The directory of a path: up to and including its last '/', the query dropped. */
  function DirOf(path: string): (d: string)
    requires path != [] && path[0] == '/'
    ensures d != [] && d[0] == '/' && d <= path
  {
    var p := path[..IndexOf(path, '?')];
    p[..|p| - |AfterLast(p, '/')|]
  }

  function DropDotSlash(h: string): string { if "./" <= h then DropDotSlash(h[2..]) else h }

  /** The text url_resolve builds before it drops the fragment. */
  function Joined(base: string, href: string): Option<string> {
    if StartsWithCI(href, "http://") || StartsWithCI(href, "https://") then Some(href)
    else if "//" <= href then Some((if StartsWithCI(base, "https") then "https:" else "http:") + href)
    else
      match UrlParse(base)
      case None => None
      case Some(bu) =>
        ParsedOk(base);
        if "/" <= href then Some(Origin(bu) + href)
        else Some(Origin(bu) + (DirOf(bu.path) + DropDotSlash(href)))
  }

  /** url_resolve into a buffer of URL_MAX bytes; the intermediate buffer holds twice as many. */
  function UrlResolve(base: string, href: string): Option<string> {
    match Joined(base, href)
    case None => None
    case Some(j) =>
      var t := Clip(j, 2 * URL_MAX);
      var out := t[..IndexOf(t, '#')];
      if |out| >= URL_MAX then None else Some(out)
  }

  /** A relative link: neither a scheme nor a leading "//". */
  predicate Relative(href: string) {
    !StartsWithCI(href, "http://") && !StartsWithCI(href, "https://") && !("//" <= href)
  }

  /** What a relative reference adds behind the origin. */
  function RelativePart(bu: HttpUrl, href: string): string
    requires PathOk(bu.path)
  {
    if "/" <= href then href else DirOf(bu.path) + DropDotSlash(href)
  }

  /** Relative links resolve to the base's own endpoint, and always to a URL that parses. */
  lemma RelativeStays(base: string, href: string)
    requires UrlParse(base).Some? && !Unprintable(UrlParse(base).value)
    requires Relative(href) && UrlResolve(base, href).Some?
    ensures var bu := UrlParse(base).value;
      var u := UrlParse(UrlResolve(base, href).value);
      u.Some? && u.value == bu.(path := u.value.path) && SameEndpoint(u.value, bu)
  {
    hide UrlParse, Origin, DirOf, DropDotSlash, IndexOf, StartsWithCI, Plain;
    ParsedOk(base);
    var bu := UrlParse(base).value;
    var o, rest := Origin(bu), RelativePart(bu, href);
    assert Joined(base, href) == Some(o + rest);
    OriginShape(bu);
    CutBehind(o, rest);
    var path := UrlResolve(base, href).value[|o|..];
    assert UrlResolve(base, href).value == o + path;
    OriginRead(bu, path);
  }

  /** Truncating and dropping the fragment leave the origin alone when the result fits. */
  lemma CutBehind(o: string, rest: string)
    requires '#' !in o && |o| < 320 && rest != [] && rest[0] == '/'
    ensures var t := Clip(o + rest, 2 * URL_MAX);
      var out := t[..IndexOf(t, '#')];
      |out| < URL_MAX ==> o <= out && PathOk(out[|o|..])
  {
    hide IndexOf;
    var j := o + rest;
    var t := Clip(j, 2 * URL_MAX);
    var k := IndexOf(t, '#');
    assert forall i | 0 <= i < |o| :: j[i] == o[i] && o[i] in o;
    assert j[|o|] == '/';
    assert k > |o|;
    assert t[..k] == j[..k];
    assert forall i | 0 <= i < k :: t[..k][i] == t[i];
    var path := t[..k][|o|..];
    assert forall i | 0 <= i < |path| :: path[i] == t[|o| + i];
  }

  /** Printed origins have no fragment and fit the 320-byte buffer they are printed to. */
  lemma OriginShape(u: HttpUrl)
    requires UrlOk(u)
    ensures '#' !in Origin(u) && |Origin(u)| < 320
  {
    hide PortText, Dec;
    PortTextPlain(u);
    DecShort(u.port);
    assert '#' !in u.host;
    assert |PortText(u)| <= 6;
    assert '#' !in HostText(u);
    assert '#' !in "https://" && '#' !in "http://";
  }

  lemma DecShort(n: nat)
    requires n <= 65535
    ensures |Dec(n)| <= 5
  {
    assert |Dec(n / 10000)| == 1;
    assert n / 10 / 10 / 10 / 10 == n / 10000;
    assert |Dec(n / 10 / 10 / 10)| <= 2;
    assert |Dec(n / 10 / 10)| <= 3;
    assert |Dec(n / 10)| <= 4;
  }
}

/** Percent-encoding of paths (RFC 3986 section 2.1). */
module Percent {
  import opened Text

  predicate Unreserved(c: char) {
    IsDecimal(c) || 'a' <= c <= 'z' || 'A' <= c <= 'Z' || c == '-' || c == '_' || c == '.' || c == '~' || c == '/'
  }

  predicate IsByte(c: char) { 0 < c as int < 256 }

  function HexDigit(d: nat): (c: char)
    requires d < 16
    ensures DigitOf(c) == d && c != '%'
  {
    if d < 10 then (48 + d) as char else (55 + d) as char
  }

  function EncodeChar(c: char): string
    requires IsByte(c)
  {
    if Unreserved(c) then [c] else ['%', HexDigit(c as int / 16), HexDigit(c as int % 16)]
  }

  predicate IsBytes(s: string) { forall i | 0 <= i < |s| :: IsByte(s[i]) }

  function Encode(s: string): string
    requires IsBytes(s)
  {
    if s == [] then [] else EncodeChar(s[0]) + Encode(s[1..])
  }

  predicate EscapeAt(s: string) { |s| > 2 && s[0] == '%' && DigitOf(s[1]) >= 0 && DigitOf(s[2]) >= 0 }

  function Decode(s: string): string {
    if s == [] then []
    else if EscapeAt(s) then [(DigitOf(s[1]) * 16 + DigitOf(s[2])) as char] + Decode(s[3..])
    else [s[0]] + Decode(s[1..])
  }

  lemma EncodeStep(out: string, rest: string)
    requires IsBytes(rest) && rest != []
    ensures out + Encode(rest) == (out + EncodeChar(rest[0])) + Encode(rest[1..])
    ensures |EncodeChar(rest[0])| <= 3
  {
    assert |EncodeChar(rest[0])| <= 3;
    hide EncodeChar, IsBytes;
    assert Encode(rest) == EncodeChar(rest[0]) + Encode(rest[1..]);
  }

  lemma DecodeStep(out: string, rest: string)
    requires rest != []
    ensures EscapeAt(rest) ==>
      out + Decode(rest) == (out + [(DigitOf(rest[1]) * 16 + DigitOf(rest[2])) as char]) + Decode(rest[3..])
    ensures !EscapeAt(rest) ==> out + Decode(rest) == (out + [rest[0]]) + Decode(rest[1..])
  {}

  /** pct_encode_path: a whole-character prefix of the encoding, short only when the buffer has no room left for
      another escape. */
  method EncodeInto(s: string, size: nat) returns (out: string)
    requires IsBytes(s) && size > 0
    ensures out <= Encode(s) && |out| < size
    ensures out == Encode(s) || |out| + 4 >= size
  {
    out := [];
    var i := 0;
    assert s[0..] == s;
    hide Encode, EncodeChar;
    while i < |s| && |out| + 4 < size
      invariant 0 <= i <= |s| && |out| < size
      invariant Encode(s) == out + Encode(s[i..])
    {
      assert s[i..][1..] == s[i + 1..] && s[i..][0] == s[i];
      EncodeStep(out, s[i..]);
      out := out + EncodeChar(s[i]);
      i := i + 1;
    }
  }

  /** pct_decode: as much of the decoding as the buffer holds. */
  method DecodeInto(s: string, size: nat) returns (out: string)
    requires size > 0
    ensures out == if |Decode(s)| < size then Decode(s) else Decode(s)[..size - 1]
  {
    out := [];
    var i := 0;
    assert s[0..] == s && Decode([]) == [];
    hide Decode;
    while i < |s| && |out| + 1 < size
      invariant 0 <= i <= |s| && |out| < size
      invariant Decode(s) == out + Decode(s[i..])
      decreases |s| - i
    {
      var rest := s[i..];
      DecodeStep(out, rest);
      if i + 2 < |s| && s[i] == '%' && DigitOf(s[i + 1]) >= 0 && DigitOf(s[i + 2]) >= 0 {
        assert EscapeAt(rest) && rest[3..] == s[i + 3..];
        out := out + [(DigitOf(s[i + 1]) * 16 + DigitOf(s[i + 2])) as char];
        i := i + 3;
      } else {
        assert !EscapeAt(rest) && rest[1..] == s[i + 1..];
        out := out + [s[i]];
        i := i + 1;
      }
    }
  }

  lemma {:induction false} DecodeEncode(s: string)
    requires IsBytes(s)
    ensures Decode(Encode(s)) == s
  {
    if s != [] {
      var e, t := EncodeChar(s[0]), Encode(s[1..]);
      assert s == [s[0]] + s[1..];
      assert (e + t)[|e|..] == t;
      DecodeEncode(s[1..]);
      if !Unreserved(s[0]) {
        assert EscapeAt(e + t);
      }
    }
  }

  /** With buffers that suffice, decoding what was encoded gives back every path. */
  method RoundTrip(s: string, size: nat) returns (back: string)
    requires IsBytes(s) && 3 * |s| + 4 < size
    ensures back == s
  {
    var enc := EncodeInto(s, size);
    EncodeLength(s);
    DecodeEncode(s);
    back := DecodeInto(enc, size);
  }

  lemma {:induction false} EncodeLength(s: string)
    requires IsBytes(s)
    ensures |Encode(s)| <= 3 * |s|
  {
    if s != [] { EncodeLength(s[1..]); }
  }
}
