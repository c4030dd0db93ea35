/** The store of configured sources in http_source.c: sanitizing, saving and loading (src/http_source.c:464-637). */
module SourceConfig {
  import opened Json
  import opened Quoted
  import opened Text
  import U = Url

  const MAX_SOURCES: nat := 8
  const URL_LIMIT: nat := 250
  const FILE_MAX: nat := 65535

  datatype Config = Config(enabled: bool, id: string, name: string, url: string, username: string, password: string,
                           tlsMode: string, tlsPin: string)

  predicate CString(s: string, size: nat) { |s| < size && '\0' !in s }

  /** The strings fit the record's buffers. */
  predicate ConfigOk(c: Config) {
    && CString(c.id, 32) && CString(c.name, 64) && CString(c.url, 512) && CString(c.username, 64)
    && CString(c.password, 128) && CString(c.tlsMode, 16) && CString(c.tlsPin, 100)
  }

  // ---------------------------------------------------------------- sanitizing

  function HasScheme(url: string): bool { StartsWithCI(url, "http://") || StartsWithCI(url, "https://") }

  /** Lower case up to the first ':'. */
  function LowerScheme(s: string): (r: string)
    ensures |r| == |s|
  {
    if s == [] || s[0] == ':' then s else [Lower(s[0])] + LowerScheme(s[1..])
  }

  function EndsWithCI(s: string, suffix: string): bool { |suffix| <= |s| && EqCI(s[|s| - |suffix|..], suffix) }

  function DropIndex(s: string): string { if EndsWithCI(s, "/index.json") then s[..|s| - 10] else s }

  /** strpbrk(url, "?#"). */
  function DropQuery(s: string): (r: string)
    ensures r <= s && forall i | 0 <= i < |r| :: r[i] != '?' && r[i] != '#'
  {
    if s == [] || s[0] == '?' || s[0] == '#' then [] else [s[0]] + DropQuery(s[1..])
  }

  function AddSlash(s: string): string { if s != [] && s[|s| - 1] != '/' && |s| + 1 < 512 then s + "/" else s }

  function NormalUrl(url: string): string {
    var u := if HasScheme(url) then url else Clip("http://" + url, 512);
    AddSlash(DropQuery(DropIndex(LowerScheme(u))))
  }

  function DefaultLabel(u: U.HttpUrl): string { Clip(u.host + (if u.path == "/" then "" else Clip(u.path, 41)), 64) }

  /** http_source_sanitize; crc gives the eight hexadecimal digits of the URL's CRC-32. */
  function Sanitize(c: Config, crc: string -> string): Option<Config> {
    var trimmed := c.(url := Trim(c.url), name := Trim(c.name), username := Trim(c.username), tlsPin := Trim(c.tlsPin));
    if trimmed.url == [] then None
    else
      var url := NormalUrl(trimmed.url);
      var u := U.UrlParse(url);
      if u.None? || |url| >= URL_LIMIT then None
      else
        Some(trimmed.(
          url := url,
          tlsMode := if c.tlsMode == "pin" || c.tlsMode == "none" then c.tlsMode else "verify",
          name := if trimmed.name == [] then DefaultLabel(u.value) else trimmed.name,
          id := if c.id == [] then "http_" + crc(url) else c.id))
  }

  lemma {:induction false} LowerSchemeTwice(s: string)
    ensures LowerScheme(LowerScheme(s)) == LowerScheme(s)
  {
    if s != [] && s[0] != ':' {
      var r := LowerScheme(s);
      assert r[1..] == LowerScheme(s[1..]);
      LowerSchemeTwice(s[1..]);
    }
  }

  /** Cutting off the end of a string commutes with lowering its scheme. */
  lemma {:induction false} LowerSchemePrefix(s: string, n: nat)
    requires n <= |s| && LowerScheme(s) == s
    ensures LowerScheme(s[..n]) == s[..n]
  {
    if n > 0 && s[0] != ':' {
      assert s[1..] == LowerScheme(s[1..]) by { assert LowerScheme(s)[1..] == LowerScheme(s[1..]); }
      LowerSchemePrefix(s[1..], n - 1);
      assert s[..n][1..] == s[1..][..n - 1];
      assert s[0] == Lower(s[0]);
    }
  }

  lemma {:induction false} LowerSchemeSlash(s: string)
    requires LowerScheme(s) == s
    ensures LowerScheme(s + "/") == s + "/"
  {
    if s == [] {
      assert s + "/" == "/" && "/"[1..] == [];
    } else if s[0] != ':' {
      assert s[1..] == LowerScheme(s[1..]) by { assert LowerScheme(s)[1..] == LowerScheme(s[1..]); }
      LowerSchemeSlash(s[1..]);
      assert (s + "/")[1..] == s[1..] + "/";
    }
  }

  lemma {:induction false} NoQuery(s: string)
    requires forall i | 0 <= i < |s| :: s[i] != '?' && s[i] != '#'
    ensures DropQuery(s) == s
  {
    if s != [] {
      assert forall i | 0 <= i < |s[1..]| :: s[1..][i] == s[i + 1];
      NoQuery(s[1..]);
    }
  }

  /** What normalizing leaves: a lower-case scheme, no query, a slash at the end unless the URL is far too long. */
  lemma NormalShape(url: string)
    ensures var n := NormalUrl(url);
      && LowerScheme(n) == n && (forall i | 0 <= i < |n| :: n[i] != '?' && n[i] != '#')
      && (n != [] && |n| < URL_LIMIT ==> n[|n| - 1] == '/')
  {
    hide LowerScheme, DropQuery, EqCI, HasScheme;
    var u := if HasScheme(url) then url else Clip("http://" + url, 512);
    var l := LowerScheme(u);
    LowerSchemeTwice(u);
    var d := DropQuery(DropIndex(l));
    assert d == l[..|d|];
    LowerSchemePrefix(l, |d|);
    LowerSchemeSlash(d);
  }

  /** So normalizing a usable URL again changes nothing. */
  lemma NormalFixed(url: string)
    requires var n := NormalUrl(url); U.UrlParse(n).Some? && |n| < URL_LIMIT
    ensures var n := NormalUrl(url); n != [] && Trim(n) == n && NormalUrl(n) == n
  {
    hide LowerScheme, DropQuery, EqCI, NormalUrl, U.ParseRest;
    var n := NormalUrl(url);
    NormalShape(url);
    assert HasScheme(n) && |n| >= 7;
    SchemeStart(n);
    assert Trimmed(n) by { assert n[|n| - 1] == '/'; }
    TrimFixed(n);
    NotIndex(n);
    NoQuery(n);
    NormalSame(n);
  }

  lemma NormalSame(n: string)
    requires HasScheme(n) && LowerScheme(n) == n && DropIndex(n) == n && DropQuery(n) == n
    requires n != [] && n[|n| - 1] == '/'
    ensures NormalUrl(n) == n
  {}

  lemma SchemeStart(n: string)
    requires HasScheme(n)
    ensures n != [] && !IsSpace(n[0])
  {
    assert Lower(n[0]) == 'h' by {
      if StartsWithCI(n, "http://") { assert n[..7][0] == n[0]; } else { assert n[..8][0] == n[0]; }
    }
  }

  lemma NotIndex(n: string)
    requires n != [] && n[|n| - 1] == '/'
    ensures !EndsWithCI(n, "/index.json")
  {
    if |n| >= 11 { assert n[|n| - 11..][10] == '/' && "/index.json"[10] == 'n'; }
  }

  /** Sanitizing twice is sanitizing once exactly when the label has no white space at its ends, or is all white
      space; it can only have any when it was derived from a URL with white space. */
  lemma SanitizeTwice(c: Config, crc: string -> string)
    requires Sanitize(c, crc).Some?
    ensures var d := Sanitize(c, crc).value;
      Sanitize(d, crc) == Some(d) <==> Trim(d.name) == d.name || Trim(d.name) == []
  {
    hide NormalUrl, Trim, U.UrlParse, DefaultLabel;
    var d := Sanitize(c, crc).value;
    NormalFixed(Trim(c.url));
    TrimIdempotent(c.username);
    TrimIdempotent(c.tlsPin);
    TrimIdempotent(c.name);
    LabelThere(c, crc);
  }

  /** A source whose URL ends in a blank host: the label is the host, blank included, and loses it the next time. */
  const BlankUrl: string := "http://a /"
  const BlankLabel: Config := Config(true, "", "", BlankUrl, "", "", "", "")

  lemma BlankScheme()
    ensures U.UrlParse(BlankUrl) == U.ParseRest(false, "a /")
  {
    hide U.ParseRest;
    assert BlankUrl[..8][4] == ':' && "https://"[4] == 's';
    assert BlankUrl[..7] == "http://" && BlankUrl[7..] == "a /";
  }

  lemma PlainRest(p: string, n: nat, host: string)
    requires U.AuthorityLen(p) == n && p[..n] == host && '@' !in host && p[n..] == "/"
    requires host != [] && host[0] != '[' && ':' !in host && |host| < U.HOST_MAX
    ensures U.ParseRest(false, p) == Some(U.HttpUrl(false, host, 80, "/"))
  {
    hide U.AuthorityLen, U.AfterLast;
    assert U.AfterLast(host, '@') == host;
    assert IndexOf(host, ':') == |host| && host[..|host|] == host;
    SlashPath();
  }

  lemma SlashPath()
    ensures U.PathOf("/") == Some("/")
  {
    assert IndexOf("/", '#') == 1 && "/"[..1] == "/";
  }

  lemma BlankAuthority()
    ensures U.AuthorityLen("a /") == 2
  {
    hide U.AuthorityLen;
    assert "a /"[0] == 'a' && "a /"[1] == ' ' && "a /"[2] == '/';
    assert U.EndsAuthority('/') && !U.EndsAuthority('a') && !U.EndsAuthority(' ');
  }

  lemma BlankParsed()
    ensures U.UrlParse(BlankUrl) == Some(U.HttpUrl(false, "a ", 80, "/"))
  {
    hide U.UrlParse, U.AuthorityLen, U.ParseRest;
    BlankScheme();
    BlankAuthority();
    var p, host := "a /", "a ";
    assert p[..2] == host && p[2..] == "/" && host[0] == 'a' && host[1] == ' ';
    PlainRest(p, 2, host);
  }

  lemma LowerStep(c: char, s: string)
    requires LowerScheme(s) == s && Lower(c) == c
    ensures LowerScheme([c] + s) == [c] + s
  {
    hide Lower;
    assert ([c] + s)[0] == c && ([c] + s)[1..] == s;
  }

  lemma BlankLowered()
    ensures LowerScheme(BlankUrl) == BlankUrl
  {
    hide LowerScheme;
    var s := "://a /";
    LowerEnd(s);
    LowerStep('p', s);
    LowerStep('t', ['p'] + s);
    LowerStep('t', ['t'] + (['p'] + s));
    LowerStep('h', ['t'] + (['t'] + (['p'] + s)));
    assert BlankUrl == ['h'] + (['t'] + (['t'] + (['p'] + s)));
  }

  lemma LowerEnd(s: string)
    requires s != [] && s[0] == ':'
    ensures LowerScheme(s) == s
  {}

  lemma BlankNormal()
    ensures NormalUrl(BlankUrl) == BlankUrl && Trim(BlankUrl) == BlankUrl
  {
    hide LowerScheme, NormalUrl, Trim, DropQuery;
    BlankLowered();
    assert BlankUrl[..7] == "http://";
    NotIndex(BlankUrl);
    NoQuery(BlankUrl);
    NormalSame(BlankUrl);
    TrimFixed(BlankUrl);
  }

  lemma BlankTrimmed()
    ensures Trim("a ") == "a" && Trim("") == ""
  {
    assert "a "[..1] == "a";
    assert DropTrailingSpaces("a ") == DropTrailingSpaces("a") == "a";
  }

  lemma UnstableLabel(crc: string -> string)
    ensures Sanitize(BlankLabel, crc).Some? && Sanitize(BlankLabel, crc).value.name == "a "
    ensures var d := Sanitize(BlankLabel, crc).value; Sanitize(d, crc) != Some(d)
  {
    hide NormalUrl, Trim, U.UrlParse, LowerScheme;
    BlankParsed();
    BlankNormal();
    BlankTrimmed();
    assert "a " + "" == "a ";
    SanitizeTwice(BlankLabel, crc);
  }

  lemma LabelThere(c: Config, crc: string -> string)
    requires Sanitize(c, crc).Some?
    ensures Sanitize(c, crc).value.name != []
  {
    hide NormalUrl, Trim;
    var u := U.UrlParse(NormalUrl(Trim(c.url))).value;
    assert u.host != [];
  }

  /** All characters are of one kind. */
  predicate Only(s: string, ok: char -> bool) { forall i | 0 <= i < |s| :: ok(s[i]) }

  /** The kind holds what sanitizing may put into a URL. */
  ghost predicate OfUrls(ok: char -> bool) {
    ok('h') && ok('t') && ok('p') && ok(':') && ok('/') && forall c :: ok(c) ==> ok(Lower(c))
  }

  predicate Visible(c: char) { !IsSpace(c) }

  predicate NoSpace(s: string) { Only(s, Visible) }

  lemma SpacesTold()
    ensures !IsSpace('/') && IsSpace(' ') && IsSpace('\n')
  {}

  lemma VisibleInUrls()
    ensures OfUrls(Visible)
  {}

  lemma SliceOnly(s: string, ok: char -> bool, i: nat, j: nat)
    requires Only(s, ok) && i <= j <= |s|
    ensures Only(s[i..j], ok)
  {}

  lemma {:induction false} LowerOnly(s: string, ok: char -> bool)
    requires Only(s, ok) && OfUrls(ok)
    ensures Only(LowerScheme(s), ok)
  {
    hide Lower;
    if s != [] && s[0] != ':' {
      SliceOnly(s, ok, 1, |s|);
      LowerOnly(s[1..], ok);
    }
  }

  lemma WithScheme(url: string, ok: char -> bool)
    requires Only(url, ok) && OfUrls(ok)
    ensures Only("http://" + url, ok)
  {
    hide Lower;
  }

  lemma NormalOnly(url: string, ok: char -> bool)
    requires Only(url, ok) && OfUrls(ok)
    ensures Only(NormalUrl(url), ok)
  {
    hide LowerScheme, DropQuery, EqCI, HasScheme, Lower;
    var u := if HasScheme(url) then url else Clip("http://" + url, 512);
    WithScheme(url, ok);
    LowerOnly(u, ok);
    assert Only(DropIndex(LowerScheme(u)), ok);
    assert Only(DropQuery(DropIndex(LowerScheme(u))), ok);
  }

  lemma UrlOnly(url: string, ok: char -> bool)
    requires Only(url, ok) && OfUrls(ok) && U.UrlParse(url).Some?
    ensures Only(U.UrlParse(url).value.host, ok) && Only(U.UrlParse(url).value.path, ok)
  {
    hide Only, OfUrls, U.ParseRest, EqCI;
    if StartsWithCI(url, "https://") {
      assert url[8..] == url[8..|url|];
      SliceOnly(url, ok, 8, |url|);
      RestOnly(true, url[8..], ok);
    } else {
      assert url[7..] == url[7..|url|];
      SliceOnly(url, ok, 7, |url|);
      RestOnly(false, url[7..], ok);
    }
  }

  lemma RestOnly(https: bool, p: string, ok: char -> bool)
    requires Only(p, ok) && OfUrls(ok) && U.ParseRest(https, p).Some?
    ensures Only(U.ParseRest(https, p).value.host, ok) && Only(U.ParseRest(https, p).value.path, ok)
  {
    hide Only, OfUrls, U.PortOf, U.AuthorityLen, U.AfterLast, U.SplitAuthority, U.PathOf;
    var n := U.AuthorityLen(p);
    assert p[..n] == p[0..n] && p[n..] == p[n..|p|];
    SliceOnly(p, ok, 0, n);
    SliceOnly(p, ok, n, |p|);
    AfterLastOnly(p[..n], ok);
    HostOnly(U.AfterLast(p[..n], '@'), ok);
    PathOnly(p[n..], ok);
  }

  lemma HostOnly(a: string, ok: char -> bool)
    requires Only(a, ok) && U.SplitAuthority(a).Some?
    ensures Only(U.SplitAuthority(a).value.host, ok)
  {}

  lemma PathOnly(rest: string, ok: char -> bool)
    requires Only(rest, ok) && OfUrls(ok) && U.PathOf(rest).Some?
    ensures Only(U.PathOf(rest).value, ok)
  {
    hide Lower;
  }

  lemma AfterLastOnly(s: string, ok: char -> bool)
    requires Only(s, ok)
    ensures Only(U.AfterLast(s, '@'), ok)
  {
    hide U.AfterLast;
    SliceOnly(s, ok, |s| - |U.AfterLast(s, '@')|, |s|);
  }

  lemma TrimOnly(s: string, ok: char -> bool)
    requires Only(s, ok)
    ensures Only(Trim(s), ok) && |Trim(s)| <= |s|
  {}

  /** A label made from a URL consists of that URL's characters. */
  lemma LabelOnly(c: Config, crc: string -> string, ok: char -> bool)
    requires Sanitize(c, crc).Some? && Only(c.url, ok) && OfUrls(ok)
    ensures Only(NormalUrl(Trim(c.url)), ok)
    ensures Only(DefaultLabel(U.UrlParse(NormalUrl(Trim(c.url))).value), ok)
  {
    hide NormalUrl, U.UrlParse, Trim, OfUrls;
    TrimOnly(c.url, ok);
    NormalOnly(Trim(c.url), ok);
    UrlOnly(NormalUrl(Trim(c.url)), ok);
  }

  /** A label derived from a URL without white space has none. */
  lemma SpaceFreeLabel(c: Config, crc: string -> string)
    requires Sanitize(c, crc).Some? && NoSpace(c.url)
    ensures var d := Sanitize(c, crc).value; Trim(d.name) == d.name
  {
    hide NormalUrl, U.UrlParse, IsSpace, Trim, DefaultLabel, OfUrls;
    var d := Sanitize(c, crc).value;
    if Trim(c.name) == [] {
      VisibleInUrls();
      LabelOnly(c, crc, Visible);
      TrimFixed(d.name);
    } else {
      TrimIdempotent(c.name);
    }
  }

  // ---------------------------------------------------------------- saving

  function Fields(c: Config): seq<Field> {
    [Field("id", Quote(Escape(c.id, 80))), Field("label", Quote(Escape(c.name, 160))),
     Field("url", Quote(Escape(c.url, 1100))), Field("username", Quote(Escape(c.username, 160))),
     Field("password", Quote(Escape(c.password, 300))), Field("tls_mode", Quote(Escape(c.tlsMode, 40))),
     Field("tls_pin", Quote(Escape(c.tlsPin, 220))), Field("enabled", if c.enabled then "true" else "false")]
  }

  function ObjectText(c: Config): string { "{" + (FieldsText(Fields(c)) + "}") }

  function Rows(list: seq<Config>): string {
    if list == [] then []
    else "    " + ObjectText(list[0]) + (if |list| == 1 then "\n" else ",\n") + Rows(list[1..])
  }

  /** sources_save_locked: the file's contents. */
  function Saved(list: seq<Config>): string {
    "{\n  \"version\": 1,\n  \"sources\": " + ("[\n" + Rows(list) + "  ]" + "\n}\n")
  }

  // ---------------------------------------------------------------- loading

  /** One object, without its closing brace. */
  function ParseObject(t: string): Config {
    Config(GetBool(t, "enabled"), GetString(t, "id", 32), GetString(t, "label", 64), GetString(t, "url", 512),
           GetString(t, "username", 64), GetString(t, "password", 128), GetString(t, "tls_mode", 16),
           GetString(t, "tls_pin", 100))
  }

  /** White space and commas, up to the array's closing bracket. */
  function SkipSeparators(s: string): (r: string)
    ensures |r| <= |s|
  {
    if |s| > 1 && (IsSpace(s[0]) || s[0] == ',') then SkipSeparators(s[1..]) else s
  }

  /** The array's text behind its opening bracket; the last character is the closing one. */
  function ParseItems(s: string, room: nat): seq<Config>
    decreases |s|
  {
    var t := SkipSeparators(s);
    if room == 0 || |t| <= 1 || t[0] != '{' then []
    else
      match Match(t)
      case None => []
      case Some(o) =>
        if o >= |t| then []
        else
          var c := ParseObject(t[..o]);
          if c.url == [] then ParseItems(t[o + 1..], room) else [c] + ParseItems(t[o + 1..], room - 1)
  }

  /** One turn of the item loop. */
  lemma ItemsStep(s: string, room: nat)
    requires room > 0
    ensures var t := SkipSeparators(s);
      if |t| <= 1 || t[0] != '{' || Match(t).None? || Match(t).value >= |t| then ParseItems(s, room) == []
      else
        var c, rest := ParseObject(t[..Match(t).value]), t[Match(t).value + 1..];
        ParseItems(s, room) == if c.url == [] then ParseItems(rest, room) else [c] + ParseItems(rest, room - 1)
  {
    hide ParseObject, Match, SkipSeparators;
  }

  lemma NoRoom(s: string)
    ensures ParseItems(s, 0) == []
  {}

  /** The item loop of http_sources_parse_json. */
  method ParseArray(s: string, room: nat) returns (list: seq<Config>)
    ensures list == ParseItems(s, room)
  {
    hide ParseItems, ParseObject, Match, SkipSeparators;
    list := [];
    var rest := s;
    assert [] + ParseItems(s, room) == ParseItems(s, room);
    while |list| < room
      invariant |list| <= room && list + ParseItems(rest, room - |list|) == ParseItems(s, room)
      decreases |rest|
    {
      ItemsStep(rest, room - |list|);
      var t := SkipSeparators(rest);
      if |t| <= 1 || t[0] != '{' { return; }
      var o := JsonMatch(t);
      if o.None? || o.value >= |t| { return; }
      var c := ParseObject(t[..o.value]);
      rest := t[o.value + 1..];
      if c.url != [] {
        assert list + ([c] + ParseItems(rest, room - |list| - 1)) == (list + [c]) + ParseItems(rest, room - |list| - 1);
        list := list + [c];
      }
    }
    NoRoom(rest);
  }

  /** The array of sources: the value of "sources", or the whole text. */
  function FindArray(json: string): Option<string> {
    match ValueOf(json, "sources")
    case Some(v) => if v[0] == '[' then Some(v) else BareArray(json)
    case None => BareArray(json)
  }

  function BareArray(json: string): Option<string> {
    var t := SkipSpaces(json);
    if t != [] && t[0] == '[' then Some(t) else None
  }

  /** http_sources_parse_json. */
  function ParseSources(json: string, room: nat): seq<Config> {
    match FindArray(json)
    case Some(arr) =>
      (match Match(arr)
       case None => []
       case Some(e) => if 0 < e < |arr| then ParseItems(arr[1..e + 1], room) else [])
    case None =>
      var t := SkipSpaces(json);
      if room == 0 || t == [] || t[0] != '{' then []
      else
        match Match(t)
        case None => []
        case Some(e) => if e < |t| && ParseObject(t[..e]).url != [] then [ParseObject(t[..e])] else []
  }

  function SanitizeAll(list: seq<Config>, crc: string -> string): seq<Config> {
    if list == [] then []
    else
      match Sanitize(list[0], crc)
      case None => SanitizeAll(list[1..], crc)
      case Some(c) => [c] + SanitizeAll(list[1..], crc)
  }

  /** sources_load_locked. */
  function Load(contents: string, crc: string -> string): seq<Config> {
    var read := CStr(if |contents| > FILE_MAX then contents[..FILE_MAX] else contents);
    SanitizeAll(ParseSources(read, MAX_SOURCES), crc)
  }

  // ---------------------------------------------------------------- one object read back

  /** What is left of a source whose strings do not fit the escape buffers. */
  function Truncated(c: Config): Config {
    Config(c.enabled, c.id[..Escaped(c.id, 80)], c.name[..Escaped(c.name, 160)], c.url[..Escaped(c.url, 1100)],
           c.username[..Escaped(c.username, 160)], c.password[..Escaped(c.password, 300)],
           c.tlsMode[..Escaped(c.tlsMode, 40)], c.tlsPin[..Escaped(c.tlsPin, 220)])
  }

  predicate AllFit(c: Config) {
    && Fits(c.id, 80) && Fits(c.name, 160) && Fits(c.url, 1100) && Fits(c.username, 160) && Fits(c.password, 300)
    && Fits(c.tlsMode, 40) && Fits(c.tlsPin, 220)
  }

  /** The buffers are large enough for every source without characters that need a \u escape. */
  lemma BuffersSuffice(c: Config)
    requires ConfigOk(c)
    requires forall s | s in [c.id, c.name, c.url, c.username, c.password, c.tlsMode, c.tlsPin] ::
      forall i | 0 <= i < |s| :: Short(s[i])
    ensures AllFit(c)
  {
    hide Fits, Short;
    var all := [c.id, c.name, c.url, c.username, c.password, c.tlsMode, c.tlsPin];
    assert forall i | 0 <= i < 7 :: all[i] in all;
    assert all[0] in all && all[1] in all && all[2] in all && all[3] in all;
    assert all[4] in all && all[5] in all && all[6] in all;
    FitsShort(c.id, 80);
    FitsShort(c.name, 160);
    FitsShort(c.url, 1100);
    FitsShort(c.username, 160);
    FitsShort(c.password, 300);
    FitsShort(c.tlsMode, 40);
    FitsShort(c.tlsPin, 220);
  }

  lemma TruncatedExactly(c: Config)
    ensures Truncated(c) == c <==> AllFit(c)
  {
    hide Escaped;
  }

  const KEYS: seq<string> := ["id", "label", "url", "username", "password", "tls_mode", "tls_pin", "enabled"]

  function StringOf(c: Config, j: nat): string {
    if j == 0 then c.id else if j == 1 then c.name else if j == 2 then c.url else if j == 3 then c.username
    else if j == 4 then c.password else if j == 5 then c.tlsMode else c.tlsPin
  }

  const ROOMS: seq<nat> := [80, 160, 1100, 160, 300, 40, 220]

  lemma KeysDiffer(i: nat, j: nat)
    requires i < j < 8
    ensures KEYS[i] != KEYS[j]
  {}

  lemma FieldIs(c: Config, j: nat)
    requires j < 8
    ensures |Fields(c)| == 8 && Fields(c)[j].key == KEYS[j] && KeyOk(KEYS[j])
    ensures j < 7 ==> Fields(c)[j].value == Quote(Escape(StringOf(c, j), ROOMS[j]))
    ensures j == 7 ==> Fields(c)[j].value == if c.enabled then "true" else "false"
  {
    hide Escape, Quote;
    assert j in {0, 1, 2, 3, 4, 5, 6, 7};
  }

  lemma FieldsOk(c: Config, j: nat)
    requires j < 8
    ensures |Fields(c)| == 8 && FieldOk(Fields(c)[j], j == 7)
  {
    hide Fields, QuotedOk, Escape, GoodBody, BodyOk, Quote, KeyOk;
    FieldIs(c, j);
    if j < 7 {
      EscapeGood(StringOf(c, j), ROOMS[j]);
      GoodIsOk(Escape(StringOf(c, j), ROOMS[j]));
      QuotedIsOk(Escape(StringOf(c, j), ROOMS[j]));
    }
  }

  lemma KeyFound(c: Config, j: nat)
    requires j < 8
    ensures |Fields(c)| == 8 && ValueOf("{" + FieldsText(Fields(c)), KEYS[j]) == Some(TailOf(Fields(c), j))
  {
    hide Fields, FieldOk, ValueOf, KeyAt, FieldsText, TailOf;
    FieldIs(c, j);
    forall i | 0 <= i <= j ensures FieldOk(Fields(c)[i], i == |Fields(c)| - 1) { FieldsOk(c, i); }
    forall i | 0 <= i < j ensures Fields(c)[i].key != Fields(c)[j].key {
      FieldIs(c, i);
      KeysDiffer(i, j);
    }
    FieldFound(Fields(c), j);
    BehindBrace(FieldsText(Fields(c)), KEYS[j]);
  }

  lemma BehindBrace(t: string, key: string)
    ensures ValueOf("{" + t, key) == ValueOf(t, key)
  {
    hide ValueOf;
    var u := "{" + t;
    assert !KeyAt(u, 0, key) by {
      assert Quote(key)[0] == '"';
      assert |key| + 2 <= |u| ==> u[0..|key| + 2][0] == '{';
    }
    SearchSkips(u, key, 1);
    assert u[1..] == t;
  }

  lemma StringField(c: Config, j: nat, size: nat)
    requires j < 7 && |StringOf(c, j)| < size && '\0' !in StringOf(c, j)
    ensures GetString("{" + FieldsText(Fields(c)), KEYS[j], size) == StringOf(c, j)[..Escaped(StringOf(c, j), ROOMS[j])]
  {
    hide Fields, ValueOf, FieldsText, Escape, ReadString, Escaped, StringOf;
    KeyFound(c, j);
    FieldIs(c, j);
    var x := StringOf(c, j);
    var rest := (if j == |Fields(c)| - 1 then "" else ", ") + FieldsText(Fields(c)[j + 1..]);
    var v := TailOf(Fields(c), j);
    assert v == "\"" + (Escape(x, ROOMS[j]) + ("\"" + rest));
    assert v[..1] == "\"" && v[1..] == Escape(x, ROOMS[j]) + ("\"" + rest);
    StringRead(x, ROOMS[j], rest, size);
  }

  lemma BoolField(c: Config)
    ensures GetBool("{" + FieldsText(Fields(c)), "enabled") == c.enabled
  {
    hide Fields, ValueOf, TailOf, FieldsText;
    KeyFound(c, 7);
    FlagTail(c);
    var v := TailOf(Fields(c), 7);
    if c.enabled { assert v[0] == 't'; } else { assert v[..5] == "false"; }
  }

  lemma FlagTail(c: Config)
    ensures |Fields(c)| == 8 && TailOf(Fields(c), 7) == if c.enabled then "true" else "false"
  {
    hide Fields;
    FieldIs(c, 7);
    assert Fields(c)[8..] == [];
  }

  /** An object that was printed reads back with the strings its escape buffers could hold. */
  lemma ObjectRead(c: Config)
    requires ConfigOk(c)
    ensures ParseObject("{" + FieldsText(Fields(c))) == Truncated(c)
  {
    hide FieldsText, Fields, GetString, GetBool, Escaped;
    StringField(c, 0, 32);
    StringField(c, 1, 64);
    StringField(c, 2, 512);
    StringField(c, 3, 64);
    StringField(c, 4, 128);
    StringField(c, 5, 16);
    StringField(c, 6, 100);
    BoolField(c);
  }

  // ---------------------------------------------------------------- the brackets of a saved file

  /** A printed field list as a well-formed text. */
  function FieldsDoc(fs: seq<Field>): Doc {
    if fs == [] then End
    else
      var f, sep := fs[0], if |fs| == 1 then "" else ", ";
      var rest := Doc.Plain(sep, FieldsDoc(fs[1..]));
      Str(f.key, Doc.Plain(": ", if Bare(f.value) then Doc.Plain(f.value, rest)
                                 else if |f.value| >= 2 then Str(f.value[1..|f.value| - 1], rest) else rest))
  }

  /** A field whose text nests well. */
  predicate FieldNests(f: Field) {
    && KeyOk(f.key)
    && (Bare(f.value) || (|f.value| >= 2 && f.value == Quote(f.value[1..|f.value| - 1])
                          && GoodBody(f.value[1..|f.value| - 1]) && '\0' !in f.value[1..|f.value| - 1]))
  }

  lemma KeyGood(k: string)
    requires forall i | 0 <= i < |k| :: KeyChar(k[i])
    ensures GoodBody(k) && '\0' !in k
  {
    if k != [] {
      assert KeyChar(k[0]);
      assert forall i | 0 <= i < |k[1..]| :: k[1..][i] == k[i + 1];
      KeyGood(k[1..]);
    }
  }

  lemma BareOther(v: string)
    requires Bare(v)
    ensures forall i | 0 <= i < |v| :: Other(v[i])
  {}

  lemma {:induction false} FieldsNest(fs: seq<Field>)
    requires forall i | 0 <= i < |fs| :: FieldNests(fs[i])
    ensures DocOk(FieldsDoc(fs)) && Show(FieldsDoc(fs)) == FieldsText(fs)
  {
    hide GoodBody, KeyOk, Bare, Other;
    if fs != [] {
      var f, sep := fs[0], if |fs| == 1 then "" else ", ";
      assert FieldNests(f);
      FieldsNest(fs[1..]);
      KeyGoodOk(f.key);
      SeparatorsOther(sep);
      var rest := Doc.Plain(sep, FieldsDoc(fs[1..]));
      assert DocOk(rest) && Show(rest) == sep + FieldsText(fs[1..]);
      ValueShown(f, rest);
      FieldShown(f, |fs| == 1, FieldsText(fs[1..]));
    }
  }

  lemma SeparatorsOther(sep: string)
    requires sep == "" || sep == ", "
    ensures forall i | 0 <= i < |sep| :: Other(sep[i])
    ensures forall i | 0 <= i < 2 :: Other(": "[i])
  {}

  lemma KeyGoodOk(k: string)
    requires KeyOk(k)
    ensures GoodBody(k) && '\0' !in k
  {
    KeyGood(k);
  }

  function ValueDoc(f: Field, rest: Doc): Doc {
    if Bare(f.value) then Doc.Plain(f.value, rest)
    else if |f.value| >= 2 then Str(f.value[1..|f.value| - 1], rest) else rest
  }

  lemma ValueShown(f: Field, rest: Doc)
    requires FieldNests(f) && DocOk(rest)
    ensures DocOk(ValueDoc(f, rest)) && Show(ValueDoc(f, rest)) == f.value + Show(rest)
  {
    hide GoodBody;
    if Bare(f.value) {
      BareOther(f.value);
    } else {
      var b := f.value[1..|f.value| - 1];
      assert "\"" + (b + ("\"" + Show(rest))) == Quote(b) + Show(rest);
    }
  }

  lemma FieldShown(f: Field, last: bool, rest: string)
    ensures "\"" + (f.key + ("\"" + (": " + (f.value + ((if last then "" else ", ") + rest)))))
      == FieldText(f, last) + rest
  {}

  lemma ObjectNests(c: Config)
    requires ConfigOk(c)
    ensures DocOk(FieldsDoc(Fields(c))) && Show(FieldsDoc(Fields(c))) == FieldsText(Fields(c))
  {
    hide Fields, FieldsDoc, FieldsText, Show, DocOk, FieldNests;
    FieldIs(c, 0);
    forall i | 0 <= i < |Fields(c)| ensures FieldNests(Fields(c)[i]) { OneNests(c, i); }
    FieldsNest(Fields(c));
  }

  lemma OneNests(c: Config, i: nat)
    requires ConfigOk(c) && i < 8
    ensures |Fields(c)| == 8 && FieldNests(Fields(c)[i])
  {
    hide Fields, Escape, GoodBody, KeyOk;
    FieldIs(c, i);
    if i < 7 {
      var e := Escape(StringOf(c, i), ROOMS[i]);
      EscapeGood(StringOf(c, i), ROOMS[i]);
      EscapeClean(StringOf(c, i), ROOMS[i]);
      assert Quote(e)[1..|Quote(e)| - 1] == e;
    }
  }

  lemma {:induction false} EscapeClean(s: string, room: nat)
    requires '\0' !in s
    ensures '\0' !in Escape(s, room) && |Escape(s, room)| <= room
  {
    hide Json.EscapeChar;
    if s != [] && room > 7 {
      assert s[0] in s;
      NoTerminator(s[0]);
      EscapeClean(s[1..], room - |Json.EscapeChar(s[0])|);
    }
  }

  function RowDoc(c: Config, sep: string, rest: Doc): Doc {
    Doc.Plain("    ", Nest(true, FieldsDoc(Fields(c)), Doc.Plain(sep, rest)))
  }

  /** The rows and the closing indentation of the array as a well-formed text. */
  function RowsDoc(list: seq<Config>): Doc {
    if list == [] then Doc.Plain("  ", End)
    else RowDoc(list[0], if |list| == 1 then "\n" else ",\n", RowsDoc(list[1..]))
  }

  lemma RowNests(c: Config, sep: string, rest: Doc)
    requires ConfigOk(c) && (sep == "\n" || sep == ",\n") && DocOk(rest)
    ensures DocOk(RowDoc(c, sep, rest))
    ensures Show(RowDoc(c, sep, rest)) == "    " + ObjectText(c) + sep + Show(rest)
  {
    hide ConfigOk, Fields, FieldsDoc, FieldsText, DocOk, Show;
    ObjectNests(c);
    PlainNests(sep, rest);
    var line := Doc.Plain(sep, rest);
    var item := Nest(true, FieldsDoc(Fields(c)), line);
    BracesNest(FieldsDoc(Fields(c)), line);
    PlainNests("    ", item);
    RowText("    ", FieldsText(Fields(c)), sep, Show(rest));
  }

  lemma PlainNests(chars: string, rest: Doc)
    requires DocOk(rest) && forall i | 0 <= i < |chars| :: Other(chars[i])
    ensures DocOk(Doc.Plain(chars, rest)) && Show(Doc.Plain(chars, rest)) == chars + Show(rest)
  {}

  lemma BracesNest(inner: Doc, rest: Doc)
    requires DocOk(inner) && DocOk(rest)
    ensures DocOk(Nest(true, inner, rest)) && Show(Nest(true, inner, rest)) == "{" + (Show(inner) + ("}" + Show(rest)))
  {}

  lemma RowText(lead: string, o: string, sep: string, after: string)
    ensures lead + ("{" + (o + ("}" + (sep + after)))) == lead + ("{" + (o + "}")) + sep + after
  {}

  lemma {:induction false} RowsNest(list: seq<Config>)
    requires forall i | 0 <= i < |list| :: ConfigOk(list[i])
    ensures DocOk(RowsDoc(list)) && Show(RowsDoc(list)) == Rows(list) + "  "
  {
    hide ConfigOk, FieldsDoc, ObjectText, Fields;
    if list == [] {
      assert Show(RowsDoc(list)) == "  " + Show(End);
    } else {
      hide Show, DocOk;
      RowsNest(list[1..]);
      RowNests(list[0], if |list| == 1 then "\n" else ",\n", RowsDoc(list[1..]));
    }
  }

  // ---------------------------------------------------------------- the list read back

  function TruncatedAll(list: seq<Config>): seq<Config> {
    if list == [] then [] else [Truncated(list[0])] + TruncatedAll(list[1..])
  }

  predicate Separators(s: string) { forall i | 0 <= i < |s| :: IsSpace(s[i]) || s[i] == ',' }

  lemma {:induction false} SeparatorsSkipped(lead: string, t: string)
    requires Separators(lead) && t != [] && (|t| == 1 || !(IsSpace(t[0]) || t[0] == ','))
    ensures SkipSeparators(lead + t) == t
  {
    if lead == [] {
      assert lead + t == t;
    } else {
      assert (lead + t)[1..] == lead[1..] + t;
      SeparatorsSkipped(lead[1..], t);
    }
  }

  lemma {:induction false} ItemsRead(list: seq<Config>, lead: string, room: nat)
    requires (forall i | 0 <= i < |list| :: ConfigOk(list[i]) && list[i].url != []) && |list| <= room
      && Separators(lead)
    ensures ParseItems(lead + (Rows(list) + "  ]"), room) == TruncatedAll(list)
  {
    hide ConfigOk, ObjectText, ParseObject, Match, SkipSeparators, IsSpace, Truncated;
    var s := lead + (Rows(list) + "  ]");
    if list == [] {
      assert s == (lead + "  ") + "]";
      assert Separators(lead + "  ") by { SpacesTold(); }
      SeparatorsSkipped(lead + "  ", "]");
    } else {
      var c, sep := list[0], if |list| == 1 then "\n" else ",\n";
      var rest := sep + (Rows(list[1..]) + "  ]");
      var t := ObjectText(c) + rest;
      RowsStart(list, lead);
      Brace(c, rest);
      assert Separators(lead + "    ") by { SpacesTold(); }
      SeparatorsSkipped(lead + "    ", t);
      OneItem(c, rest);
      assert t[|ObjectText(c)|..] == rest;
      assert Separators(sep) by { SpacesTold(); }
      ItemsRead(list[1..], sep, room - 1);
    }
  }

  lemma RowsStart(list: seq<Config>, lead: string)
    requires list != []
    ensures lead + (Rows(list) + "  ]") == (lead + "    ")
      + (ObjectText(list[0]) + ((if |list| == 1 then "\n" else ",\n") + (Rows(list[1..]) + "  ]")))
  {
    hide ObjectText;
    Regroup(lead, "    ", ObjectText(list[0]), if |list| == 1 then "\n" else ",\n", Rows(list[1..]), "  ]");
  }

  lemma Regroup(a: string, b: string, c: string, d: string, e: string, f: string)
    ensures a + ((b + c + d + e) + f) == (a + b) + (c + (d + (e + f)))
  {
    var l, r := a + ((b + c + d + e) + f), (a + b) + (c + (d + (e + f)));
    assert |l| == |r|;
    assert l == a + b + c + d + e + f;
    assert r == a + b + c + d + e + f;
  }

  lemma Brace(c: Config, rest: string)
    ensures var t := ObjectText(c) + rest; |t| > 1 && t[0] == '{' && !IsSpace(t[0]) && |ObjectText(c)| >= 2
  {}

  lemma OneItem(c: Config, rest: string)
    requires ConfigOk(c) && c.url != []
    ensures var t := ObjectText(c) + rest;
      Match(t) == Some(|ObjectText(c)| - 1) && ParseObject(t[..|ObjectText(c)| - 1]) == Truncated(c)
    ensures Truncated(c).url != []
  {
    hide Match, ParseObject, Fields, FieldsText, FieldsDoc, ConfigOk;
    ObjectNests(c);
    MatchExact(true, FieldsDoc(Fields(c)), rest);
    assert Show(Nest(true, FieldsDoc(Fields(c)), End)) == ObjectText(c) by {
      assert "{" + (FieldsText(Fields(c)) + ("}" + [])) == ObjectText(c);
    }
    ObjectRead(c);
    assert (ObjectText(c) + rest)[..|ObjectText(c)| - 1] == "{" + FieldsText(Fields(c));
  }

  predicate Storable(list: seq<Config>) {
    |list| <= MAX_SOURCES && forall i | 0 <= i < |list| :: ConfigOk(list[i]) && list[i].url != []
  }

  lemma ArrayFound(list: seq<Config>)
    ensures FindArray(Saved(list)) == Some("[\n" + Rows(list) + "  ]" + "\n}\n")
  {
    hide Rows, SkipSpaces, BareArray;
    var tail := "[\n" + Rows(list) + "  ]" + "\n}\n";
    var head := "{\n  \"version\": 1,\n  ";
    var t := Saved(list);
    assert t == head + (Quote("sources") + (": " + tail));
    assert tail[0] == '[';
    forall p | 0 <= p < |head| ensures !KeyAt(t, p, "sources") {
      NotInHeader(t, p);
    }
    assert t[|head|..] == Quote("sources") + (": " + tail);
    FoundBehind(t, |head|, tail);
  }

  lemma NotInHeader(t: string, p: nat)
    requires var head := "{\n  \"version\": 1,\n  "; |head| < |t| && t[..|head|] == head && p < |head|
    ensures !KeyAt(t, p, "sources")
  {
    hide KeyAt;
    var head := "{\n  \"version\": 1,\n  ";
    assert forall i | 0 <= i < |head| :: t[i] == head[i];
    assert head[p] == '"' ==> p == 4 || p == 12;
    if KeyAt(t, p, "sources") { KeyAtChars(t, p, "sources"); }
  }

  lemma FoundBehind(t: string, n: nat, tail: string)
    requires n <= |t| && t[n..] == Quote("sources") + (": " + tail) && tail != [] && !IsSpace(tail[0])
    requires forall p | 0 <= p < n :: !KeyAt(t, p, "sources")
    ensures ValueOf(t, "sources") == Some(tail)
  {
    hide KeyAt, ValueOf, IsSpace;
    SearchSkips(t, "sources", n);
    QuoteFound("sources", tail);
  }

  /** Parsing a saved file gives back each source with the strings its escape buffers could hold. */
  lemma SavedParsed(list: seq<Config>)
    requires Storable(list)
    ensures ParseSources(Saved(list), MAX_SOURCES) == TruncatedAll(list)
  {
    hide Rows, RowsDoc, Match, ParseItems, FindArray, ConfigOk, Saved;
    ArrayFound(list);
    var arr := "[\n" + Rows(list) + "  ]" + "\n}\n";
    RowsNest(list);
    var inner := Doc.Plain("\n", RowsDoc(list));
    assert DocOk(inner);
    MatchExact(false, inner, "\n}\n");
    var shown := Show(Nest(false, inner, End));
    assert shown == "[" + (("\n" + (Rows(list) + "  ")) + ("]" + []));
    assert arr == shown + "\n}\n";
    var e := |shown| - 1;
    assert arr[1..e + 1] == "\n" + (Rows(list) + "  ]");
    assert Separators("\n");
    ItemsRead(list, "\n", MAX_SOURCES);
  }

  lemma {:induction false} TruncatedAllExactly(list: seq<Config>)
    ensures TruncatedAll(list) == list <==> forall i | 0 <= i < |list| :: AllFit(list[i])
  {
    hide AllFit, Truncated;
    if list != [] {
      var r := TruncatedAll(list);
      assert list == [list[0]] + list[1..];
      TruncatedExactly(list[0]);
      TruncatedAllExactly(list[1..]);
      assert r[0] == Truncated(list[0]) && r[1..] == TruncatedAll(list[1..]);
      assert forall i | 0 <= i < |list[1..]| :: list[1..][i] == list[i + 1];
      assert r == list ==> r[0] == list[0] && r[1..] == list[1..];
      assert (forall i | 0 <= i < |list[1..]| :: AllFit(list[1..][i])) ==>
        forall i | 0 < i < |list| :: AllFit(list[i]) by {
        assert forall i | 0 < i < |list| :: list[i] == list[1..][i - 1];
      }
    }
  }

  /** A saved list parses back as itself exactly when every string fits its escape buffer (see BuffersSuffice). */
  lemma ParseRoundTrip(list: seq<Config>)
    requires Storable(list)
    ensures ParseSources(Saved(list), MAX_SOURCES) == list <==> forall i | 0 <= i < |list| :: AllFit(list[i])
  {
    hide ParseSources, Saved, TruncatedAll, AllFit, ConfigOk;
    SavedParsed(list);
    TruncatedAllExactly(list);
  }

  /** A user name of 63 control characters takes 378 bytes escaped and has room for 160. */
  const Cramped: Config := Config(true, "a", "a", "http://a/", seq(63, i => 1 as char), "", "verify", "")

  lemma {:induction false} SixEach(s: string, room: nat)
    requires forall i | 0 <= i < |s| :: s[i] == 1 as char
    ensures 6 * Escaped(s, room) <= room
    decreases |s|
  {
    if s != [] && room > 7 { SixEach(s[1..], room - 6); }
  }

  lemma CutShort()
    ensures Storable([Cramped]) && ParseSources(Saved([Cramped]), MAX_SOURCES) != [Cramped]
  {
    hide ParseSources, Saved, Escaped;
    SixEach(Cramped.username, 160);
    ParseRoundTrip([Cramped]);
    assert !AllFit([Cramped][0]);
  }

  // ---- the whole file

  lemma FieldSize(f: Field, last: bool)
    requires '\0' !in f.key && '\0' !in f.value
    ensures |FieldText(f, last)| <= |f.key| + |f.value| + 6 && '\0' !in FieldText(f, last)
  {}

  lemma ValueSize(c: Config, i: nat)
    requires ConfigOk(c) && i < 8
    ensures |Fields(c)| == 8 && |Fields(c)[i].key| <= 8 && '\0' !in Fields(c)[i].key && '\0' !in Fields(c)[i].value
    ensures |Fields(c)[i].value| <= if i == 2 then 1102 else 302
  {
    hide Fields, Escape;
    FieldIs(c, i);
    assert i in {0, 1, 2, 3, 4, 5, 6, 7};
    if i < 7 { EscapeClean(StringOf(c, i), ROOMS[i]); }
  }

  lemma {:induction false} FieldsSize(fs: seq<Field>, n: nat)
    requires forall i | 0 <= i < |fs| :: |fs[i].key| <= 8 && '\0' !in fs[i].key && '\0' !in fs[i].value
    requires forall i | 0 <= i < |fs| :: |fs[i].value| <= n
    ensures |FieldsText(fs)| <= |fs| * (n + 14) && '\0' !in FieldsText(fs)
  {
    hide FieldText;
    if fs != [] {
      FieldSize(fs[0], |fs| == 1);
      FieldsSize(fs[1..], n);
      assert |fs| * (n + 14) == |fs[1..]| * (n + 14) + (n + 14);
    }
  }

  lemma ObjectSize(c: Config)
    requires ConfigOk(c)
    ensures |ObjectText(c)| <= 3400 && '\0' !in ObjectText(c)
  {
    hide Fields, FieldText, ConfigOk;
    var fs := Fields(c);
    FieldIs(c, 0);
    forall i | 0 <= i < 8
      ensures |fs[i].key| <= 8 && '\0' !in fs[i].key && '\0' !in fs[i].value
      ensures |fs[i].value| <= if i == 2 then 1102 else 302
    {
      ValueSize(c, i);
    }
    FieldSize(fs[0], false);
    FieldSize(fs[1], false);
    FieldSize(fs[2], false);
    FieldsSize(fs[3..], 302);
    assert fs[1..][1..] == fs[2..] && fs[2..][1..] == fs[3..];
    assert FieldsText(fs) == FieldText(fs[0], false) + FieldsText(fs[1..]);
    assert FieldsText(fs[1..]) == FieldText(fs[1], false) + FieldsText(fs[2..]);
    assert FieldsText(fs[2..]) == FieldText(fs[2], false) + FieldsText(fs[3..]);
  }

  lemma {:induction false} RowsSize(list: seq<Config>)
    requires forall i | 0 <= i < |list| :: ConfigOk(list[i])
    ensures |Rows(list)| <= |list| * 3406 && '\0' !in Rows(list)
  {
    hide ObjectText, ConfigOk;
    if list != [] {
      ObjectSize(list[0]);
      RowsSize(list[1..]);
    }
  }

  lemma SavedSize(list: seq<Config>)
    requires Storable(list)
    ensures |Saved(list)| <= FILE_MAX && CStr(Saved(list)) == Saved(list)
  {
    hide Rows, ConfigOk;
    RowsSize(list);
    CStrClean(Saved(list));
  }

  /** A source as sanitizing leaves it: see SanitizeTwice. */
  predicate Settled(c: Config, crc: string -> string) { Sanitize(c, crc) == Some(c) }

  lemma {:induction false} AllSettled(list: seq<Config>, crc: string -> string)
    requires forall i | 0 <= i < |list| :: Settled(list[i], crc)
    ensures SanitizeAll(list, crc) == list
  {
    hide Sanitize;
    if list != [] {
      assert Settled(list[0], crc);
      AllSettled(list[1..], crc);
    }
  }

  /** Saving up to eight sanitized sources and loading them again gives back the same list. */
  lemma LoadSaved(list: seq<Config>, crc: string -> string)
    requires Storable(list)
    requires forall i | 0 <= i < |list| :: Settled(list[i], crc) && AllFit(list[i])
    ensures Load(Saved(list), crc) == list
  {
    hide Saved, Sanitize, AllFit, ParseSources;
    SavedSize(list);
    ParseRoundTrip(list);
    AllSettled(list, crc);
  }

  /** What a user enters or a file holds: strings that fit the record, without characters that need a \u escape. */
  predicate Ordinary(c: Config) {
    && ConfigOk(c) && NoSpace(c.url)
    && Only(c.id, Short) && Only(c.name, Short) && Only(c.url, Short) && Only(c.username, Short)
    && Only(c.password, Short) && Only(c.tlsMode, Short) && Only(c.tlsPin, Short)
  }

  ghost predicate PrintsCrc(crc: string -> string) { forall s :: |crc(s)| == 8 && Only(crc(s), Short) }

  lemma ShortInUrls()
    ensures OfUrls(Short)
  {}

  lemma ShortString(s: string, size: nat)
    requires Only(s, Short) && |s| < size
    ensures CString(s, size)
  {
    assert forall i | 0 <= i < |s| :: Short(s[i]) && s[i] != '\0';
  }

  /** What sanitizing an ordinary source leaves can be stored, fits the escape buffers and stays as it is. */
  lemma SanitizedWell(c: Config, crc: string -> string)
    requires Ordinary(c) && PrintsCrc(crc) && Sanitize(c, crc).Some?
    ensures var d := Sanitize(c, crc).value; ConfigOk(d) && d.url != [] && AllFit(d) && Settled(d, crc)
  {
    hide NormalUrl, U.UrlParse, Trim, Fits, Short, DefaultLabel, OfUrls, LowerScheme;
    var d := Sanitize(c, crc).value;
    SpaceFreeLabel(c, crc);
    SanitizeTwice(c, crc);
    ShortInUrls();
    LabelOnly(c, crc, Short);
    SanitizedShort(c, crc);
    BuffersSuffice(d);
  }

  lemma SanitizedShort(c: Config, crc: string -> string)
    requires Ordinary(c) && PrintsCrc(crc) && Sanitize(c, crc).Some?
    ensures var d := Sanitize(c, crc).value;
      && ConfigOk(d) && d.url != []
      && Only(d.id, Short) && Only(d.name, Short) && Only(d.url, Short) && Only(d.username, Short)
      && Only(d.password, Short) && Only(d.tlsMode, Short) && Only(d.tlsPin, Short)
  {
    hide NormalUrl, U.UrlParse, Trim, DefaultLabel, OfUrls, CString;
    var d := Sanitize(c, crc).value;
    ShortInUrls();
    LabelOnly(c, crc, Short);
    LabelFits(U.UrlParse(NormalUrl(Trim(c.url))).value);
    TrimOnly(c.name, Short);
    TrimOnly(c.username, Short);
    TrimOnly(c.tlsPin, Short);
    SizesTold(c);
    ShortString(d.id, 32);
    ShortString(d.name, 64);
    ShortString(d.url, 512);
    ShortString(d.username, 64);
    ShortString(d.password, 128);
    ShortString(d.tlsMode, 16);
    ShortString(d.tlsPin, 100);
    Parsed(d.url);
  }

  lemma SizesTold(c: Config)
    requires ConfigOk(c)
    ensures |c.id| < 32 && |c.name| < 64 && |c.url| < 512 && |c.username| < 64 && |c.password| < 128
    ensures |c.tlsMode| < 16 && |c.tlsPin| < 100
  {}

  lemma LabelFits(u: U.HttpUrl)
    ensures |DefaultLabel(u)| < 64
  {}

  lemma Parsed(url: string)
    requires U.UrlParse(url).Some?
    ensures url != []
  {
    hide U.ParseRest;
  }

  lemma {:induction false} AllSanitizedWell(raw: seq<Config>, crc: string -> string)
    requires PrintsCrc(crc) && forall i | 0 <= i < |raw| :: Ordinary(raw[i])
    ensures var list := SanitizeAll(raw, crc);
      |list| <= |raw| && forall i | 0 <= i < |list| ::
        ConfigOk(list[i]) && list[i].url != [] && AllFit(list[i]) && Settled(list[i], crc)
  {
    hide Ordinary, Sanitize, ConfigOk, AllFit, Settled, PrintsCrc;
    if raw != [] {
      assert Ordinary(raw[0]);
      AllSanitizedWell(raw[1..], crc);
      if Sanitize(raw[0], crc).Some? { SanitizedWell(raw[0], crc); }
    }
  }

  /** The list of up to eight ordinary sources, as sanitizing accepts them, survives being saved and loaded. */
  lemma LoadSanitized(raw: seq<Config>, crc: string -> string)
    requires |raw| <= MAX_SOURCES && PrintsCrc(crc) && forall i | 0 <= i < |raw| :: Ordinary(raw[i])
    ensures var list := SanitizeAll(raw, crc); Load(Saved(list), crc) == list
  {
    hide Ordinary, Saved, Load, Sanitize, AllFit, Settled, ConfigOk, PrintsCrc;
    AllSanitizedWell(raw, crc);
    LoadSaved(SanitizeAll(raw, crc), crc);
  }
}
