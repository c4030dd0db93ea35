/** The discovery of packages on an HTTP source: catalog, index file, or a recursive walk over directory listings
    (src/http_source.c:1827-2241). What a server answers is a function of the URL; listings are given by their
    entries. */
module Crawl {
  import opened Percent
  import opened Text
  import U = Url

  const MAX_DEPTH: nat := 5
  const MAX_DIRS: nat := 512
  const URL_MAX: nat := 1024

  type Bytes = s: string | IsBytes(s)

  datatype Kind = Directory | File | OtherKind

  datatype Entry = Entry(name: Bytes, kind: Kind)

  /** A directory URL's answer: no listing, nginx JSON (None if it cannot be read), or the links of an HTML page. */
  datatype Listing = NoListing | Json(entries: Option<seq<Entry>>) | Html(hrefs: seq<string>)

  /** The answer for the catalog or the index file: their paths, if they are there. */
  datatype First = Transport | Unauthorized | Forbidden | Paths(paths: seq<Bytes>) | Unusable

  datatype Server = Server(catalog: First, index: First, listing: string -> Listing)

  /** scan_ctx_t, plus the directories whose listing was asked for, with their depth. A URL is remembered by its hash.
      */
  datatype Scan = Scan(seen: seq<nat>, dirs: nat, reported: seq<string>, fetched: seq<(string, nat)>)

  const START: Scan := Scan([], 0, [], [])

  // ---------------------------------------------------------------- the walk as a function

  /** seen_add. */
  function Remember(s: Scan, h: nat): Option<Scan> { if h in s.seen then None else Some(s.(seen := s.seen + [h])) }

  function LastSegment(url: string): string { U.AfterLast(url, '/') }

  /** The file name shown, cut to its buffer. */
  function NameOf(url: string): string { Clip(Decode(LastSegment(url)), 256) }

  predicate IsPackage(url: string) {
    var n := NameOf(url);
    |n| >= 4 && EqCI(n[|n| - 4..], ".pkg")
  }

  /** emit_pkg, without the callback. */
  function Emit(s: Scan, url: string, hash: string -> nat): Scan {
    match Remember(s, hash(url))
    case None => s
    case Some(s2) => if IsPackage(url) then s2.(reported := s2.reported + [url]) else s2
  }

  /** A link the walk does not follow. */
  predicate Skipped(href: string) {
    || |href| == 0 || |href| >= URL_MAX || href[0] == '?' || href[0] == '#' || StartsWithCI(href, "mailto:")
    || StartsWithCI(href, "javascript:") || "../" <= href || href == ".." || href == "./"
  }

  /** Where a link leads, if it stays below the directory it was found in. */
  function Below(dir: string, href: string): Option<string> {
    if Skipped(href) then None
    else
      match U.UrlResolve(dir, href[..IndexOf(href, '?')])
      case None => None
      case Some(abs) => if StartsWithCI(abs, dir) && |abs| > |dir| then Some(abs) else None
  }

  /** The URL of a JSON entry, if its name is one path segment and the URL fits. */
  function EntryUrl(dir: string, e: Entry): Option<string> {
    if e.name == [] || e.name[0] == '.' || '/' in e.name || e.kind.OtherKind? then None
    else if |dir| + |Encode(e.name)| + 2 >= URL_MAX then None
    else Some(dir + Encode(e.name) + if e.kind.Directory? then "/" else "")
  }

  predicate IsDir(url: string) { url != [] && url[|url| - 1] == '/' }

  /** One URL of a listing: a sub-directory to visit later, or a file. */
  function Visit(s: Scan, subs: seq<string>, url: string, isDir: bool, depth: nat, hash: string -> nat)
    : (Scan, seq<string>)
  {
    if isDir then
      if depth < MAX_DEPTH && Remember(s, hash(url)).Some?
      then (Remember(s, hash(url)).value, subs + [url])
      else (s, subs)
    else (Emit(s, url, hash), subs)
  }

  /** The URLs of a listing, in order, with whether each is a directory. */
  function UrlsOf(dir: string, listing: Listing): seq<(string, bool)> {
    match listing
    case NoListing => []
    case Json(None) => []
    case Json(Some(entries)) => EntryUrls(dir, entries)
    case Html(hrefs) => LinkUrls(dir, hrefs)
  }

  function EntryUrls(dir: string, entries: seq<Entry>): seq<(string, bool)> {
    if entries == [] then []
    else
      var rest := EntryUrls(dir, entries[1..]);
      match EntryUrl(dir, entries[0])
      case None => rest
      case Some(url) => [(url, entries[0].kind.Directory?)] + rest
  }

  function LinkUrls(dir: string, hrefs: seq<string>): seq<(string, bool)> {
    if hrefs == [] then []
    else
      var rest := LinkUrls(dir, hrefs[1..]);
      match Below(dir, hrefs[0])
      case None => rest
      case Some(url) => [(url, IsDir(url))] + rest
  }

  function VisitAll(s: Scan, subs: seq<string>, urls: seq<(string, bool)>, depth: nat, hash: string -> nat)
    : (Scan, seq<string>)
    decreases |urls|
  {
    if urls == [] then (s, subs)
    else
      var (s2, subs2) := Visit(s, subs, urls[0].0, urls[0].1, depth, hash);
      VisitAll(s2, subs2, urls[1..], depth, hash)
  }

  /** scan_html_dir and scan_json_dir. */
  function ScanDir(s: Scan, server: Server, hash: string -> nat, dir: string, depth: nat): Scan
    decreases if depth > MAX_DEPTH then 0 else MAX_DEPTH + 1 - depth, 0
  {
    if depth > MAX_DEPTH || s.dirs >= MAX_DIRS then s
    else
      var s2 := s.(dirs := s.dirs + 1, fetched := s.fetched + [(dir, depth)]);
      var (s3, subs) := VisitAll(s2, [], UrlsOf(dir, server.listing(dir)), depth, hash);
      ScanSubs(s3, server, hash, subs, depth)
  }

  function ScanSubs(s: Scan, server: Server, hash: string -> nat, subs: seq<string>, depth: nat): Scan
    requires depth <= MAX_DEPTH
    decreases MAX_DEPTH + 1 - depth, 0, |subs|
  {
    if subs == [] then s
    else ScanSubs(ScanDir(s, server, hash, subs[0], depth + 1), server, hash, subs[1..], depth)
  }

  // ---------------------------------------------------------------- nothing twice

  predicate Distinct<T(==)>(s: seq<T>) { forall i, j | 0 <= i < j < |s| :: s[i] != s[j] }

  predicate FetchedUrl(s: Scan, url: string) { exists i | 0 <= i < |s.fetched| :: s.fetched[i].0 == url }

  /** No directory was asked for twice and no package reported twice; both are remembered. */
  ghost predicate Sound(s: Scan, hash: string -> nat) {
    && (forall i, j | 0 <= i < j < |s.fetched| :: s.fetched[i].0 != s.fetched[j].0)
    && (forall i | 0 <= i < |s.fetched| :: hash(s.fetched[i].0) in s.seen && s.fetched[i].1 <= MAX_DEPTH)
    && Distinct(s.reported) && (forall i | 0 <= i < |s.reported| :: hash(s.reported[i]) in s.seen)
    && |s.fetched| == s.dirs <= MAX_DIRS
  }

  /** What a part of the walk may add: directories among the given ones, or such as had not been seen before it. */
  ghost predicate Extends(s: Scan, s2: Scan, given: seq<string>, hash: string -> nat) {
    && s.seen <= s2.seen
    && forall i | 0 <= i < |s2.fetched| ::
         FetchedUrl(s, s2.fetched[i].0) || s2.fetched[i].0 in given || hash(s2.fetched[i].0) !in s.seen
  }

  /** Directories waiting to be visited: remembered, and not asked for yet. */
  ghost predicate Waiting(s: Scan, subs: seq<string>, hash: string -> nat) {
    && Distinct(subs)
    && forall i | 0 <= i < |subs| :: hash(subs[i]) in s.seen && !FetchedUrl(s, subs[i])
  }

  lemma EmitSound(s: Scan, url: string, hash: string -> nat)
    requires Sound(s, hash)
    ensures var s2 := Emit(s, url, hash); Sound(s2, hash) && s.seen <= s2.seen && s2.fetched == s.fetched
  {
    hide IsPackage;
  }

  lemma VisitSound(s: Scan, subs: seq<string>, url: string, isDir: bool, depth: nat, hash: string -> nat)
    requires Sound(s, hash) && Waiting(s, subs, hash)
    ensures var (s2, subs2) := Visit(s, subs, url, isDir, depth, hash);
      Sound(s2, hash) && Waiting(s2, subs2, hash) && s.seen <= s2.seen && s2.fetched == s.fetched
      && forall x | x in subs2 :: x in subs || hash(x) !in s.seen
  {
    hide IsPackage;
    if !isDir { EmitSound(s, url, hash); }
  }

  lemma {:induction false} VisitAllSound(s: Scan, subs: seq<string>, urls: seq<(string, bool)>, depth: nat,
                                         hash: string -> nat)
    requires Sound(s, hash) && Waiting(s, subs, hash)
    ensures var (s2, subs2) := VisitAll(s, subs, urls, depth, hash);
      Sound(s2, hash) && Waiting(s2, subs2, hash) && s.seen <= s2.seen && s2.fetched == s.fetched
      && forall x | x in subs2 :: x in subs || hash(x) !in s.seen
    decreases |urls|
  {
    hide Visit, Sound, Waiting;
    if urls != [] {
      var (s2, subs2) := Visit(s, subs, urls[0].0, urls[0].1, depth, hash);
      VisitSound(s, subs, urls[0].0, urls[0].1, depth, hash);
      VisitAllSound(s2, subs2, urls[1..], depth, hash);
    }
  }

  lemma {:induction false} ScanDirSound(s: Scan, server: Server, hash: string -> nat, dir: string, depth: nat)
    requires Sound(s, hash) && hash(dir) in s.seen && !FetchedUrl(s, dir)
    ensures Sound(ScanDir(s, server, hash, dir, depth), hash)
    ensures Extends(s, ScanDir(s, server, hash, dir, depth), [dir], hash)
    decreases if depth > MAX_DEPTH then 0 else MAX_DEPTH + 1 - depth, 0
  {
    hide VisitAll, UrlsOf, ScanSubs;
    if depth <= MAX_DEPTH && s.dirs < MAX_DIRS {
      var s2 := s.(dirs := s.dirs + 1, fetched := s.fetched + [(dir, depth)]);
      var urls := UrlsOf(dir, server.listing(dir));
      var (s3, subs) := VisitAll(s2, [], urls, depth, hash);
      VisitAllSound(s2, [], urls, depth, hash);
      ScanSubsSound(s3, server, hash, subs, depth);
      Chained(s, s2, s3, ScanSubs(s3, server, hash, subs, depth), dir, depth, subs, hash);
    }
  }

  lemma Chained(s: Scan, s2: Scan, s3: Scan, s4: Scan, dir: string, depth: nat, subs: seq<string>, hash: string -> nat)
    requires s2 == s.(dirs := s.dirs + 1, fetched := s.fetched + [(dir, depth)])
    requires s2.seen <= s3.seen && s3.fetched == s2.fetched && Extends(s3, s4, subs, hash)
    requires forall x | x in subs :: hash(x) !in s2.seen
    ensures Extends(s, s4, [dir], hash)
  {
    forall i | 0 <= i < |s4.fetched|
      ensures FetchedUrl(s, s4.fetched[i].0) || s4.fetched[i].0 in [dir] || hash(s4.fetched[i].0) !in s.seen
    {
      var x := s4.fetched[i].0;
      if FetchedUrl(s3, x) {
        var j :| 0 <= j < |s3.fetched| && s3.fetched[j].0 == x;
        assert j < |s.fetched| ==> s.fetched[j].0 == x;
      }
    }
  }

  lemma {:induction false} ScanSubsSound(s: Scan, server: Server, hash: string -> nat, subs: seq<string>, depth: nat)
    requires depth <= MAX_DEPTH && Sound(s, hash) && Waiting(s, subs, hash)
    ensures Sound(ScanSubs(s, server, hash, subs, depth), hash)
    ensures Extends(s, ScanSubs(s, server, hash, subs, depth), subs, hash)
    decreases MAX_DEPTH + 1 - depth, 0, |subs|
  {
    hide ScanDir, Sound;
    if subs == [] {
      assert forall i | 0 <= i < |s.fetched| :: FetchedUrl(s, s.fetched[i].0);
    } else {
      ScanDirSound(s, server, hash, subs[0], depth + 1);
      var s2 := ScanDir(s, server, hash, subs[0], depth + 1);
      StillWaiting(s, s2, subs, hash);
      ScanSubsSound(s2, server, hash, subs[1..], depth);
      Linked(s, s2, ScanSubs(s2, server, hash, subs[1..], depth), subs, hash);
    }
  }

  lemma StillWaiting(s: Scan, s2: Scan, subs: seq<string>, hash: string -> nat)
    requires subs != [] && Waiting(s, subs, hash) && Extends(s, s2, [subs[0]], hash)
    ensures Waiting(s2, subs[1..], hash)
  {
    forall i | 0 <= i < |subs[1..]| ensures hash(subs[1..][i]) in s2.seen && !FetchedUrl(s2, subs[1..][i]) {
      var x := subs[i + 1];
      assert x != subs[0] && hash(x) in s.seen && !FetchedUrl(s, x);
      assert hash(x) in s2.seen;
    }
  }

  lemma Linked(s: Scan, s2: Scan, s3: Scan, subs: seq<string>, hash: string -> nat)
    requires subs != [] && Extends(s, s2, [subs[0]], hash) && Extends(s2, s3, subs[1..], hash)
    ensures Extends(s, s3, subs, hash)
  {
    forall i | 0 <= i < |s3.fetched|
      ensures FetchedUrl(s, s3.fetched[i].0) || s3.fetched[i].0 in subs || hash(s3.fetched[i].0) !in s.seen
    {
      var x := s3.fetched[i].0;
      if FetchedUrl(s2, x) {
        var j :| 0 <= j < |s2.fetched| && s2.fetched[j].0 == x;
        assert x in [subs[0]] ==> x in subs;
      } else if x in subs[1..] {
        assert x in subs;
      } else {
        assert hash(x) !in s2.seen;
        assert forall h | h in s.seen :: h in s2.seen;
      }
    }
  }

  // ---------------------------------------------------------------- nothing outside

  /** Everything asked for or reported so far extends the base URL, letter case aside. */
  ghost predicate Under(s: Scan, base: string) {
    && (forall i | 0 <= i < |s.fetched| :: StartsWithCI(s.fetched[i].0, base))
    && forall i | 0 <= i < |s.reported| :: StartsWithCI(s.reported[i], base)
  }

  lemma PrefixChain(a: string, b: string, c: string)
    requires StartsWithCI(a, b) && StartsWithCI(b, c)
    ensures StartsWithCI(a, c)
  {
    assert forall i | 0 <= i < |c| :: a[..|c|][i] == a[..|b|][i] && b[..|c|][i] == b[i];
  }

  lemma PrefixSame(a: string, tail: string)
    ensures StartsWithCI(a + tail, a)
  {
    assert (a + tail)[..|a|] == a;
  }

  lemma {:induction false} EntriesExtend(dir: string, entries: seq<Entry>)
    ensures forall i | 0 <= i < |EntryUrls(dir, entries)| :: StartsWithCI(EntryUrls(dir, entries)[i].0, dir)
  {
    hide StartsWithCI, Encode;
    if entries != [] {
      EntriesExtend(dir, entries[1..]);
      if EntryUrl(dir, entries[0]).Some? {
        var tail := Encode(entries[0].name) + if entries[0].kind.Directory? then "/" else "";
        PrefixSame(dir, tail);
        assert EntryUrl(dir, entries[0]).value == dir + tail;
      }
    }
  }

  lemma {:induction false} LinksExtend(dir: string, hrefs: seq<string>)
    ensures forall i | 0 <= i < |LinkUrls(dir, hrefs)| :: StartsWithCI(LinkUrls(dir, hrefs)[i].0, dir)
  {
    hide StartsWithCI, Skipped, U.UrlResolve;
    if hrefs != [] { LinksExtend(dir, hrefs[1..]); }
  }

  lemma UrlsExtend(dir: string, listing: Listing)
    ensures forall i | 0 <= i < |UrlsOf(dir, listing)| :: StartsWithCI(UrlsOf(dir, listing)[i].0, dir)
  {
    hide StartsWithCI, EntryUrls, LinkUrls;
    match listing
    case NoListing =>
    case Json(None) =>
    case Json(Some(entries)) => EntriesExtend(dir, entries);
    case Html(hrefs) => LinksExtend(dir, hrefs);
  }

  lemma {:induction false} VisitAllUnder(s: Scan, subs: seq<string>, urls: seq<(string, bool)>, depth: nat,
                                         hash: string -> nat, base: string)
    requires Under(s, base) && (forall i | 0 <= i < |subs| :: StartsWithCI(subs[i], base))
    requires forall i | 0 <= i < |urls| :: StartsWithCI(urls[i].0, base)
    ensures var (s2, subs2) := VisitAll(s, subs, urls, depth, hash);
      Under(s2, base) && forall i | 0 <= i < |subs2| :: StartsWithCI(subs2[i], base)
    decreases |urls|
  {
    hide StartsWithCI, IsPackage;
    if urls != [] {
      var (s2, subs2) := Visit(s, subs, urls[0].0, urls[0].1, depth, hash);
      VisitAllUnder(s2, subs2, urls[1..], depth, hash, base);
    }
  }

  /** Every URL the walk asks for or reports extends the directory it started from. */
  lemma {:induction false} ScanDirUnder(s: Scan, server: Server, hash: string -> nat, dir: string, depth: nat,
                                        base: string)
    requires Under(s, base) && StartsWithCI(dir, base)
    ensures Under(ScanDir(s, server, hash, dir, depth), base)
    decreases if depth > MAX_DEPTH then 0 else MAX_DEPTH + 1 - depth, 0
  {
    hide StartsWithCI, VisitAll, UrlsOf, ScanSubs;
    if depth <= MAX_DEPTH && s.dirs < MAX_DIRS {
      var s2 := s.(dirs := s.dirs + 1, fetched := s.fetched + [(dir, depth)]);
      var urls := UrlsOf(dir, server.listing(dir));
      UrlsExtend(dir, server.listing(dir));
      forall i | 0 <= i < |urls| ensures StartsWithCI(urls[i].0, base) { PrefixChain(urls[i].0, dir, base); }
      VisitAllUnder(s2, [], urls, depth, hash, base);
      var (s3, subs) := VisitAll(s2, [], urls, depth, hash);
      ScanSubsUnder(s3, server, hash, subs, depth, base);
    }
  }

  lemma {:induction false} ScanSubsUnder(s: Scan, server: Server, hash: string -> nat, subs: seq<string>, depth: nat,
                                         base: string)
    requires depth <= MAX_DEPTH && Under(s, base) && forall i | 0 <= i < |subs| :: StartsWithCI(subs[i], base)
    ensures Under(ScanSubs(s, server, hash, subs, depth), base)
    decreases MAX_DEPTH + 1 - depth, 0, |subs|
  {
    hide StartsWithCI, ScanDir, Under;
    if subs != [] {
      ScanDirUnder(s, server, hash, subs[0], depth + 1, base);
      ScanSubsUnder(ScanDir(s, server, hash, subs[0], depth + 1), server, hash, subs[1..], depth, base);
    }
  }

  // ---------------------------------------------------------------- the whole scan

  function DropSlashes(s: string): (r: string)
    ensures |r| <= |s| && r == s[|s| - |r|..]
  {
    if s != [] && s[0] == '/' then DropSlashes(s[1..]) else s
  }

  lemma DroppedBytes(s: string)
    requires IsBytes(s)
    ensures IsBytes(DropSlashes(s))
  {}

  /** A path of the catalog or of the index file. */
  function PathUrl(base: string, path: Bytes): Option<string> {
    DroppedBytes(path);
    if path == [] then None
    else if |base| + |Encode(DropSlashes(path))| >= URL_MAX then None
    else Some(base + Encode(DropSlashes(path)))
  }

  function IndexUrl(base: string, path: Bytes): Option<string> {
    if StartsWithCI(path, "http://") || StartsWithCI(path, "https://") then Some(Clip(path, URL_MAX))
    else PathUrl(base, path)
  }

  function EmitPaths(s: Scan, base: string, paths: seq<Bytes>, absolute: bool, hash: string -> nat): Scan
    decreases |paths|
  {
    if paths == [] then s
    else
      var url := if absolute then IndexUrl(base, paths[0]) else PathUrl(base, paths[0]);
      EmitPaths(if url.Some? then Emit(s, url.value, hash) else s, base, paths[1..], absolute, hash)
  }

  /** Whether the listing of the source's own URL is there. */
  predicate Listed(listing: Listing) { listing.Html? || (listing.Json? && listing.entries.Some?) }

  /** scan_run: the state at the end and whether the scan succeeded. */
  function Walk(server: Server, base: string, hash: string -> nat): (Scan, bool) {
    match server.catalog
    case Transport => (START, false)
    case Unauthorized => (START, false)
    case Paths(paths) => (EmitPaths(START, base + "files/", paths, false, hash), true)
    case _ =>
      match server.index
      case Transport => (START, false)
      case Paths(paths) => (EmitPaths(START, base, paths, true, hash), true)
      case Unauthorized => (START, false)
      case Forbidden => (START, false)
      case Unusable =>
        var s := START.(seen := [hash(base)]);
        (ScanDir(s, server, hash, base, 0), Listed(server.listing(base)))
  }

  lemma {:induction false} PathsSound(s: Scan, base: string, paths: seq<Bytes>, absolute: bool, hash: string -> nat)
    requires Sound(s, hash)
    ensures var s2 := EmitPaths(s, base, paths, absolute, hash); Sound(s2, hash) && s2.fetched == s.fetched
    decreases |paths|
  {
    hide Emit, Sound, IndexUrl, PathUrl;
    if paths != [] {
      var url := if absolute then IndexUrl(base, paths[0]) else PathUrl(base, paths[0]);
      if url.Some? { EmitSound(s, url.value, hash); }
      PathsSound(if url.Some? then Emit(s, url.value, hash) else s, base, paths[1..], absolute, hash);
    }
  }

  lemma {:induction false} PathsUnder(s: Scan, base: string, paths: seq<Bytes>, hash: string -> nat)
    requires Under(s, base)
    ensures Under(EmitPaths(s, base, paths, false, hash), base)
    decreases |paths|
  {
    hide StartsWithCI, IsPackage, Encode;
    if paths != [] {
      var url := PathUrl(base, paths[0]);
      if url.Some? { PrefixSame(base, Encode(DropSlashes(paths[0]))); }
      PathsUnder(if url.Some? then Emit(s, url.value, hash) else s, base, paths[1..], hash);
    }
  }

  /** Whatever the server answers, cyclic or not: at most 512 listings, none deeper than 5 and none twice; no package
      twice; and unless an index file names absolute URLs, nothing outside the source. */
  lemma CrawlSafe(server: Server, base: string, hash: string -> nat)
    ensures var s := Walk(server, base, hash).0;
      && Sound(s, hash) && |s.fetched| <= MAX_DIRS
      && (server.catalog.Paths? || !server.index.Paths? ==> Under(s, base))
  {
    hide ScanDir, EmitPaths, StartsWithCI, Extends;
    var s0 := START.(seen := [hash(base)]);
    PrefixIdentity(base);
    match server.catalog
    case Paths(paths) =>
      PathsSound(START, base + "files/", paths, false, hash);
      PathsUnder(START, base + "files/", paths, hash);
      UnderParent(EmitPaths(START, base + "files/", paths, false, hash), base, "files/");
    case _ =>
      match server.index {
        case Paths(paths) => PathsSound(START, base, paths, true, hash);
        case Unusable =>
          assert !FetchedUrl(s0, base);
          ScanDirSound(s0, server, hash, base, 0);
          ScanDirUnder(s0, server, hash, base, 0, base);
        case _ =>
      }
  }

  lemma PrefixIdentity(a: string)
    ensures StartsWithCI(a, a)
  {
    PrefixSame(a, "");
    assert a + "" == a;
  }

  lemma UnderParent(s: Scan, base: string, tail: string)
    requires Under(s, base + tail)
    ensures Under(s, base)
  {
    hide StartsWithCI;
    PrefixSame(base, tail);
    forall i | 0 <= i < |s.fetched| ensures StartsWithCI(s.fetched[i].0, base) {
      PrefixChain(s.fetched[i].0, base + tail, base);
    }
    forall i | 0 <= i < |s.reported| ensures StartsWithCI(s.reported[i], base) {
      PrefixChain(s.reported[i], base + tail, base);
    }
  }

  // ---------------------------------------------------------------- the scanner

  datatype Call = Call(url: string, name: string, size: nat)

  class Scanner {
    const server: Server
    const base: string
    const hash: string -> nat
    const wantMeta: bool
    const hasCallback: bool
    var seen: seq<nat>
    var count: nat
    var dirs: nat
    var calls: seq<Call>
    ghost var reported: seq<string>
    ghost var fetched: seq<(string, nat)>

    constructor (server: Server, base: string, hash: string -> nat, wantMeta: bool, hasCallback: bool)
      ensures Valid() && View() == START && this.server == server && this.base == base && this.hash == hash
      ensures this.hasCallback == hasCallback
    {
      this.server, this.base, this.hash, this.wantMeta, this.hasCallback := server, base, hash, wantMeta, hasCallback;
      seen, count, dirs, calls, reported, fetched := [], 0, 0, [], [], [];
    }

    ghost function View(): Scan
      reads this
    {
      Scan(seen, dirs, reported, fetched)
    }

    /** Every package found is counted, and handed to the callback if there is one. */
    ghost predicate Valid()
      reads this
    {
      && count == |reported|
      && if hasCallback then |calls| == count && forall i | 0 <= i < count :: calls[i].url == reported[i]
         else calls == []
    }

    method SeenAdd(url: string) returns (added: bool)
      modifies this`seen
      ensures added <==> Remember(old(View()), hash(url)).Some?
      ensures seen == if added then old(seen) + [hash(url)] else old(seen)
    {
      var h, i := hash(url), 0;
      while i < |seen|
        invariant 0 <= i <= |seen| && seen == old(seen) && h !in seen[..i]
      {
        if seen[i] == h { return false; }
        assert seen[..i + 1] == seen[..i] + [seen[i]];
        i := i + 1;
      }
      assert seen[..i] == seen;
      seen := seen + [h];
      added := true;
    }

    /** The HEAD request for a package's size: whatever it answers. */
    method AskSize(url: string) returns (size: nat)
    {
      var answer: int := *;
      size := if answer < 0 then 0 else answer;
    }

    method EmitPkg(url: string, listed: nat, known: bool)
      requires Valid()
      modifies this`seen, this`count, this`calls, this`reported
      ensures Valid() && View() == Emit(old(View()), url, hash)
    {
      hide NameOf;
      var added := SeenAdd(url);
      if !added { return; }
      var name := NameOf(url);
      if !(|name| >= 4 && EqCI(name[|name| - 4..], ".pkg")) { return; }
      var size := listed;
      if wantMeta && !known { size := AskSize(url); }
      count := count + 1;
      reported := reported + [url];
      if hasCallback { calls := calls + [Call(url, name, size)]; }
    }

    method VisitOne(url: string, isDir: bool, depth: nat, subs: seq<string>) returns (subs2: seq<string>)
      requires Valid()
      modifies this`seen, this`count, this`calls, this`reported
      ensures Valid() && (View(), subs2) == Visit(old(View()), subs, url, isDir, depth, hash)
    {
      subs2 := subs;
      if isDir {
        if depth < MAX_DEPTH {
          var added := SeenAdd(url);
          if added { subs2 := subs + [url]; }
        }
      } else {
        var size: int := *;
        EmitPkg(url, if size < 0 then 0 else size, size >= 0);
      }
    }

    /** The entry loop of scan_json_dir. */
    method ScanEntries(dir: string, entries: seq<Entry>, depth: nat) returns (subs: seq<string>)
      requires Valid()
      modifies this`seen, this`count, this`calls, this`reported
      ensures Valid() && (View(), subs) == VisitAll(old(View()), [], EntryUrls(dir, entries), depth, hash)
    {
      hide Visit, EntryUrl;
      subs := [];
      var k := 0;
      assert entries[0..] == entries;
      while k < |entries|
        invariant 0 <= k <= |entries| && Valid()
        invariant VisitAll(View(), subs, EntryUrls(dir, entries[k..]), depth, hash)
               == VisitAll(old(View()), [], EntryUrls(dir, entries), depth, hash)
      {
        assert entries[k..][1..] == entries[k + 1..];
        var url := EntryUrl(dir, entries[k]);
        if url.Some? {
          subs := VisitOne(url.value, entries[k].kind.Directory?, depth, subs);
        }
        k := k + 1;
      }
    }

    /** The link loop of scan_html_dir. */
    method ScanLinks(dir: string, hrefs: seq<string>, depth: nat) returns (subs: seq<string>)
      requires Valid()
      modifies this`seen, this`count, this`calls, this`reported
      ensures Valid() && (View(), subs) == VisitAll(old(View()), [], LinkUrls(dir, hrefs), depth, hash)
    {
      hide Visit, Below;
      subs := [];
      var k := 0;
      assert hrefs[0..] == hrefs;
      while k < |hrefs|
        invariant 0 <= k <= |hrefs| && Valid()
        invariant VisitAll(View(), subs, LinkUrls(dir, hrefs[k..]), depth, hash)
               == VisitAll(old(View()), [], LinkUrls(dir, hrefs), depth, hash)
      {
        assert hrefs[k..][1..] == hrefs[k + 1..];
        var url := Below(dir, hrefs[k]);
        if url.Some? {
          subs := VisitOne(url.value, IsDir(url.value), depth, subs);
        }
        k := k + 1;
      }
    }

    /** scan_html_dir, with scan_json_dir for JSON listings. */
    method ScanDirectory(dir: string, depth: nat) returns (code: int)
      requires Valid()
      modifies this
      ensures Valid() && View() == ScanDir(old(View()), server, hash, dir, depth)
      ensures code == if depth == 0 && old(dirs) < MAX_DIRS && !Listed(server.listing(dir)) then -1 else 0
      decreases if depth > MAX_DEPTH then 0 else MAX_DEPTH + 1 - depth, 0
    {
      hide VisitAll, EntryUrls, LinkUrls, ScanSubs;
      if depth > MAX_DEPTH || dirs >= MAX_DIRS { return 0; }
      dirs := dirs + 1;
      fetched := fetched + [(dir, depth)];
      var listing := server.listing(dir);
      var subs := [];
      ghost var before := View();
      match listing {
        case NoListing =>
          code := if depth == 0 then -1 else 0;
        case Json(None) =>
          code := if depth == 0 then -1 else 0;
        case Json(Some(entries)) =>
          subs := ScanEntries(dir, entries, depth);
          code := 0;
        case Html(hrefs) =>
          subs := ScanLinks(dir, hrefs, depth);
          code := 0;
      }
      assert (View(), subs) == VisitAll(before, [], UrlsOf(dir, listing), depth, hash) by {
        NothingVisited(before, depth, hash);
      }
      ScanSubDirs(subs, depth);
    }

    method ScanSubDirs(subs: seq<string>, depth: nat)
      requires Valid() && depth <= MAX_DEPTH
      modifies this
      ensures Valid() && View() == ScanSubs(old(View()), server, hash, subs, depth)
      decreases MAX_DEPTH + 1 - depth, 0, 0
    {
      hide ScanDir;
      var k := 0;
      assert subs[0..] == subs;
      while k < |subs|
        invariant 0 <= k <= |subs| && Valid()
        invariant ScanSubs(View(), server, hash, subs[k..], depth) == ScanSubs(old(View()), server, hash, subs, depth)
      {
        assert subs[k..][1..] == subs[k + 1..];
        var code := ScanDirectory(subs[k], depth + 1);
        k := k + 1;
      }
    }

    method EmitList(prefix: string, paths: seq<Bytes>, absolute: bool)
      requires Valid()
      modifies this`seen, this`count, this`calls, this`reported
      ensures Valid() && View() == EmitPaths(old(View()), prefix, paths, absolute, hash)
    {
      hide Emit, IndexUrl, PathUrl;
      var k := 0;
      assert paths[0..] == paths;
      while k < |paths|
        invariant 0 <= k <= |paths| && Valid()
        invariant EmitPaths(View(), prefix, paths[k..], absolute, hash)
               == EmitPaths(old(View()), prefix, paths, absolute, hash)
      {
        assert paths[k..][1..] == paths[k + 1..];
        var url := if absolute then IndexUrl(prefix, paths[k]) else PathUrl(prefix, paths[k]);
        var size: int := *;
        if url.Some? { EmitPkg(url.value, if size < 0 then 0 else size, size >= 0); }
        k := k + 1;
      }
    }

    /** scan_run. */
    method ScanRun() returns (result: int)
      requires Valid() && View() == START
      modifies this
      ensures Valid() && View() == Walk(server, base, hash).0
      ensures result == if Walk(server, base, hash).1 then count else -1
    {
      hide ScanDir, EmitPaths;
      match server.catalog {
        case Transport => return -1;
        case Unauthorized => return -1;
        case Paths(paths) =>
          EmitList(base + "files/", paths, false);
          return count;
        case _ =>
      }
      match server.index {
        case Transport => return -1;
        case Unauthorized => return -1;
        case Forbidden => return -1;
        case Paths(paths) =>
          EmitList(base, paths, true);
          return count;
        case Unusable =>
          var added := SeenAdd(base);
          assert View() == START.(seen := [hash(base)]);
          var code := ScanDirectory(base, 0);
          return if code != 0 then -1 else count;
      }
    }
  }

  lemma NothingVisited(s: Scan, depth: nat, hash: string -> nat)
    ensures VisitAll(s, [], [], depth, hash) == (s, [])
  {}

  /** http_source_scan and http_source_count_pkg_files on the same server: the count is the number of callbacks. */
  method ScanAndCount(server: Server, base: string, hash: string -> nat)
    returns (scanned: int, counted: int, calls: seq<Call>)
    ensures scanned == counted
    ensures scanned >= 0 ==> |calls| == scanned
    ensures |calls| == |Walk(server, base, hash).0.reported|
    ensures forall i, j | 0 <= i < j < |calls| :: calls[i].url != calls[j].url
  {
    hide Walk;
    var full := new Scanner(server, base, hash, true, true);
    scanned := full.ScanRun();
    calls := full.calls;
    var only := new Scanner(server, base, hash, false, false);
    counted := only.ScanRun();
    CrawlSafe(server, base, hash);
  }
}
