/** Multi-part packages of multipart.c: the part header, a package cut into parts, and where a part's slice begins. */
module PartFormat {
  import opened Text

  const HEADER_SIZE: nat := 4096
  const MAX_PARTS: nat := 256
  const ICON_MAX: nat := 10 * 1024 * 1024
  const CHUNK_MAX: nat := 64 * 1024 * 1024
  const U32: nat := 0x1_0000_0000
  const U64: nat := 0x1_0000_0000_0000_0000

  datatype Header = Header(magicOk: bool, version: nat, partIndex: nat, totalParts: nat, compression: nat,
                           chunkSize: nat, numChunks: nat, dataSize: nat, totalSize: nat, uuid: nat, iconOffset: nat,
                           iconSize: nat, partOffset: nat, dataOffset: nat)

  /** A part file: its header and all of its bytes, the header's included. */
  datatype PartFile = PartFile(header: Header, bytes: string)

  /** multipart_is_valid_header. */
  predicate ValidHeader(h: Header) {
    && h.magicOk && h.version == 1
    && h.totalParts != 0 && h.partIndex != 0 && h.partIndex <= h.totalParts
    && (h.compression == 0 || h.compression == 1)
    && h.chunkSize <= CHUNK_MAX
  }

  predicate HasIcon(h: Header) { h.iconSize > 0 && h.iconOffset == HEADER_SIZE }

  /** Where the virtual stream looks for the slice: a missing data offset means behind the header and, in part 1 only,
      behind an icon that follows it. The sum is a 32-bit one. */
  function StreamStart(h: Header): nat {
    if h.dataOffset != 0 then h.dataOffset
    else if h.partIndex == 1 && HasIcon(h) then (HEADER_SIZE + h.iconSize) % U32
    else HEADER_SIZE
  }

  /** Where the assembler looks for it: behind an icon in any part, unless the icon is too large to be believed. */
  function AssembleStart(h: Header): Option<nat> {
    if h.dataOffset != 0 then Some(h.dataOffset)
    else if HasIcon(h) then (if h.iconSize >= ICON_MAX then None else Some(HEADER_SIZE + h.iconSize))
    else Some(HEADER_SIZE)
  }

  /** The two readers agree on a part exactly when its data offset is recorded, or it has no icon behind its header, or
      it is part 1 and the icon is under the assembler's limit. */
  lemma StartsAgree(h: Header)
    requires h.iconSize < U32
    ensures AssembleStart(h) == Some(StreamStart(h))
      <==> (h.dataOffset != 0 || !HasIcon(h) || (h.partIndex == 1 && h.iconSize < ICON_MAX))
  {
    if h.iconSize < ICON_MAX {
      assert (HEADER_SIZE + h.iconSize) % U32 == HEADER_SIZE + h.iconSize;
    }
  }

  /** Part 2 of 2, its slice behind an icon, the offset not recorded. */
  const LateIcon: Header := Header(true, 1, 2, 2, 0, 0, 1, 100, 200, 0, HEADER_SIZE, 50, 100, 0)

  lemma StartsDiffer()
    ensures ValidHeader(LateIcon) && StreamStart(LateIcon) == 4096 && AssembleStart(LateIcon) == Some(4146)
  {}

  // ---------------------------------------------------------------- a package cut into parts

  /** cuts[k] is where slice k + 1 begins; the slices are not empty and cover the package. */
  datatype Package = Package(data: string, cuts: seq<nat>, uuid: nat)

  function Parts(p: Package): int { |p.cuts| - 1 }

  predicate PackageOk(p: Package) {
    && 1 <= Parts(p) <= MAX_PARTS
    && p.cuts[0] == 0 && p.cuts[|p.cuts| - 1] == |p.data| < U64
    && forall i, j | 0 <= i < j < |p.cuts| :: p.cuts[i] < p.cuts[j]
  }

  function SliceSize(p: Package, k: nat): nat
    requires PackageOk(p) && k < Parts(p)
  {
    p.cuts[k + 1] - p.cuts[k]
  }

  /** Equal slices, the last one possibly shorter. */
  predicate Even(p: Package)
    requires PackageOk(p)
  {
    && (forall k | 0 <= k < Parts(p) - 1 :: SliceSize(p, k) == SliceSize(p, 0))
    && SliceSize(p, Parts(p) - 1) <= SliceSize(p, 0)
  }

  /** A file that is part k + 1 of the package. A slice offset of 0 means unrecorded, which only an evenly cut package
      can afford behind part 1. */
  predicate IsPart(f: PartFile, p: Package, k: nat)
    requires PackageOk(p)
  {
    && k < Parts(p)
    && ValidHeader(f.header) && f.header.partIndex == k + 1 && f.header.totalParts == Parts(p)
    && f.header.totalSize == |p.data| && f.header.dataSize == SliceSize(p, k) && f.header.uuid == p.uuid
    && (f.header.partOffset == p.cuts[k] || (f.header.partOffset == 0 && Even(p)))
    && f.header.iconSize < U32
    && StreamStart(f.header) + SliceSize(p, k) <= |f.bytes|
    && f.bytes[StreamStart(f.header)..StreamStart(f.header) + SliceSize(p, k)] == p.data[p.cuts[k]..p.cuts[k + 1]]
  }

  /** The slice a byte of the package lies in. */
  lemma Locate(p: Package, offset: nat) returns (t: nat)
    requires PackageOk(p) && offset < |p.data|
    ensures t < Parts(p) && p.cuts[t] <= offset < p.cuts[t + 1]
    ensures forall k | 0 <= k < Parts(p) && p.cuts[k] <= offset < p.cuts[k + 1] :: k == t
  {
    t := 0;
    while p.cuts[t + 1] <= offset
      invariant t < Parts(p) && p.cuts[t] <= offset
    {
      t := t + 1;
    }
    assert forall j | 0 <= j <= t :: p.cuts[j] <= p.cuts[t];
    assert forall k | t < k < Parts(p) :: p.cuts[t + 1] <= p.cuts[k];
  }
}

/** The drives and discs the parts are found on. A path handed out for a part names a file that is that part; whether a
    part is found, and whether its file can be opened at the moment, is up to the user and the hardware. */
module Drives {
  import opened Text
  import opened PartFormat

  class Library {
    const package: Package
    const fileAt: string -> PartFile
    const hasWaiter: bool

    constructor (package: Package, fileAt: string -> PartFile, hasWaiter: bool)
      ensures this.package == package && this.fileAt == fileAt && this.hasWaiter == hasWaiter
    {
      this.package, this.fileAt, this.hasWaiter := package, fileAt, hasWaiter;
    }

    ghost predicate Valid() { PackageOk(package) }

    predicate Names(path: string, k: nat)
      requires PackageOk(package)
    {
      IsPart(fileAt(path), package, k)
    }

    /** The part finder, the search next to the first part and the staging directory. */
    method Find(k: nat) returns (path: Option<string>)
      requires Valid()
      ensures path.Some? ==> Names(path.value, k)
    {
      var candidate: string := *;
      path := if Names(candidate, k) then Some(candidate) else None;
    }

    /** The blocking wait for a disc. */
    method Wait(k: nat) returns (path: Option<string>)
      requires Valid()
      ensures path.Some? ==> Names(path.value, k)
    {
      var candidate: string := *;
      path := if Names(candidate, k) then Some(candidate) else None;
    }

    /** Whether the file can be opened now. */
    method CanOpen(path: string) returns (ok: bool) { ok := *; }

    /** pread: an error, the end of the file, or some bytes. */
    method ReadAt(path: string, offset: nat, buf: array<char>, at: nat, len: nat) returns (n: int)
      requires 0 < len && at + len <= buf.Length
      modifies buf
      ensures -1 <= n <= len
      ensures n > 0 ==> offset + n <= |fileAt(path).bytes|
                        && forall i | at <= i < at + n :: buf[i] == fileAt(path).bytes[offset + i - at]
      ensures forall i | 0 <= i < buf.Length && !(at <= i < at + n) :: buf[i] == old(buf[i])
    {
      var bytes := fileAt(path).bytes;
      var give: int := *;
      if give < 0 { return -1; }
      n := if give <= len then give else len;
      if offset + n > |bytes| { n := if offset < |bytes| then |bytes| - offset else 0; }
      forall i | 0 <= i < n { buf[at + i] := bytes[offset + i]; }
    }
  }
}

/** virtual_stream_open and virtual_stream_read on local multi-part packages. */
module VirtualStream {
  import opened Text
  import opened PartFormat
  import opened Drives

  /** virtual_part_info_t. */
  datatype PartInfo = PartInfo(path: Option<string>, start: nat, size: nat, dataOffset: nat, isOpen: bool)

  class Stream {
    const lib: Library
    const parts: array<PartInfo>
    var totalParts: nat
    var totalSize: nat
    var currentPart: nat

    constructor (lib: Library, totalParts: nat, totalSize: nat)
      ensures this.lib == lib && this.totalParts == totalParts && this.totalSize == totalSize
      ensures fresh(parts) && parts.Length == MAX_PARTS
    {
      this.lib, this.totalParts, this.totalSize := lib, totalParts, totalSize;
      currentPart := 1;
      parts := new PartInfo[MAX_PARTS](_ => PartInfo(None, 0, 0, 0, false));
    }

    /** The entry says where slice k + 1 really is. */
    ghost predicate Accurate(e: PartInfo, k: nat)
      requires PackageOk(lib.package) && k < Parts(lib.package)
    {
      e.start == lib.package.cuts[k] && e.size == SliceSize(lib.package, k)
    }

    /** A part whose file has been found is accurate; in an evenly cut package the guesses are, too. */
    ghost predicate EntryOk(e: PartInfo, k: nat)
      requires PackageOk(lib.package) && k < Parts(lib.package)
    {
      && (e.path.Some? ==>
            lib.Names(e.path.value, k) && Accurate(e, k)
              && e.dataOffset == StreamStart(lib.fileAt(e.path.value).header))
      && (e.isOpen ==> e.path.Some?)
      && (Even(lib.package) ==> Accurate(e, k))
    }

    ghost predicate Valid()
      reads this`totalParts, this`totalSize, parts
    {
      && lib.Valid() && parts.Length == MAX_PARTS
      && totalParts == Parts(lib.package) && totalSize == |lib.package.data|
      && (forall k | 0 <= k < totalParts :: EntryOk(parts[k], k))
      && parts[0].path.Some?
    }

    predicate Covers(e: PartInfo, offset: nat) { e.start <= offset < (e.start + e.size) % U64 }

    /** The interval search: the first part whose interval holds the offset, or totalParts. */
    method FindPart(offset: nat) returns (i: nat)
      requires Valid()
      ensures i <= totalParts
      ensures forall k | 0 <= k < i :: !Covers(parts[k], offset)
      ensures i < totalParts ==> Covers(parts[i], offset)
    {
      i := 0;
      while i < totalParts
        invariant i <= totalParts
        invariant forall k | 0 <= k < i :: !Covers(parts[k], offset)
      {
        if Covers(parts[i], offset) { return; }
        i := i + 1;
      }
    }

    /** The entry of a part whose header has just been read; the start of an unrecorded slice is the one at hand. */
    function Resolved(path: string, h: Header, start: nat): PartInfo {
      PartInfo(Some(path), if h.partOffset > 0 then h.partOffset else start, h.dataSize, StreamStart(h), false)
    }

    ghost function Unresolved(): set<nat>
      reads this, parts
      requires totalParts <= parts.Length
    {
      set k | 0 <= k < totalParts && parts[k].path.None?
    }

    /** After a disc swap only the new disc's part stays open. */
    method CloseOthers(i: nat)
      requires Valid() && i < totalParts
      modifies parts
      ensures Valid()
      ensures forall k | 0 <= k < totalParts :: parts[k] == old(parts[k]).(isOpen := old(parts[k]).isOpen && k == i)
    {
      var k := 0;
      while k < totalParts
        invariant k <= totalParts
        invariant forall j | 0 <= j < k :: parts[j] == old(parts[j]).(isOpen := old(parts[j]).isOpen && j == i)
        invariant forall j | k <= j < parts.Length :: parts[j] == old(parts[j])
      {
        if k != i && parts[k].isOpen { parts[k] := parts[k].(isOpen := false); }
        k := k + 1;
      }
    }

    /** Opens a known part's file unless it is open already. */
    method EnsureOpen(i: nat) returns (ready: bool)
      requires Valid() && i < totalParts
      modifies parts
      ensures Valid() && ready == parts[i].isOpen && Unresolved() == old(Unresolved())
      ensures forall k | 0 <= k < totalParts && k != i :: parts[k] == old(parts[k])
      ensures parts[i] == old(parts[i]).(isOpen := ready) && (old(parts[i]).isOpen ==> ready)
    {
      if parts[i].path.Some? && !parts[i].isOpen {
        var opens := lib.CanOpen(parts[i].path.value);
        parts[i] := parts[i].(isOpen := opens);
      }
      ready := parts[i].isOpen;
    }

    lemma Basics()
      requires Valid()
      ensures lib.Valid() && PackageOk(lib.package) && totalParts == Parts(lib.package) <= parts.Length
      ensures totalSize == |lib.package.data|
    {}

    /** Waits for the disc with part i + 1 and corrects the part's entry from its header. */
    method Swap(i: nat) returns (ok: bool)
      requires Valid() && i < totalParts && !parts[i].isOpen
      modifies parts
      ensures Valid()
      ensures ok ==> parts[i].isOpen && Unresolved() == old(Unresolved()) - {i}
      ensures Unresolved() <= old(Unresolved())
    {
      var path := lib.Wait(i);
      if path.None? { return false; }
      CloseOthers(i);
      var readable := lib.CanOpen(path.value);
      if !readable { return false; }
      ghost var before := Unresolved();
      ResolvedOk(path.value, i, parts[i].start);
      parts[i] := Resolved(path.value, lib.fileAt(path.value).header, parts[i].start);
      ok := lib.CanOpen(path.value);
      parts[i] := parts[i].(isOpen := ok);
      assert Unresolved() == before - {i};
    }

    /** An entry that has been resolved and covers an offset is the part the offset lies in. */
    lemma FoundIsTrue(i: nat, offset: nat, t: nat)
      requires Valid() && i < totalParts && Covers(parts[i], offset)
      requires parts[i].path.Some? || Even(lib.package)
      requires forall k | 0 <= k < Parts(lib.package)
        && lib.package.cuts[k] <= offset < lib.package.cuts[k + 1] :: k == t
      ensures i == t
    {
      assert EntryOk(parts[i], i);
      CoversTrue(i, offset);
    }

    lemma EvenFinds(t: nat, offset: nat)
      requires Valid() && Even(lib.package) && t < totalParts
      requires lib.package.cuts[t] <= offset < lib.package.cuts[t + 1]
      ensures Covers(parts[t], offset)
    {
      assert EntryOk(parts[t], t);
      CoversTrue(t, offset);
    }

    lemma CoversTrue(i: nat, offset: nat)
      requires Valid() && i < totalParts && Accurate(parts[i], i)
      ensures Covers(parts[i], offset) <==> lib.package.cuts[i] <= offset < lib.package.cuts[i + 1]
    {
      var p := lib.package;
      assert p.cuts[i + 1] <= p.cuts[|p.cuts| - 1];
    }

    /** The copy loop: short reads are continued, the end of the file inside a slice is an error. */
    method CopyRun(path: string, from: nat, buf: array<char>, chunk: nat) returns (ok: bool)
      requires chunk <= buf.Length
      modifies buf
      ensures ok ==>
        from + chunk <= |lib.fileAt(path).bytes| && buf[..chunk] == lib.fileAt(path).bytes[from..from + chunk]
    {
      var done := 0;
      while done < chunk
        invariant done <= chunk && (done == 0 || from + done <= |lib.fileAt(path).bytes|)
        invariant forall j | 0 <= j < done :: buf[j] == lib.fileAt(path).bytes[from + j]
      {
        var n := lib.ReadAt(path, from + done, buf, done, chunk - done);
        if n <= 0 { return false; }
        done := done + n;
      }
      if chunk == 0 && from > |lib.fileAt(path).bytes| { return false; }
      assert buf[..chunk] == lib.fileAt(path).bytes[from..from + chunk];
      ok := true;
    }

    /** virtual_stream_read on a local package: a run of the package's own bytes at the offset asked for, or failure.
        With equal slices a read waits for a disc at most once and never fails to find its part. */
    method Read(offset: nat, buf: array<char>, count: nat) returns (n: int, ghost waits: nat, ghost lost: bool)
      requires Valid() && count <= buf.Length
      modifies this`currentPart, parts, buf
      ensures Valid()
      ensures -1 <= n <= count
      ensures n > 0 ==> offset + n <= |lib.package.data| && buf[..n] == lib.package.data[offset..offset + n]
      ensures n == 0 <==> count == 0 || offset >= |lib.package.data|
      ensures Even(lib.package) ==> waits <= 1 && !lost
    {
      hide EntryOk, Valid, IsPart, Even, SliceSize, PackageOk;
      waits, lost := 0, false;
      Basics();
      if count == 0 || offset >= totalSize { return 0, waits, lost; }
      ghost var t := Locate(lib.package, offset);
      while true
        invariant Valid()
        invariant Even(lib.package) ==> waits <= 1 && (waits == 1 ==> parts[t].isOpen)
        decreases Unresolved(), if parts[t].isOpen then 0 else 1
      {
        Basics();
        var i := FindPart(offset);
        if i == totalParts {
          if Even(lib.package) { EvenFinds(t, offset); }
          lost := true;
          return -1, waits, lost;
        }
        if parts[i].path.Some? || Even(lib.package) { FoundIsTrue(i, offset, t); }
        currentPart := i + 1;
        var ready := EnsureOpen(i);
        if !ready {
          if !lib.hasWaiter { return -1, waits, lost; }
          waits := waits + 1;
          var swapped := Swap(i);
          if !swapped { return -1, waits, lost; }
          continue;
        }
        n := Transfer(i, offset, buf, count);
        return;
      }
    }

    lemma OpenEntry(i: nat, offset: nat)
      requires Valid() && i < totalParts && parts[i].isOpen && Covers(parts[i], offset)
      ensures totalSize == |lib.package.data| && PackageOk(lib.package) && i < Parts(lib.package)
      ensures var e := parts[i];
        && e.path.Some? && IsPart(lib.fileAt(e.path.value), lib.package, i)
        && e.dataOffset == StreamStart(lib.fileAt(e.path.value).header)
        && e.start == lib.package.cuts[i] <= offset < e.start + e.size && e.size == SliceSize(lib.package, i)
    {
      hide IsPart, StreamStart, Even;
      assert EntryOk(parts[i], i);
      CoversTrue(i, offset);
    }

    /** The transfer from an open part. */
    method Transfer(i: nat, offset: nat, buf: array<char>, count: nat) returns (n: int)
      requires Valid() && i < totalParts && parts[i].isOpen && Covers(parts[i], offset)
      requires 0 < count <= buf.Length && offset < totalSize
      modifies buf
      ensures n == -1 || 0 < n <= count
      ensures n > 0 ==> offset + n <= |lib.package.data| && buf[..n] == lib.package.data[offset..offset + n]
    {
      hide IsPart, Even, Valid, EntryOk, PackageOk, Covers, StreamStart;
      Basics();
      OpenEntry(i, offset);
      var e := parts[i];
      var wanted := if offset + count > totalSize then totalSize - offset else count;
      var inPart := offset - e.start;
      var chunk := if wanted < e.size - inPart then wanted else e.size - inPart;
      var ok := CopyRun(e.path.value, e.dataOffset + inPart, buf, chunk);
      if !ok { return -1; }
      SliceRun(lib.package, i, lib.fileAt(e.path.value), inPart, chunk);
      n := chunk;
    }

    lemma ResolvedOk(path: string, k: nat, start: nat)
      requires lib.Valid() && lib.Names(path, k)
      requires k == 0 || Even(lib.package) ==> start == lib.package.cuts[k]
      ensures EntryOk(Resolved(path, lib.fileAt(path).header, start), k)
    {}
  }

  /** A run inside a part's slice is the same run of the package. */
  lemma SliceRun(p: Package, k: nat, f: PartFile, inPart: nat, n: nat)
    requires PackageOk(p) && IsPart(f, p, k) && inPart + n <= SliceSize(p, k)
    ensures p.cuts[k] + inPart + n <= |p.data|
    ensures StreamStart(f.header) + inPart + n <= |f.bytes|
    ensures f.bytes[StreamStart(f.header) + inPart..StreamStart(f.header) + inPart + n]
         == p.data[p.cuts[k] + inPart..p.cuts[k] + inPart + n]
  {
    hide StreamStart, ValidHeader, Even;
    var s := f.bytes[StreamStart(f.header)..StreamStart(f.header) + SliceSize(p, k)];
    assert p.cuts[k + 1] <= p.cuts[|p.cuts| - 1];
    SubSlice(f.bytes, StreamStart(f.header), StreamStart(f.header) + SliceSize(p, k), inPart, n);
    SubSlice(p.data, p.cuts[k], p.cuts[k + 1], inPart, n);
  }

  lemma SubSlice(a: string, lo: nat, hi: nat, x: nat, n: nat)
    requires lo <= hi <= |a| && x + n <= hi - lo
    ensures a[lo..hi][x..x + n] == a[lo + x..lo + x + n]
  {
    var l, r := a[lo..hi][x..x + n], a[lo + x..lo + x + n];
    assert |l| == |r|;
    assert forall i | 0 <= i < n :: l[i] == a[lo + x + i] == r[i];
  }

  /** virtual_stream_open from part 1. Parts that are not found are given the size of part 1 (the last one the rest)
      right behind their predecessor; nothing but an unreadable found part makes it fail. */
  method Open(lib: Library, initial: string) returns (s: Stream?)
    requires lib.Valid() && lib.Names(initial, 0)
    ensures s != null ==> fresh(s) && fresh(s.parts) && s.lib == lib && s.Valid()
  {
    var hdr := lib.fileAt(initial).header;
    s := new Stream(lib, hdr.totalParts, hdr.totalSize);
    var k := 0;
    while k < hdr.totalParts
      invariant k <= hdr.totalParts && fresh(s) && fresh(s.parts) && s.lib == lib && s.parts.Length == MAX_PARTS
      invariant s.totalParts == Parts(lib.package) && s.totalSize == |lib.package.data|
      invariant forall j | 0 <= j < k :: s.EntryOk(s.parts[j], j)
      invariant k > 0 ==> s.parts[0].path.Some?
    {
      var path := if k == 0 then Some(initial) else None;
      if k > 0 { path := lib.Find(k); }
      var behind := if k == 0 then 0 else (s.parts[k - 1].start + s.parts[k - 1].size) % U64;
      Behind(s, k);
      if path.None? {
        var size := if k == hdr.totalParts - 1 then (hdr.totalSize - behind) % U64 else hdr.dataSize;
        s.parts[k] := PartInfo(None, behind, size, HEADER_SIZE, false);
      } else {
        var readable := lib.CanOpen(path.value);
        if !readable { return null; }
        s.ResolvedOk(path.value, k, behind);
        s.parts[k] := s.Resolved(path.value, lib.fileAt(path.value).header, behind);
      }
      k := k + 1;
    }
  }

  /** In an evenly cut package the end of one slice is the start of the next. */
  lemma Behind(s: Stream, k: nat)
    requires s.lib.Valid() && k < Parts(s.lib.package) && s.parts.Length == MAX_PARTS
    requires k > 0 ==> s.EntryOk(s.parts[k - 1], k - 1)
    ensures k > 0 && Even(s.lib.package) ==> (s.parts[k - 1].start + s.parts[k - 1].size) % U64 == s.lib.package.cuts[k]
  {
    var p := s.lib.package;
    assert p.cuts[k] < p.cuts[|p.cuts| - 1];
  }

  predicate Holds(e: PartInfo, offset: nat) { e.start <= offset < e.start + e.size }

  lemma HoldsExactly(s: Stream, k: nat, offset: nat)
    requires s.Valid() && Even(s.lib.package) && k < s.totalParts
    ensures Holds(s.parts[k], offset) <==> s.lib.package.cuts[k] <= offset < s.lib.package.cuts[k + 1]
    ensures Holds(s.parts[k], offset) ==> offset < s.totalSize
  {
    hide IsPart;
    var p := s.lib.package;
    assert s.EntryOk(s.parts[k], k);
    assert p.cuts[k + 1] <= p.cuts[|p.cuts| - 1];
  }

  /** With equal slices the part intervals partition the package, at open and after every swap: each byte offset lies in
      exactly one of them, and none reaches past the end. */
  lemma IntervalsPartition(s: Stream, offset: nat)
    requires s.Valid() && Even(s.lib.package)
    ensures forall k | 0 <= k < s.totalParts :: Holds(s.parts[k], offset) ==> offset < s.totalSize
    ensures offset < s.totalSize ==> exists k | 0 <= k < s.totalParts :: Holds(s.parts[k], offset)
    ensures forall j, k | 0 <= j < s.totalParts && 0 <= k < s.totalParts
      && Holds(s.parts[j], offset) && Holds(s.parts[k], offset) :: j == k
  {
    hide Stream.EntryOk, Holds, Even;
    s.Basics();
    forall k | 0 <= k < s.totalParts ensures Holds(s.parts[k], offset) ==> offset < s.totalSize {
      HoldsExactly(s, k, offset);
    }
    if offset < s.totalSize {
      var t := Locate(s.lib.package, offset);
      HoldsExactly(s, t, offset);
      assert Holds(s.parts[t], offset);
      forall k | 0 <= k < s.totalParts && Holds(s.parts[k], offset) ensures k == t {
        HoldsExactly(s, k, offset);
      }
    }
  }

  /** Reading one block after another to the end rebuilds the package. */
  method ReadThrough(s: Stream, buf: array<char>, block: nat) returns (complete: bool, data: string)
    requires s.Valid() && 0 < block <= buf.Length
    modifies s`currentPart, s.parts, buf
    ensures s.Valid()
    ensures data <= s.lib.package.data
    ensures complete ==> data == s.lib.package.data
  {
    hide Stream.EntryOk;
    data := [];
    while |data| < s.totalSize
      invariant s.Valid() && data <= s.lib.package.data
      decreases s.totalSize - |data|
    {
      var n, waits, lost := s.Read(|data|, buf, block);
      if n <= 0 { return false, data; }
      data := data + buf[..n];
    }
    complete := true;
  }
}
