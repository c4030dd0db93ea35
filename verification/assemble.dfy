/** multipart_decompress_to_pkg on raw slices, and its agreement with the virtual stream. */
module Assembler {
  import opened Text
  import opened PartFormat
  import D = Drives
  import V = VirtualStream

  const BLOCK: nat := 2 * 1024 * 1024

  /** The destination, written through a stdio buffer. */
  class Output {
    var present: bool
    /** What is in the file, and what fwrite has taken but not yet put there. */
    var data: string
    var buffer: string

    constructor ()
      ensures !present && data == [] && buffer == []
    {
      present, data, buffer := false, [], [];
    }

    function Accepted(): string
      reads this
    {
      data + buffer
    }

    method Create() returns (ok: bool)
      modifies this
      ensures ok ==> present && data == [] && buffer == []
      ensures !ok ==> present == old(present) && data == old(data) && buffer == old(buffer)
    {
      ok := *;
      if ok { present, data, buffer := true, [], []; }
    }

    /** fwrite: the block is taken, and any part of what waits is put into the file. */
    method Write(block: string) returns (ok: bool)
      modifies this`data, this`buffer
      ensures old(data) <= data
      ensures ok ==> Accepted() == old(Accepted()) + block
    {
      ok := *;
      if !ok { return; }
      var all := buffer + block;
      assert data + all == old(Accepted()) + block;
      var moved: int := *;
      if 0 <= moved <= |all| { data, all := data + all[..moved], all[moved..]; }
      buffer := all;
    }

    /** fclose: the rest is put into the file, as far as the device takes it. */
    method Close() returns (flushed: bool)
      modifies this`data, this`buffer
      ensures old(data) <= data <= old(Accepted()) && (flushed <==> data == old(Accepted()))
    {
      var moved: int := *;
      var n := if 0 <= moved <= |buffer| then moved else |buffer|;
      flushed := n == |buffer|;
      data, buffer := data + buffer[..n], [];
    }

    method Unlink()
      modifies this
      ensures !present
    {
      present, data, buffer := false, [], [];
    }
  }

  /** The file system the parts are read from, and the user's cancel flag. */
  class Disk {
    const fileAt: string -> PartFile

    constructor (fileAt: string -> PartFile)
      ensures this.fileAt == fileAt
    {
      this.fileAt := fileAt;
    }

    method CanOpen(path: string) returns (ok: bool) { ok := *; }

    method Canceled() returns (yes: bool) { yes := *; }

    /** multipart_read_header. */
    method ReadHeader(path: string) returns (h: Option<Header>)
      ensures h.Some? ==> h.value == fileAt(path).header && ValidHeader(h.value)
    {
      var ok := CanOpen(path);
      h := if ok && ValidHeader(fileAt(path).header) then Some(fileAt(path).header) else None;
    }

    /** fread at a position: at most len bytes, none at the end of the file or on an error. */
    method Read(path: string, pos: nat, len: nat) returns (block: string)
      ensures |block| <= len
      ensures block != [] ==> pos + |block| <= |fileAt(path).bytes| && block == fileAt(path).bytes[pos..pos + |block|]
    {
      var give: nat := *;
      var n := if give <= len then give else len;
      if pos + n > |fileAt(path).bytes| || n < 0 { return []; }
      block := fileAt(path).bytes[pos..pos + n];
    }
  }

  predicate Raw(h: Header) { h.numChunks == 0 && h.compression == 0 }

  /** The bytes the assembler takes from a part are all there. */
  predicate Fits(f: PartFile) {
    && AssembleStart(f.header).Some?
    && (f.header.dataSize == 0 || AssembleStart(f.header).value + f.header.dataSize <= |f.bytes|)
  }

  function SliceOf(f: PartFile): string
    requires Fits(f)
  {
    if f.header.dataSize == 0 then []
    else f.bytes[AssembleStart(f.header).value..AssembleStart(f.header).value + f.header.dataSize]
  }

  ghost predicate AllFit(fileAt: string -> PartFile, paths: seq<string>) {
    forall k | 0 <= k < |paths| :: Fits(fileAt(paths[k]))
  }

  ghost function Joined(fileAt: string -> PartFile, paths: seq<string>): string
    requires AllFit(fileAt, paths)
  {
    if paths == [] then [] else Joined(fileAt, paths[..|paths| - 1]) + SliceOf(fileAt(paths[|paths| - 1]))
  }

  function SizeSum(fileAt: string -> PartFile, paths: seq<string>): nat {
    if paths == [] then 0 else SizeSum(fileAt, paths[..|paths| - 1]) + fileAt(paths[|paths| - 1]).header.dataSize
  }

  predicate Follows(first: Header, h: Header, k: nat, parts: nat) {
    ValidHeader(h) && h.partIndex == k + 1 && h.totalParts == parts && h.uuid == first.uuid
  }

  /** The headers describe one package whose slices, added in 64 bits, make up its recorded size. */
  ghost predicate Belong(fileAt: string -> PartFile, paths: seq<string>) {
    && |paths| > 0
    && var first := fileAt(paths[0]).header;
    && ValidHeader(first) && first.totalParts == |paths|
    && (forall k | 1 <= k < |paths| :: Follows(first, fileAt(paths[k]).header, k, |paths|))
    && (first.totalSize > 0 && SizeSum(fileAt, paths) % U64 != 0 ==> SizeSum(fileAt, paths) % U64 == first.totalSize)
  }

  /** Reads and checks all headers before anything is written. */
  method CheckHeaders(disk: Disk, paths: seq<string>) returns (code: int, total: nat)
    ensures code in {0, -1, -2, -3, -4, -5, -6, -18}
    ensures code == 0 ==> Belong(disk.fileAt, paths) && total == disk.fileAt(paths[0]).header.totalSize
    ensures code in {-1, -3, -5, -6, -18} ==> !Belong(disk.fileAt, paths)
  {
    hide Belong, SizeSum, Follows, ValidHeader;
    total := 0;
    if |paths| == 0 {
      NoParts(disk.fileAt);
      return -1, 0;
    }
    var first := disk.ReadHeader(paths[0]);
    if first.None? { return -2, 0; }
    if first.value.totalParts != |paths| {
      CountDiffers(disk.fileAt, paths);
      return -3, 0;
    }
    var sum := first.value.dataSize % U64;
    var k := 1;
    SumNext(disk.fileAt, paths, 0);
    while k < |paths|
      invariant 1 <= k <= |paths|
      invariant forall j | 1 <= j < k :: Follows(first.value, disk.fileAt(paths[j]).header, j, |paths|)
      invariant sum == SizeSum(disk.fileAt, paths[..k]) % U64
    {
      var h := disk.ReadHeader(paths[k]);
      if h.None? { return -4, 0; }
      if h.value.partIndex != k + 1 || h.value.totalParts != |paths| {
        Misfit(disk.fileAt, paths, k);
        return -5, 0;
      }
      if h.value.uuid != first.value.uuid {
        Misfit(disk.fileAt, paths, k);
        return -6, 0;
      }
      sum := (sum + h.value.dataSize) % U64;
      SumNext(disk.fileAt, paths, k);
      Fitting(first.value, h.value, k, |paths|);
      k := k + 1;
    }
    assert paths[..k] == paths;
    total := first.value.totalSize;
    code := if total > 0 && sum != 0 && sum != total then -18 else 0;
    AllFollow(disk.fileAt, paths);
  }

  lemma NoParts(fileAt: string -> PartFile)
    ensures !Belong(fileAt, [])
  {}

  lemma CountDiffers(fileAt: string -> PartFile, paths: seq<string>)
    requires |paths| > 0 && fileAt(paths[0]).header.totalParts != |paths|
    ensures !Belong(fileAt, paths)
  {}

  lemma Misfit(fileAt: string -> PartFile, paths: seq<string>, k: nat)
    requires 1 <= k < |paths|
    requires var first, h := fileAt(paths[0]).header, fileAt(paths[k]).header;
      h.partIndex != k + 1 || h.totalParts != |paths| || h.uuid != first.uuid
    ensures !Belong(fileAt, paths)
  {
    assert !Follows(fileAt(paths[0]).header, fileAt(paths[k]).header, k, |paths|);
  }

  lemma Fitting(first: Header, h: Header, k: nat, parts: nat)
    requires ValidHeader(h) && h.partIndex == k + 1 && h.totalParts == parts && h.uuid == first.uuid
    ensures Follows(first, h, k, parts)
  {}

  lemma SumNext(fileAt: string -> PartFile, paths: seq<string>, k: nat)
    requires k < |paths|
    ensures SizeSum(fileAt, paths[..k + 1]) == SizeSum(fileAt, paths[..k]) + fileAt(paths[k]).header.dataSize
    ensures k == 0 ==> SizeSum(fileAt, paths[..k]) == 0
  {
    assert paths[..k + 1][..k] == paths[..k];
  }

  lemma AllFollow(fileAt: string -> PartFile, paths: seq<string>)
    requires |paths| > 0 && ValidHeader(fileAt(paths[0]).header) && fileAt(paths[0]).header.totalParts == |paths|
    requires forall k | 1 <= k < |paths| :: Follows(fileAt(paths[0]).header, fileAt(paths[k]).header, k, |paths|)
    ensures var total, sum := fileAt(paths[0]).header.totalSize, SizeSum(fileAt, paths) % U64;
      Belong(fileAt, paths) <==> !(total > 0 && sum != 0 && sum != total)
  {
    hide ValidHeader, Follows, SizeSum;
  }

  /** One part's raw slice, appended block by block; the bytes are counted. */
  method AppendSlice(disk: Disk, path: string, out: Output, before: nat) returns (code: int, written: nat)
    requires Raw(disk.fileAt(path).header)
    modifies out`data, out`buffer
    ensures code in {0, -9, -10, -13, -14, -99}
    ensures code == 0 ==> Fits(disk.fileAt(path)) && out.Accepted() == old(out.Accepted()) + SliceOf(disk.fileAt(path))
    ensures code == 0 ==> written == before + disk.fileAt(path).header.dataSize
  {
    hide Taken;
    written := before;
    var canceled := disk.Canceled();
    if canceled { return -99, written; }
    var readable := disk.CanOpen(path);
    if !readable { return -9, written; }
    var headerRead := disk.CanOpen(path);
    if !headerRead { return -10, written; }
    var h := disk.fileAt(path).header;
    var start := AssembleStart(h);
    if start.None? { return -10, written; }
    var left := h.dataSize;
    ghost var start0 := out.Accepted();
    ghost var bytes := disk.fileAt(path).bytes;
    TakenNone(bytes, start.value);
    while left > 0
      invariant 0 <= left <= h.dataSize && written == before + (h.dataSize - left)
      invariant left < h.dataSize ==> start.value + h.dataSize - left <= |bytes|
      invariant out.Accepted() == start0 + Taken(bytes, start.value, h.dataSize - left)
    {
      canceled := disk.Canceled();
      if canceled { return -99, written; }
      ghost var done := h.dataSize - left;
      var block := disk.Read(path, start.value + h.dataSize - left, if left < BLOCK then left else BLOCK);
      if |block| == 0 { return -13, written; }
      var ok := out.Write(block);
      if !ok { return -14, written; }
      TakenMore(bytes, start.value, done, |block|);
      left, written := left - |block|, written + |block|;
    }
    TakenAll(disk.fileAt(path), start.value);
    code := 0;
  }

  lemma TakenNone(bytes: string, start: nat)
    ensures Taken(bytes, start, 0) == []
  {}

  lemma TakenAll(f: PartFile, start: nat)
    requires AssembleStart(f.header) == Some(start) && Fits(f)
    ensures Taken(f.bytes, start, f.header.dataSize) == SliceOf(f)
  {}

  ghost function Taken(bytes: string, start: nat, n: nat): string
    requires n == 0 || start + n <= |bytes|
  {
    if n == 0 then [] else bytes[start..start + n]
  }

  lemma TakenMore(bytes: string, start: nat, n: nat, more: nat)
    requires 0 < more && start + n + more <= |bytes|
    ensures Taken(bytes, start, n + more) == Taken(bytes, start, n) + bytes[start + n..start + n + more]
  {}

  /** multipart_decompress_to_pkg for raw slices. Success means that all slices have been taken in order, as many
      bytes as the header promises; they are all in the file exactly if the last flush went well, which is not looked
      at. Any error after the file was created removes it, any earlier one leaves it alone. */
  method Assemble(disk: Disk, paths: seq<string>, out: Output)
    returns (code: int, ghost created: bool, ghost flushed: bool)
    requires forall k | 0 <= k < |paths| :: Raw(disk.fileAt(paths[k]).header)
    modifies out
    ensures !created ==> code != 0 && out.present == old(out.present) && out.data == old(out.data)
    ensures created ==> (code == 0 <==> out.present)
    ensures created ==> Belong(disk.fileAt, paths)
    ensures code == 0 ==> created && AllFit(disk.fileAt, paths) && out.data <= Joined(disk.fileAt, paths)
    ensures code == 0 ==> (flushed <==> out.data == Joined(disk.fileAt, paths))
    ensures code == 0 && disk.fileAt(paths[0]).header.totalSize > 0 ==>
      |Joined(disk.fileAt, paths)| == disk.fileAt(paths[0]).header.totalSize
    ensures created && code == -18 ==>
      (AllFit(disk.fileAt, paths) && |Joined(disk.fileAt, paths)| != disk.fileAt(paths[0]).header.totalSize > 0)
    ensures created ==> code in {0, -8, -9, -10, -13, -14, -18, -99}
    ensures !created ==> code in {-1, -2, -3, -4, -5, -6, -7, -18}
    ensures !created && code in {-1, -3, -5, -6, -18} ==> !Belong(disk.fileAt, paths)
  {
    hide Fits, SliceOf, Belong, SizeSum, Raw;
    created, flushed := false, false;
    var total: nat;
    code, total := CheckHeaders(disk, paths);
    if code != 0 { return; }
    var opens := out.Create();
    if !opens { return -7, created, flushed; }
    created := true;
    var memory: bool := *;
    if !memory {
      flushed := out.Close();
      out.Unlink();
      return -8, created, flushed;
    }
    var written;
    code, written := AppendAll(disk, paths, out);
    flushed := out.Close();
    if code != 0 {
      out.Unlink();
      return;
    }
    if total > 0 && written != total {
      out.Unlink();
      return -18, created, flushed;
    }
  }

  /** The loop over the parts. */
  method AppendAll(disk: Disk, paths: seq<string>, out: Output) returns (code: int, written: nat)
    requires forall k | 0 <= k < |paths| :: Raw(disk.fileAt(paths[k]).header)
    requires out.Accepted() == []
    modifies out`data, out`buffer
    ensures code in {0, -9, -10, -13, -14, -99}
    ensures code == 0 ==> AllFit(disk.fileAt, paths) && out.Accepted() == Joined(disk.fileAt, paths)
    ensures code == 0 ==> written == |Joined(disk.fileAt, paths)|
  {
    hide Fits, SliceOf, Raw;
    code, written := 0, 0;
    var k := 0;
    while k < |paths| && code == 0
      invariant k <= |paths| && code in {0, -9, -10, -13, -14, -99}
      invariant code == 0 ==> AllFit(disk.fileAt, paths[..k]) && out.Accepted() == Joined(disk.fileAt, paths[..k])
      invariant code == 0 ==> written == |out.Accepted()|
      decreases |paths| - k
    {
      code, written := AppendSlice(disk, paths[k], out, written);
      if code == 0 { SliceLength(disk.fileAt(paths[k])); }
      assert paths[..k + 1][..k] == paths[..k];
      k := k + 1;
    }
    assert code == 0 ==> paths[..k] == paths;
  }

  lemma SliceLength(f: PartFile)
    requires Fits(f)
    ensures |SliceOf(f)| == f.header.dataSize
  {}

  // ---------------------------------------------------------------- the two readers agree

  /** The paths name the parts of a package in order, all raw, and both readers look for the slices at the same place:
      see StartsAgree. */
  ghost predicate Whole(fileAt: string -> PartFile, paths: seq<string>, p: Package) {
    && PackageOk(p) && |paths| == Parts(p)
    && forall k | 0 <= k < |paths| :: IsPart(fileAt(paths[k]), p, k) && Raw(fileAt(paths[k]).header)
         && AssembleStart(fileAt(paths[k]).header) == Some(StreamStart(fileAt(paths[k]).header))
  }

  lemma WholeSlice(f: PartFile, p: Package, k: nat)
    requires PackageOk(p) && IsPart(f, p, k) && AssembleStart(f.header) == Some(StreamStart(f.header))
    ensures Fits(f) && SliceOf(f) == p.data[p.cuts[k]..p.cuts[k + 1]] && f.header.dataSize == p.cuts[k + 1] - p.cuts[k]
  {
    hide ValidHeader, Even, StreamStart, AssembleStart;
  }

  /** The joined slices are the package, and their sizes add up to its size. */
  lemma {:induction false} WholeJoined(fileAt: string -> PartFile, paths: seq<string>, p: Package, n: nat)
    requires Whole(fileAt, paths, p) && n <= |paths|
    ensures AllFit(fileAt, paths[..n]) && Joined(fileAt, paths[..n]) == p.data[..p.cuts[n]]
    ensures SizeSum(fileAt, paths[..n]) == p.cuts[n]
    decreases n
  {
    hide IsPart, Fits, SliceOf, Raw, StreamStart, AssembleStart;
    if n > 0 {
      WholeJoined(fileAt, paths, p, n - 1);
      WholeSlice(fileAt(paths[n - 1]), p, n - 1);
      assert paths[..n][..n - 1] == paths[..n - 1];
      assert n < |p.cuts| - 1 ==> p.cuts[n] < p.cuts[|p.cuts| - 1];
      CutJoins(p.data, p.cuts[n - 1], p.cuts[n]);
    }
  }

  lemma CutJoins(data: string, i: nat, j: nat)
    requires i <= j <= |data|
    ensures data[..j] == data[..i] + data[i..j]
  {}

  /** The parts of a package always pass the header checks. */
  lemma WholeBelongs(fileAt: string -> PartFile, paths: seq<string>, p: Package)
    requires Whole(fileAt, paths, p)
    ensures Belong(fileAt, paths) && fileAt(paths[0]).header.totalSize == |p.data|
    ensures AllFit(fileAt, paths) && Joined(fileAt, paths) == p.data
  {
    hide Fits, SliceOf, StreamStart, AssembleStart, Joined, SizeSum, Even;
    WholeJoined(fileAt, paths, p, |paths|);
    assert paths[..|paths|] == paths;
    assert IsPart(fileAt(paths[0]), p, 0);
    forall k | 1 <= k < |paths| ensures Follows(fileAt(paths[0]).header, fileAt(paths[k]).header, k, |paths|) {
      assert IsPart(fileAt(paths[k]), p, k);
    }
    assert p.data[..|p.data|] == p.data;
  }

  /** Installing a package by assembling it and by streaming it hand over the same bytes, the package itself; and the
      assembler can then only fail for lack of a readable part, of memory or of room, or because it was canceled. */
  method AssembleAndStream(disk: Disk, paths: seq<string>, out: Output, lib: D.Library, buf: array<char>, block: nat)
      returns (code: int, complete: bool, data: string, ghost flushed: bool)
    requires lib.Valid() && lib.fileAt == disk.fileAt && Whole(disk.fileAt, paths, lib.package)
    requires 0 < block <= buf.Length
    modifies out, buf
    ensures code == 0 ==> out.present && out.data <= lib.package.data && (flushed <==> out.data == lib.package.data)
    ensures complete ==> data == lib.package.data
    ensures code in {0, -2, -4, -7, -8, -9, -10, -13, -14, -99}
  {
    hide IsPart, Belong, Joined, Fits, AssembleStart, StreamStart, PackageOk;
    WholeBelongs(disk.fileAt, paths, lib.package);
    assert PackageOk(lib.package) && lib.Names(paths[0], 0) by { FirstNamed(lib, paths); }
    ghost var created: bool;
    code, created, flushed := Assemble(disk, paths, out);
    var s := V.Open(lib, paths[0]);
    if s == null { return code, false, [], flushed; }
    complete, data := V.ReadThrough(s, buf, block);
  }

  lemma FirstNamed(lib: D.Library, paths: seq<string>)
    requires Whole(lib.fileAt, paths, lib.package)
    ensures |paths| > 0 && PackageOk(lib.package) && lib.Names(paths[0], 0)
  {}
}
