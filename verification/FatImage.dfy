/** What a FAT16 image that holds a list of files looks like, byte by byte. */
module FatImage {
  import opened Wrappers
  import opened Bytes
  import opened FatSizing

  /** A file with its name already split at the dot and upper-cased. */
  datatype File = File(stem: seq<Byte>, ext: seq<Byte>, content: seq<Byte>)

  const SPACE: Byte := 0x20
  const END_OF_CHAIN: nat := 0xFFFF
  const END_MARK: nat := 0xFFF8

  function Padded(s: seq<Byte>, n: nat): (r: seq<Byte>)
    requires |s| <= n
    ensures |r| == n
  {
    s + seq(n - |s|, _ => SPACE)
  }

  /** An 8.3 name, and one a directory search does not take for the end of the directory. */
  predicate Named(f: File) {
    |f.stem| <= 8 && |f.ext| <= 3 && (|f.stem| > 0 ==> f.stem[0] != 0)
  }

  predicate AllNamed(files: seq<File>) {
    forall i: nat | i < |files| :: Named(files[i])
  }

  function Name11(f: File): (n: seq<Byte>)
    requires Named(f)
    ensures |n| == 11
  {
    Padded(f.stem, 8) + Padded(f.ext, 3)
  }

  function ClusterCount(f: File): (n: nat)
    ensures n >= 1 && 512 * (n - 1) <= |f.content| <= 512 * n
  {
    var n := CeilDiv(|f.content|, 512);
    if n < 1 then 1 else n
  }

  /** The first cluster of file `i`; one past the last file, the first free cluster. */
  function StartOf(files: seq<File>, i: nat): (c: nat)
    requires i <= |files|
    ensures c >= 2 + i
  {
    if i == 0 then 2 else StartOf(files, i - 1) + ClusterCount(files[i - 1])
  }

  lemma {:induction false} StartMonotone(files: seq<File>, i: nat, j: nat)
    requires i < j <= |files|
    ensures StartOf(files, i) + ClusterCount(files[i]) <= StartOf(files, j)
    decreases j
  {
    if i < j - 1 { StartMonotone(files, i, j - 1); }
  }

  /** The sizes the writer accepts, with `fs` FAT sectors. */
  predicate Geometry(total: nat, fs: nat) {
    fs <= 256 && MIN_CLUSTERS <= total - DataLba(fs) <= MAX_CLUSTERS
  }

  /** All files have a directory entry, all clusters a FAT entry and a data sector. */
  predicate Fits(total: nat, fs: nat, files: seq<File>) {
    && |files| <= ROOT_ENTRIES
    && StartOf(files, |files|) <= 256 * fs
    && StartOf(files, |files|) - 2 <= total - DataLba(fs)
  }

  /** All files have a directory entry and all clusters a data sector; at most four clusters have no FAT
      entry, which is all an accepted size can lack. */
  predicate HasSectors(total: nat, fs: nat, files: seq<File>) {
    && |files| <= ROOT_ENTRIES && fs >= 1
    && StartOf(files, |files|) <= 256 * fs + 4
    && StartOf(files, |files|) - 2 <= total - DataLba(fs)
  }

  function FatByte(fs: nat, copy: nat): nat
    requires copy < 2
  {
    if copy == 0 then 512 else 512 + 512 * fs
  }

  function DirByte(fs: nat, i: nat): nat { 512 * RootLba(fs) + 32 * i }

  function DataByte(fs: nat, cluster: nat): nat
    requires cluster >= 2
  {
    512 * DataLba(fs) + 512 * (cluster - 2)
  }

  function Link(start: nat, n: nat, k: nat): nat { if k + 1 == n then END_OF_CHAIN else start + k + 1 }

  function LinkByte(fs: nat, copy: nat, cluster: nat): nat
    requires copy < 2
  {
    FatByte(fs, copy) + 2 * cluster
  }

  /** The fixed first part of the boot sector, up to the directory size. */
  function BootHead(): (b: seq<Byte>)
    ensures |b| == 19
  {
    Zeros(11) + Le16(512) + [1] + Le16(RESERVED) + [NUM_FATS] + Le16(ROOT_ENTRIES)
  }

  /** The part that depends on the volume, down to the signature. */
  function BootTail(total: nat, fs: nat): (b: seq<Byte>)
    requires total < U32_LIMIT && fs < U16_LIMIT
    ensures |b| == 493
  {
    Le16(if total < U16_LIMIT then total else 0) + [0] + Le16(fs) + Zeros(8)
    + (if total >= U16_LIMIT then Le32(total) else Zeros(4)) + Zeros(474) + [0x55, 0xAA]
  }

  function BootSector(total: nat, fs: nat): (b: seq<Byte>)
    requires total < U32_LIMIT && fs < U16_LIMIT
    ensures |b| == 512
  {
    BootHead() + BootTail(total, fs)
  }

  function DirEntry(f: File, start: nat): (e: seq<Byte>)
    requires Named(f) && start < U16_LIMIT && |f.content| < U32_LIMIT
    ensures |e| == 32 && e[..11] == Name11(f)
  {
    Name11(f) + [0x20] + Zeros(14) + Le16(start) + Le32(|f.content|)
  }

  // What the three structures say, byte by byte.

  /** Stem and extension, each filled up with blanks. */
  lemma NameBytes(f: File)
    requires Named(f)
    ensures forall j: nat | j < 8 :: Name11(f)[j] == if j < |f.stem| then f.stem[j] else 0x20
    ensures forall j: nat | j < 3 :: Name11(f)[8 + j] == if j < |f.ext| then f.ext[j] else 0x20
  {
  }

  /** Name, attribute, first cluster and size; the rest is zero. */
  lemma DirEntryBytes(f: File, start: nat)
    requires Named(f) && start < U16_LIMIT && |f.content| < U32_LIMIT
    ensures
      var e := DirEntry(f, start);
      && e[..11] == Name11(f) && e[11] == 0x20 && (forall j: nat | 12 <= j < 26 :: e[j] == 0)
      && U16(e, 26) == start && U32(e, 28) == |f.content|
  {
    var e := DirEntry(f, start);
    assert e[26..28] == Le16(start) && e[28..32] == Le32(|f.content|);
    Le16Read(e, 26, start);
    Le32Read(e, 28, |f.content|);
  }

  /** The fields of the boot sector; the sector count stands in the short field if it fits, else in the long one. */
  lemma BootBytes(total: nat, fs: nat)
    requires total < U32_LIMIT && fs < U16_LIMIT
    ensures
      var b := BootSector(total, fs);
      && U16(b, 11) == 512 && b[13] == 1 && U16(b, 14) == 1 && b[16] == 2 && U16(b, 17) == 512
      && U16(b, 19) == (if total < 0x1_0000 then total else 0) && U16(b, 22) == fs
      && U32(b, 32) == (if total < 0x1_0000 then 0 else total) && b[510] == 0x55 && b[511] == 0xAA
    ensures forall j: nat | j < 11 || j == 21 || 24 <= j < 32 || 36 <= j < 510 :: BootSector(total, fs)[j] == 0
  {
    HeadBytes();
    TailBytes(total, fs);
    var b, t := BootSector(total, fs), BootTail(total, fs);
    assert b[19..] == t && b[..19] == BootHead();
    CutU16(b, 0, 19, 11); CutU16(b, 0, 19, 14); CutU16(b, 0, 19, 17);
    CutU16(b, 19, 512, 0); CutU16(b, 19, 512, 3); CutU32(b, 19, 512, 13);
    assert b[13] == b[..19][13] && b[16] == b[..19][16];
    assert forall j: nat | j < 493 :: b[19 + j] == t[j];
  }

  lemma HeadBytes()
    ensures
      var h := BootHead();
      && U16(h, 11) == 512 && h[13] == 1 && U16(h, 14) == 1 && h[16] == 2 && U16(h, 17) == 512
      && forall j: nat | j < 11 :: h[j] == 0
  {
    var h := BootHead();
    assert h[11..13] == Le16(512) && h[14..16] == Le16(1) && h[17..19] == Le16(512);
    Le16Read(h, 11, 512); Le16Read(h, 14, 1); Le16Read(h, 17, 512);
  }

  lemma TailBytes(total: nat, fs: nat)
    requires total < U32_LIMIT && fs < U16_LIMIT
    ensures
      var t := BootTail(total, fs);
      && U16(t, 0) == (if total < 0x1_0000 then total else 0) && U16(t, 3) == fs
      && U32(t, 13) == (if total < 0x1_0000 then 0 else total) && t[491] == 0x55 && t[492] == 0xAA
      && forall j: nat | j == 2 || 5 <= j < 13 || 17 <= j < 491 :: t[j] == 0
  {
    var t, small := BootTail(total, fs), if total < U16_LIMIT then total else 0;
    var long := if total >= U16_LIMIT then Le32(total) else Zeros(4);
    assert Le32(0) == Zeros(4);
    assert t[0..2] == Le16(small) && t[3..5] == Le16(fs) && t[13..17] == long;
    Le16Read(t, 0, small);
    Le16Read(t, 3, fs);
    Le32Read(t, 13, if total >= U16_LIMIT then total else 0);
  }

  ghost predicate LinkStored(d: seq<Byte>, base: nat, fs: nat, start: nat, n: nat, copy: nat, k: nat)
    requires copy < 2
  {
    Link(start, n, k) < U16_LIMIT && HoldsAt(d, base + LinkByte(fs, copy, start + k), Le16(Link(start, n, k)))
  }

  ghost predicate ChainStored(d: seq<Byte>, base: nat, fs: nat, start: nat, n: nat, upTo: nat) {
    forall copy: nat, k: nat | copy < 2 && k < upTo :: LinkStored(d, base, fs, start, n, copy, k)
  }

  ghost predicate FileStored(d: seq<Byte>, base: nat, fs: nat, files: seq<File>, i: nat)
    requires i < |files|
  {
    var f, start, n := files[i], StartOf(files, i), ClusterCount(files[i]);
    && Named(f) && start < U16_LIMIT && |f.content| < U32_LIMIT
    && ChainStored(d, base, fs, start, n, n)
    && HoldsAt(d, base + DataByte(fs, start), f.content)
    && HoldsAt(d, base + DirByte(fs, i), DirEntry(f, start))
  }

  /** The image at `base` holds exactly `files`: boot sector, both chains, contents, directory, and
      after the last directory entry only unused ones. */
  ghost predicate ImageHolds(d: seq<Byte>, base: nat, total: nat, fs: nat, files: seq<File>) {
    && Geometry(total, fs) && Fits(total, fs, files)
    && base + 512 * total <= |d|
    && HoldsAt(d, base, BootSector(total, fs))
    && AllNamed(files) && (forall i: nat | i < |files| :: FileStored(d, base, fs, files, i))
    && UnusedFrom(d, base, fs, |files|)
  }

  /** The directory entries from `i` on are all zero. */
  ghost predicate UnusedFrom(d: seq<Byte>, base: nat, fs: nat, i: nat) {
    && base + DirByte(fs, ROOT_ENTRIES) <= |d|
    && forall pos: nat | base + DirByte(fs, i) <= pos < base + DirByte(fs, ROOT_ENTRIES) :: d[pos] == 0
  }

  /** Where file `i` lies: two FAT runs, a run of data sectors, a directory entry. */
  ghost predicate InFile(fs: nat, files: seq<File>, i: nat, pos: nat)
    requires i < |files|
  {
    var start, n := StartOf(files, i), ClusterCount(files[i]);
    || LinkByte(fs, 0, start) <= pos < LinkByte(fs, 0, start + n)
    || LinkByte(fs, 1, start) <= pos < LinkByte(fs, 1, start + n)
    || DataByte(fs, start) <= pos < DataByte(fs, start) + 512 * n
    || DirByte(fs, i) <= pos < DirByte(fs, i) + 32
  }

  /** Behind the boot sector every byte that belongs to none of the first `n` files is zero. */
  ghost predicate BlankBut(d: seq<Byte>, fs: nat, files: seq<File>, n: nat)
    requires n <= |files|
  {
    forall pos: nat | 512 <= pos < |d| && OutsideFiles(fs, files, n, pos) :: d[pos] == 0
  }

  ghost predicate OutsideFiles(fs: nat, files: seq<File>, n: nat, pos: nat)
    requires n <= |files|
  {
    forall j: nat | j < n :: !InFile(fs, files, j, pos)
  }

  /** No two files share a byte -- in particular no cluster. */
  lemma FilesDisjoint(total: nat, fs: nat, files: seq<File>, i: nat, j: nat, pos: nat)
    requires Fits(total, fs, files) && i < |files| && j < |files| && i != j
    ensures !(InFile(fs, files, i, pos) && InFile(fs, files, j, pos))
  {
    if i < j { LaterFileApart(total, fs, files, i, j, pos); } else { LaterFileApart(total, fs, files, j, i, pos); }
  }

  lemma LaterFileApart(total: nat, fs: nat, files: seq<File>, i: nat, j: nat, pos: nat)
    requires Fits(total, fs, files) && i < j < |files|
    ensures !(InFile(fs, files, i, pos) && InFile(fs, files, j, pos))
  {
    StartMonotone(files, i, j);
    StartMonotone(files, j, |files|);
  }

  /** What a file needs is preserved by any change outside the file. */
  lemma StoredElsewhere(d: seq<Byte>, e: seq<Byte>, fs: nat, files: seq<File>, i: nat)
    requires i < |files| && |d| == |e|
    requires FileStored(d, 0, fs, files, i)
    requires forall pos: nat | pos < |d| && InFile(fs, files, i, pos) :: e[pos] == d[pos]
    ensures FileStored(e, 0, fs, files, i)
  {
    var f, start, n := files[i], StartOf(files, i), ClusterCount(files[i]);
    forall copy: nat, k: nat | copy < 2 && k < n
      ensures LinkStored(e, 0, fs, start, n, copy, k)
    {
      assert LinkStored(d, 0, fs, start, n, copy, k);
      HoldsElsewhere(d, e, 0 + LinkByte(fs, copy, start + k), Le16(Link(start, n, k)));
    }
    HoldsElsewhere(d, e, 0 + DataByte(fs, start), f.content);
    HoldsElsewhere(d, e, 0 + DirByte(fs, i), DirEntry(f, start));
  }

  lemma FileCopied(img: seq<Byte>, d: seq<Byte>, base: nat, fs: nat, files: seq<File>, i: nat)
    requires i < |files| && FileStored(img, 0, fs, files, i)
    requires base + |img| <= |d| && d[base..base + |img|] == img
    ensures FileStored(d, base, fs, files, i)
  {
    var f, start, n := files[i], StartOf(files, i), ClusterCount(files[i]);
    forall copy: nat, k: nat | copy < 2 && k < n
      ensures LinkStored(d, base, fs, start, n, copy, k)
    {
      assert LinkStored(img, 0, fs, start, n, copy, k);
      HoldsCopied(img, d, base, LinkByte(fs, copy, start + k), Le16(Link(start, n, k)));
    }
    HoldsCopied(img, d, base, DataByte(fs, start), f.content);
    HoldsCopied(img, d, base, DirByte(fs, i), DirEntry(f, start));
  }

  /** An image keeps its meaning wherever it is copied to. */
  lemma ImageCopied(img: seq<Byte>, d: seq<Byte>, base: nat, total: nat, fs: nat, files: seq<File>)
    requires ImageHolds(img, 0, total, fs, files) && base + |img| <= |d| && d[base..base + |img|] == img
    ensures ImageHolds(d, base, total, fs, files)
  {
    forall i: nat | i < |files|
      ensures FileStored(d, base, fs, files, i)
    {
      FileCopied(img, d, base, fs, files, i);
    }
    HoldsCopied(img, d, base, 0, BootSector(total, fs));
    UnusedCopied(img, d, base, fs, |files|);
  }

  lemma UnusedCopied(img: seq<Byte>, d: seq<Byte>, base: nat, fs: nat, i: nat)
    requires UnusedFrom(img, 0, fs, i) && base + |img| <= |d| && d[base..base + |img|] == img
    ensures UnusedFrom(d, base, fs, i)
  {
    var w := d[base..base + |img|];
    forall pos: nat | base + DirByte(fs, i) <= pos < base + DirByte(fs, ROOT_ENTRIES)
      ensures d[pos] == 0
    {
      assert w[pos - base] == d[pos];
    }
  }

  lemma FileKept(d: seq<Byte>, e: seq<Byte>, base: nat, total: nat, fs: nat, files: seq<File>, i: nat)
    requires Geometry(total, fs) && Fits(total, fs, files) && i < |files| && FileStored(d, base, fs, files, i)
    requires |d| == |e| && base + 512 * total <= |d|
    requires forall pos: nat | base <= pos < base + 512 * total :: e[pos] == d[pos]
    ensures FileStored(e, base, fs, files, i)
  {
    var f, start, n := files[i], StartOf(files, i), ClusterCount(files[i]);
    StartMonotone(files, i, |files|);
    LinksKept(d, e, base, total, fs, start, n);
    HoldsElsewhere(d, e, base + DataByte(fs, start), f.content);
    HoldsElsewhere(d, e, base + DirByte(fs, i), DirEntry(f, start));
  }

  lemma LinksKept(d: seq<Byte>, e: seq<Byte>, base: nat, total: nat, fs: nat, start: nat, n: nat)
    requires Geometry(total, fs) && start + n <= 256 * fs && ChainStored(d, base, fs, start, n, n)
    requires |d| == |e| && base + 512 * total <= |d|
    requires forall pos: nat | base <= pos < base + 512 * total :: e[pos] == d[pos]
    ensures ChainStored(e, base, fs, start, n, n)
  {
    forall copy: nat, k: nat | copy < 2 && k < n
      ensures LinkStored(e, base, fs, start, n, copy, k)
    {
      assert LinkStored(d, base, fs, start, n, copy, k);
      HoldsElsewhere(d, e, base + LinkByte(fs, copy, start + k), Le16(Link(start, n, k)));
    }
  }

  /** Nothing outside the volume matters to it. */
  lemma ImageKept(d: seq<Byte>, e: seq<Byte>, base: nat, total: nat, fs: nat, files: seq<File>)
    requires ImageHolds(d, base, total, fs, files) && |d| == |e|
    requires forall pos: nat | base <= pos < base + 512 * total :: e[pos] == d[pos]
    ensures ImageHolds(e, base, total, fs, files)
  {
    forall i: nat | i < |files|
      ensures FileStored(e, base, fs, files, i)
    {
      FileKept(d, e, base, total, fs, files, i);
    }
    HoldsElsewhere(d, e, base, BootSector(total, fs));
  }
}
