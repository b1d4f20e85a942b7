/** The disk-image tool's FAT16 builder: a zeroed buffer, written in place. */
module FatWriter {
  import opened Wrappers
  import opened Bytes
  import opened FatSizing
  import opened FatImage

  method WriteBootHead(img: array<Byte>)
    requires img.Length >= 512 && img[..] == Zeros(img.Length)
    modifies img
    ensures img[..] == BootHead() + Zeros(img.Length - 19)
  {
    assert img[..] == [] + Zeros(img.Length);
    ghost var w: seq<Byte> := [];
    w := PutNext(img, w, 11, Le16(512));
    assert w == Zeros(11) + Le16(512);
    w := PutNext(img, w, 13, [1]);
    w := PutNext(img, w, 14, Le16(RESERVED));
    w := PutNext(img, w, 16, [NUM_FATS]);
    w := PutNext(img, w, 17, Le16(ROOT_ENTRIES));
    assert w == BootHead();
  }

  method WriteBootTail(img: array<Byte>, total: nat, fs: nat, ghost head: seq<Byte>)
    requires total < U32_LIMIT && fs < U16_LIMIT && img.Length == 512 * total && total > 0
    requires |head| == 19 && img[..] == head + Zeros(img.Length - 19)
    modifies img
    ensures img[..] == head + BootTail(total, fs) + Zeros(img.Length - 512)
  {
    ghost var w := head;
    var small := if total < U16_LIMIT then total else 0;
    w := PutNext(img, w, 19, Le16(small));
    w := PutNext(img, w, 22, Le16(fs));
    ghost var t := Le16(small) + [0] + Le16(fs);
    assert w == head + t;
    if total >= U16_LIMIT {
      w := PutNext(img, w, 32, Le32(total));
      t := t + Zeros(8) + Le32(total);
      assert w == head + t;
    }
    w := PutNext(img, w, 510, [0x55]);
    w := PutNext(img, w, 511, [0xAA]);
    BootComplete(total, fs, head, t, w);
  }

  method WriteBootSector(img: array<Byte>, total: nat, fs: nat)
    requires total < U32_LIMIT && fs < U16_LIMIT && img.Length == 512 * total && total > 0
    requires img[..] == Zeros(img.Length)
    modifies img
    ensures img[..] == BootSector(total, fs) + Zeros(img.Length - 512)
  {
    WriteBootHead(img);
    WriteBootTail(img, total, fs, BootHead());
  }

  lemma BootComplete(total: nat, fs: nat, head: seq<Byte>, t: seq<Byte>, w: seq<Byte>)
    requires total < U32_LIMIT && fs < U16_LIMIT && |head| == 19
    requires t == Le16(if total < U16_LIMIT then total else 0) + [0] + Le16(fs)
                  + (if total >= U16_LIMIT then Zeros(8) + Le32(total) else [])
    requires w == head + t + Zeros(510 - 19 - |t|) + [0x55] + Zeros(0) + [0xAA]
    ensures w == head + BootTail(total, fs)
  {
    assert w == head + (t + Zeros(491 - |t|) + [0x55, 0xAA]);
    if total < U16_LIMIT {
      assert Zeros(486) == Zeros(8) + Zeros(4) + Zeros(474);
    }
    assert t + Zeros(491 - |t|) + [0x55, 0xAA] == BootTail(total, fs);
  }

  /** One cluster: its link in both FATs and its part of the content. */
  function ClusterWritten(d: seq<Byte>, fs: nat, start: nat, n: nat, k: nat, content: seq<Byte>): (e: seq<Byte>)
    requires start >= 2 && k < n && 512 * k <= |content| && Link(start, n, k) < U16_LIMIT
    requires LinkByte(fs, 0, start + k) + 2 <= LinkByte(fs, 1, start + k)
    requires LinkByte(fs, 1, start + k) + 2 <= DataByte(fs, start + k)
    requires DataByte(fs, start + k) + 512 <= |d|
    ensures |e| == |d|
  {
    var link := Le16(Link(start, n, k));
    Splice(Splice(Splice(d, LinkByte(fs, 0, start + k), link), LinkByte(fs, 1, start + k), link),
           DataByte(fs, start + k), Part(content, k))
  }

  method WriteCluster(img: array<Byte>, fs: nat, start: nat, n: nat, k: nat, content: seq<Byte>)
    requires start >= 2 && k < n && 512 * k <= |content| && Link(start, n, k) < U16_LIMIT
    requires LinkByte(fs, 0, start + k) + 2 <= LinkByte(fs, 1, start + k)
    requires LinkByte(fs, 1, start + k) + 2 <= DataByte(fs, start + k)
    requires DataByte(fs, start + k) + 512 <= img.Length
    modifies img
    ensures img[..] == ClusterWritten(old(img[..]), fs, start, n, k, content)
  {
    var c := start + k;
    var next := if k + 1 == n then END_OF_CHAIN else c + 1;
    assert next == Link(start, n, k);
    ghost var d := img[..];
    PutThree(img, LinkByte(fs, 0, c), LinkByte(fs, 1, c), DataByte(fs, c), Le16(next), Part(content, k));
    ghost var link := Le16(Link(start, n, k));
    calc {
      img[..];
      Splice(Splice(Splice(d, LinkByte(fs, 0, start + k), link), LinkByte(fs, 1, start + k), link),
             DataByte(fs, start + k), Part(content, k));
      ClusterWritten(d, fs, start, n, k, content);
    }
  }

  method PutThree(img: array<Byte>, a: nat, b: nat, c: nat, link: seq<Byte>, part: seq<Byte>)
    requires a + |link| <= b && b + |link| <= c && c + |part| <= img.Length
    modifies img
    ensures img[..] == Splice(Splice(Splice(old(img[..]), a, link), b, link), c, part)
  {
    Put(img, a, link);
    Put(img, b, link);
    Put(img, c, part);
  }

  /** The clusters have sectors in the image, and at most four of them no entry in a FAT. */
  predicate InImage(total: nat, fs: nat, start: nat, n: nat) {
    start >= 2 && fs >= 1 && start + n <= 256 * fs + 4 && start + n - 2 <= total - DataLba(fs)
  }

  /** Nor do the links run into one another: the first FAT's may reach into the second and the second's
      into the directory, but neither reaches this file's own. */
  predicate Linkable(total: nat, fs: nat, start: nat, n: nat) { InImage(total, fs, start, n) && n <= 256 * fs }

  lemma ClusterBounds(total: nat, fs: nat, start: nat, n: nat, k: nat)
    requires Geometry(total, fs) && k < n && InImage(total, fs, start, n)
    ensures Link(start, n, k) < U16_LIMIT && fs <= 256
    ensures LinkByte(fs, 0, start + k) + 2 <= LinkByte(fs, 1, start + k)
    ensures LinkByte(fs, 1, start + k) + 2 <= DataByte(fs, start + k)
    ensures DataByte(fs, start + k) + 512 <= 512 * total
  {
  }

  lemma ThreeWrites(d: seq<Byte>, a: nat, b: nat, c: nat, link: seq<Byte>, part: seq<Byte>)
    requires a + |link| <= b && b + |link| <= c && c + |part| <= |d|
    ensures
      var e := Splice(Splice(Splice(d, a, link), b, link), c, part);
      && |e| == |d| && HoldsAt(e, a, link) && HoldsAt(e, b, link) && HoldsAt(e, c, part)
      && forall pos: nat | pos < |d| && !(a <= pos < a + |link|) && !(b <= pos < b + |link|)
          && !(c <= pos < c + |part|) ::
           e[pos] == d[pos]
  {
    var d1 := Splice(d, a, link);
    var d2 := Splice(d1, b, link);
    var e := Splice(d2, c, part);
    SpliceFacts(d, a, link);
    SpliceFacts(d1, b, link);
    SpliceFacts(d2, c, part);
    HoldsElsewhere(d1, d2, a, link);
    HoldsElsewhere(d2, e, a, link);
    HoldsElsewhere(d2, e, b, link);
  }

  /** The content of cluster `k`: a full sector, or what is left. */
  function Part(content: seq<Byte>, k: nat): (p: seq<Byte>)
    requires 512 * k <= |content|
    ensures |p| <= 512
  {
    content[512 * k..if 512 * (k + 1) < |content| then 512 * (k + 1) else |content|]
  }

  ghost predicate InCluster(fs: nat, c: nat, len: nat, pos: nat)
    requires c >= 2
  {
    || LinkByte(fs, 0, c) <= pos < LinkByte(fs, 0, c) + 2
    || LinkByte(fs, 1, c) <= pos < LinkByte(fs, 1, c) + 2
    || DataByte(fs, c) <= pos < DataByte(fs, c) + len
  }

  function Written(content: seq<Byte>, k: nat): seq<Byte> {
    content[..if 512 * k < |content| then 512 * k else |content|]
  }

  /** Cluster `k` stands in `e`, which differs from `d` in nothing else. */
  ghost predicate ClusterSet(d: seq<Byte>, e: seq<Byte>, fs: nat, start: nat, n: nat, k: nat, content: seq<Byte>)
    requires start >= 2 && 512 * k <= |content|
  {
    && |e| == |d| && LinkStored(e, 0, fs, start, n, 0, k) && LinkStored(e, 0, fs, start, n, 1, k)
    && HoldsAt(e, DataByte(fs, start + k), Part(content, k))
    && forall pos: nat | pos < |d| && !InCluster(fs, start + k, |Part(content, k)|, pos) :: e[pos] == d[pos]
  }

  lemma ClusterIsSet(d: seq<Byte>, e: seq<Byte>, total: nat, fs: nat, start: nat, n: nat, k: nat, content: seq<Byte>)
    requires Geometry(total, fs) && |d| == 512 * total && k < n && InImage(total, fs, start, n) && 512 * k <= |content|
    requires e == ClusterWritten(d, fs, start, n, k, content)
    ensures ClusterSet(d, e, fs, start, n, k, content)
  {
    ClusterBounds(total, fs, start, n, k);
    ThreeWrites(d, LinkByte(fs, 0, start + k), LinkByte(fs, 1, start + k), DataByte(fs, start + k),
                Le16(Link(start, n, k)), Part(content, k));
  }

  /** One more cluster extends the chain and the content written so far. */
  lemma ClusterExtends(d: seq<Byte>, e: seq<Byte>, total: nat, fs: nat, start: nat, n: nat, k: nat, content: seq<Byte>)
    requires Geometry(total, fs) && |d| == |e| == 512 * total
    requires k < n && Linkable(total, fs, start, n)
    requires 512 * k <= |content|
    requires ChainStored(d, 0, fs, start, n, k) && HoldsAt(d, DataByte(fs, start), Written(content, k))
    requires ClusterSet(d, e, fs, start, n, k, content)
    ensures ChainStored(e, 0, fs, start, n, k + 1) && HoldsAt(e, DataByte(fs, start), Written(content, k + 1))
  {
    ChainExtends(d, e, total, fs, start, n, k, |Part(content, k)|);
    ContentExtends(d, e, total, fs, start, n, k, content);
  }

  lemma ChainExtends(d: seq<Byte>, e: seq<Byte>, total: nat, fs: nat, start: nat, n: nat, k: nat, len: nat)
    requires Geometry(total, fs) && |d| == |e| == 512 * total
    requires k < n && Linkable(total, fs, start, n)
    requires ChainStored(d, 0, fs, start, n, k)
    requires LinkStored(e, 0, fs, start, n, 0, k) && LinkStored(e, 0, fs, start, n, 1, k)
    requires forall pos: nat | pos < |d| && !InCluster(fs, start + k, len, pos) :: e[pos] == d[pos]
    ensures ChainStored(e, 0, fs, start, n, k + 1)
  {
    forall copy: nat, j: nat | copy < 2 && j < k + 1
      ensures LinkStored(e, 0, fs, start, n, copy, j)
    {
      if j < k {
        assert LinkStored(d, 0, fs, start, n, copy, j);
        HoldsElsewhere(d, e, 0 + LinkByte(fs, copy, start + j), Le16(Link(start, n, j)));
      }
    }
  }

  lemma ContentExtends(d: seq<Byte>, e: seq<Byte>, total: nat, fs: nat, start: nat, n: nat, k: nat, content: seq<Byte>)
    requires Geometry(total, fs) && |d| == |e| == 512 * total
    requires k < n && Linkable(total, fs, start, n)
    requires 512 * k <= |content| && HoldsAt(d, DataByte(fs, start), Written(content, k))
    requires HoldsAt(e, DataByte(fs, start + k), Part(content, k))
    requires forall pos: nat | pos < |d| && !InCluster(fs, start + k, |Part(content, k)|, pos) :: e[pos] == d[pos]
    ensures HoldsAt(e, DataByte(fs, start), Written(content, k + 1))
  {
    HoldsElsewhere(d, e, DataByte(fs, start), Written(content, k));
    HoldsJoined(e, DataByte(fs, start), Written(content, k), Part(content, k));
    assert Written(content, k + 1) == Written(content, k) + Part(content, k);
  }

  method WriteEntry(img: array<Byte>, o: nat, f: File, start: nat)
    requires Named(f) && start < U16_LIMIT && |f.content| < U32_LIMIT && o + 32 <= img.Length
    requires forall j: nat | o + 12 <= j < o + 26 :: img[j] == 0
    modifies img
    ensures HoldsAt(img[..], o, DirEntry(f, start))
    ensures forall pos: nat | pos < img.Length && !(o <= pos < o + 32) :: img[pos] == old(img[..])[pos]
  {
    ghost var d := img[..];
    Put(img, o, Name11(f));
    Put(img, o + 11, [0x20]);
    Put(img, o + 26, Le16(start));
    Put(img, o + 28, Le32(|f.content|));
    EntryWritten(d, o, Name11(f), Le16(start), Le32(|f.content|));
  }

  lemma EntryWritten(d: seq<Byte>, o: nat, name: seq<Byte>, start: seq<Byte>, size: seq<Byte>)
    requires |name| == 11 && |start| == 2 && |size| == 4 && o + 32 <= |d|
    requires forall j: nat | o + 12 <= j < o + 26 :: d[j] == 0
    ensures
      var e := Splice(Splice(Splice(Splice(d, o, name), o + 11, [0x20]), o + 26, start), o + 28, size);
      && |e| == |d| && e[o..o + 32] == name + [0x20] + Zeros(14) + start + size
      && forall pos: nat | pos < |d| && !(o <= pos < o + 32) :: e[pos] == d[pos]
  {
    var d1 := Splice(d, o, name);
    var d2 := Splice(d1, o + 11, [0x20]);
    var d3 := Splice(d2, o + 26, start);
    var e := Splice(d3, o + 28, size);
    SpliceFacts(d, o, name);
    SpliceFacts(d1, o + 11, [0x20]);
    SpliceFacts(d2, o + 26, start);
    SpliceFacts(d3, o + 28, size);
    assert e[o..o + 11] == d1[o..o + 11] == name;
    assert e[o + 11..o + 12] == d2[o + 11..o + 12] == [0x20];
    assert e[o + 12..o + 26] == Zeros(14);
    assert e[o + 26..o + 28] == d3[o + 26..o + 28] == start;
    assert e[o..o + 32] == e[o..o + 11] + e[o + 11..o + 12] + e[o + 12..o + 26] + e[o + 26..o + 28] + e[o + 28..o + 32];
  }

  /** Chain and content of one file are stored once its entry is written too. */
  lemma EntryAdded(d: seq<Byte>, e: seq<Byte>, total: nat, fs: nat, files: seq<File>, i: nat)
    requires Geometry(total, fs) && Fits(total, fs, files) && i < |files| && Named(files[i]) && |d| == |e|
    requires StartOf(files, i) < U16_LIMIT && |files[i].content| < U32_LIMIT
    requires
      var start, n := StartOf(files, i), ClusterCount(files[i]);
      && ChainStored(d, 0, fs, start, n, n) && HoldsAt(d, DataByte(fs, start), files[i].content)
      && HoldsAt(e, DirByte(fs, i), DirEntry(files[i], start))
      && forall pos: nat | pos < |d| && !(DirByte(fs, i) <= pos < DirByte(fs, i) + 32) :: e[pos] == d[pos]
    ensures FileStored(e, 0, fs, files, i)
  {
    var start, n := StartOf(files, i), ClusterCount(files[i]);
    FileBounds(total, fs, files, i);
    ChainKept(d, e, fs, start, n, DirByte(fs, i));
    HoldsElsewhere(d, e, DataByte(fs, start), files[i].content);
  }

  lemma ChainKept(d: seq<Byte>, e: seq<Byte>, fs: nat, start: nat, n: nat, from: nat)
    requires start >= 2 && |d| == |e| && ChainStored(d, 0, fs, start, n, n) && start + n <= 256 * fs
    requires LinkByte(fs, 1, start + n) <= from
    requires forall pos: nat | pos < from && pos < |d| :: e[pos] == d[pos]
    ensures ChainStored(e, 0, fs, start, n, n)
  {
    forall copy: nat, k: nat | copy < 2 && k < n
      ensures LinkStored(e, 0, fs, start, n, copy, k)
    {
      assert LinkStored(d, 0, fs, start, n, copy, k);
      HoldsElsewhere(d, e, 0 + LinkByte(fs, copy, start + k), Le16(Link(start, n, k)));
    }
  }

  lemma FileBounds(total: nat, fs: nat, files: seq<File>, i: nat)
    requires Geometry(total, fs) && Fits(total, fs, files) && i < |files|
    ensures
      var start, n := StartOf(files, i), ClusterCount(files[i]);
      && start + n <= 256 * fs && start + n - 2 <= total - DataLba(fs)
      && start < U16_LIMIT && |files[i].content| < U32_LIMIT
    ensures DataByte(fs, StartOf(files, i)) + 512 * ClusterCount(files[i]) <= 512 * total
    ensures DirByte(fs, i) + 32 <= DirByte(fs, ROOT_ENTRIES) == 512 * DataLba(fs)
    ensures LinkByte(fs, 1, StartOf(files, i) + ClusterCount(files[i])) <= DirByte(fs, 0)
  {
    StartMonotone(files, i, |files|);
    var c: nat := StartOf(files, i) + ClusterCount(files[i]);
    assert LinkByte(fs, 1, c) == 512 + 512 * fs + 2 * c;
  }

  /** The same bounds where not every cluster has a FAT entry: the links end within the first entry's name. */
  lemma SectorBounds(total: nat, fs: nat, files: seq<File>, i: nat)
    requires Geometry(total, fs) && HasSectors(total, fs, files) && i < |files|
    ensures
      var start, n := StartOf(files, i), ClusterCount(files[i]);
      && InImage(total, fs, start, n) && start < U16_LIMIT && |files[i].content| < U32_LIMIT
      && StartOf(files, i + 1) == start + n
    ensures DirByte(fs, i) + 32 <= DirByte(fs, ROOT_ENTRIES) == 512 * DataLba(fs)
    ensures LinkByte(fs, 1, StartOf(files, i + 1)) <= DirByte(fs, 0) + 8
  {
    StartMonotone(files, i, |files|);
  }

  /** The first `k` clusters stand. */
  ghost predicate Standing(d: seq<Byte>, fs: nat, start: nat, n: nat, k: nat, content: seq<Byte>)
    requires start >= 2
  {
    ChainStored(d, 0, fs, start, n, k) && HoldsAt(d, DataByte(fs, start), Written(content, k))
  }

  /** What becomes of the first cluster's links: once the first FAT's links reach into the second, the
      one for a later cluster stands in the place of the second copy. */
  ghost predicate FirstLinks(d: seq<Byte>, fs: nat, start: nat, n: nat, k: nat) {
    && (k > 0 ==> Link(start, n, 0) < U16_LIMIT && HoldsAt(d, LinkByte(fs, 0, start), Le16(Link(start, n, 0))))
    && (256 * fs < k ==>
          && Link(start, n, 256 * fs) < U16_LIMIT
          && HoldsAt(d, LinkByte(fs, 1, start), Le16(Link(start, n, 256 * fs))))
  }

  /** The second FAT's link of the cluster before `c` ends a chain, wherever it lies. */
  ghost predicate EndMarked(d: seq<Byte>, fs: nat, c: nat)
    requires c >= 1
  {
    HoldsAt(d, LinkByte(fs, 1, c - 1), Le16(END_OF_CHAIN))
  }

  /** The chain and the sectors of one file. */
  method WriteClusters(img: array<Byte>, total: nat, fs: nat, start: nat, n: nat, content: seq<Byte>)
    requires Geometry(total, fs) && img.Length == 512 * total && InImage(total, fs, start, n)
    requires n >= 1 && 512 * (n - 1) <= |content| <= 512 * n
    modifies img
    ensures OutsideRuns(old(img[..]), img[..], fs, start, n)
    ensures n <= 256 * fs ==> ChainStored(img[..], 0, fs, start, n, n) && HoldsAt(img[..], DataByte(fs, start), content)
    ensures FirstLinks(img[..], fs, start, n, n) && EndMarked(img[..], fs, start + n)
  {
    ghost var d0 := img[..];
    NothingStands(img[..], total, fs, start, n, content);
    for k := 0 to n
      invariant OutsideRuns(d0, img[..], fs, start, n) && FirstLinks(img[..], fs, start, n, k)
      invariant n <= 256 * fs ==> Standing(img[..], fs, start, n, k, content)
      invariant k == n ==> EndMarked(img[..], fs, start + n)
    {
      ClusterBounds(total, fs, start, n, k);
      ghost var d := img[..];
      WriteCluster(img, fs, start, n, k, content);
      ClusterStep(d0, d, img[..], total, fs, start, n, k, content);
    }
    assert Written(content, n) == content;
  }

  lemma NothingStands(d: seq<Byte>, total: nat, fs: nat, start: nat, n: nat, content: seq<Byte>)
    requires Geometry(total, fs) && |d| == 512 * total && n >= 1 && InImage(total, fs, start, n)
    ensures Standing(d, fs, start, n, 0, content)
  {
    ClusterBounds(total, fs, start, n, 0);
    assert d[DataByte(fs, start)..DataByte(fs, start) + 0] == [];
  }

  lemma ClusterStep(d0: seq<Byte>, d: seq<Byte>, e: seq<Byte>, total: nat, fs: nat, start: nat, n: nat, k: nat,
                    content: seq<Byte>)
    requires Geometry(total, fs) && |d| == 512 * total && k < n && InImage(total, fs, start, n) && 512 * k <= |content|
    requires OutsideRuns(d0, d, fs, start, n) && FirstLinks(d, fs, start, n, k)
    requires n <= 256 * fs ==> Standing(d, fs, start, n, k, content)
    requires e == ClusterWritten(d, fs, start, n, k, content)
    ensures OutsideRuns(d0, e, fs, start, n) && FirstLinks(e, fs, start, n, k + 1)
    ensures n <= 256 * fs ==> Standing(e, fs, start, n, k + 1, content)
    ensures k + 1 == n ==> EndMarked(e, fs, start + n)
  {
    ClusterIsSet(d, e, total, fs, start, n, k, content);
    assert OutsideRuns(d0, e, fs, start, n) by { StillOutside(d0, d, e, fs, start, n, k, content); }
    assert FirstLinks(e, fs, start, n, k + 1) by { FirstLinksStep(d, e, total, fs, start, n, k, content); }
    if n <= 256 * fs { ClusterExtends(d, e, total, fs, start, n, k, content); }
  }

  lemma FirstLinksStep(d: seq<Byte>, e: seq<Byte>, total: nat, fs: nat, start: nat, n: nat, k: nat, content: seq<Byte>)
    requires Geometry(total, fs) && |d| == |e| == 512 * total && k < n && InImage(total, fs, start, n)
    requires FirstLinks(d, fs, start, n, k) && 512 * k <= |content|
    requires ClusterSet(d, e, fs, start, n, k, content)
    ensures FirstLinks(e, fs, start, n, k + 1)
  {
    if k > 0 {
      HoldsElsewhere(d, e, LinkByte(fs, 0, start), Le16(Link(start, n, 0)));
      if 256 * fs < k { HoldsElsewhere(d, e, LinkByte(fs, 1, start), Le16(Link(start, n, 256 * fs))); }
    }
    if k == 256 * fs { assert LinkByte(fs, 0, start + k) == LinkByte(fs, 1, start); }
  }

  /** One file: its clusters and its directory entry. */
  method WriteFile(img: array<Byte>, total: nat, fs: nat, files: seq<File>, i: nat)
    requires Geometry(total, fs) && img.Length == 512 * total
    requires HasSectors(total, fs, files) && i < |files| && Named(files[i])
    requires UnusedFrom(img[..], 0, fs, i)
    modifies img
    ensures Changed(old(img[..]), img[..], fs, files, i) && EntryStored(img[..], fs, files, i)
    ensures Fits(total, fs, files) ==> FileStored(img[..], 0, fs, files, i)
    ensures i >= 1 ==> EndMarked(img[..], fs, StartOf(files, i + 1))
  {
    var f := files[i];
    var start := StartOf(files, i);
    var n := ClusterCount(f);
    SectorBounds(total, fs, files, i);
    ghost var d0 := img[..];
    WriteClusters(img, total, fs, start, n, f.content);
    ghost var d := img[..];
    StillFree(d0, d, total, fs, files, i);
    WriteEntry(img, DirByte(fs, i), f, start);
    FileDone(d0, d, img[..], total, fs, files, i);
  }

  /** The clusters of file `i` leave the rest of its directory entry alone. */
  lemma StillFree(d0: seq<Byte>, d: seq<Byte>, total: nat, fs: nat, files: seq<File>, i: nat)
    requires Geometry(total, fs) && HasSectors(total, fs, files) && i < |files| && |d0| == 512 * total
    requires OutsideRuns(d0, d, fs, StartOf(files, i), ClusterCount(files[i])) && UnusedFrom(d0, 0, fs, i)
    ensures forall pos: nat | DirByte(fs, i) + 12 <= pos < DirByte(fs, i) + 26 :: d[pos] == 0
  {
    SectorBounds(total, fs, files, i);
  }

  lemma FileDone(d0: seq<Byte>, d: seq<Byte>, e: seq<Byte>, total: nat, fs: nat, files: seq<File>, i: nat)
    requires Geometry(total, fs) && HasSectors(total, fs, files) && i < |files| && Named(files[i]) && |d| == |e|
    requires OutsideRuns(d0, d, fs, StartOf(files, i), ClusterCount(files[i]))
    requires ClusterCount(files[i]) <= 256 * fs ==>
               && ChainStored(d, 0, fs, StartOf(files, i), ClusterCount(files[i]), ClusterCount(files[i]))
               && HoldsAt(d, DataByte(fs, StartOf(files, i)), files[i].content)
    requires EndMarked(d, fs, StartOf(files, i + 1)) && EntryStored(e, fs, files, i)
    requires forall pos: nat | pos < |d| && !(DirByte(fs, i) <= pos < DirByte(fs, i) + 32) :: e[pos] == d[pos]
    ensures Changed(d0, e, fs, files, i)
    ensures Fits(total, fs, files) ==> FileStored(e, 0, fs, files, i)
    ensures i >= 1 ==> EndMarked(e, fs, StartOf(files, i + 1))
  {
    if Fits(total, fs, files) {
      FileBounds(total, fs, files, i);
      EntryAdded(d, e, total, fs, files, i);
    }
    if i >= 1 {
      SectorBounds(total, fs, files, i);
      EndKept(d, e, fs, StartOf(files, i + 1), i);
    }
  }

  lemma EndKept(d: seq<Byte>, e: seq<Byte>, fs: nat, c: nat, i: nat)
    requires i >= 1 && |d| == |e| && 1 <= c && LinkByte(fs, 1, c) <= DirByte(fs, 0) + 8 && EndMarked(d, fs, c)
    requires forall pos: nat | pos < |d| && !(DirByte(fs, i) <= pos < DirByte(fs, i) + 32) :: e[pos] == d[pos]
    ensures EndMarked(e, fs, c)
  {
    HoldsElsewhere(d, e, LinkByte(fs, 1, c - 1), Le16(END_OF_CHAIN));
  }

  ghost predicate EntryStored(d: seq<Byte>, fs: nat, files: seq<File>, i: nat)
    requires i < |files|
  {
    && Named(files[i]) && StartOf(files, i) < U16_LIMIT && |files[i].content| < U32_LIMIT
    && HoldsAt(d, DirByte(fs, i), DirEntry(files[i], StartOf(files, i)))
  }

  /** Only the FAT runs and the data run of these clusters differ. */
  ghost predicate OutsideRuns(d: seq<Byte>, e: seq<Byte>, fs: nat, start: nat, n: nat)
    requires start >= 2
  {
    && |d| == |e|
    && forall pos: nat | pos < |d| ::
         || LinkByte(fs, 0, start) <= pos < LinkByte(fs, 0, start + n)
         || LinkByte(fs, 1, start) <= pos < LinkByte(fs, 1, start + n)
         || DataByte(fs, start) <= pos < DataByte(fs, start) + 512 * n
         || e[pos] == d[pos]
  }

  lemma StillOutside(d0: seq<Byte>, d: seq<Byte>, e: seq<Byte>, fs: nat, start: nat, n: nat, k: nat,
                     content: seq<Byte>)
    requires start >= 2 && k < n && 512 * k <= |content| && OutsideRuns(d0, d, fs, start, n)
    requires ClusterSet(d, e, fs, start, n, k, content)
    ensures OutsideRuns(d0, e, fs, start, n)
  {
  }

  ghost predicate Changed(d: seq<Byte>, e: seq<Byte>, fs: nat, files: seq<File>, i: nat)
    requires i < |files|
  {
    |e| == |d| && forall pos: nat | pos < |d| && !InFile(fs, files, i, pos) :: e[pos] == d[pos]
  }

  lemma EarlierFile(d: seq<Byte>, e: seq<Byte>, total: nat, fs: nat, files: seq<File>, i: nat, j: nat)
    requires Fits(total, fs, files) && j < i < |files|
    requires FileStored(d, 0, fs, files, j) && Changed(d, e, fs, files, i)
    ensures FileStored(e, 0, fs, files, j)
  {
    forall pos: nat | pos < |d| && InFile(fs, files, j, pos)
      ensures e[pos] == d[pos]
    {
      FilesDisjoint(total, fs, files, i, j, pos);
    }
    StoredElsewhere(d, e, fs, files, j);
  }

  lemma EarlierFiles(d: seq<Byte>, e: seq<Byte>, total: nat, fs: nat, files: seq<File>, i: nat)
    requires Fits(total, fs, files) && i < |files| && Changed(d, e, fs, files, i)
    requires AllNamed(files)
    requires forall j: nat | j < i :: FileStored(d, 0, fs, files, j)
    ensures forall j: nat | j < i :: FileStored(e, 0, fs, files, j)
  {
    forall j: nat | j < i
      ensures FileStored(e, 0, fs, files, j)
    {
      EarlierFile(d, e, total, fs, files, i, j);
    }
  }

  lemma BootKept(d: seq<Byte>, e: seq<Byte>, fs: nat, files: seq<File>, i: nat, boot: seq<Byte>)
    requires i < |files| && Changed(d, e, fs, files, i) && |boot| == 512 && HoldsAt(d, 0, boot)
    ensures HoldsAt(e, 0, boot)
  {
    HoldsElsewhere(d, e, 0, boot);
  }

  lemma RestKept(d: seq<Byte>, e: seq<Byte>, total: nat, fs: nat, files: seq<File>, i: nat)
    requires Geometry(total, fs) && HasSectors(total, fs, files) && i < |files|
    requires Changed(d, e, fs, files, i) && UnusedFrom(d, 0, fs, i)
    ensures UnusedFrom(e, 0, fs, i + 1)
  {
    SectorBounds(total, fs, files, i);
  }

  /** All entries but the first are out of reach of later files. */
  lemma EntryKept(d: seq<Byte>, e: seq<Byte>, total: nat, fs: nat, files: seq<File>, i: nat, j: nat)
    requires Geometry(total, fs) && HasSectors(total, fs, files) && 1 <= j < i < |files|
    requires Changed(d, e, fs, files, i) && EntryStored(d, fs, files, j)
    ensures EntryStored(e, fs, files, j)
  {
    SectorBounds(total, fs, files, i);
    HoldsElsewhere(d, e, DirByte(fs, j), DirEntry(files[j], StartOf(files, j)));
  }

  /** What stands however many clusters have a FAT entry: the entries but the first, and with two files or more
      the last end mark. */
  ghost predicate TailStored(d: seq<Byte>, fs: nat, files: seq<File>, i: nat)
    requires i <= |files|
  {
    && (forall j: nat | 1 <= j < i :: EntryStored(d, fs, files, j))
    && (i >= 2 ==> EndMarked(d, fs, StartOf(files, i)))
  }

  lemma TailKept(d: seq<Byte>, e: seq<Byte>, total: nat, fs: nat, files: seq<File>, i: nat)
    requires Geometry(total, fs) && HasSectors(total, fs, files) && i < |files|
    requires Changed(d, e, fs, files, i) && TailStored(d, fs, files, i) && EntryStored(e, fs, files, i)
    requires i >= 1 ==> EndMarked(e, fs, StartOf(files, i + 1))
    ensures TailStored(e, fs, files, i + 1)
  {
    forall j: nat | 1 <= j < i + 1
      ensures EntryStored(e, fs, files, j)
    {
      if j < i { EntryKept(d, e, total, fs, files, i, j); }
    }
  }

  lemma AllFilled(d: seq<Byte>, total: nat, fs: nat, files: seq<File>)
    requires Geometry(total, fs) && Fits(total, fs, files) && |d| == 512 * total
    requires HoldsAt(d, 0, BootSector(total, fs)) && UnusedFrom(d, 0, fs, |files|)
    requires AllNamed(files)
    requires forall i: nat | i < |files| :: FileStored(d, 0, fs, files, i)
    ensures ImageHolds(d, 0, total, fs, files)
  {
  }

  lemma NothingFilled(d: seq<Byte>, total: nat, fs: nat, files: seq<File>)
    requires Geometry(total, fs) && d == BootSector(total, fs) + Zeros(512 * total - 512)
    ensures Filled(d, total, fs, files, BootSector(total, fs), 0) && |d| == 512 * total
  {
    assert d[0..0 + 512] == BootSector(total, fs);
  }

  /** The image after the first `i` files. */
  ghost predicate Filled(d: seq<Byte>, total: nat, fs: nat, files: seq<File>, boot: seq<Byte>, i: nat)
    requires i <= |files|
  {
    && HoldsAt(d, 0, boot) && UnusedFrom(d, 0, fs, i) && TailStored(d, fs, files, i) && BlankBut(d, fs, files, i)
    && (Fits(total, fs, files) ==> forall j: nat | j < i :: FileStored(d, 0, fs, files, j))
  }

  lemma StillBlank(d: seq<Byte>, e: seq<Byte>, fs: nat, files: seq<File>, i: nat)
    requires i < |files| && Changed(d, e, fs, files, i) && BlankBut(d, fs, files, i)
    ensures BlankBut(e, fs, files, i + 1)
  {
    forall pos: nat | 512 <= pos < |e| && OutsideFiles(fs, files, i + 1, pos)
      ensures e[pos] == 0
    {
      assert !InFile(fs, files, i, pos) && OutsideFiles(fs, files, i, pos);
    }
  }

  lemma FilledStep(d: seq<Byte>, e: seq<Byte>, total: nat, fs: nat, files: seq<File>, boot: seq<Byte>, i: nat)
    requires Geometry(total, fs) && HasSectors(total, fs, files) && AllNamed(files) && i < |files| && |boot| == 512
    requires Filled(d, total, fs, files, boot, i) && Changed(d, e, fs, files, i) && EntryStored(e, fs, files, i)
    requires i >= 1 ==> EndMarked(e, fs, StartOf(files, i + 1))
    requires Fits(total, fs, files) ==> FileStored(e, 0, fs, files, i)
    ensures Filled(e, total, fs, files, boot, i + 1)
  {
    BootKept(d, e, fs, files, i, boot);
    RestKept(d, e, total, fs, files, i);
    TailKept(d, e, total, fs, files, i);
    StillBlank(d, e, fs, files, i);
    if Fits(total, fs, files) { EarlierFiles(d, e, total, fs, files, i); }
  }

  method WriteFiles(img: array<Byte>, total: nat, fs: nat, files: seq<File>, ghost boot: seq<Byte>)
    requires Geometry(total, fs) && HasSectors(total, fs, files) && img.Length == 512 * total
    requires AllNamed(files)
    requires |boot| == 512 && Filled(img[..], total, fs, files, boot, 0)
    modifies img
    ensures Filled(img[..], total, fs, files, boot, |files|)
  {
    for i := 0 to |files|
      invariant Filled(img[..], total, fs, files, boot, i)
    {
      ghost var d := img[..];
      WriteFile(img, total, fs, files, i);
      FilledStep(d, img[..], total, fs, files, boot, i);
    }
  }

  /** What is left of an image whose clusters need not all have a FAT entry. */
  ghost predicate ListOn(d: seq<Byte>, total: nat, fs: nat, files: seq<File>) {
    && Geometry(total, fs) && HasSectors(total, fs, files) && AllNamed(files) && |d| == 512 * total
    && |d| % 512 == 0 && HoldsAt(d, 0, BootSector(total, fs)) && UnusedFrom(d, 0, fs, |files|)
    && TailStored(d, fs, files, |files|) && BlankBut(d, fs, files, |files|)
    && (Fits(total, fs, files) ==> ImageHolds(d, 0, total, fs, files))
  }

  /** `build_fat16`: refuses a size that is not FAT16, else an image that holds the files if they have their
      FAT entries. */
  method BuildFat16(total: nat, files: seq<File>) returns (r: Option<array<Byte>>)
    requires AllNamed(files)
    requires Accepted(total) ==> |files| <= ROOT_ENTRIES && StartOf(files, |files|) - 2 <= Clusters(total)
    ensures r.Some? <==> Accepted(total)
    ensures r.Some? ==> fresh(r.value) && r.value.Length == 512 * total
    ensures r.Some? ==> ListOn(r.value[..], total, FatSectors(total), files)
  {
    var fs := ComputeFatSectors(total);
    var clusters := total - DataLba(fs);
    if !(MIN_CLUSTERS <= clusters <= MAX_CLUSTERS) { return None; }
    SizingBound(total);
    var img := WriteImage(total, fs, files);
    return Some(img);
  }

  method WriteImage(total: nat, fs: nat, files: seq<File>) returns (img: array<Byte>)
    requires Geometry(total, fs) && HasSectors(total, fs, files)
    requires AllNamed(files)
    ensures fresh(img) && img.Length == 512 * total && ListOn(img[..], total, fs, files)
  {
    img := new Byte[512 * total](_ => 0);
    assert img[..] == Zeros(img.Length);
    WriteBootSector(img, total, fs);
    NothingFilled(img[..], total, fs, files);
    WriteFiles(img, total, fs, files, BootSector(total, fs));
    ImageDone(img[..], total, fs, files);
  }

  lemma ImageDone(d: seq<Byte>, total: nat, fs: nat, files: seq<File>)
    requires Geometry(total, fs) && HasSectors(total, fs, files) && AllNamed(files) && |d| == 512 * total
    requires Filled(d, total, fs, files, BootSector(total, fs), |files|)
    ensures ListOn(d, total, fs, files)
  {
    if Fits(total, fs, files) { AllFilled(d, total, fs, files); }
  }
}
