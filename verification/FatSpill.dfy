/** Files that use the clusters without a FAT entry: the links run from the first FAT into the second,
    and from there into the directory. */
module FatSpill {
  import opened Wrappers
  import opened Bytes
  import opened FatSizing
  import opened FatImage
  import opened FatWriter
  import opened FatRoundTrip
  import FatDamage
  import R = FatReader

  /** What is left of an image with one file, whose sectors are there. */
  ghost predicate LoneOn(d: seq<Byte>, total: nat, fs: nat, f: File) {
    var n := ClusterCount(f);
    && Geometry(total, fs) && InImage(total, fs, 2, n) && |d| == 512 * total && Named(f)
    && |d| % 512 == 0 && HoldsAt(d, 0, BootSector(total, fs)) && HoldsAt(d, DirByte(fs, 0), DirEntry(f, 2))
    && (forall e: nat | 1 <= e < ROOT_ENTRIES :: d[DirByte(fs, 0) + 32 * e] == 0)
    && FirstLinks(d, fs, 2, n, n)
    && (n <= 256 * fs ==> ChainStored(d, 0, fs, 2, n, Followed(f)) && HoldsAt(d, DataByte(fs, 2), f.content))
  }

  lemma LoneFits(total: nat, f: File)
    requires Accepted(total) && ClusterCount(f) <= Clusters(total)
    ensures
      var fs := FatSectors(total);
      && Geometry(total, fs) && InImage(total, fs, 2, ClusterCount(f)) && fs >= 16 && fs < U16_LIMIT
      && 0 < total < U32_LIMIT && |f.content| < U32_LIMIT && DirByte(fs, 0) + 32 <= 512 * total
  {
    SizingBound(total);
  }

  /** What `build_fat16` does with one file, whether or not all its clusters have a FAT entry. */
  method WriteLone(total: nat, f: File) returns (img: array<Byte>)
    requires Accepted(total) && Named(f) && ClusterCount(f) <= Clusters(total)
    ensures fresh(img) && LoneOn(img[..], total, FatSectors(total), f)
  {
    var fs := ComputeFatSectors(total);
    var n := ClusterCount(f);
    LoneFits(total, f);
    img := new Byte[512 * total](_ => 0);
    assert img[..] == Zeros(img.Length);
    WriteBootSector(img, total, fs);
    ghost var d0 := img[..];
    WriteClusters(img, total, fs, 2, n, f.content);
    ghost var d1 := img[..];
    NothingBehindName(d0, d1, total, fs, n);
    WriteEntry(img, DirByte(fs, 0), f, 2);
    LoneDone(d0, d1, img[..], total, fs, f);
  }

  /** The spilt links of at most four clusters reach into the name of the first entry, and no further. */
  lemma NothingBehindName(d0: seq<Byte>, d1: seq<Byte>, total: nat, fs: nat, n: nat)
    requires Geometry(total, fs) && InImage(total, fs, 2, n) && |d0| == 512 * total && OutsideRuns(d0, d1, fs, 2, n)
    requires d0 == BootSector(total, fs) + Zeros(512 * total - 512)
    ensures forall pos: nat | DirByte(fs, 0) + 8 <= pos < DataByte(fs, 2) :: d1[pos] == 0
    ensures forall pos: nat | pos < 512 :: d1[pos] == d0[pos]
  {
  }

  lemma LoneDone(d0: seq<Byte>, d1: seq<Byte>, d: seq<Byte>, total: nat, fs: nat, f: File)
    requires Geometry(total, fs) && InImage(total, fs, 2, ClusterCount(f)) && |d0| == 512 * total && Named(f)
             && fs >= 16
    requires d0 == BootSector(total, fs) + Zeros(512 * total - 512)
    requires OutsideRuns(d0, d1, fs, 2, ClusterCount(f)) && FirstLinks(d1, fs, 2, ClusterCount(f), ClusterCount(f))
    requires ClusterCount(f) <= 256 * fs ==>
               ChainStored(d1, 0, fs, 2, ClusterCount(f), ClusterCount(f)) && HoldsAt(d1, DataByte(fs, 2), f.content)
    requires |d| == |d1| && HoldsAt(d, DirByte(fs, 0), DirEntry(f, 2))
    requires forall pos: nat | pos < |d| && !(DirByte(fs, 0) <= pos < DirByte(fs, 0) + 32) :: d[pos] == d1[pos]
    ensures LoneOn(d, total, fs, f)
  {
    var n := ClusterCount(f);
    NothingBehindName(d0, d1, total, fs, n);
    assert HoldsAt(d, 0, BootSector(total, fs)) by { HoldsElsewhere(d0, d, 0, BootSector(total, fs)); }
    assert FirstLinks(d, fs, 2, n, n) by { FirstLinksKept(d1, d, fs, n); }
    if n <= 256 * fs {
      assert HoldsAt(d, DataByte(fs, 2), f.content) by { HoldsElsewhere(d1, d, DataByte(fs, 2), f.content); }
      LinksFollowed(d1, d, fs, f);
    }
  }

  lemma FirstLinksKept(d1: seq<Byte>, d: seq<Byte>, fs: nat, n: nat)
    requires n >= 1 && fs >= 16 && FirstLinks(d1, fs, 2, n, n) && |d| == |d1|
    requires forall pos: nat | pos < |d| && !(DirByte(fs, 0) <= pos < DirByte(fs, 0) + 32) :: d[pos] == d1[pos]
    ensures FirstLinks(d, fs, 2, n, n)
  {
    HoldsElsewhere(d1, d, LinkByte(fs, 0, 2), Le16(Link(2, n, 0)));
    if n > 256 * fs { HoldsElsewhere(d1, d, LinkByte(fs, 1, 2), Le16(Link(2, n, 256 * fs))); }
  }

  lemma LinksFollowed(d1: seq<Byte>, d: seq<Byte>, fs: nat, f: File)
    requires fs >= 16 && |d| == |d1| && ChainStored(d1, 0, fs, 2, ClusterCount(f), ClusterCount(f))
    requires forall pos: nat | pos < |d| && !(DirByte(fs, 0) <= pos < DirByte(fs, 0) + 32) :: d[pos] == d1[pos]
    ensures ChainStored(d, 0, fs, 2, ClusterCount(f), Followed(f))
  {
    var n := ClusterCount(f);
    forall copy: nat, k: nat | copy < 2 && k < Followed(f)
      ensures LinkStored(d, 0, fs, 2, n, copy, k)
    {
      assert LinkStored(d1, 0, fs, 2, n, copy, k);
      HoldsElsewhere(d1, d, LinkByte(fs, copy, 2 + k), Le16(Link(2, n, k)));
    }
  }

  // ---------------------------------------------------------------------------------------------
  // What the reader says
  // ---------------------------------------------------------------------------------------------

  /** What the reader needs to get to the entry. */
  ghost predicate EntryFound(d: seq<Byte>, fs: nat, f: File) {
    && Named(f) && |d| % 512 == 0 && BootSeen(d, 0, fs)
    && EntrySeen(d, DirByte(fs, 0), f, 2) && Listed(d, DirByte(fs, 0), ROOT_SECTORS, [Name11(f)])
  }

  lemma LoneFound(d: seq<Byte>, total: nat, fs: nat, f: File)
    requires LoneOn(d, total, fs, f)
    ensures EntryFound(d, fs, f)
  {
    LayoutRead(d, 0, total, fs);
    EntryListed(d, fs, f);
  }

  lemma EntryListed(d: seq<Byte>, fs: nat, f: File)
    requires Named(f) && |f.content| < U32_LIMIT && HoldsAt(d, DirByte(fs, 0), DirEntry(f, 2))
    requires DirByte(fs, 0) + 512 * ROOT_SECTORS <= |d|
    requires forall e: nat | 1 <= e < ROOT_ENTRIES :: d[DirByte(fs, 0) + 32 * e] == 0
    ensures EntrySeen(d, DirByte(fs, 0), f, 2) && Listed(d, DirByte(fs, 0), ROOT_SECTORS, [Name11(f)])
  {
    EntryStoredSeen(d, 0, fs, f, 2, 0);
    OneListed(d, DirByte(fs, 0), Name11(f));
  }

  lemma OneListed(d: seq<Byte>, root: nat, name: seq<Byte>)
    requires root + 512 * ROOT_SECTORS <= |d| && |name| == 11 && Wanted(d, root, 0, name)
    requires forall e: nat | 1 <= e < ROOT_ENTRIES :: d[root + 32 * e] == 0
    ensures Listed(d, root, ROOT_SECTORS, [name])
  {
    forall e: nat | 1 <= e < 16 * ROOT_SECTORS
      ensures UnusedSeen(d, root, e)
    {
      assert R.EntryAt(d, root, e)[0] == d[root + 32 * e];
    }
    assert UsedSeen(d, root, 0, name);
  }

  lemma EntryChecked(d: seq<Byte>, fs: nat, f: File, expected: nat)
    requires EntryFound(d, fs, f)
    ensures DirByte(fs, 0) + 32 <= |d|
    ensures R.Check(d, 0, Name11(f), expected) == R.CheckFile(d, 0, LayoutOf(0, fs), DirByte(fs, 0), expected)
  {
    SearchFinds(d, DirByte(fs, 0), ROOT_SECTORS, [Name11(f)], 0);
    R.CheckFound(d, 0, LayoutOf(0, fs), Name11(f), DirByte(fs, 0), expected);
  }

  /** As long as the links do not run into one another, the spill does no harm: the entry is written over
      what reached the directory, and the reader never gets that far along the chain. */
  lemma NarrowSpillIsRead(d: seq<Byte>, total: nat, fs: nat, f: File, expected: nat)
    requires LoneOn(d, total, fs, f) && ClusterCount(f) <= 256 * fs
    ensures R.Check(d, 0, Name11(f), expected) == Verdict(f, 2, expected)
  {
    LoneFound(d, total, fs, f);
    EntryChecked(d, fs, f, expected);
    EntryJudged(d, 0, fs, f, 2, DirByte(fs, 0), expected);
  }

  lemma WalkHead(d: seq<Byte>, fat: nat, c: nat, fuel: nat)
    requires fuel > 0 && R.Walk(d, fat, c, fuel).Chain?
    ensures |R.Walk(d, fat, c, fuel).clusters| > 0 && R.Walk(d, fat, c, fuel).clusters[0] == c
  {
  }

  /** The second cluster of a chain, if there is one. */
  lemma WalkNext(d: seq<Byte>, fat: nat, c: nat, fuel: nat)
    requires fuel > 1 && R.Walk(d, fat, c, fuel).Chain? && fat + 2 * c + 2 <= |d|
    ensures
      var next, w := U16(d, fat + 2 * c), R.Walk(d, fat, c, fuel).clusters;
      if next >= R.END_MARK then |w| == 1 else |w| > 1 && w[1] == next
  {
    var next := U16(d, fat + 2 * c);
    if 2 <= next < R.END_MARK && R.Walk(d, fat, next, fuel - 1).Chain? { WalkHead(d, fat, next, fuel - 1); }
  }

  /** With different first links the two chains differ, or one of them breaks off. */
  lemma ChainsDiffer(d: seq<Byte>, lay: R.Layout, start: nat, p: nat, q: nat)
    requires lay.copies == 2 && p == lay.fatByte && q == lay.fatByte + 512 * lay.fatSectors
    requires p + 2 * start + 2 <= |d| && q + 2 * start + 2 <= |d|
    requires U16(d, p + 2 * start) != U16(d, q + 2 * start) && U16(d, p + 2 * start) < R.END_MARK
    ensures
      var chains := R.Chains(d, lay, start, 0, []);
      if chains.Ok? then !R.AllEqual(chains.value) else !chains.error.Passed?
  {
    var a, b := R.Walk(d, p, start, R.MAX_LINKS), R.Walk(d, q, start, R.MAX_LINKS);
    assert p == lay.fatByte + 512 * R.Times(0, lay.fatSectors) && q == lay.fatByte + 512 * R.Times(1, lay.fatSectors);
    if a.Chain? {
      ChainsStep(d, lay, start, 0, [], a.clusters);
      if b.Chain? {
        WalksDiffer(d, start, p, q);
        ChainsStep(d, lay, start, 1, [a.clusters], b.clusters);
        FatDamage.NotAllEqual(a.clusters, b.clusters);
      }
    }
  }

  lemma WalksDiffer(d: seq<Byte>, start: nat, p: nat, q: nat)
    requires p + 2 * start + 2 <= |d| && q + 2 * start + 2 <= |d|
    requires U16(d, p + 2 * start) != U16(d, q + 2 * start) && U16(d, p + 2 * start) < R.END_MARK
    requires R.Walk(d, p, start, R.MAX_LINKS).Chain? && R.Walk(d, q, start, R.MAX_LINKS).Chain?
    ensures R.Walk(d, p, start, R.MAX_LINKS).clusters != R.Walk(d, q, start, R.MAX_LINKS).clusters
  {
    WalkNext(d, p, start, R.MAX_LINKS);
    WalkNext(d, q, start, R.MAX_LINKS);
  }

  /** Where the links do run into one another, the first FAT's link for a later cluster stands in the place
      of the second FAT's for the first one, and the reader sees two different chains. */
  lemma WideSpillShows(d: seq<Byte>, total: nat, fs: nat, f: File, expected: nat)
    requires LoneOn(d, total, fs, f) && ClusterCount(f) > 256 * fs
    ensures !R.Check(d, 0, Name11(f), expected).Passed?
  {
    LoneFound(d, total, fs, f);
    LinksDiffer(d, total, fs, f);
    DifferentLinksShow(d, fs, f, expected);
  }

  lemma DifferentLinksShow(d: seq<Byte>, fs: nat, f: File, expected: nat)
    requires EntryFound(d, fs, f) && FatByte(fs, 1) + 6 <= |d| && FatByte(fs, 0) + 6 <= |d|
    requires U16(d, FatByte(fs, 0) + 4) == 3 && U16(d, FatByte(fs, 1) + 4) != 3
    ensures !R.Check(d, 0, Name11(f), expected).Passed?
  {
    EntryChecked(d, fs, f, expected);
    var lay := LayoutOf(0, fs);
    assert lay.copies == 2 && lay.fatByte == FatByte(fs, 0) && lay.fatByte + 512 * lay.fatSectors == FatByte(fs, 1);
    ChainsDiffer(d, lay, 2, FatByte(fs, 0), FatByte(fs, 1));
    assert U16(d, DirByte(fs, 0) + 26) == 2;
  }

  lemma LinksDiffer(d: seq<Byte>, total: nat, fs: nat, f: File)
    requires LoneOn(d, total, fs, f) && ClusterCount(f) > 256 * fs
    ensures FatByte(fs, 1) + 6 <= |d| && FatByte(fs, 0) + 6 <= |d|
    ensures U16(d, FatByte(fs, 0) + 4) == 3 && U16(d, FatByte(fs, 1) + 4) != 3
  {
    var n := ClusterCount(f);
    Le16Read(d, LinkByte(fs, 0, 2), Link(2, n, 0));
    Le16Read(d, LinkByte(fs, 1, 2), Link(2, n, 256 * fs));
  }

  /** So a file written alone reads back exactly if it has no more clusters than a FAT has entries. */
  lemma LonePassesExactly(d: seq<Byte>, total: nat, fs: nat, f: File, expected: nat)
    requires LoneOn(d, total, fs, f)
    ensures R.Check(d, 0, Name11(f), expected).Passed? <==>
              ClusterCount(f) <= 256 * fs && Verdict(f, 2, expected).Passed?
  {
    if ClusterCount(f) <= 256 * fs {
      NarrowSpillIsRead(d, total, fs, f, expected);
    } else {
      WideSpillShows(d, total, fs, f, expected);
    }
  }

  // ---------------------------------------------------------------------------------------------
  // Several files
  // ---------------------------------------------------------------------------------------------

  /** The last cluster without a FAT entry leaves its end mark in the name of the first file, which is in the
      directory by then. */
  lemma FirstNameOverwritten(d: seq<Byte>, total: nat, fs: nat, files: seq<File>)
    requires ListOn(d, total, fs, files) && |files| >= 2 && !Fits(total, fs, files)
    ensures DirByte(fs, 0) + 32 <= |d| && 0xFF in d[DirByte(fs, 0)..DirByte(fs, 0) + 11]
  {
    var o := LinkByte(fs, 1, StartOf(files, |files|) - 1);
    assert d[o] == d[o..o + 2][0] == 0xFF;
    assert d[o] == d[DirByte(fs, 0)..DirByte(fs, 0) + 11][o - DirByte(fs, 0)];
  }

  /** No file but the first has this name, and it has no byte 0xFF, which UTF-8 never has. */
  ghost predicate FirstNameOnce(files: seq<File>)
    requires AllNamed(files) && |files| > 0
  {
    0xFF !in Name11(files[0]) && forall e: nat | 1 <= e < |files| :: NameAt(files, e) != Name11(files[0])
  }

  ghost function NameAt(files: seq<File>, e: nat): seq<Byte>
    requires AllNamed(files) && e < |files|
  {
    Name11(files[e])
  }

  lemma LaterEntrySkipped(d: seq<Byte>, total: nat, fs: nat, files: seq<File>, e: nat)
    requires ListOn(d, total, fs, files) && |files| > 0 && FirstNameOnce(files) && 1 <= e < ROOT_ENTRIES
    ensures Skipped(d, DirByte(fs, 0), e, Name11(files[0]))
  {
    if e < |files| {
      assert EntryStored(d, fs, files, e) && NameAt(files, e) != Name11(files[0]);
      EntryStoredSeen(d, 0, fs, files[e], StartOf(files, e), e);
    } else {
      RestSeen(d, 0, fs, |files|, e);
    }
  }

  lemma OtherName(d: seq<Byte>, root: nat, name: seq<Byte>)
    requires root + 32 <= |d| && 0xFF in d[root..root + 11] && 0xFF !in name
    ensures Skipped(d, root, 0, name)
  {
    CutCut(d, root, root + 32, 0, 11);
    assert R.EntryAt(d, root, 0)[..11] == d[root..root + 11];
  }

  lemma FirstEntrySkipped(d: seq<Byte>, total: nat, fs: nat, files: seq<File>)
    requires ListOn(d, total, fs, files) && |files| >= 2 && FirstNameOnce(files) && !Fits(total, fs, files)
    ensures Skipped(d, DirByte(fs, 0), 0, Name11(files[0]))
  {
    FirstNameOverwritten(d, total, fs, files);
    OtherName(d, DirByte(fs, 0), Name11(files[0]));
  }

  lemma FirstFileLost(d: seq<Byte>, total: nat, fs: nat, files: seq<File>, expected: nat)
    requires ListOn(d, total, fs, files) && |files| >= 2 && FirstNameOnce(files) && !Fits(total, fs, files)
    ensures R.Check(d, 0, Name11(files[0]), expected) == R.NotFound
  {
    var root, name := DirByte(fs, 0), Name11(files[0]);
    forall e: nat | e < 16 * ROOT_SECTORS
      ensures Skipped(d, root, e, name)
    {
      if e == 0 {
        FirstEntrySkipped(d, total, fs, files);
      } else {
        LaterEntrySkipped(d, total, fs, files, e);
      }
    }
    assert BootSeen(d, 0, fs) by { LayoutRead(d, 0, total, fs); }
    NoneMatches(d, fs, name, expected);
  }

  lemma NoneMatches(d: seq<Byte>, fs: nat, name: seq<Byte>, expected: nat)
    requires |d| % 512 == 0 && |name| == 11 && BootSeen(d, 0, fs) && DirByte(fs, 0) + 512 * ROOT_SECTORS <= |d|
    requires forall e: nat | e < 16 * ROOT_SECTORS :: Skipped(d, DirByte(fs, 0), e, name)
    ensures R.Check(d, 0, name, expected) == R.NotFound
  {
    RootMisses(d, DirByte(fs, 0), ROOT_SECTORS, name, 0);
    R.CheckMissed(d, 0, LayoutOf(0, fs), name, expected);
  }

  /** The reader says the right thing about every name. */
  ghost predicate AllReportsRight(d: seq<Byte>, files: seq<File>)
    requires |d| % 512 == 0 && AllNamed(files)
  {
    forall name: seq<Byte>, expected: nat | |name| == 11 ::
      R.Check(d, 0, name, expected) == ReportOn(files, name, expected)
  }

  /** So the image of two files or more is read right exactly if all their clusters have a FAT entry; if one
      has none, the first file is gone, however small it is. */
  lemma ListReadsExactly(d: seq<Byte>, total: nat, fs: nat, files: seq<File>)
    requires ListOn(d, total, fs, files) && |files| >= 2 && FirstNameOnce(files)
    ensures AllReportsRight(d, files) <==> Fits(total, fs, files)
  {
    if Fits(total, fs, files) {
      forall name: seq<Byte>, expected: nat | |name| == 11
        ensures R.Check(d, 0, name, expected) == ReportOn(files, name, expected)
      {
        EveryReport(d, 0, total, fs, files, name, expected);
      }
    } else {
      var name := Name11(files[0]);
      FirstFileLost(d, total, fs, files, 0);
      assert FirstIndex(NamesOf(files), name, 0) == 0;
      assert R.Check(d, 0, name, 0) != ReportOn(files, name, 0);
    }
  }

  /** Such a list: an empty file, and one that takes all other clusters of a size with four entries missing. */
  lemma ListThatSpills() returns (files: seq<File>)
    ensures Accepted(4163) && |files| == 2 && AllNamed(files) && FirstNameOnce(files) && files[0].content == []
    ensures HasSectors(4163, FatSectors(4163), files) && !Fits(4163, FatSectors(4163), files)
  {
    assert FatSectors(4163) == 16 && Accepted(4163) by { OffsetAt(4163, 16, 2, 8); }
    var small, large := File([0x41], [], []), File([0x42], [], Zeros(512 * 4097));
    files := [small, large];
    assert ClusterCount(small) == 1 && ClusterCount(large) == 4097;
    assert StartOf(files, 1) == 3;
    assert StartOf(files, 2) == 4100;
    assert Name11(small)[0] == 0x41 && Name11(large)[0] == 0x42;
    assert NameAt(files, 1) == Name11(large);
  }
}
