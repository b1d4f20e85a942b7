/** What the reader says of a volume one of whose FAT links was spoilt after it was written. */
module FatDamage {
  import opened Wrappers
  import opened Bytes
  import opened FatSizing
  import opened FatImage
  import opened FatRoundTrip
  import R = FatReader

  // ---------------------------------------------------------------------------------------------
  // Following links
  // ---------------------------------------------------------------------------------------------

  /** From each cluster of the list but the last a link that is no end mark and not below 2 leads to the next. */
  ghost predicate Path(d: seq<Byte>, fat: nat, cs: seq<nat>) {
    && |cs| > 0 && forall i: nat | i + 1 < |cs| :: Leads(d, fat, cs[i], cs[i + 1])
  }

  ghost predicate Leads(d: seq<Byte>, fat: nat, c: nat, next: nat) {
    fat + 2 * c + 2 <= |d| && U16(d, fat + 2 * c) == next && 2 <= next < 0xFFF8
  }

  /** Where a walk ends that follows a path: at an end mark with the path for a chain, at a link below 2 with that
      link, outside the image, or, if the path is as long as the walk may be, there. */
  lemma {:induction false} WalkFollows(d: seq<Byte>, fat: nat, cs: seq<nat>, fuel: nat)
    requires Path(d, fat, cs) && |cs| <= fuel
    ensures
      var o, w := fat + 2 * cs[|cs| - 1], R.Walk(d, fat, cs[0], fuel);
      if o + 2 > |d| then w == R.OffFat
      else if U16(d, o) >= 0xFFF8 then w == R.Chain(cs)
      else if U16(d, o) < 2 then w == R.Broken(U16(d, o))
      else |cs| == fuel ==> w == R.Chain(cs)
    decreases fuel
  {
    if |cs| > 1 {
      assert Leads(d, fat, cs[0], cs[1]);
      forall i: nat | i + 1 < |cs[1..]|
        ensures Leads(d, fat, cs[1..][i], cs[1..][i + 1])
      {
        assert Leads(d, fat, cs[i + 1], cs[i + 2]);
      }
      WalkFollows(d, fat, cs[1..], fuel - 1);
      assert [cs[0]] + cs[1..] == cs;
    } else {
      assert cs == [cs[0]];
    }
  }

  /** What the walks of the two FATs make of a file: the first broken one, or two that differ. */
  lemma ChainsDecide(d: seq<Byte>, lay: R.Layout, start: nat, a: R.Walked, b: R.Walked)
    requires lay.copies == 2 && a == R.Walk(d, lay.fatByte, start, R.MAX_LINKS)
    requires b == R.Walk(d, lay.fatByte + 512 * lay.fatSectors, start, R.MAX_LINKS)
    ensures a.Broken? ==> R.Chains(d, lay, start, 0, []) == Err(R.BrokenLink(0, a.cluster))
    ensures a.Chain? && b.Broken? ==> R.Chains(d, lay, start, 0, []) == Err(R.BrokenLink(1, b.cluster))
    ensures a.Chain? && b.Chain? ==> R.Chains(d, lay, start, 0, []) == Ok([] + [a.clusters] + [b.clusters])
  {
    assert lay.fatByte == lay.fatByte + 512 * R.Times(0, lay.fatSectors);
    assert lay.fatByte + 512 * lay.fatSectors == lay.fatByte + 512 * R.Times(1, lay.fatSectors);
    if a.Chain? {
      ChainsStep(d, lay, start, 0, [], a.clusters);
      if b.Chain? { ChainsStep(d, lay, start, 1, [] + [a.clusters], b.clusters); }
    }
  }

  lemma WalksDecide(d: seq<Byte>, base: nat, lay: R.Layout, at: nat, expected: nat, a: R.Walked, b: R.Walked)
    requires at + 32 <= |d| && U32(d, at + 28) == expected && lay.copies == 2
    requires a == R.Walk(d, lay.fatByte, U16(d, at + 26), R.MAX_LINKS)
    requires b == R.Walk(d, lay.fatByte + 512 * lay.fatSectors, U16(d, at + 26), R.MAX_LINKS)
    ensures a.Broken? ==> R.CheckFile(d, base, lay, at, expected) == R.BrokenLink(0, a.cluster)
    ensures a.Chain? && b.Broken? ==> R.CheckFile(d, base, lay, at, expected) == R.BrokenLink(1, b.cluster)
    ensures a.Chain? && b.Chain? && a.clusters != b.clusters ==>
              R.CheckFile(d, base, lay, at, expected) == R.CopiesDiffer
  {
    ChainsDecide(d, lay, U16(d, at + 26), a, b);
    if a.Chain? && b.Chain? && a.clusters != b.clusters { NotAllEqual(a.clusters, b.clusters); }
  }

  lemma NotAllEqual(a: seq<nat>, b: seq<nat>)
    requires a != b
    ensures !R.AllEqual([] + [a] + [b])
  {
    var both := [] + [a] + [b];
    assert both[0] == a && both[1] == b;
  }

  // ---------------------------------------------------------------------------------------------
  // A spoilt link
  // ---------------------------------------------------------------------------------------------

  lemma LinkPlace(base: nat, fs: nat, copy: nat, c: nat)
    requires copy < 2 && c < 256 * fs
    ensures base + 512 <= base + LinkByte(fs, copy, c) && base + LinkByte(fs, copy, c) + 2 <= base + DirByte(fs, 0)
  {
  }

  lemma ChainPlace(total: nat, fs: nat, files: seq<File>, i: nat)
    requires Geometry(total, fs) && Fits(total, fs, files) && i < |files|
    ensures StartOf(files, i) + ClusterCount(files[i]) <= 256 * fs
    ensures StartOf(files, i) + ClusterCount(files[i]) <= 0xFFF8
  {
    StartMonotone(files, i, |files|);
  }

  /** Only the one link differs. */
  ghost predicate OneLink(d: seq<Byte>, e: seq<Byte>, at: nat, v: nat) {
    && |d| == |e| && at + 2 <= |d| && v < U16_LIMIT && U16(e, at) == v
    && forall pos: nat | pos < |d| && !(at <= pos < at + 2) :: e[pos] == d[pos]
  }

  /** The directory reads the same if none of its bytes changed. */
  lemma ListedKept(d: seq<Byte>, e: seq<Byte>, root: nat, sectors: nat, names: seq<seq<Byte>>)
    requires Listed(d, root, sectors, names) && |d| == |e| && SameRun(d, e, root, 512 * sectors)
    ensures Listed(e, root, sectors, names)
  {
    forall n: nat | n < 16 * sectors
      ensures root + 32 * n + 32 <= |d| && R.EntryAt(e, root, n) == R.EntryAt(d, root, n)
    {
      assert forall j: nat | j < 32 :: R.EntryAt(e, root, n)[j] == R.EntryAt(d, root, n)[j];
    }
    forall n: nat | n < |names|
      ensures UsedSeen(e, root, n, names[n])
    {
      assert UsedSeen(d, root, n, names[n]);
    }
    forall n: nat | |names| <= n < 16 * sectors
      ensures UnusedSeen(e, root, n)
    {
      assert UnusedSeen(d, root, n);
    }
  }

  ghost predicate SameRun(d: seq<Byte>, e: seq<Byte>, from: nat, len: nat) {
    |d| == |e| && from + len <= |d| && forall pos: nat | from <= pos < from + len :: e[pos] == d[pos]
  }

  /** The links of the other clusters, and of the other FAT, still lead where they led. */
  lemma LinkRead(d: seq<Byte>, e: seq<Byte>, base: nat, fs: nat, start: nat, n: nat, copy: nat, j: nat, at: nat, v: nat)
    requires copy < 2 && j < n && start >= 2 && start + n <= 0xFFF8 && ChainStored(d, base, fs, start, n, n)
    requires OneLink(d, e, at, v)
    requires at + 2 <= base + LinkByte(fs, copy, start + j) || base + LinkByte(fs, copy, start + j) + 2 <= at
    ensures
      var o := base + FatByte(fs, copy) + 2 * (start + j);
      o + 2 <= |e| && U16(e, o) == Link(start, n, j)
  {
    assert LinkStored(d, base, fs, start, n, copy, j);
    var o := base + LinkByte(fs, copy, start + j);
    Le16Read(d, o, Link(start, n, j));
    assert o == base + FatByte(fs, copy) + 2 * (start + j);
  }

  /** The walk of the untouched copy. */
  lemma SoundWalk(e: seq<Byte>, fat: nat, start: nat, n: nat)
    requires start >= 2 && n >= 1 && start + n <= 0xFFF8
    requires LinksBut(e, fat, start, n, n)
    ensures R.Walk(e, fat, start, R.MAX_LINKS) == R.Chain(Range(start, Min(n, R.MAX_LINKS)))
  {
    var m := Min(n, R.MAX_LINKS);
    var cs := Range(start, m);
    RangeIsPath(e, fat, start, n, m);
    assert LinkIs(e, fat, start, n, m - 1);
    WalkFollows(e, fat, cs, R.MAX_LINKS);
  }

  ghost predicate LinkIs(e: seq<Byte>, fat: nat, start: nat, n: nat, j: nat) {
    var o := fat + 2 * (start + j);
    o + 2 <= |e| && U16(e, o) == Link(start, n, j)
  }

  lemma RangeIsPath(e: seq<Byte>, fat: nat, start: nat, n: nat, m: nat)
    requires start >= 2 && 1 <= m <= n && start + n <= 0xFFF8
    requires forall j: nat | j + 1 < m :: LinkIs(e, fat, start, n, j)
    ensures Path(e, fat, Range(start, m))
  {
    var cs := Range(start, m);
    forall i: nat | i + 1 < |cs|
      ensures Leads(e, fat, cs[i], cs[i + 1])
    {
      assert LinkIs(e, fat, start, n, i);
    }
  }

  /** The walk of the spoilt copy ends at the spoilt link. */
  lemma SpoiltWalk(e: seq<Byte>, fat: nat, start: nat, n: nat, k: nat, v: nat)
    requires start >= 2 && k < n && k < R.MAX_LINKS && start + n <= 0xFFF8
    requires LinksBut(e, fat, start, n, k)
    requires fat + 2 * (start + k) + 2 <= |e| && U16(e, fat + 2 * (start + k)) == v
    ensures v < 2 ==> R.Walk(e, fat, start, R.MAX_LINKS) == R.Broken(v)
    ensures v >= 0xFFF8 ==> R.Walk(e, fat, start, R.MAX_LINKS) == R.Chain(Range(start, k + 1))
  {
    var cs := Range(start, k + 1);
    RangeIsPath(e, fat, start, n, k + 1);
    WalkFollows(e, fat, cs, R.MAX_LINKS);
  }

  /** All links of a FAT but that of cluster `k`. */
  ghost predicate LinksBut(e: seq<Byte>, fat: nat, start: nat, n: nat, k: nat) {
    forall j: nat | j < n && j != k :: LinkIs(e, fat, start, n, j)
  }

  lemma OtherLinks(d: seq<Byte>, e: seq<Byte>, base: nat, fs: nat, start: nat, n: nat, copy: nat, k: nat,
                   v: nat, c: nat)
    requires ChainStored(d, base, fs, start, n, n) && start >= 2 && start + n <= 256 * fs && start + n <= 0xFFF8
    requires copy < 2 && c < 2 && k < n && OneLink(d, e, base + LinkByte(fs, copy, start + k), v)
    ensures LinksBut(e, base + FatByte(fs, c), start, n, if c == copy then k else n)
  {
    var fat, but := base + FatByte(fs, c), if c == copy then k else n;
    forall j: nat | j < n && j != but
      ensures LinkIs(e, fat, start, n, j)
    {
      LinkRead(d, e, base, fs, start, n, c, j, base + LinkByte(fs, copy, start + k), v);
    }
  }

  lemma SpoiltWalks(d: seq<Byte>, e: seq<Byte>, base: nat, fs: nat, start: nat, n: nat, copy: nat, k: nat, v: nat)
      returns (a: R.Walked, b: R.Walked)
    requires ChainStored(d, base, fs, start, n, n) && start >= 2 && start + n <= 256 * fs && start + n <= 0xFFF8
    requires copy < 2 && k < n && k < R.MAX_LINKS && OneLink(d, e, base + LinkByte(fs, copy, start + k), v)
    ensures a == R.Walk(e, base + FatByte(fs, 0), start, R.MAX_LINKS)
    ensures b == R.Walk(e, base + FatByte(fs, 1), start, R.MAX_LINKS)
    ensures (if copy == 0 then b else a) == R.Chain(Range(start, Min(n, R.MAX_LINKS)))
    ensures v < 2 ==> (if copy == 0 then a else b) == R.Broken(v)
    ensures v >= 0xFFF8 ==> (if copy == 0 then a else b) == R.Chain(Range(start, k + 1))
  {
    a := R.Walk(e, base + FatByte(fs, 0), start, R.MAX_LINKS);
    b := R.Walk(e, base + FatByte(fs, 1), start, R.MAX_LINKS);
    var p, q := base + FatByte(fs, copy), base + FatByte(fs, 1 - copy);
    OtherLinks(d, e, base, fs, start, n, copy, k, v, copy);
    OtherLinks(d, e, base, fs, start, n, copy, k, v, 1 - copy);
    assert base + LinkByte(fs, copy, start + k) == p + 2 * (start + k);
    SpoiltWalk(e, p, start, n, k, v);
    SoundWalk(e, q, start, n);
  }

  /** The entry is where it was and says what it said. */
  lemma EntryKept(d: seq<Byte>, e: seq<Byte>, base: nat, fs: nat, files: seq<File>, i: nat, at: nat, v: nat)
    requires i < |files| && FileStored(d, base, fs, files, i) && OneLink(d, e, at, v) && at + 2 <= base + DirByte(fs, 0)
    ensures EntrySeen(e, base + DirByte(fs, i), files[i], StartOf(files, i))
  {
    HoldsElsewhere(d, e, base + DirByte(fs, i), DirEntry(files[i], StartOf(files, i)));
    EntryStoredSeen(e, base, fs, files[i], StartOf(files, i), i);
  }

  lemma BootKept(d: seq<Byte>, e: seq<Byte>, base: nat, total: nat, fs: nat, at: nat, v: nat)
    requires Geometry(total, fs) && HoldsAt(d, base, BootSector(total, fs)) && OneLink(d, e, at, v) && base + 512 <= at
    ensures BootSeen(e, base, fs)
  {
    HoldsElsewhere(d, e, base, BootSector(total, fs));
    LayoutRead(e, base, total, fs);
  }

  lemma DirectoryKept(d: seq<Byte>, e: seq<Byte>, base: nat, total: nat, fs: nat, files: seq<File>, at: nat, v: nat)
    requires ImageHolds(d, base, total, fs, files) && OneLink(d, e, at, v) && at + 2 <= base + DirByte(fs, 0)
    ensures Listed(e, base + DirByte(fs, 0), ROOT_SECTORS, NamesOf(files))
  {
    assert Listed(d, base + DirByte(fs, 0), ROOT_SECTORS, NamesOf(files)) by {
      DirectorySeen(d, base, total, fs, files);
    }
    ListedKept(d, e, base + DirByte(fs, 0), ROOT_SECTORS, NamesOf(files));
  }

  /** A link below 2 in either FAT, anywhere along the part of a chain that is followed, is reported, with the FAT
      it is in; an end mark too early is reported as two FATs that differ. */
  lemma SpoiltLinkShows(d: seq<Byte>, base: nat, total: nat, fs: nat, files: seq<File>, i: nat, copy: nat, k: nat,
                        v: nat, e: seq<Byte>)
    requires |d| % 512 == 0 && base % 512 == 0 && ImageHolds(d, base, total, fs, files)
    requires i < |files| && FirstOfName(NamesOf(files), i) && copy < 2 && k < Followed(files[i]) && v < U16_LIMIT
    requires OneLink(d, e, base + LinkByte(fs, copy, StartOf(files, i) + k), v)
    ensures v < 2 ==> R.Check(e, base, Name11(files[i]), |files[i].content|) == R.BrokenLink(copy, v)
    ensures v >= 0xFFF8 && k + 1 < Followed(files[i]) ==>
              R.Check(e, base, Name11(files[i]), |files[i].content|) == R.CopiesDiffer
  {
    var start, n, size := StartOf(files, i), ClusterCount(files[i]), |files[i].content|;
    ChainPlace(total, fs, files, i);
    LinkPlace(base, fs, copy, start + k);
    var at := base + LinkByte(fs, copy, start + k);
    assert FileStored(d, base, fs, files, i);
    var a, b := SpoiltWalks(d, e, base, fs, start, n, copy, k, v);
    BootKept(d, e, base, total, fs, at, v);
    DirectoryKept(d, e, base, total, fs, files, at, v);
    EntryKept(d, e, base, fs, files, i, at, v);
    SpoiltReported(e, base, fs, NamesOf(files), i, start, n, size, copy, k, v, a, b);
  }

  lemma SpoiltReported(e: seq<Byte>, base: nat, fs: nat, names: seq<seq<Byte>>, i: nat, start: nat, n: nat, size: nat,
                       copy: nat, k: nat, v: nat, a: R.Walked, b: R.Walked)
    requires |e| % 512 == 0 && base % 512 == 0 && BootSeen(e, base, fs) && i < |names| && FirstOfName(names, i)
    requires Listed(e, base + DirByte(fs, 0), ROOT_SECTORS, names) && base + DirByte(fs, i) + 32 <= |e|
    requires U16(e, base + DirByte(fs, i) + 26) == start && U32(e, base + DirByte(fs, i) + 28) == size
    requires copy < 2 && k < Min(n, R.MAX_LINKS)
    requires a == R.Walk(e, base + FatByte(fs, 0), start, R.MAX_LINKS)
    requires b == R.Walk(e, base + FatByte(fs, 1), start, R.MAX_LINKS)
    requires (if copy == 0 then b else a) == R.Chain(Range(start, Min(n, R.MAX_LINKS)))
    requires v < 2 ==> (if copy == 0 then a else b) == R.Broken(v)
    requires v >= 0xFFF8 ==> (if copy == 0 then a else b) == R.Chain(Range(start, k + 1))
    ensures |names[i]| == 11 && (v < 2 ==> R.Check(e, base, names[i], size) == R.BrokenLink(copy, v))
    ensures v >= 0xFFF8 && k + 1 < Min(n, R.MAX_LINKS) ==> R.Check(e, base, names[i], size) == R.CopiesDiffer
  {
    EntryDecides(e, base, fs, names, i, start, size, a, b);
    assert |Range(start, k + 1)| == k + 1 && |Range(start, Min(n, R.MAX_LINKS))| == Min(n, R.MAX_LINKS);
  }

  lemma EntryDecides(e: seq<Byte>, base: nat, fs: nat, names: seq<seq<Byte>>, i: nat, start: nat, size: nat,
                     a: R.Walked, b: R.Walked)
    requires |e| % 512 == 0 && base % 512 == 0 && BootSeen(e, base, fs) && i < |names| && FirstOfName(names, i)
    requires Listed(e, base + DirByte(fs, 0), ROOT_SECTORS, names)
    requires base + DirByte(fs, i) + 32 <= |e|
    requires U16(e, base + DirByte(fs, i) + 26) == start && U32(e, base + DirByte(fs, i) + 28) == size
    requires a == R.Walk(e, base + FatByte(fs, 0), start, R.MAX_LINKS)
    requires b == R.Walk(e, base + FatByte(fs, 1), start, R.MAX_LINKS)
    ensures |names[i]| == 11
    ensures a.Broken? ==> R.Check(e, base, names[i], size) == R.BrokenLink(0, a.cluster)
    ensures a.Chain? && b.Broken? ==> R.Check(e, base, names[i], size) == R.BrokenLink(1, b.cluster)
    ensures a.Chain? && b.Chain? && a.clusters != b.clusters ==> R.Check(e, base, names[i], size) == R.CopiesDiffer
  {
    FoundIsChecked(e, base, fs, names, i, size);
    var lay := LayoutOf(base, fs);
    assert lay.fatByte + 512 * lay.fatSectors == base + FatByte(fs, 1);
    WalksDecide(e, base, lay, base + DirByte(fs, i), size, a, b);
  }
}
