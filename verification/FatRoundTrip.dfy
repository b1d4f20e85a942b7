/** What the writer stores, the reader finds: the two sets of FAT arithmetic agree. */
module FatRoundTrip {
  import opened Wrappers
  import opened Bytes
  import opened FatSizing
  import opened FatImage
  import R = FatReader

  function Range(from: nat, n: nat): (r: seq<nat>)
    ensures |r| == n && forall i: nat | i < n :: r[i] == from + i
  {
    seq(n, i => from + i)
  }

  function Min(a: nat, b: nat): nat { if a < b then a else b }

  // ---------------------------------------------------------------------------------------------
  // Boot sector
  // ---------------------------------------------------------------------------------------------

  lemma FieldRead(d: seq<Byte>, base: nat, boot: seq<Byte>, o: nat, v: nat)
    requires HoldsAt(d, base, boot) && o + 2 <= |boot| && v < U16_LIMIT && boot[o..o + 2] == Le16(v)
    ensures base + o + 2 <= |d| && U16(d, base + o) == v
  {
    var w := d[base..base + |boot|];
    assert w[o] == d[base + o] && w[o + 1] == d[base + o + 1];
    assert boot[o..o + 2][0] == boot[o] && boot[o..o + 2][1] == boot[o + 1];
  }

  lemma HeadFields()
    ensures
      var h := BootHead();
      && h[11..13] == Le16(512) && h[13] == 1 && h[14..16] == Le16(RESERVED) && h[16] == NUM_FATS
      && h[17..19] == Le16(ROOT_ENTRIES)
  {
  }

  lemma TailFields(total: nat, fs: nat)
    requires total < U32_LIMIT && fs < U16_LIMIT
    ensures var t := BootTail(total, fs); t[3..5] == Le16(fs) && t[491] == 0x55 && t[492] == 0xAA
  {
  }

  lemma BootFields(total: nat, fs: nat)
    requires total < U32_LIMIT && fs < U16_LIMIT
    ensures
      var b := BootSector(total, fs);
      && b[11..13] == Le16(512) && b[13] == 1 && b[14..16] == Le16(RESERVED) && b[16] == NUM_FATS
      && b[17..19] == Le16(ROOT_ENTRIES) && b[22..24] == Le16(fs) && b[510] == 0x55 && b[511] == 0xAA
  {
    HeadFields();
    TailFields(total, fs);
    Joined(BootHead(), BootTail(total, fs));
  }

  lemma Joined(h: seq<Byte>, t: seq<Byte>)
    requires |h| == 19 && |t| == 493
    ensures
      var b := h + t;
      && b[11..13] == h[11..13] && b[13] == h[13] && b[14..16] == h[14..16] && b[16] == h[16]
      && b[17..19] == h[17..19] && b[22..24] == t[3..5] && b[510] == t[491] && b[511] == t[492]
  {
  }

  function LayoutOf(base: nat, fs: nat): R.Layout {
    R.Layout(1, base + FatByte(fs, 0), fs, 2, base + DirByte(fs, 0), ROOT_SECTORS, DataLba(fs))
  }

  ghost predicate BootSeen(d: seq<Byte>, base: nat, fs: nat) {
    && base + 512 <= |d| && U16(d, base + 11) == 512
    && d[base + 510] == 0x55 && d[base + 511] == 0xAA
    && R.LayoutAt(d, base) == LayoutOf(base, fs)
  }

  /** The reader derives the writer's layout. */
  lemma LayoutRead(d: seq<Byte>, base: nat, total: nat, fs: nat)
    requires Geometry(total, fs) && HoldsAt(d, base, BootSector(total, fs))
    ensures BootSeen(d, base, fs)
  {
    var b := BootSector(total, fs);
    BootFields(total, fs);
    FieldRead(d, base, b, 11, 512);
    FieldRead(d, base, b, 14, RESERVED);
    FieldRead(d, base, b, 17, ROOT_ENTRIES);
    FieldRead(d, base, b, 22, fs);
    var w := d[base..base + 512];
    assert w == b;
    assert w[13] == d[base + 13] && w[16] == d[base + 16];
    assert w[510] == d[base + 510] && w[511] == d[base + 511];
  }

  // ---------------------------------------------------------------------------------------------
  // Directory
  // ---------------------------------------------------------------------------------------------

  /** Entry `e` of the directory is in use under another name. */
  ghost predicate Other(d: seq<Byte>, root: nat, e: nat, name: seq<Byte>) {
    root + 32 * e + 32 <= |d| && R.EntryAt(d, root, e)[0] != 0 && R.EntryAt(d, root, e)[..11] != name
  }

  ghost predicate Skipped(d: seq<Byte>, root: nat, e: nat, name: seq<Byte>) {
    root + 32 * e + 32 <= |d| && (R.EntryAt(d, root, e)[0] == 0 || R.EntryAt(d, root, e)[..11] != name)
  }

  ghost predicate Wanted(d: seq<Byte>, root: nat, e: nat, name: seq<Byte>) {
    root + 32 * e + 32 <= |d| && R.EntryAt(d, root, e)[0] != 0 && R.EntryAt(d, root, e)[..11] == name
  }

  lemma {:induction false} SectorFinds(d: seq<Byte>, root: nat, name: seq<Byte>, e: nat, end: nat, t: nat)
    requires |name| == 11 && e <= t < end && root + 32 * end <= |d|
    requires forall x: nat | x < t :: Other(d, root, x, name)
    requires Wanted(d, root, t, name)
    ensures R.SectorSearch(d, root, name, e, end) == R.Hit(root + 32 * t)
    decreases t - e
  {
    if e < t {
      assert Other(d, root, e, name);
      SectorFinds(d, root, name, e + 1, end, t);
    }
  }

  lemma {:induction false} SectorMisses(d: seq<Byte>, root: nat, name: seq<Byte>, e: nat, end: nat)
    requires |name| == 11 && e <= end && root + 32 * end <= |d|
    requires forall x: nat | e <= x < end :: Skipped(d, root, x, name)
    ensures R.SectorSearch(d, root, name, e, end) == R.Miss
    decreases end - e
  {
    if e < end {
      assert Skipped(d, root, e, name);
      SectorMisses(d, root, name, e + 1, end);
    }
  }

  lemma {:induction false} RootFinds(d: seq<Byte>, root: nat, sectors: nat, name: seq<Byte>, s: nat, t: nat)
    requires |name| == 11 && 16 * s <= t < 16 * sectors && root + 512 * sectors <= |d|
    requires forall e: nat | e < t :: Other(d, root, e, name)
    requires Wanted(d, root, t, name)
    ensures R.RootSearch(d, root, sectors, name, s) == R.Hit(root + 32 * t)
    decreases sectors - s
  {
    if t < 16 * s + 16 {
      SectorFinds(d, root, name, 16 * s, 16 * s + 16, t);
    } else {
      forall e: nat | 16 * s <= e < 16 * s + 16
        ensures Skipped(d, root, e, name)
      {
        assert Other(d, root, e, name);
      }
      SectorMisses(d, root, name, 16 * s, 16 * s + 16);
      RootFinds(d, root, sectors, name, s + 1, t);
    }
  }

  lemma {:induction false} RootMisses(d: seq<Byte>, root: nat, sectors: nat, name: seq<Byte>, s: nat)
    requires |name| == 11 && s <= sectors && root + 512 * sectors <= |d|
    requires forall e: nat | e < 16 * sectors :: Skipped(d, root, e, name)
    ensures R.RootSearch(d, root, sectors, name, s) == R.Miss
    decreases sectors - s
  {
    if s < sectors {
      SectorMisses(d, root, name, 16 * s, 16 * s + 16);
      RootMisses(d, root, sectors, name, s + 1);
    }
  }

  lemma EntryRead(d: seq<Byte>, o: nat, f: File, start: nat)
    requires Named(f) && start < U16_LIMIT && |f.content| < U32_LIMIT && HoldsAt(d, o, DirEntry(f, start))
    ensures o + 32 <= |d| && U16(d, o + 26) == start && U32(d, o + 28) == |f.content|
    ensures d[o..o + 32][0] != 0 && d[o..o + 32][..11] == Name11(f)
  {
    var w := d[o..o + 32];
    assert w == DirEntry(f, start);
    assert Name11(f)[0] != 0 && w[..11] == Name11(f) && w[..11][0] == w[0];
    assert d[o + 26..o + 28] == w[26..28] == Le16(start);
    assert d[o + 28..o + 32] == w[28..32] == Le32(|f.content|);
    Le16Read(d, o + 26, start);
    Le32Read(d, o + 28, |f.content|);
  }

  function NamesOf(files: seq<File>): (names: seq<seq<Byte>>)
    requires AllNamed(files)
    ensures |names| == |files|
  {
    seq(|files|, i requires 0 <= i < |files| => Name11(files[i]))
  }

  /** The first entries are in use under these names, in this order; the others are unused. */
  ghost predicate Listed(d: seq<Byte>, root: nat, sectors: nat, names: seq<seq<Byte>>) {
    && |names| <= 16 * sectors && root + 512 * sectors <= |d|
    && UsedUpTo(d, root, names) && UnusedUpTo(d, root, |names|, 16 * sectors)
  }

  ghost predicate UsedUpTo(d: seq<Byte>, root: nat, names: seq<seq<Byte>>) {
    forall e: nat | e < |names| :: UsedSeen(d, root, e, names[e])
  }

  ghost predicate UnusedUpTo(d: seq<Byte>, root: nat, n: nat, end: nat) {
    forall e: nat | n <= e < end :: UnusedSeen(d, root, e)
  }

  ghost predicate UsedSeen(d: seq<Byte>, root: nat, e: nat, name: seq<Byte>) {
    |name| == 11 && Wanted(d, root, e, name)
  }

  /** Entry `i` is the first of its name, which in a list of distinct names every entry is. */
  ghost predicate FirstOfName(names: seq<seq<Byte>>, i: nat)
    requires i < |names|
  {
    forall e: nat | e < i :: names[e] != names[i]
  }

  ghost predicate UnusedSeen(d: seq<Byte>, root: nat, e: nat) {
    root + 32 * e + 32 <= |d| && R.EntryAt(d, root, e)[0] == 0
  }

  /** The search ends at the first entry of the name. */
  lemma SearchFinds(d: seq<Byte>, root: nat, sectors: nat, names: seq<seq<Byte>>, i: nat)
    requires Listed(d, root, sectors, names) && i < |names| && FirstOfName(names, i)
    ensures |names[i]| == 11 && R.RootSearch(d, root, sectors, names[i], 0) == R.Hit(root + 32 * i)
  {
    forall e: nat | e < i
      ensures Other(d, root, e, names[i])
    {
      assert UsedSeen(d, root, e, names[e]);
    }
    assert UsedSeen(d, root, i, names[i]);
    RootFinds(d, root, sectors, names[i], 0, i);
  }

  lemma SearchMisses(d: seq<Byte>, root: nat, sectors: nat, names: seq<seq<Byte>>, name: seq<Byte>)
    requires Listed(d, root, sectors, names) && |name| == 11 && name !in names
    ensures R.RootSearch(d, root, sectors, name, 0) == R.Miss
  {
    forall e: nat | e < 16 * sectors
      ensures Skipped(d, root, e, name)
    {
      if e < |names| {
        assert UsedSeen(d, root, e, names[e]);
      } else {
        assert UnusedSeen(d, root, e);
      }
    }
    RootMisses(d, root, sectors, name, 0);
  }

  /** Directory entry `e` as the reader sees it. */
  ghost predicate EntrySeen(d: seq<Byte>, at: nat, f: File, start: nat) {
    at + 32 <= |d| && U16(d, at + 26) == start && U32(d, at + 28) == |f.content|
  }

  lemma EntryStoredSeen(d: seq<Byte>, base: nat, fs: nat, f: File, start: nat, e: nat)
    requires Named(f) && start < U16_LIMIT && |f.content| < U32_LIMIT
    requires HoldsAt(d, base + DirByte(fs, e), DirEntry(f, start))
    ensures EntrySeen(d, base + DirByte(fs, e), f, start)
    ensures Wanted(d, base + DirByte(fs, 0), e, Name11(f))
  {
    EntryRead(d, base + DirByte(fs, e), f, start);
    assert base + DirByte(fs, 0) + 32 * e == base + DirByte(fs, e);
  }

  lemma RestSeen(d: seq<Byte>, base: nat, fs: nat, n: nat, e: nat)
    requires n <= e < ROOT_ENTRIES && UnusedFrom(d, base, fs, n)
    ensures UnusedSeen(d, base + DirByte(fs, 0), e)
  {
    var root := base + DirByte(fs, 0);
    var pos: nat := root + 32 * e;
    assert d[pos] == 0 && R.EntryAt(d, root, e)[0] == d[pos];
  }

  // ---------------------------------------------------------------------------------------------
  // Chains and contents
  // ---------------------------------------------------------------------------------------------

  /** Following a stored chain visits its clusters in order.  No link but the last is at or above
      the end mark, because no cluster number is: that is what the 65524 limit is for. */
  lemma {:induction false} WalkStored(d: seq<Byte>, base: nat, fs: nat, start: nat, n: nat, copy: nat, k: nat,
                                      fuel: nat)
    requires copy < 2 && k < n && start >= 2 && start + n <= MAX_CLUSTERS + 2
    requires ChainStored(d, base, fs, start, n, Min(n, k + fuel))
    ensures R.Walk(d, base + FatByte(fs, copy), start + k, fuel) == R.Chain(Range(start + k, Min(n - k, fuel)))
    decreases fuel
  {
    if fuel > 0 {
      assert LinkStored(d, base, fs, start, n, copy, k);
      var o := base + LinkByte(fs, copy, start + k);
      Le16Read(d, o, Link(start, n, k));
      assert o == base + FatByte(fs, copy) + 2 * (start + k);
      if k + 1 == n {
        assert Range(start + k, 1) == [start + k];
      } else {
        WalkStored(d, base, fs, start, n, copy, k + 1, fuel - 1);
        assert Range(start + k, Min(n - k, fuel)) == [start + k] + Range(start + k + 1, Min(n - k - 1, fuel - 1));
      }
    } else {
      assert Range(start + k, 0) == [];
    }
  }

  lemma {:induction false} AssembleRun(d: seq<Byte>, base: nat, fs: nat, start: nat, m: nat)
    requires start >= 2 && base + DataByte(fs, start) + 512 * m <= |d|
    ensures R.Assemble(d, base, DataLba(fs), 1, Range(start, m))
            == d[base + DataByte(fs, start)..base + DataByte(fs, start) + 512 * m]
    decreases m
  {
    var o := base + DataByte(fs, start);
    if m > 0 {
      assert Range(start, m)[0] == start && Range(start, m)[1..] == Range(start + 1, m - 1);
      AssembleRun(d, base, fs, start + 1, m - 1);
      assert R.SectorOf(d, base, DataLba(fs), 1, start) == d[o..o + 512] by {
        assert base + (DataLba(fs) + (start - 2) * 1) * 512 == o;
      }
      var rest := R.Assemble(d, base, DataLba(fs), 1, Range(start + 1, m - 1));
      assert R.Assemble(d, base, DataLba(fs), 1, Range(start, m)) == d[o..o + 512] + rest;
      assert rest == d[o + 512..o + 512 * m];
      assert d[o..o + 512 * m] == d[o..o + 512] + d[o + 512..o + 512 * m];
    } else {
      assert Range(start, 0) == [];
    }
  }

  /** How many clusters of file `i` the reader follows, and how many bytes of it it looks at. */
  function Followed(f: File): nat { Min(ClusterCount(f), R.MAX_LINKS) }

  function Seen(f: File): seq<Byte> { f.content[..Min(|f.content|, 512 * Followed(f))] }

  lemma ContentRead(d: seq<Byte>, base: nat, fs: nat, start: nat, f: File)
    requires start >= 2 && HoldsAt(d, base + DataByte(fs, start), f.content)
    requires base + DataByte(fs, start) + 512 * ClusterCount(f) <= |d|
    ensures R.Clipped(R.Assemble(d, base, DataLba(fs), 1, Range(start, Followed(f))), |f.content|) == Seen(f)
  {
    var m := Followed(f);
    var o := base + DataByte(fs, start);
    AssembleRun(d, base, fs, start, m);
    var got := d[o..o + 512 * m];
    var len := |Seen(f)|;
    assert d[o..o + |f.content|] == f.content;
    CutCut(d, o, o + 512 * m, 0, len);
    CutCut(d, o, o + |f.content|, 0, len);
    assert got[..len] == d[o..o + |f.content|][..len];
    assert R.Clipped(got, |f.content|) == got[..len];
  }

  lemma WalkCopy(d: seq<Byte>, base: nat, fs: nat, start: nat, n: nat, copy: nat)
    requires start >= 2 && n >= 1 && start + n <= MAX_CLUSTERS + 2 && copy < 2
    requires ChainStored(d, base, fs, start, n, Min(n, R.MAX_LINKS))
    ensures R.Walk(d, base + FatByte(fs, 0) + 512 * R.Times(copy, fs), start, R.MAX_LINKS)
            == R.Chain(Range(start, Min(n, R.MAX_LINKS)))
  {
    WalkStored(d, base, fs, start, n, copy, 0, R.MAX_LINKS);
    assert base + FatByte(fs, 0) + 512 * R.Times(copy, fs) == base + FatByte(fs, copy);
  }

  lemma ChainsRead(d: seq<Byte>, base: nat, fs: nat, start: nat, n: nat)
    requires start >= 2 && n >= 1 && start + n <= MAX_CLUSTERS + 2
    requires ChainStored(d, base, fs, start, n, Min(n, R.MAX_LINKS))
    ensures
      var chain := Range(start, Min(n, R.MAX_LINKS));
      R.Chains(d, LayoutOf(base, fs), start, 0, []) == Ok([chain, chain])
  {
    WalkCopy(d, base, fs, start, n, 0);
    WalkCopy(d, base, fs, start, n, 1);
    ChainsTwice(d, LayoutOf(base, fs), start, Range(start, Min(n, R.MAX_LINKS)));
  }

  lemma ChainsTwice(d: seq<Byte>, lay: R.Layout, start: nat, chain: seq<nat>)
    requires lay.copies == 2
    requires R.Walk(d, lay.fatByte + 512 * R.Times(0, lay.fatSectors), start, R.MAX_LINKS) == R.Chain(chain)
    requires R.Walk(d, lay.fatByte + 512 * R.Times(1, lay.fatSectors), start, R.MAX_LINKS) == R.Chain(chain)
    ensures R.Chains(d, lay, start, 0, []) == Ok([chain, chain])
  {
    ChainsStep(d, lay, start, 0, [], chain);
    ChainsStep(d, lay, start, 1, [chain], chain);
    assert [] + [chain] == [chain] && [chain] + [chain] == [chain, chain];
  }

  lemma ChainsStep(d: seq<Byte>, lay: R.Layout, start: nat, copy: nat, found: seq<seq<nat>>, chain: seq<nat>)
    requires copy < lay.copies
    requires R.Walk(d, lay.fatByte + 512 * R.Times(copy, lay.fatSectors), start, R.MAX_LINKS) == R.Chain(chain)
    ensures R.Chains(d, lay, start, copy, found) == R.Chains(d, lay, start, copy + 1, found + [chain])
    ensures copy + 1 == lay.copies ==> R.Chains(d, lay, start, copy, found) == Ok(found + [chain])
  {
  }

  // ---------------------------------------------------------------------------------------------
  // The round trip
  // ---------------------------------------------------------------------------------------------

  /** What the reader says about a file with this content, if it starts at cluster `start`. */
  function Verdict(f: File, start: nat, expected: nat): R.Report {
    if |f.content| != expected then R.WrongSize(|f.content|)
    else
      var wrong := R.FirstMismatch(Seen(f), 0);
      if wrong.Some? then R.WrongByte(wrong.value) else R.Passed(expected, Range(start, Followed(f)))
  }

  /** The links the reader follows and the content of a file, with room for whole sectors. */
  ghost predicate BodySeen(d: seq<Byte>, base: nat, fs: nat, f: File, start: nat) {
    && start >= 2 && start + ClusterCount(f) <= MAX_CLUSTERS + 2
    && base + DataByte(fs, start) + 512 * ClusterCount(f) <= |d|
    && ChainStored(d, base, fs, start, ClusterCount(f), Followed(f))
    && HoldsAt(d, base + DataByte(fs, start), f.content)
  }

  lemma EntryJudged(d: seq<Byte>, base: nat, fs: nat, f: File, start: nat, at: nat, expected: nat)
    requires EntrySeen(d, at, f, start) && BodySeen(d, base, fs, f, start)
    ensures R.CheckFile(d, base, LayoutOf(base, fs), at, expected) == Verdict(f, start, expected)
  {
    ChainsRead(d, base, fs, start, ClusterCount(f));
    ContentRead(d, base, fs, start, f);
    R.FileJudged(d, base, LayoutOf(base, fs), at, expected, start, |f.content|, Range(start, Followed(f)), Seen(f));
  }

  lemma FileStoredSeen(d: seq<Byte>, base: nat, fs: nat, files: seq<File>, i: nat)
    requires i < |files| && Named(files[i]) && FileStored(d, base, fs, files, i)
    ensures EntrySeen(d, base + DirByte(fs, i), files[i], StartOf(files, i))
    ensures Wanted(d, base + DirByte(fs, 0), i, Name11(files[i]))
  {
    EntryStoredSeen(d, base, fs, files[i], StartOf(files, i), i);
  }

  lemma BodyStoredSeen(d: seq<Byte>, base: nat, total: nat, fs: nat, files: seq<File>, i: nat)
    requires Geometry(total, fs) && Fits(total, fs, files) && i < |files| && base + 512 * total <= |d|
    requires FileStored(d, base, fs, files, i)
    ensures BodySeen(d, base, fs, files[i], StartOf(files, i))
  {
    StartMonotone(files, i, |files|);
  }

  lemma NameStoredSeen(d: seq<Byte>, base: nat, fs: nat, files: seq<File>, e: nat, name: seq<Byte>)
    requires e < |files| && Named(files[e]) && FileStored(d, base, fs, files, e) && name == Name11(files[e])
    ensures UsedSeen(d, base + DirByte(fs, 0), e, name)
  {
    FileStoredSeen(d, base, fs, files, e);
  }

  lemma NamesStoredSeen(d: seq<Byte>, base: nat, fs: nat, files: seq<File>)
    requires forall i: nat | i < |files| :: FileStored(d, base, fs, files, i)
    requires AllNamed(files)
    ensures UsedUpTo(d, base + DirByte(fs, 0), NamesOf(files))
  {
    var root, names := base + DirByte(fs, 0), NamesOf(files);
    forall e: nat | e < |names|
      ensures UsedSeen(d, root, e, names[e])
    {
      NameStoredSeen(d, base, fs, files, e, names[e]);
    }
  }

  lemma RestStoredSeen(d: seq<Byte>, base: nat, total: nat, fs: nat, files: seq<File>)
    requires ImageHolds(d, base, total, fs, files)
    ensures UnusedUpTo(d, base + DirByte(fs, 0), |files|, 16 * ROOT_SECTORS)
  {
    var root := base + DirByte(fs, 0);
    forall e: nat | |files| <= e < 16 * ROOT_SECTORS
      ensures UnusedSeen(d, root, e)
    {
      RestSeen(d, base, fs, |files|, e);
    }
  }

  lemma DirectorySeen(d: seq<Byte>, base: nat, total: nat, fs: nat, files: seq<File>)
    requires ImageHolds(d, base, total, fs, files)
    ensures Listed(d, base + DirByte(fs, 0), ROOT_SECTORS, NamesOf(files))
  {
    NamesStoredSeen(d, base, fs, files);
    RestStoredSeen(d, base, total, fs, files);
  }

  /** What is reported on the first entry of a name is what that entry's file is judged to be. */
  lemma FoundIsChecked(d: seq<Byte>, base: nat, fs: nat, names: seq<seq<Byte>>, i: nat, expected: nat)
    requires |d| % 512 == 0 && base % 512 == 0 && BootSeen(d, base, fs) && i < |names|
    requires Listed(d, base + DirByte(fs, 0), ROOT_SECTORS, names) && FirstOfName(names, i)
    ensures |names[i]| == 11 && base + DirByte(fs, i) + 32 <= |d|
    ensures R.Check(d, base, names[i], expected)
            == R.CheckFile(d, base, LayoutOf(base, fs), base + DirByte(fs, i), expected)
  {
    var root := base + DirByte(fs, 0);
    SearchFinds(d, root, ROOT_SECTORS, names, i);
    assert root + 32 * i == base + DirByte(fs, i);
    R.CheckFound(d, base, LayoutOf(base, fs), names[i], base + DirByte(fs, i), expected);
  }

  lemma ReportFound(d: seq<Byte>, base: nat, fs: nat, names: seq<seq<Byte>>, f: File, start: nat, i: nat, expected: nat)
    requires |d| % 512 == 0 && base % 512 == 0 && BootSeen(d, base, fs) && i < |names|
    requires Listed(d, base + DirByte(fs, 0), ROOT_SECTORS, names) && FirstOfName(names, i)
    requires EntrySeen(d, base + DirByte(fs, i), f, start) && BodySeen(d, base, fs, f, start)
    ensures |names[i]| == 11 && R.Check(d, base, names[i], expected) == Verdict(f, start, expected)
  {
    FoundIsChecked(d, base, fs, names, i, expected);
    var at := base + DirByte(fs, i);
    assert R.CheckFile(d, base, LayoutOf(base, fs), at, expected) == Verdict(f, start, expected) by {
      EntryJudged(d, base, fs, f, start, at, expected);
    }
  }

  lemma ReportMissing(d: seq<Byte>, base: nat, fs: nat, names: seq<seq<Byte>>, name: seq<Byte>, expected: nat)
    requires |d| % 512 == 0 && base % 512 == 0 && BootSeen(d, base, fs) && |name| == 11
    requires Listed(d, base + DirByte(fs, 0), ROOT_SECTORS, names) && name !in names
    ensures R.Check(d, base, name, expected) == R.NotFound
  {
    SearchMisses(d, base + DirByte(fs, 0), ROOT_SECTORS, names, name);
    R.CheckMissed(d, base, LayoutOf(base, fs), name, expected);
  }

  /** For every stored file -- of several with one name, for the first -- the reader reports the recorded size and
      the same chain in both FATs, and judges exactly the bytes written: the first thousand clusters of them. */
  lemma RoundTrip(d: seq<Byte>, base: nat, total: nat, fs: nat, files: seq<File>, i: nat, expected: nat)
    requires |d| % 512 == 0 && base % 512 == 0
    requires ImageHolds(d, base, total, fs, files) && i < |files| && FirstOfName(NamesOf(files), i)
    ensures R.Check(d, base, Name11(files[i]), expected) == Verdict(files[i], StartOf(files, i), expected)
  {
    LayoutRead(d, base, total, fs);
    DirectorySeen(d, base, total, fs, files);
    FileStoredSeen(d, base, fs, files, i);
    BodyStoredSeen(d, base, total, fs, files, i);
    ReportFound(d, base, fs, NamesOf(files), files[i], StartOf(files, i), i, expected);
  }

  /** A file passes exactly when it is as long as expected and its first 512000 bytes follow the
      pattern: the whole file is judged exactly when it has at most a thousand clusters. */
  lemma PassesExactly(f: File, start: nat, expected: nat)
    ensures Verdict(f, start, expected).Passed? <==>
              && |f.content| == expected
              && forall j: nat | j < |f.content| && j < 512000 :: f.content[j] == (7 * j + 13) % 251
    ensures Seen(f) == f.content <==> ClusterCount(f) <= R.MAX_LINKS
  {
    assert |Seen(f)| == Min(|f.content|, 512000);
    assert forall j: nat | j < |Seen(f)| :: Seen(f)[j] == f.content[j];
  }

  /** A name the image does not hold is not found. */
  lemma AbsentNotFound(d: seq<Byte>, base: nat, total: nat, fs: nat, files: seq<File>, name: seq<Byte>, expected: nat)
    requires |d| % 512 == 0 && base % 512 == 0 && |name| == 11
    requires ImageHolds(d, base, total, fs, files) && name !in NamesOf(files)
    ensures R.Check(d, base, name, expected) == R.NotFound
  {
    LayoutRead(d, base, total, fs);
    DirectorySeen(d, base, total, fs, files);
    ReportMissing(d, base, fs, NamesOf(files), name, expected);
  }

  /** The first file of a name, or the number of files. */
  function FirstIndex(names: seq<seq<Byte>>, name: seq<Byte>, from: nat): (i: nat)
    requires from <= |names| && forall e: nat | e < from :: names[e] != name
    ensures i <= |names| && (i < |names| ==> names[i] == name) && forall e: nat | e < i :: names[e] != name
    decreases |names| - from
  {
    if from == |names| || names[from] == name then from else FirstIndex(names, name, from + 1)
  }

  /** What the reader reports about any name at all. */
  function ReportOn(files: seq<File>, name: seq<Byte>, expected: nat): R.Report
    requires AllNamed(files)
  {
    var i := FirstIndex(NamesOf(files), name, 0);
    if i < |files| then Verdict(files[i], StartOf(files, i), expected) else R.NotFound
  }

  /** The reader's report on any name is a function of the files, repeated and absent names included. */
  lemma EveryReport(d: seq<Byte>, base: nat, total: nat, fs: nat, files: seq<File>, name: seq<Byte>, expected: nat)
    requires |d| % 512 == 0 && base % 512 == 0 && |name| == 11
    requires ImageHolds(d, base, total, fs, files) && AllNamed(files)
    ensures R.Check(d, base, name, expected) == ReportOn(files, name, expected)
  {
    var i := FirstIndex(NamesOf(files), name, 0);
    if i < |files| {
      RoundTrip(d, base, total, fs, files, i, expected);
    } else {
      AbsentNotFound(d, base, total, fs, files, name, expected);
    }
  }
}
