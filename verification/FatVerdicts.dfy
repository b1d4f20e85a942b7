/** What the reader's verdicts mean on any image, also on one the image tool would not write. */
module FatVerdicts {
  import opened Wrappers
  import opened Bytes
  import opened FatReader

  // ---------------------------------------------------------------------------------------------
  // Layout
  // ---------------------------------------------------------------------------------------------

  /** Where the parts of a volume lie, from the fields of its boot sector. */
  lemma LayoutExactly(d: seq<Byte>, base: nat)
    requires base + 512 <= |d|
    ensures
      var lay, reserved, fats := LayoutAt(d, base), U16(d, base + 14), Product(d[base + 16], U16(d, base + 22));
      && lay.fatByte == base + 512 * reserved && lay.copies == d[base + 16] && lay.fatSectors == U16(d, base + 22)
      && lay.rootByte == lay.fatByte + 512 * fats && lay.rootSectors == U16(d, base + 17) / 16
      && base + 512 * lay.dataLba == lay.rootByte + 512 * lay.rootSectors && lay.spc == d[base + 13]
  {
  }

  // ---------------------------------------------------------------------------------------------
  // Directory
  // ---------------------------------------------------------------------------------------------

  /** Entry `i` of directory sector `s` has the name, and it and those before it in its sector are in use. */
  ghost predicate Shown(d: seq<Byte>, root: nat, name: seq<Byte>, s: nat, i: nat)
    requires root + 512 * (s + 1) <= |d| && i < 16
  {
    EntryBytes(d, root, s, i)[..11] == name && forall j: nat | j <= i :: EntryBytes(d, root, s, j)[0] != 0
  }

  function EntryBytes(d: seq<Byte>, root: nat, s: nat, i: nat): (e: seq<Byte>)
    requires root + 512 * (s + 1) <= |d| && i < 16
    ensures |e| == 32
  {
    d[root + 512 * s + 32 * i..root + 512 * s + 32 * i + 32]
  }

  /** No entry of the sector before `n` is shown. */
  ghost predicate NoneShown(d: seq<Byte>, root: nat, name: seq<Byte>, s: nat, n: nat)
    requires root + 512 * (s + 1) <= |d| && n <= 16
  {
    forall i: nat | i < n :: !Shown(d, root, name, s, i)
  }

  lemma {:induction false} SectorExactly(d: seq<Byte>, root: nat, name: seq<Byte>, s: nat, i: nat)
    requires |name| == 11 && root + 512 * (s + 1) <= |d| && i <= 16 && NoneShown(d, root, name, s, i)
    requires forall j: nat | j < i :: EntryBytes(d, root, s, j)[0] != 0
    ensures
      var r := SectorSearch(d, root, name, 16 * s + i, 16 * s + 16);
      match r
      case Hit(at) => exists k: nat :: k < 16 && FirstShown(d, root, name, s, k) && at == root + 512 * s + 32 * k
      case Miss => NoneShown(d, root, name, s, 16)
      case OffImage => false
    decreases 16 - i
  {
    if i < 16 {
      var e := EntryBytes(d, root, s, i);
      assert e == EntryAt(d, root, 16 * s + i);
      if e[0] == 0 {
        assert forall k: nat | i <= k < 16 :: !Shown(d, root, name, s, k);
      } else if e[..11] == name {
        assert FirstShown(d, root, name, s, i);
      } else {
        SectorExactly(d, root, name, s, i + 1);
      }
    }
  }

  ghost predicate FirstShown(d: seq<Byte>, root: nat, name: seq<Byte>, s: nat, k: nat)
    requires root + 512 * (s + 1) <= |d| && k < 16
  {
    Shown(d, root, name, s, k) && NoneShown(d, root, name, s, k)
  }

  /** The search finds the first entry of the name that no unused entry precedes in its sector, and nothing if there
      is none: an unused entry ends the search of its sector only. */
  lemma {:induction false} RootExactly(d: seq<Byte>, root: nat, sectors: nat, name: seq<Byte>, s: nat)
    requires |name| == 11 && root + 512 * sectors <= |d| && s <= sectors
    requires forall t: nat | t < s :: NoneShown(d, root, name, t, 16)
    ensures
      match RootSearch(d, root, sectors, name, s)
      case Hit(at) => ShownAt(d, root, sectors, name, at)
      case Miss => forall t: nat | t < sectors :: NoneShown(d, root, name, t, 16)
      case OffImage => false
    decreases sectors - s
  {
    if s < sectors {
      SectorExactly(d, root, name, s, 0);
      if SectorSearch(d, root, name, 16 * s, 16 * s + 16).Miss? { RootExactly(d, root, sectors, name, s + 1); }
    }
  }

  /** Here the first such entry lies. */
  ghost predicate ShownAt(d: seq<Byte>, root: nat, sectors: nat, name: seq<Byte>, at: nat)
    requires root + 512 * sectors <= |d|
  {
    exists t: nat, k: nat ::
      && t < sectors && k < 16 && FirstShown(d, root, name, t, k) && at == root + 512 * t + 32 * k
      && forall u: nat | u < t :: NoneShown(d, root, name, u, 16)
  }

  // ---------------------------------------------------------------------------------------------
  // Chains and contents
  // ---------------------------------------------------------------------------------------------

  ghost function CopyWalk(d: seq<Byte>, lay: Layout, start: nat, copy: nat): Walked {
    Walk(d, lay.fatByte + 512 * Product(copy, lay.fatSectors), start, 1000)
  }

  /** The chains found are those of the FATs, in their order. */
  lemma {:induction false} ChainsExactly(d: seq<Byte>, lay: Layout, start: nat, copy: nat, found: seq<seq<nat>>)
    requires copy <= lay.copies && |found| == copy
    requires forall c: nat | c < copy :: CopyWalk(d, lay, start, c) == Chain(found[c])
    ensures
      var r := Chains(d, lay, start, copy, found);
      if r.Err? then exists c: nat :: c < lay.copies && FirstBroken(d, lay, start, c, r.error)
      else
        && |r.value| == lay.copies
        && forall c: nat | c < lay.copies :: CopyWalk(d, lay, start, c) == Chain(r.value[c])
    decreases lay.copies - copy
  {
    if copy < lay.copies {
      assert Product(copy, lay.fatSectors) == Times(copy, lay.fatSectors);
      var w := CopyWalk(d, lay, start, copy);
      if w.Chain? {
        var more := found + [w.clusters];
        assert forall c: nat | c < copy :: more[c] == found[c];
        ChainsExactly(d, lay, start, copy + 1, more);
        var r := Chains(d, lay, start, copy + 1, more);
        assert r == Chains(d, lay, start, copy, found);
        if r.Err? { var c: nat :| c < lay.copies && FirstBroken(d, lay, start, c, r.error); }
      } else {
        var r := Chains(d, lay, start, copy, found);
        assert w == Walk(d, lay.fatByte + 512 * Times(copy, lay.fatSectors), start, MAX_LINKS);
        assert FirstBroken(d, lay, start, copy, r.error);
      }
    }
  }

  /** Copy `c` is the first whose chain breaks off, and this is the report. */
  ghost predicate FirstBroken(d: seq<Byte>, lay: Layout, start: nat, c: nat, e: Report) {
    && (forall k: nat | k < c :: CopyWalk(d, lay, start, k).Chain?)
    && match CopyWalk(d, lay, start, c)
       case Chain(_) => false
       case Broken(v) => e == BrokenLink(c, v)
       case OffFat => e == Crashed
  }

  /** Where the sectors read for a chain lie: the first of each cluster, whatever the cluster size. */
  ghost predicate SectorsAt(d: seq<Byte>, base: nat, lay: Layout, chain: seq<nat>, places: seq<nat>) {
    |places| == |chain| && forall i: nat | i < |chain| :: SectorAt(d, base, lay, chain[i], places[i])
  }

  ghost predicate SectorAt(d: seq<Byte>, base: nat, lay: Layout, c: nat, at: nat) {
    at + 512 <= |d| && at == base + 512 * (lay.dataLba + (c - 2) * lay.spc)
  }

  lemma SectorRead(d: seq<Byte>, base: nat, lay: Layout, c: nat, at: nat)
    requires SectorAt(d, base, lay, c, at)
    ensures SectorOf(d, base, lay.dataLba, lay.spc, c) == d[at..at + 512]
  {
    var lba := lay.dataLba + (c - 2) * lay.spc;
    assert at == base + lba * 512;
  }

  ghost predicate Joins(d: seq<Byte>, places: seq<nat>, all: seq<Byte>) {
    && |all| == 512 * |places|
    && forall k: nat | k < |places| ::
         places[k] + 512 <= |d| && all[512 * k..512 * k + 512] == d[places[k]..places[k] + 512]
  }

  lemma JoinOne(d: seq<Byte>, places: seq<nat>, rest: seq<Byte>, at: nat)
    requires Joins(d, places, rest) && at + 512 <= |d|
    ensures Joins(d, [at] + places, d[at..at + 512] + rest)
  {
    var all, more := d[at..at + 512] + rest, [at] + places;
    forall k: nat | k < |more|
      ensures more[k] + 512 <= |d| && all[512 * k..512 * k + 512] == d[more[k]..more[k] + 512]
    {
      if k == 0 {
        assert all[0..512] == d[at..at + 512];
      } else {
        assert more[k] == places[k - 1];
        assert all[512 * k..512 * k + 512] == rest[512 * (k - 1)..512 * (k - 1) + 512];
      }
    }
  }

  lemma {:induction false} AssembledSectors(d: seq<Byte>, base: nat, lay: Layout, chain: seq<nat>, places: seq<nat>)
    requires SectorsAt(d, base, lay, chain, places)
    ensures Joins(d, places, Assemble(d, base, lay.dataLba, lay.spc, chain))
    decreases |chain|
  {
    if chain != [] {
      assert SectorAt(d, base, lay, chain[0], places[0]);
      SectorRead(d, base, lay, chain[0], places[0]);
      forall i: nat | i < |chain[1..]|
        ensures SectorAt(d, base, lay, chain[1..][i], places[1..][i])
      {
        assert SectorAt(d, base, lay, chain[i + 1], places[i + 1]);
      }
      AssembledSectors(d, base, lay, chain[1..], places[1..]);
      JoinOne(d, places[1..], Assemble(d, base, lay.dataLba, lay.spc, chain[1..]), places[0]);
      assert [places[0]] + places[1..] == places;
    }
  }

  lemma JoinedByte(d: seq<Byte>, places: seq<nat>, all: seq<Byte>, j: nat)
    requires Joins(d, places, all) && j < |all|
    ensures j / 512 < |places| && places[j / 512] + j % 512 < |d| && all[j] == d[places[j / 512] + j % 512]
  {
    var k, o := j / 512, j % 512;
    assert j == 512 * k + o;
    assert all[512 * k..512 * k + 512][o] == d[places[k]..places[k] + 512][o];
  }

  /** The chain is that of every FAT, and there is one. */
  ghost predicate InAllCopies(d: seq<Byte>, lay: Layout, start: nat, chain: seq<nat>) {
    lay.copies > 0 && forall c: nat | c < lay.copies :: CopyWalk(d, lay, start, c) == Chain(chain)
  }

  lemma EqualExactly(d: seq<Byte>, lay: Layout, start: nat, chains: seq<seq<nat>>)
    requires |chains| == lay.copies && forall c: nat | c < lay.copies :: CopyWalk(d, lay, start, c) == Chain(chains[c])
    ensures AllEqual(chains) ==> InAllCopies(d, lay, start, chains[0])
    ensures forall chain :: InAllCopies(d, lay, start, chain) ==> AllEqual(chains) && chain == chains[0]
  {
    forall chain | InAllCopies(d, lay, start, chain)
      ensures AllEqual(chains) && chain == chains[0]
    {
      forall i: nat | i < |chains|
        ensures chains[i] == chain
      {
        assert CopyWalk(d, lay, start, i) == Chain(chain);
      }
    }
  }

  lemma JudgedBy(d: seq<Byte>, base: nat, lay: Layout, at: nat, expected: nat, chains: Result<seq<seq<nat>>, Report>,
                 content: seq<Byte>)
    requires at + 32 <= |d| && chains == Chains(d, lay, U16(d, at + 26), 0, [])
    requires chains.Ok? && |chains.value| > 0 ==>
               content == Clipped(Assemble(d, base, lay.dataLba, lay.spc, chains.value[0]), U32(d, at + 28))
    ensures
      CheckFile(d, base, lay, at, expected) ==
        if U32(d, at + 28) != expected then WrongSize(U32(d, at + 28))
        else if chains.Err? then chains.error
        else if !AllEqual(chains.value) then CopiesDiffer
        else if FirstMismatch(content, 0).Some? then WrongByte(FirstMismatch(content, 0).value)
        else Passed(expected, chains.value[0])
  {
  }

  /** What is reported on the file of a directory entry: its size if that is wrong, else the first FAT whose chain
      breaks off, else that the FATs differ, else what its contents are. */
  lemma FileExactly(d: seq<Byte>, base: nat, lay: Layout, at: nat, expected: nat)
    requires at + 32 <= |d|
    ensures
      var r, start, right := CheckFile(d, base, lay, at, expected), U16(d, at + 26), U32(d, at + 28) == expected;
      && (r.WrongSize? <==> !right) && (r.WrongSize? ==> r.size == U32(d, at + 28))
      && (r.BrokenLink? || r.Crashed? <==> right && exists c: nat :: c < lay.copies && FirstBroken(d, lay, start, c, r))
      && (r.Passed? || r.WrongByte? <==> right && exists chain :: InAllCopies(d, lay, start, chain))
      && (r.Passed? ==> r.size == expected && InAllCopies(d, lay, start, r.chain))
      && !r.NotFound? && !r.NoBootSector? && !r.OddSectorSize?
  {
    var start := U16(d, at + 26);
    ChainsExactly(d, lay, start, 0, []);
    var chains := Chains(d, lay, start, 0, []);
    var content := if chains.Ok? && |chains.value| > 0
                   then Clipped(Assemble(d, base, lay.dataLba, lay.spc, chains.value[0]), U32(d, at + 28)) else [];
    JudgedBy(d, base, lay, at, expected, chains, content);
    if chains.Ok? {
      EqualExactly(d, lay, start, chains.value);
      NotBroken(d, lay, start, chains.value, CheckFile(d, base, lay, at, expected));
    } else {
      var c: nat :| c < lay.copies && FirstBroken(d, lay, start, c, chains.error);
      BrokenIsNotChained(d, lay, start, c, chains.error);
    }
  }

  lemma NotBroken(d: seq<Byte>, lay: Layout, start: nat, chains: seq<seq<nat>>, r: Report)
    requires |chains| == lay.copies && forall c: nat | c < lay.copies :: CopyWalk(d, lay, start, c) == Chain(chains[c])
    ensures forall c: nat | c < lay.copies :: !FirstBroken(d, lay, start, c, r)
  {
  }

  lemma BrokenIsNotChained(d: seq<Byte>, lay: Layout, start: nat, c: nat, e: Report)
    requires c < lay.copies && FirstBroken(d, lay, start, c, e)
    ensures e.BrokenLink? || e.Crashed?
    ensures forall chain :: !InAllCopies(d, lay, start, chain)
  {
    forall chain
      ensures !InAllCopies(d, lay, start, chain)
    {
      assert CopyWalk(d, lay, start, c) != Chain(chain);
    }
  }

  /** Byte `j` of what is joined follows the pattern. */
  ghost predicate ByteRight(d: seq<Byte>, places: seq<nat>, j: nat) {
    && j / 512 < |places| && places[j / 512] + j % 512 < |d|
    && d[places[j / 512] + j % 512] == (7 * j + 13) % 251
  }

  /** A file passes exactly if its size is right, all FATs have one chain for it, and every byte up to its size, or
      to the end of the chain if that comes first, follows the pattern. */
  lemma PassExactly(d: seq<Byte>, base: nat, lay: Layout, at: nat, expected: nat, chain: seq<nat>, places: seq<nat>)
    requires at + 32 <= |d| && SectorsAt(d, base, lay, chain, places)
    ensures CheckFile(d, base, lay, at, expected) == Passed(expected, chain) <==>
              && U32(d, at + 28) == expected && InAllCopies(d, lay, U16(d, at + 26), chain)
              && forall j: nat | j < expected && j < 512 * |chain| :: ByteRight(d, places, j)
  {
    FileExactly(d, base, lay, at, expected);
    if U32(d, at + 28) == expected && InAllCopies(d, lay, U16(d, at + 26), chain) {
      var all := Assemble(d, base, lay.dataLba, lay.spc, chain);
      ChainedIsJudged(d, base, lay, at, expected, chain, Clipped(all, expected));
      AssembledSectors(d, base, lay, chain, places);
      ContentBytes(d, places, expected, all, Clipped(all, expected));
    }
  }

  lemma ChainedIsJudged(d: seq<Byte>, base: nat, lay: Layout, at: nat, expected: nat, chain: seq<nat>,
                        content: seq<Byte>)
    requires at + 32 <= |d| && U32(d, at + 28) == expected && InAllCopies(d, lay, U16(d, at + 26), chain)
    requires content == Clipped(Assemble(d, base, lay.dataLba, lay.spc, chain), expected)
    ensures CheckFile(d, base, lay, at, expected) == Passed(expected, chain) <==> FirstMismatch(content, 0).None?
  {
    var start := U16(d, at + 26);
    ChainsExactly(d, lay, start, 0, []);
    var chains := Chains(d, lay, start, 0, []);
    if chains.Ok? {
      EqualExactly(d, lay, start, chains.value);
    } else {
      var c: nat :| c < lay.copies && FirstBroken(d, lay, start, c, chains.error);
      BrokenIsNotChained(d, lay, start, c, chains.error);
    }
    JudgedBy(d, base, lay, at, expected, chains, content);
  }

  lemma ContentBytes(d: seq<Byte>, places: seq<nat>, size: nat, all: seq<Byte>, content: seq<Byte>)
    requires Joins(d, places, all) && content == Clipped(all, size)
    ensures FirstMismatch(content, 0).None? <==>
              forall j: nat | j < size && j < 512 * |places| :: ByteRight(d, places, j)
  {
    forall j: nat | j < |content|
      ensures ByteRight(d, places, j) <==> content[j] == Pattern(j)
    {
      JoinedByte(d, places, all, j);
    }
  }

  lemma ShownIsNotNone(d: seq<Byte>, root: nat, sectors: nat, name: seq<Byte>, at: nat)
    requires root + 512 * sectors <= |d| && ShownAt(d, root, sectors, name, at)
    ensures exists t: nat :: t < sectors && !NoneShown(d, root, name, t, 16)
  {
    var t: nat, k: nat :| t < sectors && k < 16 && FirstShown(d, root, name, t, k) && at == root + 512 * t + 32 * k;
    assert Shown(d, root, name, t, k) && !NoneShown(d, root, name, t, 16);
  }

  lemma CheckBy(d: seq<Byte>, base: nat, name: seq<Byte>, expected: nat, lay: Layout, found: Search)
    requires |d| % 512 == 0 && base % 512 == 0 && |name| == 11 && base + 512 <= |d| && lay == LayoutAt(d, base)
    requires found == RootSearch(d, lay.rootByte, lay.rootSectors, name, 0)
    ensures found.Hit? ==> found.at + 32 <= |d|
    ensures
      Check(d, base, name, expected) ==
        if d[base + 510] != 0x55 || d[base + 511] != 0xAA then NoBootSector
        else if U16(d, base + 11) != 512 then OddSectorSize(U16(d, base + 11))
        else
          match found
          case Hit(at) => CheckFile(d, base, lay, at, expected)
          case Miss => NotFound
          case OffImage => Crashed
  {
    RootHit(d, lay.rootByte, lay.rootSectors, name, 0);
  }

  /** The whole of the tool's verdict, for an image whose directory lies on it: boot sector and sector size first,
      then the file of the first entry shown under the name. */
  lemma CheckExactly(d: seq<Byte>, base: nat, name: seq<Byte>, expected: nat)
    requires |d| % 512 == 0 && base % 512 == 0 && |name| == 11 && base + 512 <= |d|
    requires LayoutAt(d, base).rootByte + 512 * LayoutAt(d, base).rootSectors <= |d|
    ensures
      var r, lay := Check(d, base, name, expected), LayoutAt(d, base);
      var signed, sized := d[base + 510] == 0x55 && d[base + 511] == 0xAA, U16(d, base + 11) == 512;
      && (r == NoBootSector <==> !signed)
      && (r.OddSectorSize? <==> signed && !sized) && (r.OddSectorSize? ==> r.size == U16(d, base + 11))
      && (r == NotFound <==>
            signed && sized && forall t: nat | t < lay.rootSectors :: NoneShown(d, lay.rootByte, name, t, 16))
      && (signed && sized && r != NotFound ==>
            exists at: nat :: at + 32 <= |d| && ShownAt(d, lay.rootByte, lay.rootSectors, name, at)
                              && r == CheckFile(d, base, lay, at, expected))
  {
    var lay := LayoutAt(d, base);
    var found := RootSearch(d, lay.rootByte, lay.rootSectors, name, 0);
    CheckBy(d, base, name, expected, lay, found);
    RootExactly(d, lay.rootByte, lay.rootSectors, name, 0);
    if found.Hit? {
      FileExactly(d, base, lay, found.at, expected);
      ShownIsNotNone(d, lay.rootByte, lay.rootSectors, name, found.at);
    }
  }
}
