/**
  The independent reader: the FAT arithmetic a second time, over any image of whole sectors.

  `Check` is what the tool reports; the methods compute it the way the tool does, step by step.
  (`|d|` leads the termination measures so that the verifier does not unroll a search whose bounds
  are constants.)
 */
module FatReader {
  import opened Wrappers
  import opened Bytes

  const END_MARK: nat := 0xFFF8
  const MAX_LINKS: nat := 1000

  /** The tool's outcomes; `Crashed` is an access outside the image. */
  datatype Report =
    | Crashed
    | NoBootSector
    | OddSectorSize(size: nat)
    | NotFound
    | WrongSize(size: nat)
    | BrokenLink(copy: nat, cluster: nat)
    | CopiesDiffer
    | WrongByte(index: nat)
    | Passed(size: nat, chain: seq<nat>)

  datatype Search = Hit(at: nat) | Miss | OffImage

  datatype Walked = Chain(clusters: seq<nat>) | Broken(cluster: nat) | OffFat

  datatype Layout = Layout(spc: nat, fatByte: nat, fatSectors: nat, copies: nat,
                           rootByte: nat, rootSectors: nat, dataLba: nat)

  function Pattern(i: nat): nat { (i * 7 + 13) % 251 }

  // ---------------------------------------------------------------------------------------------
  // What the tool reports
  // ---------------------------------------------------------------------------------------------

  /** The 32 bytes of directory entry `e`. */
  function EntryAt(d: seq<Byte>, root: nat, e: nat): (r: seq<Byte>)
    requires root + 32 * e + 32 <= |d|
    ensures |r| == 32
  {
    d[root + 32 * e..root + 32 * e + 32]
  }

  /** Entries `e` up to `end`, the end of a sector: an unused entry ends the search of the sector. */
  function SectorSearch(d: seq<Byte>, root: nat, name: seq<Byte>, e: nat, end: nat): Search
    requires e <= end && |name| == 11
    decreases |d|, end - e
  {
    if e == end then Miss
    else if root + 32 * end > |d| then OffImage
    else if EntryAt(d, root, e)[0] == 0 then Miss
    else if EntryAt(d, root, e)[..11] == name then Hit(root + 32 * e)
    else SectorSearch(d, root, name, e + 1, end)
  }

  function RootSearch(d: seq<Byte>, root: nat, sectors: nat, name: seq<Byte>, s: nat): Search
    requires s <= sectors && |name| == 11
    decreases |d|, sectors - s
  {
    if s == sectors then Miss
    else
      var r := SectorSearch(d, root, name, 16 * s, 16 * s + 16);
      if r.Miss? then RootSearch(d, root, sectors, name, s + 1) else r
  }

  function Prefixed(c: seq<nat>, w: Walked): Walked {
    if w.Chain? then Chain(c + w.clusters) else w
  }

  function Walk(d: seq<Byte>, fat: nat, c: nat, fuel: nat): Walked
    decreases |d|, fuel
  {
    if fuel == 0 then Chain([])
    else if fat + 2 * c + 2 > |d| then OffFat
    else
      var next := U16(d, fat + 2 * c);
      if next >= END_MARK then Chain([c])
      else if next < 2 then Broken(next)
      else Prefixed([c], Walk(d, fat, next, fuel - 1))
  }

  /** The sector read for cluster `c`; cluster numbers below 2 reach in front of the data area. */
  function SectorOf(d: seq<Byte>, base: nat, dataLba: nat, spc: nat, c: nat): seq<Byte> {
    var at := base + (dataLba + (c - 2) * spc) * 512;
    PySlice(d, at, at + 512)
  }

  function Assemble(d: seq<Byte>, base: nat, dataLba: nat, spc: nat, chain: seq<nat>): seq<Byte> {
    if chain == [] then []
    else SectorOf(d, base, dataLba, spc, chain[0]) + Assemble(d, base, dataLba, spc, chain[1..])
  }

  function FirstMismatch(content: seq<Byte>, i: nat): (r: Option<nat>)
    requires i <= |content|
    ensures r.None? <==> forall j: nat | i <= j < |content| :: content[j] == Pattern(j)
    ensures r.Some? ==> i <= r.value < |content| && content[r.value] != Pattern(r.value)
    decreases |content| - i
  {
    if i == |content| then None
    else if content[i] != Pattern(i) then Some(i)
    else FirstMismatch(content, i + 1)
  }

  function Clipped(s: seq<Byte>, n: nat): seq<Byte> { if n <= |s| then s[..n] else s }

  /** Every FAT copy walked from `start`: the chain of the first, or the first reason to stop. */
  function Chains(d: seq<Byte>, lay: Layout, start: nat, copy: nat, found: seq<seq<nat>>): Result<seq<seq<nat>>, Report>
    requires copy <= lay.copies
    decreases lay.copies - copy
  {
    if copy == lay.copies then Ok(found)
    else
      match Walk(d, lay.fatByte + 512 * Times(copy, lay.fatSectors), start, MAX_LINKS)
      case OffFat => Err(Crashed)
      case Broken(c) => Err(BrokenLink(copy, c))
      case Chain(cs) => Chains(d, lay, start, copy + 1, found + [cs])
  }

  predicate AllEqual(chains: seq<seq<nat>>) {
    |chains| > 0 && forall i: nat | i < |chains| :: chains[i] == chains[0]
  }

  function CheckFile(d: seq<Byte>, base: nat, lay: Layout, entry: nat, expected: nat): Report
    requires entry + 32 <= |d|
  {
    var start, size := U16(d, entry + 26), U32(d, entry + 28);
    if size != expected then WrongSize(size)
    else
      var chains := Chains(d, lay, start, 0, []);
      if chains.Err? then chains.error
      else if !AllEqual(chains.value) then CopiesDiffer
      else
        var content := Clipped(Assemble(d, base, lay.dataLba, lay.spc, chains.value[0]), size);
        var wrong := FirstMismatch(content, 0);
        if wrong.Some? then WrongByte(wrong.value) else Passed(size, chains.value[0])
  }

  function Times(a: nat, b: nat): nat { a * b }

  function LayoutAt(d: seq<Byte>, base: nat): Layout
    requires base + 512 <= |d|
  {
    var reserved, copies, fatSectors := U16(d, base + 14), d[base + 16], U16(d, base + 22);
    var rootLba := reserved + Times(copies, fatSectors);
    var rootSectors := U16(d, base + 17) * 32 / 512;
    Layout(d[base + 13], base + reserved * 512, fatSectors, copies,
           base + rootLba * 512, rootSectors, rootLba + rootSectors)
  }

  function Check(d: seq<Byte>, base: nat, name: seq<Byte>, expected: nat): Report
    requires |d| % 512 == 0 && base % 512 == 0 && |name| == 11
  {
    if base + 512 > |d| then Crashed
    else if d[base + 510] != 0x55 || d[base + 511] != 0xAA then NoBootSector
    else if U16(d, base + 11) != SECTOR then OddSectorSize(U16(d, base + 11))
    else
      var lay := LayoutAt(d, base);
      var entry := RootSearch(d, lay.rootByte, lay.rootSectors, name, 0);
      match entry
      case OffImage => Crashed
      case Miss => NotFound
      case Hit(at) => RootHit(d, lay.rootByte, lay.rootSectors, name, 0); CheckFile(d, base, lay, at, expected)
  }

  lemma CheckFound(d: seq<Byte>, base: nat, lay: Layout, name: seq<Byte>, at: nat, expected: nat)
    requires |d| % 512 == 0 && base % 512 == 0 && |name| == 11 && base + 512 <= |d|
    requires d[base + 510] == 0x55 && d[base + 511] == 0xAA && U16(d, base + 11) == SECTOR
    requires LayoutAt(d, base) == lay && RootSearch(d, lay.rootByte, lay.rootSectors, name, 0) == Hit(at)
    ensures at + 32 <= |d| && Check(d, base, name, expected) == CheckFile(d, base, lay, at, expected)
  {
    RootHit(d, lay.rootByte, lay.rootSectors, name, 0);
  }

  lemma CheckMissed(d: seq<Byte>, base: nat, lay: Layout, name: seq<Byte>, expected: nat)
    requires |d| % 512 == 0 && base % 512 == 0 && |name| == 11 && base + 512 <= |d|
    requires d[base + 510] == 0x55 && d[base + 511] == 0xAA && U16(d, base + 11) == SECTOR
    requires LayoutAt(d, base) == lay && RootSearch(d, lay.rootByte, lay.rootSectors, name, 0) == Miss
    ensures Check(d, base, name, expected) == NotFound
  {
  }

  lemma FileJudged(d: seq<Byte>, base: nat, lay: Layout, at: nat, expected: nat, start: nat, size: nat, chain: seq<nat>,
                   content: seq<Byte>)
    requires at + 32 <= |d| && U16(d, at + 26) == start && U32(d, at + 28) == size
    requires Chains(d, lay, start, 0, []) == Ok([chain, chain])
    requires Clipped(Assemble(d, base, lay.dataLba, lay.spc, chain), size) == content
    ensures CheckFile(d, base, lay, at, expected) ==
            if size != expected then WrongSize(size)
            else if FirstMismatch(content, 0).Some? then WrongByte(FirstMismatch(content, 0).value)
            else Passed(size, chain)
  {
  }

  lemma {:induction false} SectorHit(d: seq<Byte>, root: nat, name: seq<Byte>, e: nat, end: nat)
    requires e <= end && |name| == 11
    ensures SectorSearch(d, root, name, e, end).Hit? ==> SectorSearch(d, root, name, e, end).at + 32 <= |d|
    decreases end - e
  {
    if e < end && root + 32 * end <= |d| { SectorHit(d, root, name, e + 1, end); }
  }

  lemma {:induction false} RootHit(d: seq<Byte>, root: nat, sectors: nat, name: seq<Byte>, s: nat)
    requires s <= sectors && |name| == 11
    ensures RootSearch(d, root, sectors, name, s).Hit? ==> RootSearch(d, root, sectors, name, s).at + 32 <= |d|
    decreases sectors - s
  {
    if s < sectors {
      SectorHit(d, root, name, 16 * s, 16 * s + 16);
      RootHit(d, root, sectors, name, s + 1);
    }
  }

  // ---------------------------------------------------------------------------------------------
  // How the tool gets there
  // ---------------------------------------------------------------------------------------------

  method FindEntry(d: seq<Byte>, root: nat, sectors: nat, name: seq<Byte>) returns (r: Search)
    requires |name| == 11
    ensures r == RootSearch(d, root, sectors, name, 0)
  {
    for s := 0 to sectors
      invariant RootSearch(d, root, sectors, name, 0) == RootSearch(d, root, sectors, name, s)
    {
      var e, end := 16 * s, 16 * s + 16;
      while e < end
        invariant e <= end && SectorSearch(d, root, name, 16 * s, end) == SectorSearch(d, root, name, e, end)
      {
        if root + 32 * end > |d| { return OffImage; }
        var entry := EntryAt(d, root, e);
        if entry[0] == 0 { break; }
        if entry[..11] == name { return Hit(root + 32 * e); }
        e := e + 1;
      }
    }
    return Miss;
  }

  lemma PrefixedTwice(a: seq<nat>, b: seq<nat>, w: Walked)
    ensures Prefixed(a, Prefixed(b, w)) == Prefixed(a + b, w)
  {
    if w.Chain? { assert a + (b + w.clusters) == (a + b) + w.clusters; }
  }

  method WalkChain(d: seq<Byte>, fat: nat, start: nat) returns (r: Walked)
    ensures r == Walk(d, fat, start, MAX_LINKS)
  {
    var c: nat, chain: seq<nat> := start, [];
    assert Prefixed([], Walk(d, fat, start, MAX_LINKS)) == Walk(d, fat, start, MAX_LINKS);
    for n := 0 to MAX_LINKS
      invariant Walk(d, fat, start, MAX_LINKS) == Prefixed(chain, Walk(d, fat, c, MAX_LINKS - n))
    {
      ghost var before := chain;
      chain := chain + [c];
      if fat + 2 * c + 2 > |d| { return OffFat; }
      var next := U16(d, fat + 2 * c);
      if next >= END_MARK { return Chain(chain); }
      if next < 2 { return Broken(next); }
      PrefixedTwice(before, [c], Walk(d, fat, next, MAX_LINKS - n - 1));
      c := next;
    }
    assert Walk(d, fat, c, 0) == Chain([]);
    assert chain + [] == chain;
    return Chain(chain);
  }

  method WalkAll(d: seq<Byte>, lay: Layout, start: nat) returns (r: Result<seq<seq<nat>>, Report>)
    ensures r == Chains(d, lay, start, 0, [])
  {
    var found: seq<seq<nat>> := [];
    for copy := 0 to lay.copies
      invariant Chains(d, lay, start, 0, []) == Chains(d, lay, start, copy, found)
    {
      var w := WalkChain(d, lay.fatByte + 512 * Times(copy, lay.fatSectors), start);
      match w {
        case OffFat => return Err(Crashed);
        case Broken(c) => return Err(BrokenLink(copy, c));
        case Chain(cs) => found := found + [cs];
      }
    }
    return Ok(found);
  }

  method Collect(d: seq<Byte>, base: nat, dataLba: nat, spc: nat, chain: seq<nat>) returns (content: seq<Byte>)
    ensures content == Assemble(d, base, dataLba, spc, chain)
  {
    content := [];
    for k := 0 to |chain|
      invariant content + Assemble(d, base, dataLba, spc, chain[k..]) == Assemble(d, base, dataLba, spc, chain)
    {
      ghost var before, rest := content, Assemble(d, base, dataLba, spc, chain[k + 1..]);
      var sector := SectorOf(d, base, dataLba, spc, chain[k]);
      content := content + sector;
      assert chain[k..][0] == chain[k] && chain[k..][1..] == chain[k + 1..];
      assert before + (sector + rest) == content + rest;
    }
    assert content + [] == content;
  }

  method CheckFat(d: seq<Byte>, base: nat, name: seq<Byte>, expected: nat) returns (r: Report)
    requires |d| % 512 == 0 && base % 512 == 0 && |name| == 11
    ensures r == Check(d, base, name, expected)
  {
    if base + 512 > |d| { return Crashed; }
    if d[base + 510] != 0x55 || d[base + 511] != 0xAA { return NoBootSector; }
    if U16(d, base + 11) != SECTOR { return OddSectorSize(U16(d, base + 11)); }
    var lay := LayoutAt(d, base);
    var found := FindEntry(d, lay.rootByte, lay.rootSectors, name);
    if found.OffImage? { return Crashed; }
    if found.Miss? { return NotFound; }
    RootHit(d, lay.rootByte, lay.rootSectors, name, 0);
    var entry := found.at;
    var start, size := U16(d, entry + 26), U32(d, entry + 28);
    if size != expected { return WrongSize(size); }
    var chains := WalkAll(d, lay, start);
    if chains.Err? { return chains.error; }
    if !AllEqual(chains.value) { return CopiesDiffer; }
    var chain := chains.value[0];
    var content := Collect(d, base, lay.dataLba, lay.spc, chain);
    content := Clipped(content, size);
    for i := 0 to |content|
      invariant FirstMismatch(content, 0) == FirstMismatch(content, i)
    {
      if content[i] != Pattern(i) { return WrongByte(i); }
    }
    return Passed(size, chain);
  }
}
