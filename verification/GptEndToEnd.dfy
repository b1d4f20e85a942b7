/**
  Builder, patch tool, service and FAT reader on the same disk.

  A built disk parses as it was meant; the patch tool's verdict on it is known for every kind of
  damage; the service finds the partition the patch tool made, and looks for the documents where the
  tool cannot have put them; and what the FAT reader reports on the volume in front of that partition
  does not change.
 */
module GptEndToEnd {
  import opened Wrappers
  import opened Bytes
  import opened GptTables
  import opened GptPatch
  import opened GptService
  import W = GptWriter
  import FatImage
  import FatReader
  import FatRoundTrip

  // ---------------------------------------------------------------------------------------------
  // Built disks as the readers see them
  // ---------------------------------------------------------------------------------------------

  /** What both parsers read from a copy of an unspoilt header. */
  function MadeHeader(crc: Crc, damage: W.Damage, n: nat, list: seq<Byte>, c: Copy): Header
    requires n >= 67
  {
    var sum := W.ListSum(crc, damage, list);
    if c.Primary? then Header(92, 1, n - 1, 34, n - 34, 2, 128, 128, sum)
    else Header(92, n - 1, 1, 34, n - 34, n - 33, 128, 128, sum)
  }

  lemma MadeParses(crc: Crc, damage: W.Damage, n: nat, parts: seq<W.Part>, list: seq<Byte>, d: seq<Byte>, c: Copy)
    requires W.TableOn(crc, damage, n, parts, list, d)
    ensures Fields(Sector(d, HeadLba(n, c))) == MadeHeader(crc, damage, n, list, c)
    ensures ParseHeader(crc, Sector(d, HeadLba(n, c))) ==
              if damage == W.SpoiltSignature then Err(NoSignature)
              else if damage == W.SpoiltHeaderCrc then Err(HeaderCrc)
              else Ok(MadeHeader(crc, damage, n, list, c))
    ensures HoldsAt(d, 512 * ListLba(n, c), list) && |list| == ENTRY_BYTES
  {
    assert W.CopyOn(crc, damage, n, list, d, c);
    if damage == W.SpoiltSignature { assert W.SpoiltSig()[0] != Signature()[0]; }
  }

  /** A built copy is sealed exactly when nothing was spoilt. */
  lemma SealedExactly(crc: Crc, damage: W.Damage, n: nat, parts: seq<W.Part>, list: seq<Byte>, d: seq<Byte>, c: Copy)
    requires W.TableOn(crc, damage, n, parts, list, d)
    ensures SealedAt(crc, d, HeadLba(n, c), MadeHeader(crc, damage, n, list, c), list) <==> damage == W.Sound
  {
    MadeParses(crc, damage, n, parts, list, d, c);
  }

  lemma MadeIsPlaced(crc: Crc, damage: W.Damage, n: nat, parts: seq<W.Part>, list: seq<Byte>, d: seq<Byte>)
    requires W.TableOn(crc, damage, n, parts, list, d) && n >= 32734
    ensures Placed(n, d) && ListOn(d) == list
  {
    MadeParses(crc, damage, n, parts, list, d, Primary);
    forall c: Copy
      ensures CopyPlaced(n, d, c)
    {
      MadeParses(crc, damage, n, parts, list, d, c);
    }
  }

  // ---------------------------------------------------------------------------------------------
  // The patch tool on a built disk
  // ---------------------------------------------------------------------------------------------

  ghost predicate SuiteParts(parts: seq<W.Part>) {
    |parts| >= 2 && parts[1] == W.Part(PART_FIRST, PART_LAST)
  }

  lemma SecondEntry(n: nat, parts: seq<W.Part>, list: seq<Byte>)
    requires W.EntriesFor(parts, list) && SuiteParts(parts)
    ensures
      var e := EntryOf(list, 1);
      && TypeOf(e) == W.TypeGuid() != Zeros(16) && GuidOf(e) == W.Same(2, 16) != Zeros(16)
      && FirstOf(e) == PART_FIRST && LastOf(e) == PART_LAST
  {
    AnySecondEntry(parts, list);
  }

  /** The second entry of any built list: the second partition, or nothing. */
  lemma AnySecondEntry(parts: seq<W.Part>, list: seq<Byte>)
    requires W.EntriesFor(parts, list)
    ensures
      var e := EntryOf(list, 1);
      if |parts| < 2 then TypeOf(e) == Zeros(16)
      else
        && TypeOf(e) == W.TypeGuid() != Zeros(16) && GuidOf(e) == W.Same(2, 16) != Zeros(16)
        && FirstOf(e) == parts[1].first && LastOf(e) == parts[1].last
  {
    if |parts| < 2 {
      assert W.EntryUnused(EntryOf(list, 1));
    } else {
      assert W.EntryFor(EntryOf(list, 1), 1, parts[1]);
      assert W.TypeGuid()[0] != Zeros(16)[0] && W.Same(2, 16)[0] != Zeros(16)[0];
    }
  }

  /** On a built disk, whatever its partitions, the tool refuses a spoilt header, a missing second partition and
      one that lies elsewhere; a spoilt entry checksum it does not notice, and repairs. */
  lemma PatchOfMade(crc: Crc, damage: W.Damage, n: nat, parts: seq<W.Part>, list: seq<Byte>, d: seq<Byte>,
                    docs: Docs, lba: nat)
    requires W.TableOn(crc, damage, n, parts, list, d) && n >= 32734
    ensures Verdict(crc, n, d, docs, lba) ==
              if !(1 <= |docs.image| <= 8192) then ImageSize
              else if damage == W.SpoiltSignature then BadHeader(NoSignature)
              else if damage == W.SpoiltHeaderCrc then BadHeader(HeaderCrc)
              else if |parts| < 2 then Unused
              else if parts[1] != W.Part(20001, 32700) then OtherLayout
              else DocsAdmitted(docs, lba)
  {
    MadeIsPlaced(crc, damage, n, parts, list, d);
    MadeParses(crc, damage, n, parts, list, d, Primary);
    MadeParses(crc, damage, n, parts, list, d, Backup);
    AnySecondEntry(parts, list);
    if damage != W.SpoiltSignature {
      assert HeadLba(n, Backup) == n - 1 && ParseHeader(crc, Sector(d, n - 1)) != Err(NoSignature);
    }
  }

  // ---------------------------------------------------------------------------------------------
  // The service on a patched disk
  // ---------------------------------------------------------------------------------------------

  lemma EntryCut(d: seq<Byte>, h: Header, list: seq<Byte>, i: nat)
    requires h.entrySize == ENTRY_SIZE && i < NUM_ENTRIES && |list| == ENTRY_BYTES
    requires HoldsAt(d, 512 * h.entryLba, list)
    ensures CutEntry(d, h, i) == Ok(EntryOf(list, i))
  {
    var off := EntryOffset(h, i);
    assert off == 128 * i;
    assert 512 * (off / 512) + off % 512 == off && off % 512 <= 384;
    HoldsCopied(list, d, 512 * h.entryLba, 128 * i, EntryOf(list, i));
  }

  /** The service on a disk that is as the image tool built it: the damage is noticed, the entry checksum's
      included, and where there is none there is no driver partition. */
  lemma ServiceOfMade(crc: Crc, damage: W.Damage, n: nat, parts: seq<W.Part>, list: seq<Byte>, d: seq<Byte>, index: nat)
    requires W.TableOn(crc, damage, n, parts, list, d)
    ensures FindPartition(crc, d, index) ==
              Err(if damage == W.SpoiltSignature then Table(BadSignature)
                  else if damage == W.SpoiltHeaderCrc then Table(BadHeaderCrc)
                  else if damage == W.SpoiltEntriesCrc then EntriesCrc
                  else NoLxpdPartition)
  {
    MadeParses(crc, damage, n, parts, list, d, Primary);
    var s, h := Sector(d, 1), MadeHeader(crc, damage, n, list, Primary);
    ParsersAgree(crc, s);
    StrictExactly(crc, s);
    assert W.CopyOn(crc, damage, n, list, d, Primary);
    if damage == W.SpoiltSignature { assert s[..8][0] == W.SpoiltSig()[0] != Signature()[0]; }
    if ParseHeader(crc, s).Ok? {
      assert ParseStrict(crc, s) == Ok(h);
      assert ReadExact(d, 2, ENTRY_BYTES) == Ok(list);
      if damage == W.Sound { NoDriverMade(d, h, parts, list, index); }
    }
  }

  lemma NoDriverMade(d: seq<Byte>, h: Header, parts: seq<W.Part>, list: seq<Byte>, index: nat)
    requires W.EntriesFor(parts, list) && HoldsAt(d, 512 * h.entryLba, list)
    requires h.num == NUM_ENTRIES && h.entrySize == ENTRY_SIZE
    ensures Search(d, h, 0, index, 0) == Err(NoLxpdPartition)
  {
    forall i: nat | i < NUM_ENTRIES
      ensures CutEntry(d, h, i).Ok? && !DriverAt(d, h, i)
    {
      EntryCut(d, h, list, i);
      MadeEntryType(parts, list, i);
    }
    SearchAnswers(d, h, index);
  }

  lemma MadeEntryType(parts: seq<W.Part>, list: seq<Byte>, i: nat)
    requires W.EntriesFor(parts, list) && i < NUM_ENTRIES
    ensures EntryOf(list, i)[..16] != LxpdType()
  {
    var e := EntryOf(list, i);
    if i < |parts| {
      assert W.EntryFor(e, i, parts[i]) && e[..16][0] == W.TypeGuid()[0] != LxpdType()[0];
    } else {
      assert W.EntryUnused(e) && e[..16][0] == 0 != LxpdType()[0];
    }
  }

  lemma NewEntries(parts: seq<W.Part>, list: seq<Byte>)
    requires W.EntriesFor(parts, list) && SuiteParts(parts)
    ensures
      var r := NewList(list);
      && EntryOf(r, 0) == EntryOf(list, 0) && EntryOf(r, 0)[..16] == W.TypeGuid()
      && EntryOf(r, 1)[..16] == LxpdType() && EntryOf(r, 1)[16..32] == W.Same(2, 16)
      && U64(EntryOf(r, 1), 32) == PART_FIRST && U64(EntryOf(r, 1), 40) == PART_LAST
  {
    var r := NewList(list);
    SecondEntry(0, parts, list);
    SpliceFacts(list, 128, LxpdType());
    assert W.EntryFor(EntryOf(list, 0), 0, parts[0]);
    var e, f := EntryOf(list, 1), EntryOf(r, 1);
    assert SameBytes(e, f, 16, 128);
    SameU64(e, f, 32);
    SameU64(e, f, 40);
    assert f[16..32] == e[16..32];
    assert f[..16] == r[128..144];
  }

  /** The search over a patched list: one foreign partition, then the driver's. */
  lemma SearchPatched(d: seq<Byte>, h: Header, parts: seq<W.Part>, list: seq<Byte>)
    requires W.EntriesFor(parts, list) && SuiteParts(parts)
    requires h.num == NUM_ENTRIES && h.entrySize == ENTRY_SIZE && h.first <= PART_FIRST && PART_LAST <= h.last
    requires HoldsAt(d, 512 * h.entryLba, NewList(list))
    ensures Search(d, h, 0, 0, 0) ==
              Ok(Sighting(PART_FIRST, PART_LAST - PART_FIRST + 1, W.Same(2, 16), 1))
  {
    var r := NewList(list);
    NewEntries(parts, list);
    EntryCut(d, h, r, 0);
    EntryCut(d, h, r, 1);
    assert W.TypeGuid()[0] != Zeros(16)[0] && W.TypeGuid()[0] != LxpdType()[0] && LxpdType()[0] != Zeros(16)[0];
    assert !Driver(h, EntryOf(r, 0)) && Used(EntryOf(r, 0)) && Driver(h, EntryOf(r, 1)) && Used(EntryOf(r, 1));
    assert Search(d, h, 0, 0, 0) == Search(d, h, 1, 0, 1);
  }

  lemma NewPrimary(crc: Crc, n: nat, d: seq<Byte>, list: seq<Byte>)
    requires Placed(n, d)
    ensures PlacedAt(NewHeader(crc, n, d, list, Primary), 2)
  {
    assert CopyPlaced(n, d, Primary);
  }

  /** The primary header after the run, as the service's parser reads it. */
  lemma PrimaryAfter(crc: Crc, n: nat, d: seq<Byte>, e: seq<Byte>, list: seq<Byte>)
    requires Placed(n, d) && |e| == |d| && BothSealed(crc, n, d, e, list)
    ensures ParseStrict(crc, Sector(e, 1)) == Ok(NewHeader(crc, n, d, list, Primary)) && HoldsAt(e, 1024, list)
  {
    var h := NewHeader(crc, n, d, list, Primary);
    NewPrimary(crc, n, d, list);
    assert SealedAt(crc, e, HeadLba(n, Primary), h, list);
    StrictToo(crc, Sector(e, HeadLba(n, Primary)), h);
  }

  lemma StrictToo(crc: Crc, s: seq<Byte>, h: Header)
    requires |s| == 512 && ParseHeader(crc, s) == Ok(h)
    requires h.size == HEADER_SIZE && h.num == NUM_ENTRIES && h.entrySize == ENTRY_SIZE
    ensures ParseStrict(crc, s) == Ok(h)
  {
    ParsersAgree(crc, s);
    assert ListBytes(h) == ENTRY_BYTES;
  }

  /** After a successful run the service finds partition 2, with its unique GUID, as the first driver
      partition. */
  lemma ServiceFindsPartition(crc: Crc, damage: W.Damage, n: nat, parts: seq<W.Part>, list: seq<Byte>, d: seq<Byte>,
                              docs: Docs, lba: nat)
    requires W.TableOn(crc, damage, n, parts, list, d) && n >= 32734 && SuiteParts(parts)
    requires Verdict(crc, n, d, docs, lba) == Done
    ensures FindPartition(crc, Left(crc, n, d, docs, lba), 0) ==
              Ok(Sighting(PART_FIRST, PART_LAST - PART_FIRST + 1, W.Same(2, 16), 1))
  {
    var e, r := Left(crc, n, d, docs, lba), NewList(list);
    MadeIsPlaced(crc, damage, n, parts, list, d);
    PatchSeals(crc, n, d, docs, lba);
    PrimaryAfter(crc, n, d, e, r);
    NewPrimary(crc, n, d, r);
    UsableArea(crc, damage, n, parts, list, d, r);
    FoundVia(crc, e, NewHeader(crc, n, d, r, Primary), parts, list);
  }

  lemma UsableArea(crc: Crc, damage: W.Damage, n: nat, parts: seq<W.Part>, list: seq<Byte>, d: seq<Byte>, r: seq<Byte>)
    requires W.TableOn(crc, damage, n, parts, list, d) && n >= 32734
    ensures var h := NewHeader(crc, n, d, r, Primary); h.first <= PART_FIRST && PART_LAST <= h.last
  {
    MadeParses(crc, damage, n, parts, list, d, Primary);
  }

  lemma FoundVia(crc: Crc, e: seq<Byte>, h: Header, parts: seq<W.Part>, list: seq<Byte>)
    requires W.EntriesFor(parts, list) && SuiteParts(parts) && |e| >= 1024
    requires ParseStrict(crc, Sector(e, 1)) == Ok(h) && HoldsAt(e, 512 * h.entryLba, NewList(list))
    requires h.num == NUM_ENTRIES && h.entrySize == ENTRY_SIZE && h.first <= PART_FIRST && PART_LAST <= h.last
    requires crc(NewList(list)) == h.entriesCrc
    ensures FindPartition(crc, e, 0) == Ok(Sighting(PART_FIRST, PART_LAST - PART_FIRST + 1, W.Same(2, 16), 1))
  {
    SearchPatched(e, h, parts, list);
    assert ListBytes(h) == ENTRY_BYTES;
    assert ReadExact(e, h.entryLba, ENTRY_BYTES) == Ok(NewList(list));
  }

  /** The service looks for the directory in the first sector of the partition, which is one of the
      sectors the tool must not touch: it sees what was there before, whatever `lba` was asked for. */
  lemma ServiceReadsOldSector(crc: Crc, n: nat, d: seq<Byte>, docs: Docs, lba: nat)
    requires n >= 32734 && |d| == 512 * n && Verdict(crc, n, d, docs, lba) == Done
    ensures
      var e, room := Left(crc, n, d, docs, lba), PART_LAST - PART_FIRST + 1;
      && ParseDirectory(Sector(e, PART_FIRST), room) == ParseDirectory(Sector(d, PART_FIRST), room)
      && (Sector(d, PART_FIRST)[..8] != DirMagic() ==> LoadDocuments(e, PART_FIRST, room) == Err(DirBroken))
      && LoadDocuments(e, lba, room) == Ok(docs)
  {
    var e, room := Left(crc, n, d, docs, lba), PART_LAST - PART_FIRST + 1;
    Completed(crc, n, d, docs, lba);
    assert PART_FIRST in RESERVED_LBAS;
    forall pos: nat | 512 * PART_FIRST <= pos < 512 * PART_FIRST + 512
      ensures e[pos] == d[pos]
    {
      if e[pos] != d[pos] { LeftFrame(crc, n, d, docs, lba, pos); }
    }
    assert Sector(e, PART_FIRST) == Sector(d, PART_FIRST);
    LoadsWhatWasWritten(e, lba, docs, room);
  }

  /** The suite's mark lies in that sector, so there the service never gets any further. */
  lemma MarkIsNoDirectory(d: seq<Byte>)
    requires |d| >= 512 * PART_FIRST + 512 && HoldsAt(d, 512 * PART_FIRST, W.Mark())
    ensures Sector(d, PART_FIRST)[..8] != DirMagic()
  {
    assert Sector(d, PART_FIRST)[..8][0] == W.Mark()[0] != DirMagic()[0];
  }

  // ---------------------------------------------------------------------------------------------
  // The files of partition 1
  // ---------------------------------------------------------------------------------------------

  /** Whatever the tool does, a volume in front of partition 2 keeps its files. */
  lemma VolumeSurvives(crc: Crc, n: nat, d: seq<Byte>, docs: Docs, lba: nat, v: W.Volume)
    requires n >= 32734 && |d| == 512 * n && W.VolumeOn(d, v) && 34 <= v.first && v.last < PART_FIRST
    ensures W.VolumeOn(Left(crc, n, d, docs, lba), v)
  {
    var e := Left(crc, n, d, docs, lba);
    forall pos: nat | 512 * v.first <= pos < 512 * v.first + 512 * W.SizeOf(v)
      ensures e[pos] == d[pos]
    {
      if e[pos] != d[pos] { LeftFrame(crc, n, d, docs, lba, pos); }
    }
    W.VolumeKept(d, e, v);
  }

  /** Every report of the FAT reader on that volume is the same before and after, whatever the name. */
  lemma ReportsSurvive(crc: Crc, n: nat, d: seq<Byte>, docs: Docs, lba: nat, v: W.Volume, name: seq<Byte>,
                       expected: nat)
    requires n >= 32734 && |d| == 512 * n && |d| % 512 == 0 && W.VolumeOn(d, v) && 34 <= v.first && v.last < PART_FIRST
    requires FatImage.AllNamed(v.files) && |name| == 11
    ensures FatReader.Check(Left(crc, n, d, docs, lba), 512 * v.first, name, expected)
            == FatReader.Check(d, 512 * v.first, name, expected)
  {
    VolumeSurvives(crc, n, d, docs, lba, v);
    VolumeReports(d, v, name, expected);
    VolumeReports(Left(crc, n, d, docs, lba), v, name, expected);
  }

  lemma VolumeReports(d: seq<Byte>, v: W.Volume, name: seq<Byte>, expected: nat)
    requires |d| % 512 == 0 && W.VolumeOn(d, v) && FatImage.AllNamed(v.files) && |name| == 11
    ensures FatReader.Check(d, 512 * v.first, name, expected) == FatRoundTrip.ReportOn(v.files, name, expected)
  {
    FatRoundTrip.EveryReport(d, 512 * v.first, W.SizeOf(v), W.FatSizing.FatSectors(W.SizeOf(v)), v.files, name,
        expected);
  }
}
