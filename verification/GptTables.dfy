/**
  GPT headers and entry arrays as the image tools and the loader service read them.

  CRC-32 is a parameter: nothing here depends on which checksum it is.
 */
module GptTables {
  import opened Wrappers
  import opened Bytes

  type U32Value = v: nat | v < U32_LIMIT
  type Crc = seq<Byte> -> U32Value

  const HEADER_SIZE: nat := 92
  const NUM_ENTRIES: nat := 128
  const ENTRY_SIZE: nat := 128
  const ENTRY_BYTES: nat := 16384
  const REVISION: nat := 65536

  function Signature(): (s: seq<Byte>)
    ensures |s| == 8
  {
    [0x45, 0x46, 0x49, 0x20, 0x50, 0x41, 0x52, 0x54]
  }

  /** The fields of a header sector, checked or not. */
  datatype Header = Header(size: nat, my: nat, alt: nat, first: nat, last: nat,
                           entryLba: nat, num: nat, entrySize: nat, entriesCrc: nat)

  datatype HeaderError = NoSignature | ForeignRevision | HeaderCrc

  function Fields(s: seq<Byte>): Header
    requires |s| == 512
  {
    Header(U32(s, 12), U64(s, 24), U64(s, 32), U64(s, 40), U64(s, 48), U64(s, 72), U32(s, 80), U32(s, 84), U32(s, 88))
  }

  /** The header bytes the checksum covers: its own field counts as zero. */
  function Covered(s: seq<Byte>, size: nat): seq<Byte>
    requires |s| == 512
  {
    s[..16] + Zeros(4) + PySlice(s, 20, size)
  }

  /** The image tool's `parse_header`. */
  function ParseHeader(crc: Crc, s: seq<Byte>): Result<Header, HeaderError>
    requires |s| == 512
  {
    if s[..8] != Signature() then Err(NoSignature)
    else if U32(s, 8) != REVISION then Err(ForeignRevision)
    else if crc(Covered(s, Fields(s).size)) != U32(s, 16) then Err(HeaderCrc)
    else Ok(Fields(s))
  }

  // ---------------------------------------------------------------------------------------------
  // The loader service's parser
  // ---------------------------------------------------------------------------------------------

  datatype PartError = BadSignature | BadRevision | BadHeaderSize | BadHeaderCrc | BadEntrySize | BadEntryCount

  const MAX_ENTRY_BYTES: nat := 1024 * 1024

  function ListBytes(h: Header): nat { h.num * h.entrySize }

  function ParseStrict(crc: Crc, s: seq<Byte>): Result<Header, PartError>
    requires |s| == 512
  {
    var h := Fields(s);
    if s[..8] != Signature() then Err(BadSignature)
    else if U32(s, 8) != REVISION then Err(BadRevision)
    else if h.size < HEADER_SIZE || h.size > 512 then Err(BadHeaderSize)
    else if crc(s[..16] + [0, 0, 0, 0] + s[20..h.size]) != U32(s, 16) then Err(BadHeaderCrc)
    else if h.entrySize < ENTRY_SIZE || h.entrySize % 8 != 0 then Err(BadEntrySize)
    else if ListBytes(h) == 0 || ListBytes(h) > MAX_ENTRY_BYTES then Err(BadEntryCount)
    else Ok(h)
  }

  /** The two parsers agree on every header whose sizes the strict one allows, and the strict one
      never accepts more. */
  lemma ParsersAgree(crc: Crc, s: seq<Byte>)
    requires |s| == 512
    ensures
      var h := Fields(s);
      ParseStrict(crc, s).Ok? <==>
        && ParseHeader(crc, s).Ok? && HEADER_SIZE <= h.size <= 512
        && h.entrySize >= ENTRY_SIZE && h.entrySize % 8 == 0 && 0 < ListBytes(h) <= MAX_ENTRY_BYTES
    ensures ParseStrict(crc, s).Ok? ==> ParseStrict(crc, s).value == Fields(s)
  {
    var h := Fields(s);
    if 20 <= h.size <= 512 {
      assert Zeros(4) == [0, 0, 0, 0];
      assert Covered(s, h.size) == s[..16] + [0, 0, 0, 0] + s[20..h.size];
    }
  }

  ghost predicate Signed(s: seq<Byte>)
    requires |s| == 512
  {
    s[..8] == [0x45, 0x46, 0x49, 0x20, 0x50, 0x41, 0x52, 0x54]
  }

  /** The header's own bytes are as the strict parser wants them; its sizes may still be refused. */
  ghost predicate SoundStrictly(crc: Crc, s: seq<Byte>)
    requires |s| == 512
  {
    && Signed(s) && U32(s, 8) == 0x10000 && 92 <= U32(s, 12) <= 512
    && crc(s[..16] + [0, 0, 0, 0] + s[20..U32(s, 12)]) == U32(s, 16)
  }

  ghost predicate EntrySizeRight(s: seq<Byte>) requires |s| == 512 { U32(s, 84) >= 128 && U32(s, 84) % 8 == 0 }

  /** Every refusal of the strict parser with its exact condition on the bytes, and what it returns. */
  lemma StrictExactly(crc: Crc, s: seq<Byte>)
    requires |s| == 512
    ensures
      var r := ParseStrict(crc, s);
      && (r == Err(BadSignature) <==> !Signed(s))
      && (r == Err(BadRevision) <==> Signed(s) && U32(s, 8) != 0x10000)
      && (r == Err(BadHeaderSize) <==> Signed(s) && U32(s, 8) == 0x10000 && !(92 <= U32(s, 12) <= 512))
      && (r == Err(BadHeaderCrc) <==>
            Signed(s) && U32(s, 8) == 0x10000 && 92 <= U32(s, 12) <= 512 && !SoundStrictly(crc, s))
      && (r == Err(BadEntrySize) <==> SoundStrictly(crc, s) && !EntrySizeRight(s))
      && (r == Err(BadEntryCount) <==> SoundStrictly(crc, s) && EntrySizeRight(s)
                                       && !(0 < U32(s, 80) * U32(s, 84) <= 0x100000))
      && (r.Ok? <==> SoundStrictly(crc, s) && EntrySizeRight(s) && 0 < U32(s, 80) * U32(s, 84) <= 0x100000)
      && (r.Ok? ==>
            && r.value.my == U64(s, 24) && r.value.alt == U64(s, 32)
            && r.value.first == U64(s, 40) && r.value.last == U64(s, 48) && r.value.entryLba == U64(s, 72)
            && r.value.num == U32(s, 80) && r.value.entrySize == U32(s, 84) && r.value.entriesCrc == U32(s, 88))
  {
  }

  // ---------------------------------------------------------------------------------------------
  // Sectors, and when two sectors read the same
  // ---------------------------------------------------------------------------------------------

  /** The two copies of a table on a disk of `n` sectors, where the image tool puts them. */
  datatype Copy = Primary | Backup

  function HeadLba(n: nat, c: Copy): nat
    requires n >= 67
  {
    if c.Primary? then 1 else n - 1
  }

  function ListLba(n: nat, c: Copy): nat
    requires n >= 67
  {
    if c.Primary? then 2 else n - 33
  }

  function Sector(d: seq<Byte>, lba: nat): (s: seq<Byte>)
    requires 512 * lba + 512 <= |d|
    ensures |s| == 512
  {
    d[512 * lba..512 * lba + 512]
  }

  ghost predicate SameBytes(d: seq<Byte>, e: seq<Byte>, from: nat, to: nat) {
    |d| == |e| && to <= |d| && forall i: nat | from <= i < to :: e[i] == d[i]
  }

  lemma SameFields(s: seq<Byte>, t: seq<Byte>)
    requires |s| == 512 && SameBytes(s, t, 0, 16) && SameBytes(s, t, 20, 88)
    ensures Fields(t) == Fields(s).(entriesCrc := U32(t, 88))
    ensures t[..8] == s[..8] && U32(t, 8) == U32(s, 8)
  {
    SameU32(s, t, 8); SameU32(s, t, 12); SameU32(s, t, 80); SameU32(s, t, 84);
    SameU64(s, t, 24); SameU64(s, t, 32); SameU64(s, t, 40); SameU64(s, t, 48); SameU64(s, t, 72);
  }

  lemma SameU32(s: seq<Byte>, t: seq<Byte>, o: nat)
    requires SameBytes(s, t, o, o + 4)
    ensures U32(t, o) == U32(s, o)
  {
    assert t[o] == s[o] && t[o + 1] == s[o + 1] && t[o + 2] == s[o + 2] && t[o + 3] == s[o + 3];
  }

  lemma SameU64(s: seq<Byte>, t: seq<Byte>, o: nat)
    requires SameBytes(s, t, o, o + 8)
    ensures U64(t, o) == U64(s, o)
  {
    SameU32(s, t, o);
    SameU32(s, t, o + 4);
  }

  // ---------------------------------------------------------------------------------------------
  // Partition entries
  // ---------------------------------------------------------------------------------------------

  function TypeOf(e: seq<Byte>): seq<Byte> requires |e| == 128 { e[0..16] }

  function GuidOf(e: seq<Byte>): seq<Byte> requires |e| == 128 { e[16..32] }

  function FirstOf(e: seq<Byte>): nat requires |e| == 128 { U64(e, 32) }

  function LastOf(e: seq<Byte>): nat requires |e| == 128 { U64(e, 40) }

  function EntryOf(list: seq<Byte>, i: nat): (e: seq<Byte>)
    requires 128 * i + 128 <= |list|
    ensures |e| == 128
  {
    list[128 * i..128 * i + 128]
  }

  /** A sealed table: the header at `at` passes the check and names the entries found at
      `entryLba`, whose checksum it carries. */
  ghost predicate SealedAt(crc: Crc, d: seq<Byte>, at: nat, h: Header, list: seq<Byte>) {
    && 512 * at + 512 <= |d| && ParseHeader(crc, Sector(d, at)) == Ok(h)
    && HoldsAt(d, 512 * h.entryLba, list) && |list| == ListBytes(h) && crc(list) == h.entriesCrc
  }
}
