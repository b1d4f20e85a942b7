/** The strict container parser: it accepts encodings and nothing else. */
module LxpdContainer {
  import opened Wrappers
  import opened Bytes

  const HEADER_LEN: nat := 20
  const STUB_LEN: nat := 32
  const END_LEN: nat := 5
  const MAX_STUBS: nat := 256

  function Magic(): (s: seq<Byte>) ensures |s| == 4 { [0x4c, 0x58, 0x50, 0x44] }

  function StubMagic(): (s: seq<Byte>) ensures |s| == 4 { [0x4c, 0x58, 0x54, 0x52] }

  function EndMark(): (s: seq<Byte>) ensures |s| == 5 { [0x4c, 0x58, 0x45, 0x4e, 0x44] }

  function ElfMagic(): (s: seq<Byte>) ensures |s| == 4 { [0x7f, 0x45, 0x4c, 0x46] }

  function Nops(): (s: seq<Byte>) ensures |s| == 16 { seq(16, _ => 0x90) }

  datatype Error = TooSmall | BadMagic | BadCounts | BadStub(id: nat) | BadEnd | NotLxpd

  datatype Header = Header(stubs: nat, rewired: nat, section: nat)

  // ---------------------------------------------------------------------------------------------
  // The parser
  // ---------------------------------------------------------------------------------------------

  function ParseHeader(data: seq<Byte>): (r: Result<Header, Error>)
    ensures r.Ok? ==> |data| >= HEADER_LEN && r.value.stubs <= MAX_STUBS
  {
    if |data| < 4 then Err(TooSmall)
    else if data[..4] == ElfMagic() then Err(NotLxpd)
    else if data[..4] != Magic() then Err(BadMagic)
    else if |data| < HEADER_LEN then Err(TooSmall)
    else
      var n, rewired, section := U32(data, 4), U32(data, 8), U64(data, 12);
      if n > MAX_STUBS || section != n * STUB_LEN then Err(BadCounts) else Ok(Header(n, rewired, section))
  }

  function StubAt(data: seq<Byte>, i: nat): (s: seq<Byte>)
    requires HEADER_LEN + STUB_LEN * i + STUB_LEN <= |data|
    ensures |s| == STUB_LEN
  {
    data[HEADER_LEN + STUB_LEN * i..HEADER_LEN + STUB_LEN * i + STUB_LEN]
  }

  /** What is wrong with a stub in place `i`. */
  function StubError(s: seq<Byte>, i: nat): Option<Error>
    requires |s| == STUB_LEN
  {
    if s[..4] != StubMagic() then Some(BadStub(i))
    else if U32(s, 4) != i || s[16..] != Nops() then Some(BadStub(U32(s, 4)))
    else None
  }

  /** The first complaint about stubs `i` to `n`. */
  function StubsError(data: seq<Byte>, i: nat, n: nat): Option<Error>
    requires i <= n && HEADER_LEN + STUB_LEN * n <= |data|
    decreases |data|, n - i
  {
    if i == n then None
    else if StubError(StubAt(data, i), i).Some? then StubError(StubAt(data, i), i)
    else StubsError(data, i + 1, n)
  }

  function Total(n: nat): nat { HEADER_LEN + STUB_LEN * n + END_LEN }

  function Parsed(data: seq<Byte>): Result<Header, Error> {
    var h := ParseHeader(data);
    if h.Err? then h
    else
      var n := h.value.stubs;
      if |data| < Total(n) then Err(TooSmall)
      else if |data| > Total(n) then Err(BadCounts)
      else
        var e := StubsError(data, 0, n);
        if e.Some? then Err(e.value)
        else if data[HEADER_LEN + STUB_LEN * n..] != EndMark() then Err(BadEnd)
        else h
  }

  method Parse(data: seq<Byte>) returns (r: Result<Header, Error>)
    ensures r == Parsed(data)
  {
    r := ParseHeader(data);
    if r.Err? { return; }
    var n := r.value.stubs;
    if |data| < Total(n) { return Err(TooSmall); }
    if |data| > Total(n) { return Err(BadCounts); }
    for i := 0 to n
      invariant StubsError(data, 0, n) == StubsError(data, i, n)
    {
      var stub := StubAt(data, i);
      if stub[..4] != StubMagic() { return Err(BadStub(i)); }
      var id := U32(stub, 4);
      if id != i { return Err(BadStub(id)); }
      if stub[16..] != Nops() { return Err(BadStub(id)); }
    }
    if data[HEADER_LEN + STUB_LEN * n..] != EndMark() { return Err(BadEnd); }
  }

  /** Header and length are those of a container with `n` stubs. */
  ghost predicate Shaped(data: seq<Byte>, n: nat) {
    && |data| == 20 + 32 * n + 5 && n <= 256 && data[..4] == [0x4c, 0x58, 0x50, 0x44]
    && U32(data, 4) == n && U64(data, 12) == 32 * n
  }

  /** What is wrong with the stub at byte `at`, which should be number `i`: its magic, its number or its filling. */
  ghost predicate StubBad(data: seq<Byte>, i: nat, id: nat)
    requires 20 + 32 * i + 32 <= |data|
  {
    var at := 20 + 32 * i;
    if data[at..at + 4] != [0x4c, 0x58, 0x54, 0x52] then id == i
    else id == U32(data, at + 4) && (id != i || exists k: nat :: at + 16 <= k < at + 32 && data[k] != 0x90)
  }

  lemma StubExactly(data: seq<Byte>, i: nat, id: nat)
    requires 20 + 32 * i + 32 <= |data|
    ensures StubError(StubAt(data, i), i) == Some(BadStub(id)) <==> StubBad(data, i, id)
    ensures StubError(StubAt(data, i), i).Some? ==> StubError(StubAt(data, i), i).value.BadStub?
  {
    var at, s := 20 + 32 * i, StubAt(data, i);
    CutCut(data, at, at + 32, 0, 4);
    CutU32(data, at, at + 32, 4);
    CutCut(data, at, at + 32, 16, 32);
    assert s[16..] == data[at + 16..at + 32];
    assert forall k: nat | at + 16 <= k < at + 32 :: data[k] == data[at + 16..at + 32][k - at - 16];
    if s[16..] != Nops() {
      var k: nat :| k < 16 && data[at + 16..at + 32][k] != 0x90;
      assert data[at + 16 + k] != 0x90;
    }
  }

  /** The first bad stub. */
  ghost predicate FirstBadStub(data: seq<Byte>, n: nat, i: nat, id: nat)
    requires 20 + 32 * n <= |data|
  {
    i < n && StubBad(data, i, id) && forall k: nat, other: nat | k < i :: !StubBad(data, k, other)
  }

  lemma {:induction false} StubsExactly(data: seq<Byte>, i: nat, n: nat)
    requires i <= n && 20 + 32 * n <= |data| && forall k: nat, other: nat | k < i :: !StubBad(data, k, other)
    ensures
      var e := StubsError(data, i, n);
      if e.None? then forall k: nat, other: nat | k < n :: !StubBad(data, k, other)
      else e.value.BadStub? && exists k: nat :: FirstBadStub(data, n, k, e.value.id)
    decreases n - i
  {
    if i < n {
      var e := StubError(StubAt(data, i), i);
      if e.Some? {
        StubExactly(data, i, if e.value.BadStub? then e.value.id else 0);
        assert FirstBadStub(data, n, i, e.value.id);
      } else {
        forall id: nat ensures !StubBad(data, i, id) { StubExactly(data, i, id); }
        StubsExactly(data, i + 1, n);
      }
    }
  }

  /** Every refusal with its exact condition. */
  lemma RefusalsExactly(data: seq<Byte>)
    ensures
      var r, named := Parsed(data), |data| >= 4;
      var ours := named && data[..4] == [0x4c, 0x58, 0x50, 0x44];
      && (r == Err(NotLxpd) <==> named && data[..4] == [0x7f, 0x45, 0x4c, 0x46])
      && (r == Err(BadMagic) <==> named && !ours && data[..4] != [0x7f, 0x45, 0x4c, 0x46])
      && (!named || (ours && |data| < 20) ==> r == Err(TooSmall))
      && (ours && |data| >= 20 ==>
            var n, right := U32(data, 4), U32(data, 4) <= 256 && U64(data, 12) == 32 * U32(data, 4);
            && (r == Err(TooSmall) <==> right && |data| < 20 + 32 * n + 5)
            && (r == Err(BadCounts) <==> !right || |data| > 20 + 32 * n + 5)
            && (Shaped(data, n) ==>
                  && (r.Err? && r.error.BadStub? <==> exists i: nat, id: nat :: FirstBadStub(data, n, i, id))
                  && (r.Err? && r.error.BadStub? ==> exists i: nat :: FirstBadStub(data, n, i, r.error.id))
                  && (r == Err(BadEnd) ==> data[20 + 32 * n..] != [0x4c, 0x58, 0x45, 0x4e, 0x44])
                  && (r.Ok? ==> data[20 + 32 * n..] == [0x4c, 0x58, 0x45, 0x4e, 0x44])))
  {
    if |data| >= 20 && data[..4] == Magic() && U32(data, 4) <= 256 && |data| == Total(U32(data, 4)) {
      StubsExactly(data, 0, U32(data, 4));
    }
  }

  // ---------------------------------------------------------------------------------------------
  // The encoding
  // ---------------------------------------------------------------------------------------------

  /** What a container can say: a number, and eight free bytes per stub. */
  datatype Container = Container(rewired: nat, stubs: seq<seq<Byte>>)

  predicate Encodable(c: Container) {
    c.rewired < U32_LIMIT && |c.stubs| <= MAX_STUBS && forall i: nat | i < |c.stubs| :: |c.stubs[i]| == 8
  }

  function StubBytes(i: nat, free: seq<Byte>): (s: seq<Byte>)
    requires i < MAX_STUBS && |free| == 8
    ensures |s| == STUB_LEN
  {
    StubMagic() + Le32(i) + free + Nops()
  }

  function HeadBytes(n: nat, rewired: nat): (s: seq<Byte>)
    requires n <= MAX_STUBS && rewired < U32_LIMIT
    ensures |s| == HEADER_LEN
  {
    Magic() + Le32(n) + Le32(rewired) + Le64(n * STUB_LEN)
  }

  function StubsBytes(stubs: seq<seq<Byte>>, n: nat): (s: seq<Byte>)
    requires n <= |stubs| <= MAX_STUBS && forall i: nat | i < |stubs| :: |stubs[i]| == 8
    ensures |s| == STUB_LEN * n
  {
    if n == 0 then [] else StubsBytes(stubs, n - 1) + StubBytes(n - 1, stubs[n - 1])
  }

  function Encode(c: Container): (s: seq<Byte>)
    requires Encodable(c)
    ensures |s| == Total(|c.stubs|)
  {
    HeadBytes(|c.stubs|, c.rewired) + StubsBytes(c.stubs, |c.stubs|) + EndMark()
  }

  lemma StubRead(s: seq<Byte>, i: nat, free: seq<Byte>)
    requires i < MAX_STUBS && |free| == 8 && |s| == STUB_LEN
    ensures s == StubBytes(i, free) <==> StubError(s, i).None? && s[8..16] == free
  {
    if s == StubBytes(i, free) {
      assert s[..4] == StubMagic() && s[4..8] == Le32(i) && s[8..16] == free && s[16..] == Nops();
      Le32Read(s, 4, i);
    }
    if StubError(s, i).None? && s[8..16] == free {
      Le32Unique(s, 4, i);
      assert s == s[..4] + s[4..8] + s[8..16] + s[16..];
    }
  }

  lemma Le64Unique(s: seq<Byte>, o: nat, v: nat)
    requires o + 8 <= |s| && U64(s, o) == v
    ensures s[o..o + 8] == Le64(v)
  {
    Le32Unique(s, o, U32(s, o));
    Le32Unique(s, o + 4, U32(s, o + 4));
    assert v % U32_LIMIT == U32(s, o) && v / U32_LIMIT == U32(s, o + 4);
    assert s[o..o + 8] == s[o..o + 4] + s[o + 4..o + 8];
  }

  lemma HeadRead(s: seq<Byte>, n: nat, rewired: nat)
    requires n <= MAX_STUBS && rewired < U32_LIMIT && |s| == HEADER_LEN
    ensures s == HeadBytes(n, rewired) <==>
              s[..4] == Magic() && U32(s, 4) == n && U32(s, 8) == rewired && U64(s, 12) == n * STUB_LEN
  {
    if s == HeadBytes(n, rewired) {
      assert s[..4] == Magic() && s[4..8] == Le32(n) && s[8..12] == Le32(rewired) && s[12..20] == Le64(n * STUB_LEN);
      Le32Read(s, 4, n);
      Le32Read(s, 8, rewired);
    }
    if s[..4] == Magic() && U32(s, 4) == n && U32(s, 8) == rewired && U64(s, 12) == n * STUB_LEN {
      Le32Unique(s, 4, n);
      Le32Unique(s, 8, rewired);
      Le64Unique(s, 12, n * STUB_LEN);
      assert s == s[..4] + s[4..8] + s[8..12] + s[12..20];
    }
  }

  /** The free bytes of every stub. */
  function FreeBytes(data: seq<Byte>, n: nat): (stubs: seq<seq<Byte>>)
    requires HEADER_LEN + STUB_LEN * n <= |data|
    ensures |stubs| == n
    ensures forall i: nat | i < n :: |stubs[i]| == 8
  {
    seq(n, i requires 0 <= i < n => StubAt(data, i)[8..16])
  }

  lemma SplitEqual(a: seq<Byte>, b: seq<Byte>, c: seq<Byte>, d: seq<Byte>)
    requires |a| == |c|
    ensures a + b == c + d <==> a == c && b == d
  {
    assert (a + b)[..|a|] == a && (c + d)[..|c|] == c && (a + b)[|a|..] == b && (c + d)[|c|..] == d;
  }

  /** Stub by stub: no complaint up to `n` exactly if the bytes are the encoding of the free bytes. */
  predicate StubIs(data: seq<Byte>, i: nat, free: seq<Byte>)
    requires HEADER_LEN + STUB_LEN * i + STUB_LEN <= |data|
  {
    StubError(StubAt(data, i), i).None? && StubAt(data, i)[8..16] == free
  }

  predicate StubsAre(data: seq<Byte>, stubs: seq<seq<Byte>>, n: nat)
    requires n <= |stubs| && HEADER_LEN + STUB_LEN * n <= |data|
  {
    n == 0 || (StubsAre(data, stubs, n - 1) && StubIs(data, n - 1, stubs[n - 1]))
  }

  lemma {:induction false} StubsAreAll(data: seq<Byte>, stubs: seq<seq<Byte>>, n: nat)
    requires n <= |stubs| && HEADER_LEN + STUB_LEN * n <= |data|
    ensures StubsAre(data, stubs, n) <==> forall i: nat | i < n :: StubIs(data, i, stubs[i])
  {
    if n > 0 { StubsAreAll(data, stubs, n - 1); }
  }

  lemma {:induction false} StubsRead(data: seq<Byte>, stubs: seq<seq<Byte>>, n: nat)
    requires n <= |stubs| <= MAX_STUBS && HEADER_LEN + STUB_LEN * n <= |data|
    requires forall i: nat | i < |stubs| :: |stubs[i]| == 8
    ensures data[HEADER_LEN..HEADER_LEN + STUB_LEN * n] == StubsBytes(stubs, n) <==> StubsAre(data, stubs, n)
  {
    if n > 0 {
      StubsRead(data, stubs, n - 1);
      StubRead(StubAt(data, n - 1), n - 1, stubs[n - 1]);
      var a, b := HEADER_LEN + STUB_LEN * (n - 1), HEADER_LEN + STUB_LEN * n;
      var front, whole := data[HEADER_LEN..a], data[HEADER_LEN..b];
      assert whole == front + StubAt(data, n - 1);
      SplitEqual(front, StubAt(data, n - 1), StubsBytes(stubs, n - 1), StubBytes(n - 1, stubs[n - 1]));
      assert whole == StubsBytes(stubs, n) <==> front == StubsBytes(stubs, n - 1) && StubIs(data, n - 1, stubs[n - 1]);
    }
  }

  lemma {:induction false} NoComplaint(data: seq<Byte>, i: nat, n: nat)
    requires i <= n && HEADER_LEN + STUB_LEN * n <= |data|
    ensures StubsError(data, i, n).None? <==> forall k: nat | i <= k < n :: StubError(StubAt(data, k), k).None?
    decreases n - i
  {
    if i < n { NoComplaint(data, i + 1, n); }
  }

  lemma HeaderFields(data: seq<Byte>, n: nat, rewired: nat)
    requires |data| >= HEADER_LEN && n <= MAX_STUBS && rewired < U32_LIMIT
    ensures data[..HEADER_LEN] == HeadBytes(n, rewired) <==> ParseHeader(data) == Ok(Header(n, rewired, n * STUB_LEN))
  {
    var h := data[..HEADER_LEN];
    HeadRead(h, n, rewired);
    assert h[..4] == data[..4] && U32(h, 4) == U32(data, 4) && U32(h, 8) == U32(data, 8) && U64(h, 12) == U64(data, 12);
    assert Magic()[0] != ElfMagic()[0];
  }

  /** The parser accepts a byte string with `n` stubs exactly if it is the encoding of the container
      read off it: parsing and encoding are inverse. */
  lemma ParseIsExact(data: seq<Byte>, c: Container)
    requires Encodable(c)
    ensures data == Encode(c) <==>
      && Parsed(data) == Ok(Header(|c.stubs|, c.rewired, |c.stubs| * STUB_LEN))
      && c.stubs == FreeBytes(data, |c.stubs|)
  {
    var n := |c.stubs|;
    if |data| == Total(n) {
      HeaderFields(data, n, c.rewired);
      StubsExact(data, c.stubs, n);
      ThreeParts(data, n, HeadBytes(n, c.rewired), StubsBytes(c.stubs, n), EndMark());
    }
  }

  lemma ThreeParts(data: seq<Byte>, n: nat, head: seq<Byte>, stubs: seq<Byte>, end: seq<Byte>)
    requires |data| == Total(n) && |head| == HEADER_LEN && |stubs| == STUB_LEN * n && |end| == END_LEN
    ensures data == head + stubs + end <==>
              && data[..HEADER_LEN] == head && data[HEADER_LEN..HEADER_LEN + STUB_LEN * n] == stubs
              && data[HEADER_LEN + STUB_LEN * n..] == end
  {
    var m := HEADER_LEN + STUB_LEN * n;
    assert data == data[..HEADER_LEN] + data[HEADER_LEN..m] + data[m..];
    SplitEqual(data[..HEADER_LEN] + data[HEADER_LEN..m], data[m..], head + stubs, end);
    SplitEqual(data[..HEADER_LEN], data[HEADER_LEN..m], head, stubs);
  }

  /** The bytes between header and end mark are the stubs with these free bytes exactly if none is complained
      of and these are the free bytes. */
  lemma StubsExact(data: seq<Byte>, stubs: seq<seq<Byte>>, n: nat)
    requires n == |stubs| <= MAX_STUBS && HEADER_LEN + STUB_LEN * n <= |data|
    requires forall i: nat | i < |stubs| :: |stubs[i]| == 8
    ensures data[HEADER_LEN..HEADER_LEN + STUB_LEN * n] == StubsBytes(stubs, n) <==>
              StubsError(data, 0, n).None? && stubs == FreeBytes(data, n)
  {
    StubsRead(data, stubs, n);
    StubsAreAll(data, stubs, n);
    NoComplaint(data, 0, n);
    assert stubs == FreeBytes(data, n) <==> forall i: nat | i < n :: StubAt(data, i)[8..16] == stubs[i];
  }

  /** Every accepted byte string is an encoding. */
  lemma AcceptedIsEncoding(data: seq<Byte>)
    requires Parsed(data).Ok?
    ensures
      var h := Parsed(data).value;
      && HEADER_LEN + STUB_LEN * h.stubs <= |data|
      && Encodable(Container(h.rewired, FreeBytes(data, h.stubs)))
        && data == Encode(Container(h.rewired, FreeBytes(data, h.stubs)))
  {
    var h := Parsed(data).value;
    var c := Container(h.rewired, FreeBytes(data, h.stubs));
    ParseIsExact(data, c);
  }
}
