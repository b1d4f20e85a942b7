/** How large the writer makes the FAT: eight rounds of an iteration that need not converge. */
module FatSizing {

  const RESERVED: nat := 1
  const NUM_FATS: nat := 2
  const ROOT_ENTRIES: nat := 512
  const ROOT_SECTORS: nat := 32
  const MIN_CLUSTERS: nat := 4085
  const MAX_CLUSTERS: nat := 65524

  /** Division rounding up, as `-(-x // m)` computes it; `x` may be negative. */
  function CeilDiv(x: int, m: int): (q: int)
    requires m > 0
    ensures (q - 1) * m < x <= q * m
  {
    var q := -((-x) / m);
    assert -x == (-q) * m + (-x) % m;
    q
  }

  /** One round: the data sectors left by `fatSectors` need two bytes each in the next FAT. */
  function Round(total: nat, fatSectors: nat): (f: nat)
    ensures f >= 1
  {
    var data := total - RESERVED - NUM_FATS * fatSectors - ROOT_SECTORS;
    var need := CeilDiv(data * 2, 512);
    if need < 1 then 1 else need
  }

  function Rounds(total: nat, n: nat): (f: nat)
    ensures f >= 1
  {
    if n == 0 then 1 else Round(total, Rounds(total, n - 1))
  }

  function FatSectors(total: nat): (f: nat)
    ensures f >= 1
  {
    Rounds(total, 8)
  }

  function RootLba(fatSectors: nat): nat { RESERVED + NUM_FATS * fatSectors }

  function DataLba(fatSectors: nat): nat { RootLba(fatSectors) + ROOT_SECTORS }

  function Clusters(total: nat): int { total - DataLba(FatSectors(total)) }

  predicate Accepted(total: nat) { MIN_CLUSTERS <= Clusters(total) <= MAX_CLUSTERS }

  method ComputeFatSectors(total: nat) returns (f: nat)
    ensures f == FatSectors(total)
  {
    f := 1;
    for n := 0 to 8
      invariant f == Rounds(total, n)
    {
      var data := total - RESERVED - NUM_FATS * f - ROOT_SECTORS;
      var need := CeilDiv(data * 2, 512);
      f := if need < 1 then 1 else need;
    }
  }

  /** One round near the fixed point, in terms of the distance to the quotient by 258. */
  lemma RoundOffset(total: nat, q: nat, r: nat, e: int)
    requires total == 33 + 258 * q + r && r < 258 && q >= 2 && q + e >= 0 && r - 2 * e >= -255
    ensures
      var x := r - 2 * e;
      Round(total, q + e) == q + (if x <= 0 then 0 else if x <= 256 then 1 else if x <= 512 then 2
                                  else CeilDiv(x, 256))
  {
    var x := r - 2 * e;
    var data := total - RESERVED - NUM_FATS * (q + e) - ROOT_SECTORS;
    assert data * 2 == 512 * q + 2 * x;
    var c := CeilDiv(data * 2, 512);
    assert (c - 1) * 512 < 512 * q + 2 * x <= c * 512;
  }

  /** The accepted sizes lie between 15 and 255 full groups of 258 sectors. */
  lemma AcceptedRange(total: nat)
    requires Accepted(total)
    ensures total >= 33 && 15 <= (total - 33) / 258 <= 255
  {
    var T: int := total - 33;
    var f8 := FatSectors(total);
    assert T == Clusters(total) + 2 * f8;
    var f7 := Rounds(total, 7);
    var data := total - RESERVED - NUM_FATS * f7 - ROOT_SECTORS;
    var c := CeilDiv(data * 2, 512);
    assert f8 == Round(total, f7);
    assert (c - 1) * 512 < data * 2 <= c * 512;
    assert T - 2 * f7 <= T - 2;
    // An accepted size has at least 4085 + 2 sectors behind the fixed ones ...
    assert T >= 4087;
    // ... and a FAT of f sectors never exceeds what T itself would need.
    assert c * 512 < T * 2 + 512;
    assert T <= 65524 + 2 * f8;
    assert 256 * f8 <= T + 256;
    assert 128 * T <= 128 * 65524 + T + 256;
  }

  /** Where the rounds stand after `n >= 2` of them. */
  lemma {:induction false} OffsetAt(total: nat, q: nat, r: nat, n: nat)
    requires total == 33 + 258 * q + r && r < 258 && 15 <= q <= 255 && n >= 2
    ensures r <= 2 ==> Rounds(total, n) == q + (if n % 2 == 0 || r == 0 then 0 else 1)
    ensures r >= 3 && n == 2 ==> q <= Rounds(total, n) <= q + 1
    ensures r >= 3 && n == 3 ==> Rounds(total, n) == q + 1 || (r == 257 && Rounds(total, n) == q + 2)
    ensures r >= 3 && n >= 4 ==> Rounds(total, n) == q + 1
    decreases n
  {
    if n == 2 {
      FirstOffset(total, q, r);
    } else {
      OffsetAt(total, q, r, n - 1);
    }
    RoundOffset(total, q, r, Rounds(total, n - 1) - q);
  }

  lemma FirstOffset(total: nat, q: nat, r: nat)
    requires total == 33 + 258 * q + r && r < 258 && 15 <= q <= 255
    ensures q + 1 <= Rounds(total, 1) <= q + 3
  {
    assert Rounds(total, 0) == 1;
    RoundOffset(total, q, r, 1 - q);
    var x := r - 2 * (1 - q);
    if x > 512 {
      var c := CeilDiv(x, 256);
      assert (c - 1) * 256 < x <= c * 256;
    }
  }

  /** The exact result: with `total - 33 = 258 q + r` the FAT gets `q` sectors when `r <= 2` and
      `q + 1` otherwise.  (For `r` in 1..2 the rounds alternate between the two and end on `q`.) */
  lemma SizingExact(total: nat)
    requires Accepted(total)
    ensures total >= 33
    ensures FatSectors(total) == (total - 33) / 258 + (if (total - 33) % 258 <= 2 then 0 else 1)
  {
    AcceptedRange(total);
    OffsetAt(total, (total - 33) / 258, (total - 33) % 258, 8);
  }

  /** At most four FAT entries are missing, and none exactly when the remainder is in 3..256. */
  lemma SizingBound(total: nat)
    requires Accepted(total)
    ensures 256 * FatSectors(total) + 2 >= Clusters(total)
    ensures total >= 33
    ensures 256 * FatSectors(total) >= Clusters(total) + 2 <==> 3 <= (total - 33) % 258 <= 256
    ensures FatSectors(total) <= 256
  {
    SizingExact(total);
    AcceptedRange(total);
  }

  /** The bound is met: this accepted size has a FAT four entries short. */
  lemma FourEntriesShort()
    ensures Accepted(4163) && 256 * FatSectors(4163) + 4 == Clusters(4163) + 2
  {
    OffsetAt(4163, 16, 2, 8);
  }
}
