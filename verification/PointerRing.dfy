/**
  A ring of pointers through all cache lines of the victim, in bit-reversed order, and the attacker's
  walk over its own lines in the same order.

  Memory is a map from addresses to the words stored there; the words written here are at least a
  cache line apart.
 */
module PointerRing {
  import opened Arith

  const WORD: nat := 64

  function Pow(k: nat): (p: nat)
    ensures p > 0
  {
    if k == 0 then 1 else 2 * Pow(k - 1)
  }

  lemma {:induction false} PowSum(a: nat, b: nat)
    ensures Pow(a + b) == Pow(a) * Pow(b)
  {
    if a > 0 {
      PowSum(a - 1, b);
      Twice(Pow(a - 1), Pow(b));
    }
  }

  // ---------------------------------------------------------------------------------------------
  // Bit reversal
  // ---------------------------------------------------------------------------------------------

  /** The lowest `n` bits of `k` in reverse order. */
  function Reverse(k: nat, n: nat): nat
    decreases n, k
  {
    if n == 0 then 0 else (k % 2) * Pow(n - 1) + Reverse(k / 2, n - 1)
  }

  lemma {:induction false} ReverseBound(k: nat, n: nat)
    ensures Reverse(k, n) < Pow(n)
    decreases n, k
  {
    if n > 0 {
      ReverseBound(k / 2, n - 1);
      MulLe(k % 2, 1, Pow(n - 1));
    }
  }

  /** As the code computes it: the whole word reversed, then shifted down.  A shift as wide as the word
      (`bits == 0`) panics in a build with overflow checks; in one without them -- the release
      profile -- only the low bits of the shift amount count. */
  function BitReverse(k: nat, bits: nat): nat
    requires bits <= WORD
  {
    Reverse(k, WORD) / Pow((WORD - bits) % WORD)
  }

  /** Does `bitumkehr` panic?  `checked` says whether the build checks for overflow. */
  predicate ShiftPanics(checked: bool, bits: nat) { checked && bits == 0 }

  lemma {:induction false} ReverseHigh(k: nat, a: nat, b: nat)
    requires k < Pow(a)
    ensures Reverse(k, a + b) == Reverse(k, a) * Pow(b)
    decreases a, b
  {
    if a == 0 {
      ReverseZero(b);
    } else {
      ReverseHigh(k / 2, a - 1, b);
      PowSum(a - 1, b);
      var t, p, q, r := k % 2, Pow(a - 1), Pow(b), Reverse(k / 2, a - 1);
      assert Reverse(k, a + b) == t * Pow(a - 1 + b) + r * q;
      Factor(t, p, q, r);
    }
  }

  lemma Factor(t: nat, p: nat, q: nat, r: nat)
    ensures t * (p * q) + r * q == (t * p + r) * q
  {
  }

  lemma {:induction false} ReverseZero(n: nat)
    ensures Reverse(0, n) == 0
    decreases n
  {
    if n > 0 { ReverseZero(n - 1); }
  }

  /** The shifted word is the reversal of the low bits. */
  lemma BitReverseIs(k: nat, bits: nat)
    requires bits <= WORD && k < Pow(bits)
    ensures BitReverse(k, bits) == Reverse(k, bits) < Pow(bits)
  {
    Masked(k, bits, WORD);
    ReverseBound(k, bits);
  }

  /** Masking the shift amount makes no difference to an index below `Pow(bits)`. */
  lemma Masked(k: nat, bits: nat, w: nat)
    requires bits <= w && w > 0 && k < Pow(bits)
    ensures Reverse(k, w) / Pow((w - bits) % w) == Reverse(k, bits)
  {
    if bits == 0 {
      assert k == 0 && (w - bits) % w == 0;
      ReverseZero(w);
      assert Reverse(k, bits) == 0;
    } else {
      ModSmall(w - bits, w);
      Shifted(k, bits, w);
    }
  }

  /** With one line the shift does nothing, and nothing reversed is nothing. */
  lemma SingleLine()
    ensures BitReverse(0, 0) == 0
  {
    Masked(0, 0, WORD);
  }

  lemma Shifted(k: nat, bits: nat, w: nat)
    requires bits <= w && k < Pow(bits)
    ensures Reverse(k, w) / Pow(w - bits) == Reverse(k, bits)
  {
    ReverseHigh(k, bits, w - bits);
    Multiple(Pow(w - bits), Reverse(k, bits));
  }

  lemma {:induction false} ReverseTop(t: nat, r: nat, n: nat)
    requires n >= 1 && t < 2 && r < Pow(n - 1)
    ensures Reverse(t * Pow(n - 1) + r, n) == 2 * Reverse(r, n - 1) + t
    decreases n
  {
    var x := t * Pow(n - 1) + r;
    if n == 1 {
      assert Pow(0) == 1 && r == 0 && x == t;
      assert Reverse(t / 2, 0) == 0;
      assert Reverse(t, 1) == (t % 2) * Pow(0) + Reverse(t / 2, 0);
    } else {
      Halve(t, Pow(n - 2), r);
      assert x % 2 == r % 2 && x / 2 == t * Pow(n - 2) + r / 2;
      ReverseTop(t, r / 2, n - 1);
      var b, p := r % 2, Pow(n - 2);
      assert Reverse(x, n) == b * Pow(n - 1) + (2 * Reverse(r / 2, n - 2) + t);
      assert Reverse(r, n - 1) == b * p + Reverse(r / 2, n - 2);
      Twice2(b, p);
    }
  }

  lemma Halve(t: nat, p: nat, r: nat)
    ensures (t * (2 * p) + r) % 2 == r % 2 && (t * (2 * p) + r) / 2 == t * p + r / 2
  {
    var h := t * p;
    Twice2(t, p);
    assert t * (2 * p) + r == 2 * h + r;
  }

  lemma Twice2(b: nat, p: nat)
    ensures b * (2 * p) == 2 * (b * p)
  {
  }

  /** Reversing twice gives the index back: bit reversal is a permutation. */
  lemma {:induction false} ReverseTwice(k: nat, n: nat)
    requires k < Pow(n)
    ensures Reverse(Reverse(k, n), n) == k
    decreases n
  {
    if n > 0 {
      ReverseBound(k / 2, n - 1);
      ReverseTop(k % 2, Reverse(k / 2, n - 1), n);
      ReverseTwice(k / 2, n - 1);
    }
  }

  lemma Involution(k: nat, bits: nat)
    requires bits <= WORD && k < Pow(bits)
    ensures BitReverse(k, bits) < Pow(bits) && BitReverse(BitReverse(k, bits), bits) == k
  {
    BitReverseIs(k, bits);
    BitReverseIs(BitReverse(k, bits), bits);
    ReverseTwice(k, bits);
  }

  // ---------------------------------------------------------------------------------------------
  // Cache lines
  // ---------------------------------------------------------------------------------------------

  datatype Region = Region(base: nat, len: nat)

  /** Regions of equal length, apart from one another, with room for lines. */
  ghost predicate Usable(regions: seq<Region>, line: nat) {
    && |regions| > 0 && line > 0 && regions[0].len >= line
    && (forall i: nat | i < |regions| :: regions[i].len == regions[0].len)
    && forall i: nat, j: nat | i < j < |regions| :: ApartRegions(regions[i], regions[j])
  }

  predicate ApartRegions(a: Region, b: Region) { a.base + a.len <= b.base || b.base + b.len <= a.base }

  function PerRegion(regions: seq<Region>, line: nat): nat
    requires |regions| > 0 && line > 0
  {
    regions[0].len / line
  }

  /** `i * line`, one line at a time. */
  function Times(i: nat, line: nat): nat {
    if i == 0 then 0 else Times(i - 1, line) + line
  }

  lemma {:induction false} TimesIs(i: nat, line: nat)
    ensures Times(i, line) == i * line
  {
    if i > 0 {
      TimesIs(i - 1, line);
      Distribute(line, i - 1);
    }
  }

  function Lines(regions: seq<Region>, line: nat): nat
    requires |regions| > 0 && line > 0
  {
    |regions| * PerRegion(regions, line)
  }

  function LineAddr(regions: seq<Region>, line: nat, k: nat): nat
    requires |regions| > 0 && line > 0 && PerRegion(regions, line) > 0 && k / PerRegion(regions, line) < |regions|
  {
    regions[k / PerRegion(regions, line)].base + Times(k % PerRegion(regions, line), line)
  }

  lemma LineDefined(regions: seq<Region>, line: nat, k: nat)
    requires Usable(regions, line) && k < Lines(regions, line)
    ensures PerRegion(regions, line) > 0 && k / PerRegion(regions, line) < |regions|
  {
    PositiveQuotient(regions[0].len, line);
    DivLess(k, PerRegion(regions, line), |regions|);
  }

  /** A whole line at `a` lies inside one of the regions. */
  ghost predicate InRegions(regions: seq<Region>, line: nat, a: nat) {
    exists i: nat :: i < |regions| && regions[i].base <= a && a + line <= regions[i].base + regions[i].len
  }

  lemma LineInside(regions: seq<Region>, line: nat, k: nat)
    requires Usable(regions, line) && PerRegion(regions, line) > 0 && k / PerRegion(regions, line) < |regions|
    ensures InRegions(regions, line, LineAddr(regions, line, k))
  {
    var per := PerRegion(regions, line);
    var i, m := k / per, k % per;
    Room(regions[0].len, line, m);
    InRegion(regions, line, i, Times(m, line));
  }

  lemma InRegion(regions: seq<Region>, line: nat, i: nat, offset: nat)
    requires i < |regions| && offset + line <= regions[i].len
    ensures InRegions(regions, line, regions[i].base + offset)
  {
  }

  /** What was written since `before` lies in the regions. */
  ghost predicate KeepsToRegions(log: seq<nat>, before: seq<nat>, regions: seq<Region>, line: nat) {
    before <= log && forall i: nat | |before| <= i < |log| :: InRegions(regions, line, log[i])
  }

  lemma OneWriteMore(log: seq<nat>, before: seq<nat>, regions: seq<Region>, line: nat, a: nat)
    requires KeepsToRegions(log, before, regions, line) && InRegions(regions, line, a)
    ensures KeepsToRegions(log + [a], before, regions, line)
  {
  }

  lemma Room(len: nat, line: nat, i: nat)
    requires line > 0 && i < len / line
    ensures Times(i, line) + line <= len
  {
    TimesIs(i, line);
    MulLe(i + 1, len / line, line);
    Distribute(line, i);
    assert len == line * (len / line) + len % line;
  }

  lemma PositiveQuotient(a: nat, n: nat)
    requires 0 < n <= a
    ensures a / n > 0
  {
  }

  /** Different lines do not overlap. */
  lemma LinesApart(regions: seq<Region>, line: nat, k: nat, m: nat)
    requires Usable(regions, line) && k < m < Lines(regions, line)
    ensures PerRegion(regions, line) > 0 && k / PerRegion(regions, line) < |regions|
            && m / PerRegion(regions, line) < |regions|
    ensures Clear(LineAddr(regions, line, k), LineAddr(regions, line, m), line)
  {
    LineDefined(regions, line, k);
    LineDefined(regions, line, m);
    LinesClear(regions, line, k, m);
  }

  lemma LinesClear(regions: seq<Region>, line: nat, k: nat, m: nat)
    requires Usable(regions, line) && k < m && PerRegion(regions, line) > 0
    requires k / PerRegion(regions, line) < |regions| && m / PerRegion(regions, line) < |regions|
    ensures Clear(LineAddr(regions, line, k), LineAddr(regions, line, m), line)
  {
    var per := PerRegion(regions, line);
    var a, i := Split(k, per);
    var b, j := Split(m, per);
    RestSmaller(a, i, b, j, k, m, per);
    AddrsClear(regions, line, per, a, i, b, j);
  }

  lemma Split(k: nat, per: nat) returns (a: nat, i: nat)
    requires per > 0
    ensures a == k / per && i == k % per && k == per * a + i && i < per
  {
    a, i := k / per, k % per;
  }

  lemma RestSmaller(a: nat, i: nat, b: nat, j: nat, k: nat, m: nat, per: nat)
    requires k == per * a + i && m == per * b + j && k < m
    ensures a == b ==> i < j
  {
  }

  lemma AddrsClear(regions: seq<Region>, line: nat, per: nat, a: nat, i: nat, b: nat, j: nat)
    requires Usable(regions, line) && per == PerRegion(regions, line) && a < |regions| && b < |regions| && i < per
             && j < per
    requires a == b ==> i < j
    ensures Clear(regions[a].base + Times(i, line), regions[b].base + Times(j, line), line)
  {
    if a == b {
      StepsApart(regions[a].base, i, j, line);
    } else {
      Room(regions[0].len, line, i);
      Room(regions[0].len, line, j);
      OtherRegion(regions, regions[a].base + Times(i, line), regions[b].base + Times(j, line), line, a, b);
    }
  }

  predicate Clear(a: nat, b: nat, line: nat) { a + line <= b || b + line <= a }

  lemma OtherRegion(regions: seq<Region>, x: nat, y: nat, line: nat, a: nat, b: nat)
    requires Usable(regions, line) && a < |regions| && b < |regions| && a != b
    requires regions[a].base <= x && x + line <= regions[a].base + regions[a].len
    requires regions[b].base <= y && y + line <= regions[b].base + regions[b].len
    ensures Clear(x, y, line)
  {
    if a < b { assert ApartRegions(regions[a], regions[b]); } else { assert ApartRegions(regions[b], regions[a]); }
  }

  lemma {:induction false} StepsApart(base: nat, i: nat, j: nat, line: nat)
    requires i < j
    ensures base + Times(i, line) + line <= base + Times(j, line)
    decreases j
  {
    if i < j - 1 { StepsApart(base, i, j - 1, line); }
  }

  // ---------------------------------------------------------------------------------------------
  // The ring
  // ---------------------------------------------------------------------------------------------

  class Ram {
    var cells: map<nat, nat>

    /** The addresses written, in order. */
    ghost var log: seq<nat>

    method Write(addr: nat, value: nat)
      modifies this
      ensures cells == old(cells)[addr := value] && log == old(log) + [addr]
    {
      cells := cells[addr := value];
      log := log + [addr];
    }
  }

  /** Line `k` of the ring, in the order in which it is followed. */
  ghost function Stop(regions: seq<Region>, line: nat, bits: nat, k: nat): nat
    requires Fits(regions, line, bits) && k < Pow(bits)
  {
    Involution(k, bits);
    LineDefined(regions, line, BitReverse(k, bits));
    LineAddr(regions, line, BitReverse(k, bits))
  }

  ghost predicate Fits(regions: seq<Region>, line: nat, bits: nat) {
    Usable(regions, line) && bits < WORD && Pow(bits) <= Lines(regions, line)
  }

  function After(k: nat, n: nat): (m: nat)
    requires k < n
    ensures m < n
  {
    if k + 1 == n then 0 else k + 1
  }

  lemma OrderDiffers(k: nat, m: nat, bits: nat)
    requires bits <= WORD && k < Pow(bits) && m < Pow(bits) && k != m
    ensures BitReverse(k, bits) != BitReverse(m, bits)
  {
    Involution(k, bits);
    Involution(m, bits);
  }

  lemma AddrsDiffer(regions: seq<Region>, line: nat, a: nat, b: nat)
    requires Usable(regions, line) && a < Lines(regions, line) && b < Lines(regions, line) && a != b
    ensures PerRegion(regions, line) > 0 && a / PerRegion(regions, line) < |regions|
            && b / PerRegion(regions, line) < |regions|
    ensures LineAddr(regions, line, a) != LineAddr(regions, line, b)
  {
    if a < b { LinesApart(regions, line, a, b); } else { LinesApart(regions, line, b, a); }
  }

  lemma StopsDiffer(regions: seq<Region>, line: nat, bits: nat, k: nat, m: nat)
    requires Fits(regions, line, bits) && k < Pow(bits) && m < Pow(bits) && k != m
    ensures Stop(regions, line, bits, k) != Stop(regions, line, bits, m)
  {
    Involution(k, bits);
    Involution(m, bits);
    OrderDiffers(k, m, bits);
    AddrsDiffer(regions, line, BitReverse(k, bits), BitReverse(m, bits));
  }

  /** The pointers form the ring: each stop names the next, the last the first. */
  ghost predicate Linked(cells: map<nat, nat>, regions: seq<Region>, line: nat, bits: nat, upTo: nat)
    requires Fits(regions, line, bits) && upTo <= Pow(bits)
  {
    forall k: nat | k < upTo ::
      var at := Stop(regions, line, bits, k);
      at in cells && cells[at] == Stop(regions, line, bits, After(k, Pow(bits)))
  }

  /** Cells off the ring are as they were. */
  ghost predicate OffRingKept(cells: map<nat, nat>, before: map<nat, nat>, regions: seq<Region>, line: nat, bits: nat)
    requires Fits(regions, line, bits)
  {
    forall a: nat | a in before && !OnRing(regions, line, bits, a) :: a in cells && cells[a] == before[a]
  }

  /** The ring, or a panic of the build with overflow checks over a single line. */
  method BuildChain(ram: Ram, regions: seq<Region>, line: nat, bits: nat, checked: bool) returns (panicked: bool,
                    start: nat)
    requires Fits(regions, line, bits)
    modifies ram
    ensures panicked <==> ShiftPanics(checked, bits)
    ensures panicked ==> ram.cells == old(ram.cells) && ram.log == old(ram.log)
    ensures !panicked ==> Linked(ram.cells, regions, line, bits, Pow(bits)) && start == Stop(regions, line, bits, 0)
    ensures !panicked ==> |ram.log| == |old(ram.log)| + Pow(bits)
    ensures OffRingKept(ram.cells, old(ram.cells), regions, line, bits)
    ensures KeepsToRegions(ram.log, old(ram.log), regions, line)
  {
    if ShiftPanics(checked, bits) { return true, 0; }
    var n := Pow(bits);
    for k := 0 to n
      invariant Linked(ram.cells, regions, line, bits, k) && OffRingKept(ram.cells, old(ram.cells), regions, line, bits)
      invariant |ram.log| == |old(ram.log)| + k && KeepsToRegions(ram.log, old(ram.log), regions, line)
    {
      Defined(regions, line, bits, k);
      Defined(regions, line, bits, After(k, n));
      var from := LineAddr(regions, line, BitReverse(k, bits));
      var to := LineAddr(regions, line, BitReverse(After(k, n), bits));
      ChainGrows(ram.cells, old(ram.cells), regions, line, bits, k);
      LineInside(regions, line, BitReverse(k, bits));
      OneWriteMore(ram.log, old(ram.log), regions, line, from);
      ram.Write(from, to);
    }
    Defined(regions, line, bits, 0);
    return false, LineAddr(regions, line, BitReverse(0, bits));
  }

  lemma ChainGrows(cells: map<nat, nat>, before: map<nat, nat>, regions: seq<Region>, line: nat, bits: nat, k: nat)
    requires Fits(regions, line, bits) && k < Pow(bits)
    requires Linked(cells, regions, line, bits, k) && OffRingKept(cells, before, regions, line, bits)
    ensures
      var next := cells[Stop(regions, line, bits, k) := Stop(regions, line, bits, After(k, Pow(bits)))];
      Linked(next, regions, line, bits, k + 1) && OffRingKept(next, before, regions, line, bits)
  {
    var from := Stop(regions, line, bits, k);
    forall j: nat | j < k
      ensures Stop(regions, line, bits, j) != from
    {
      StopsDiffer(regions, line, bits, j, k);
    }
    assert OnRing(regions, line, bits, from);
  }

  lemma Defined(regions: seq<Region>, line: nat, bits: nat, k: nat)
    requires Fits(regions, line, bits) && k < Pow(bits)
    ensures
      var i := BitReverse(k, bits);
      && PerRegion(regions, line) > 0 && i / PerRegion(regions, line) < |regions|
      && LineAddr(regions, line, i) == Stop(regions, line, bits, k)
  {
    Involution(k, bits);
    LineDefined(regions, line, BitReverse(k, bits));
  }

  ghost predicate OnRing(regions: seq<Region>, line: nat, bits: nat, a: nat)
    requires Fits(regions, line, bits)
  {
    exists k: nat :: k < Pow(bits) && a == Stop(regions, line, bits, k)
  }

  /** Where `steps` loads lead, if every address on the way is mapped. */
  ghost function Follow(cells: map<nat, nat>, start: nat, steps: nat): nat {
    if steps == 0 then start
    else
      var p := Follow(cells, start, steps - 1);
      if p in cells then cells[p] else 0
  }

  method Chase(ram: Ram, start: nat, n: nat) returns (p: nat)
    requires forall i: nat | i < n :: Follow(ram.cells, start, i) in ram.cells
    ensures p == Follow(ram.cells, start, n)
  {
    p := start;
    for i := 0 to n
      invariant p == Follow(ram.cells, start, i)
    {
      p := ram.cells[p];
    }
  }

  /** After fewer than one round the chase is at the stop of that number ... */
  lemma {:induction false} FollowStops(cells: map<nat, nat>, regions: seq<Region>, line: nat, bits: nat, k: nat)
    requires Fits(regions, line, bits) && Linked(cells, regions, line, bits, Pow(bits)) && k < Pow(bits)
    ensures Follow(cells, Stop(regions, line, bits, 0), k) == Stop(regions, line, bits, k)
    decreases k
  {
    if k > 0 {
      FollowStops(cells, regions, line, bits, k - 1);
      assert cells[Stop(regions, line, bits, k - 1)] == Stop(regions, line, bits, After(k - 1, Pow(bits)));
    }
  }

  /** ... and after one round it is back at the start. */
  lemma RoundTrip(cells: map<nat, nat>, regions: seq<Region>, line: nat, bits: nat)
    requires Fits(regions, line, bits) && Linked(cells, regions, line, bits, Pow(bits))
    ensures Follow(cells, Stop(regions, line, bits, 0), Pow(bits)) == Stop(regions, line, bits, 0)
  {
    FollowStops(cells, regions, line, bits, Pow(bits) - 1);
    assert cells[Stop(regions, line, bits, Pow(bits) - 1)]
        == Stop(regions, line, bits, After(Pow(bits) - 1, Pow(bits)));
  }

  /** One round visits every line exactly once: line `i` at step `BitReverse(i)` and at no other. */
  lemma VisitsEachLineOnce(cells: map<nat, nat>, regions: seq<Region>, line: nat, bits: nat, i: nat, k: nat)
    requires Fits(regions, line, bits) && Linked(cells, regions, line, bits, Pow(bits)) && i < Pow(bits)
             && k < Pow(bits)
    ensures PerRegion(regions, line) > 0 && i / PerRegion(regions, line) < |regions|
    ensures Follow(cells, Stop(regions, line, bits, 0), k) == LineAddr(regions, line, i) <==> k == BitReverse(i, bits)
  {
    Involution(i, bits);
    var j := BitReverse(i, bits);
    Defined(regions, line, bits, j);
    FollowStops(cells, regions, line, bits, k);
    if k != j { StopsDiffer(regions, line, bits, k, j); }
  }

  // ---------------------------------------------------------------------------------------------
  // The attacker's walk
  // ---------------------------------------------------------------------------------------------

  /** The number of significant bits: the word size less the leading zeros. */
  function BitLen(x: nat): nat { if x == 0 then 0 else 1 + BitLen(x / 2) }

  lemma {:induction false} BitLenBounds(x: nat)
    ensures x < Pow(BitLen(x)) && (x > 0 ==> Pow(BitLen(x) - 1) <= x)
    decreases x
  {
    if x > 0 { BitLenBounds(x / 2); }
  }

  lemma {:induction false} PowMonotonic(a: nat, b: nat)
    requires a <= b
    ensures Pow(a) <= Pow(b)
    decreases b
  {
    if a < b { PowMonotonic(a, b - 1); }
  }

  /** Enough bits for `n` lines, and no more than the word has. */
  lemma WalkBits(n: nat, w: nat)
    requires 1 <= n <= Pow(w)
    ensures BitLen(n - 1) <= w && n <= Pow(BitLen(n - 1)) && (BitLen(n - 1) == 0 <==> n == 1)
  {
    BitLenBounds(n - 1);
    if BitLen(n - 1) > w { PowMonotonic(w, BitLen(n - 1) - 1); }
  }

  ghost predicate OnceEach(order: seq<nat>, n: nat) {
    && (forall i: nat | i < n :: i in order) && (forall i: nat | i < |order| :: order[i] < n)
    && forall i: nat, j: nat | i < j < |order| :: order[i] != order[j]
  }

  /** Lines written so far: those whose reversed index is below `k`, each once. */
  ghost predicate Ordered(n: nat, bits: nat, k: nat, order: seq<nat>)
    requires bits <= WORD
  {
    && (forall i: nat | i < n :: i in order <==> BitReverse(i, bits) < k)
    && (forall i: nat | i < |order| :: order[i] < n)
    && forall i: nat, j: nat | i < j < |order| :: order[i] != order[j]
  }

  ghost predicate AllMarked(cells: map<nat, nat>, regions: seq<Region>, line: nat, order: seq<nat>)
    requires Usable(regions, line)
  {
    forall i: nat | i < |order| :: order[i] < Lines(regions, line) && Marked(cells, regions, line, order[i])
  }

  lemma OrderStep(n: nat, bits: nat, k: nat, order: seq<nat>)
    requires bits <= WORD && k < Pow(bits) && n <= Pow(bits) && Ordered(n, bits, k, order)
    ensures
      var idx := BitReverse(k, bits);
      Ordered(n, bits, k + 1, if idx < n then order + [idx] else order)
  {
    var idx := BitReverse(k, bits);
    Involution(k, bits);
    forall i: nat | i < n
      ensures BitReverse(i, bits) == k <==> i == idx
    {
      Involution(i, bits);
    }
  }

  lemma OrderDone(n: nat, bits: nat, order: seq<nat>)
    requires bits <= WORD && n <= Pow(bits) && Ordered(n, bits, Pow(bits), order)
    ensures OnceEach(order, n)
  {
    forall i: nat | i < n
      ensures i in order
    {
      Involution(i, bits);
    }
  }

  ghost predicate Marked(cells: map<nat, nat>, regions: seq<Region>, line: nat, i: nat)
    requires Usable(regions, line)
  {
    && PerRegion(regions, line) > 0 && i / PerRegion(regions, line) < |regions|
    && LineAddr(regions, line, i) in cells && cells[LineAddr(regions, line, i)] == i
  }

  lemma MarkKept(cells: map<nat, nat>, regions: seq<Region>, line: nat, i: nat, idx: nat)
    requires Usable(regions, line) && i < Lines(regions, line) && idx < Lines(regions, line)
             && Marked(cells, regions, line, i)
    requires PerRegion(regions, line) > 0 && idx / PerRegion(regions, line) < |regions|
    ensures Marked(cells[LineAddr(regions, line, idx) := idx], regions, line, i)
  {
    if i != idx { AddrsDiffer(regions, line, i, idx); }
  }

  lemma MarksGrow(cells: map<nat, nat>, regions: seq<Region>, line: nat, order: seq<nat>, idx: nat)
    requires Usable(regions, line) && AllMarked(cells, regions, line, order) && idx < Lines(regions, line)
    requires PerRegion(regions, line) > 0 && idx / PerRegion(regions, line) < |regions|
    ensures AllMarked(cells[LineAddr(regions, line, idx) := idx], regions, line, order + [idx])
  {
    var now, next := cells[LineAddr(regions, line, idx) := idx], order + [idx];
    forall j: nat | j < |next|
      ensures next[j] < Lines(regions, line) && Marked(now, regions, line, next[j])
    {
      if j < |order| { MarkKept(cells, regions, line, order[j], idx); }
    }
  }

  /** The writes since `before` were to the lines in this order. */
  ghost predicate Logged(log: seq<nat>, before: seq<nat>, regions: seq<Region>, line: nat, order: seq<nat>)
    requires Usable(regions, line)
  {
    && |log| == |before| + |order| && before <= log
    && forall i: nat | i < |order| ::
         && PerRegion(regions, line) > 0 && order[i] / PerRegion(regions, line) < |regions|
         && log[|before| + i] == LineAddr(regions, line, order[i])
  }

  lemma LogGrows(log: seq<nat>, before: seq<nat>, regions: seq<Region>, line: nat, order: seq<nat>, idx: nat)
    requires Usable(regions, line) && Logged(log, before, regions, line, order)
    requires PerRegion(regions, line) > 0 && idx / PerRegion(regions, line) < |regions|
    ensures Logged(log + [LineAddr(regions, line, idx)], before, regions, line, order + [idx])
  {
  }

  /** Each of `n` lines is written exactly once, whether or not `n` is a power of two.  The build with
      overflow checks panics, before any write, exactly over a single line. */
  method Walk(ram: Ram, regions: seq<Region>, line: nat, checked: bool) returns (panicked: bool, ghost order: seq<nat>)
    requires line > 0 && (|regions| > 0 && regions[0].len >= line ==>
               Usable(regions, line) && Lines(regions, line) <= Pow(WORD - 1))
    modifies ram
    ensures panicked <==> checked && |regions| > 0 && regions[0].len >= line && Lines(regions, line) == 1
    ensures panicked || |regions| == 0 || regions[0].len < line ==>
              ram.cells == old(ram.cells) && ram.log == old(ram.log)
    ensures !panicked && |regions| > 0 && regions[0].len >= line ==>
              && OnceEach(order, Lines(regions, line)) && AllMarked(ram.cells, regions, line, order)
              && Logged(ram.log, old(ram.log), regions, line, order)
    ensures KeepsToRegions(ram.log, old(ram.log), regions, line)
  {
    order := [];
    if |regions| == 0 || regions[0].len < line { return false, order; }
    var n := Lines(regions, line);
    LineCount(regions, line);
    WalkBits(n, WORD - 1);
    var bits := BitLen(n - 1);
    if ShiftPanics(checked, bits) { return true, order; }
    var rounds := Pow(bits);
    for k := 0 to rounds
      invariant Ordered(n, bits, k, order) && AllMarked(ram.cells, regions, line, order)
      invariant Logged(ram.log, old(ram.log), regions, line, order)
      invariant KeepsToRegions(ram.log, old(ram.log), regions, line)
    {
      var idx := BitReverse(k, bits);
      OrderStep(n, bits, k, order);
      if idx < n {
        LineDefined(regions, line, idx);
        LineInside(regions, line, idx);
        OneWriteMore(ram.log, old(ram.log), regions, line, LineAddr(regions, line, idx));
        LogGrows(ram.log, old(ram.log), regions, line, order, idx);
        MarksGrow(ram.cells, regions, line, order, idx);
        ram.Write(LineAddr(regions, line, idx), idx);
        order := order + [idx];
      }
    }
    OrderDone(n, bits, order);
    return false, order;
  }

  /** There is at least one line. */
  lemma LineCount(regions: seq<Region>, line: nat)
    requires Usable(regions, line)
    ensures Lines(regions, line) >= 1
  {
    PositiveQuotient(regions[0].len, line);
    MulLe(1, |regions|, PerRegion(regions, line));
  }
}
