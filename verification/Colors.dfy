/**
  Page colours: which bits of a colour mask a stripe owns, and what a run of pages can tell.

  A 64-bit mask is the set of its bit positions.
 */
module Colors {
  import opened Wrappers
  import opened Arith

  const MASK_BITS: nat := 64
  const PARTITIONS: nat := 4

  // ---------------------------------------------------------------------------------------------
  // Stripes
  // ---------------------------------------------------------------------------------------------

  /** The part of a mask that stands for colours at all. */
  function Live(colors: nat): nat { if colors < MASK_BITS then colors else MASK_BITS }

  predicate Splits(n: nat, colors: nat) {
    n > 0 && IsPow2(n) && colors > 0 && IsPow2(colors) && n <= Live(colors)
  }

  function PerStripe(n: nat, colors: nat): nat
    requires n > 0
  {
    Live(colors) / n
  }

  /** Stripe `i` of `n`: a block of colours, repeated with the period of the live part. */
  function Stripe(i: nat, n: nat, colors: nat): Option<set<nat>> {
    if n == 0 || i >= n || !Splits(n, colors) then None
    else
      var live, per := Live(colors), PerStripe(n, colors);
      var lo := i * per;
      Some(set b: nat | b < MASK_BITS && lo <= b % live < lo + per)
  }

  lemma LiveFacts(n: nat, colors: nat)
    requires Splits(n, colors)
    ensures
      var live, per := Live(colors), PerStripe(n, colors);
      && per > 0 && live == n * per && MASK_BITS % live == 0 && colors % live == 0
  {
    var live := Live(colors);
    assert IsPow2(64);
    Pow2Divides(n, live);
    Pow2Divides(live, 64);
    Pow2Divides(live, colors);
  }

  method MakeStripe(i: nat, n: nat, colors: nat) returns (r: Option<set<nat>>)
    ensures r == Stripe(i, n, colors)
  {
    if n == 0 || i >= n || !IsPow2(n) { return None; }
    if colors == 0 || !IsPow2(colors) { return None; }
    var live := if colors < MASK_BITS then colors else MASK_BITS;
    if n > live { return None; }
    LiveFacts(n, colors);
    var per := live / n;
    var lo := i * per;
    BlockInside(i, n, per);
    var bits := RepeatBlock(lo, per, live);
    return Some(bits);
  }

  lemma BlockInside(i: nat, n: nat, per: nat)
    requires i < n
    ensures i * per + per <= n * per
  {
    MulLe(i + 1, n, per);
    Distribute(per, i);
  }

  predicate Spans(from: nat, len: nat, b: nat) { from <= b < from + len }

  /** The block again and again; a left shift drops what leaves the word. */
  method RepeatBlock(lo: nat, per: nat, live: nat) returns (bits: set<nat>)
    requires live > 0 && lo + per <= live && MASK_BITS % live == 0
    ensures bits == set b: nat | b < MASK_BITS && lo <= b % live < lo + per
  {
    bits := {};
    var off := 0;
    while off < MASK_BITS
      invariant off <= MASK_BITS && off % live == 0
      invariant forall b: nat :: b in bits <==> b < off && lo <= b % live < lo + per
      decreases MASK_BITS - off
    {
      NextMultiple(off, MASK_BITS, live);
      ghost var before := bits;
      var from := off + lo;
      bits := bits + set b: nat | b < MASK_BITS && Spans(from, per, b);
      forall b: nat
        ensures b in bits <==> b < off + live && lo <= b % live < lo + per
      {
        if off <= b < off + live { InPeriod(b, off, live); }
      }
      off := off + live;
    }
  }

  lemma InPeriod(b: nat, off: nat, live: nat)
    requires live > 0 && off % live == 0 && off <= b < off + live
    ensures b % live == b - off
  {
    Euclid(b, live, off / live, b - off);
  }

  lemma InBlock(x: nat, per: nat, i: nat)
    requires per > 0
    ensures i * per <= x < i * per + per <==> i == x / per
  {
    if i * per <= x < i * per + per { Euclid(x, per, i, x - i * per); }
  }

  /** Every colour lies in exactly one stripe, the one its position in the period says. */
  lemma OneStripe(i: nat, n: nat, colors: nat, c: nat)
    requires Splits(n, colors) && i < n
    ensures c % MASK_BITS in Stripe(i, n, colors).value <==> i == (c % Live(colors)) / PerStripe(n, colors)
    ensures (c % Live(colors)) / PerStripe(n, colors) < n
  {
    var live, per := Live(colors), PerStripe(n, colors);
    LiveFacts(n, colors);
    ModMod(c, MASK_BITS, live);
    InBlock(c % live, per, i);
    DivLess(c % live, per, n);
  }

  /** Different stripes share no bit, and together they fill the word. */
  lemma StripesDisjoint(i: nat, j: nat, n: nat, colors: nat)
    requires Splits(n, colors) && i < n && j < n && i != j
    ensures Stripe(i, n, colors).value !! Stripe(j, n, colors).value
  {
    forall b: nat | b < MASK_BITS
      ensures !(b in Stripe(i, n, colors).value && b in Stripe(j, n, colors).value)
    {
      OneStripe(i, n, colors, b);
      OneStripe(j, n, colors, b);
    }
  }

  lemma StripesCover(n: nat, colors: nat, b: nat)
    requires Splits(n, colors) && b < MASK_BITS
    ensures exists i: nat :: i < n && b in Stripe(i, n, colors).value
  {
    var i := (b % Live(colors)) / PerStripe(n, colors);
    OneStripe(0, n, colors, b);
    OneStripe(i, n, colors, b);
  }

  /** How many of the first `c` colours a mask accepts. */
  function Accepted(mask: set<nat>, c: nat): nat {
    if c == 0 then 0 else Accepted(mask, c - 1) + (if (c - 1) % MASK_BITS in mask then 1 else 0)
  }

  function Clamp(x: int, per: nat): nat { if x < 0 then 0 else if x > per then per else x }

  predicate InBits(mask: set<nat>, lo: nat, per: nat, live: nat)
    requires live > 0
  {
    mask == set b: nat | b < MASK_BITS && lo <= b % live < lo + per
  }

  lemma BitOf(mask: set<nat>, lo: nat, per: nat, live: nat, q: nat, r: nat)
    requires live > 0 && MASK_BITS % live == 0 && r < live && InBits(mask, lo, per, live)
    ensures (live * q + r) % MASK_BITS in mask <==> lo <= r < lo + per
  {
    var c := live * q + r;
    ModMod(c, MASK_BITS, live);
    Euclid(c, live, q, r);
  }

  /** The same count, from the position in the period. */
  lemma {:induction false} AcceptedUpTo(mask: set<nat>, lo: nat, per: nat, live: nat, q: nat, r: nat, c: nat)
    requires live > 0 && lo + per <= live && MASK_BITS % live == 0 && r <= live && InBits(mask, lo, per, live)
    requires c == live * q + r
    ensures Accepted(mask, c) == per * q + Clamp(r - lo, per)
    decreases q, r
  {
    if r > 0 {
      AcceptedUpTo(mask, lo, per, live, q, r - 1, c - 1);
      BitOf(mask, lo, per, live, q, r - 1);
      assert Accepted(mask, c) == Accepted(mask, c - 1) + (if lo <= r - 1 < lo + per then 1 else 0);
    } else if q > 0 {
      Distribute(live, q - 1);
      Distribute(per, q - 1);
      AcceptedUpTo(mask, lo, per, live, q - 1, live, c);
    }
  }

  /** Every stripe holds its even share of the machine's colours. */
  lemma EvenShare(i: nat, n: nat, colors: nat)
    requires Splits(n, colors) && i < n
    ensures Accepted(Stripe(i, n, colors).value, colors) * n == colors
  {
    var live, per := Live(colors), PerStripe(n, colors);
    LiveFacts(n, colors);
    BlockInside(i, n, per);
    EvenlyShared(Stripe(i, n, colors).value, i * per, per, live, n, colors);
  }

  lemma EvenlyShared(mask: set<nat>, lo: nat, per: nat, live: nat, n: nat, colors: nat)
    requires live > 0 && lo + per <= live && MASK_BITS % live == 0 && InBits(mask, lo, per, live)
    requires live == n * per && colors % live == 0
    ensures Accepted(mask, colors) * n == colors
  {
    var k := colors / live;
    assert live * k == colors;
    AcceptedUpTo(mask, lo, per, live, k, 0, colors);
    Share(n, per, k);
  }

  lemma Share(n: nat, per: nat, k: nat)
    ensures per * k * n == n * per * k
  {
  }

  // ---------------------------------------------------------------------------------------------
  // Pages and runs
  // ---------------------------------------------------------------------------------------------

  /** The page number is cut to 32 bits; for a power of two of colours the mask is a remainder. */
  function ColorOf(page: nat, colors: nat): nat {
    if colors <= 1 then 0 else (page % U32_LIMIT) % colors
  }

  lemma ColorIsRemainder(page: nat, colors: nat)
    requires IsPow2(colors) && colors <= U32_LIMIT
    ensures ColorOf(page, colors) == page % colors
  {
    if colors > 1 { Remainder(page, colors, U32_LIMIT); }
  }

  lemma Remainder(page: nat, colors: nat, limit: nat)
    requires IsPow2(colors) && colors <= limit && limit == U32_LIMIT
    ensures (page % limit) % colors == page % colors
  {
    LimitIsPow2(limit);
    Pow2Divides(colors, limit);
    ModMod(page, limit, colors);
  }

  lemma LimitIsPow2(limit: nat)
    requires limit == U32_LIMIT
    ensures IsPow2(limit)
  {
    var a: nat := 256;
    Pow2Times(a, a);
    Pow2Times(a * a, a * a);
  }

  /** The mask bit a page is judged by is its position in the live period. */
  lemma ColorBit(page: nat, colors: nat)
    requires IsPow2(colors) && colors <= U32_LIMIT
    ensures ColorOf(page, colors) % MASK_BITS == page % Live(colors)
  {
    ColorIsRemainder(page, colors);
    if colors >= MASK_BITS { BitOfRemainder(page, colors, MASK_BITS); }
  }

  lemma BitOfRemainder(page: nat, colors: nat, bits: nat)
    requires IsPow2(colors) && bits == 64 <= colors
    ensures (page % colors) % bits == page % bits
  {
    assert IsPow2(64);
    Pow2Divides(bits, colors);
    ModMod(page, colors, bits);
  }

  // ---------------------------------------------------------------------------------------------
  // Runs of pages
  // ---------------------------------------------------------------------------------------------

  datatype Span = Span(page: nat, pages: nat)

  /** The mask bit of the run's page `j`. */
  function BitAt(s: Span, colors: nat, j: nat): nat { ColorOf(s.page + j, colors) % MASK_BITS }

  predicate Pure(s: Span, colors: nat, mask: set<nat>) {
    forall j: nat :: j < s.pages ==> BitAt(s, colors, j) in mask
  }

  method CheckPure(s: Span, colors: nat, mask: set<nat>) returns (pure: bool)
    ensures pure == Pure(s, colors, mask)
  {
    for j := 0 to s.pages
      invariant forall k: nat :: k < j ==> BitAt(s, colors, k) in mask
    {
      if BitAt(s, colors, j) !in mask { return false; }
    }
    return true;
  }

  /** How many pages long a run must be to be one stripe. */
  function RegionPages(colors: nat): nat {
    if Live(colors) / PARTITIONS < 1 then 1 else Live(colors) / PARTITIONS
  }

  /** Position `j` steps after `x`, going round. */
  function Around(x: nat, j: nat, live: nat): nat
    requires x < live && j < live
  {
    if x + j < live then x + j else x + j - live
  }

  lemma BitAround(s: Span, colors: nat, j: nat)
    requires IsPow2(colors) && colors <= U32_LIMIT && j < Live(colors)
    ensures BitAt(s, colors, j) == Around(s.page % Live(colors), j, Live(colors))
  {
    ColorBit(s.page + j, colors);
    StepsAround(s.page, j, Live(colors));
  }

  lemma StepsAround(a: nat, j: nat, live: nat)
    requires j < live
    ensures (a + j) % live == Around(a % live, j, live)
  {
    var q, r := a / live, a % live;
    if r + j < live {
      Euclid(a + j, live, q, r + j);
    } else {
      Distribute(live, q);
      Euclid(a + j, live, q + 1, r + j - live);
    }
  }

  /** A window as long as the block fits into the block only if it starts where the block does. */
  lemma WindowFits(x: nat, lo: nat, per: nat, live: nat)
    requires 0 < per < live && lo + per <= live && x < live
    ensures (forall j: nat :: j < per ==> lo <= Around(x, j, live) < lo + per) <==> x == lo
  {
    if lo < x < lo + per {
      assert !(lo <= Around(x, lo + per - x, live) < lo + per);
    } else {
      assert Around(x, 0, live) == x;
    }
  }

  lemma InStripe(p: nat, i: nat, n: nat, colors: nat)
    requires Splits(n, colors) && i < n && p < Live(colors)
    ensures p in Stripe(i, n, colors).value
            <==> i * PerStripe(n, colors) <= p < i * PerStripe(n, colors) + PerStripe(n, colors)
  {
    ModSmall(p, Live(colors));
  }

  lemma StripeShape(i: nat, n: nat, colors: nat)
    requires Splits(n, colors) && i < n && n >= 2
    ensures 0 < PerStripe(n, colors) < Live(colors) && i * PerStripe(n, colors) + PerStripe(n, colors) <= Live(colors)
  {
    LiveFacts(n, colors);
    BlockInside(i, n, PerStripe(n, colors));
    MulLe(2, n, PerStripe(n, colors));
  }

  /** A run of stripe length is pure exactly when it is a whole stripe: it cannot be half of one
      stripe and half of the next. */
  lemma PureIsWholeStripe(s: Span, i: nat, n: nat, colors: nat)
    requires Splits(n, colors) && i < n && n >= 2 && colors <= U32_LIMIT && s.pages == PerStripe(n, colors)
    ensures Pure(s, colors, Stripe(i, n, colors).value) <==> s.page % Live(colors) == i * PerStripe(n, colors)
  {
    var live, per := Live(colors), PerStripe(n, colors);
    var x, lo := s.page % live, i * per;
    StripeShape(i, n, colors);
    forall j: nat | j < per
      ensures BitAt(s, colors, j) in Stripe(i, n, colors).value <==> lo <= Around(x, j, live) < lo + per
    {
      BitAround(s, colors, j);
      InStripe(Around(x, j, live), i, n, colors);
    }
    WindowFits(x, lo, per, live);
  }

  /** Some page of the run has mask bit `b`. */
  ghost predicate Touches(s: Span, colors: nat, b: nat) {
    exists j: nat :: j < s.pages && BitAt(s, colors, j) == b
  }

  /** A pure run of stripe length touches every bit of its block, and no other. */
  lemma PureTouches(s: Span, i: nat, n: nat, colors: nat, b: nat)
    requires Splits(n, colors) && i < n && n >= 2 && colors <= U32_LIMIT && s.pages == PerStripe(n, colors)
    requires Pure(s, colors, Stripe(i, n, colors).value)
    ensures Touches(s, colors, b) <==> i * PerStripe(n, colors) <= b < i * PerStripe(n, colors) + PerStripe(n, colors)
  {
    var per := PerStripe(n, colors);
    var lo := i * per;
    PureIsWholeStripe(s, i, n, colors);
    StripeShape(i, n, colors);
    forall j: nat | j < per
      ensures BitAt(s, colors, j) == lo + j
    {
      BitAround(s, colors, j);
    }
    if lo <= b < lo + per {
      var j: nat := b - lo;
      assert BitAt(s, colors, j) == b;
    }
  }
}
