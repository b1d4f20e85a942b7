/**
  The prime-and-probe setup: fetch blocks of memory and cut them into colour-pure runs for three
  roles -- victim, attacker of the victim's colours, attacker of disjoint colours.

  Lengths and positions count pages.
 */
module RunScan {
  import opened Wrappers
  import opened Colors
  import opened Arith

  const RUNS: nat := 512
  const BLOCK_PAGES: nat := 2048
  const MAX_BLOCKS: nat := 64

  predicate Apart(a: Span, b: Span) {
    a.page + a.pages <= b.page || b.page + b.pages <= a.page
  }

  predicate Within(a: Span, b: Span) {
    b.page <= a.page && a.page + a.pages <= b.page + b.pages
  }

  ghost predicate AllApart(runs: seq<Span>) {
    forall i: nat, j: nat | i < j < |runs| :: Apart(runs[i], runs[j])
  }

  ghost predicate Separate(r0: seq<Span>, r1: seq<Span>) {
    AllApart(r0) && AllApart(r1) && forall i: nat, j: nat | i < |r0| && j < |r1| :: Apart(r0[i], r1[j])
  }

  ghost predicate InBlock(run: Span, blocks: seq<Span>) {
    exists b: nat :: b < |blocks| && Within(run, blocks[b])
  }

  ghost predicate InBlocks(runs: seq<Span>, blocks: seq<Span>) {
    forall k: nat | k < |runs| :: InBlock(runs[k], blocks)
  }

  ghost predicate AllPure(runs: seq<Span>, colors: nat, mask: set<nat>, size: nat) {
    forall k: nat | k < |runs| :: runs[k].pages == size && Pure(runs[k], colors, mask)
  }

  datatype Want = Want(colors: nat, m0: set<nat>, m1: set<nat>, size: nat, victims: nat, attackers: nat)

  ghost predicate WantOk(w: Want) {
    w.size > 0 && w.victims <= RUNS && w.attackers <= RUNS
  }

  /** Which slot of the arena the `k`-th run of the first stripe goes to: victim first, then the
      attacker that shares its colours. */
  function Slot0(k: nat, victims: nat): nat { if k < victims then k else RUNS + (k - victims) }

  function Slot1(k: nat): nat { 2 * RUNS + k }

  /** The arena holds the runs where the roles will look for them. */
  ghost predicate Filed(w: Want, arena: seq<Span>, r0: seq<Span>, r1: seq<Span>) {
    && |arena| == 3 * RUNS && WantOk(w) && |r0| <= w.victims + w.attackers && |r1| <= w.attackers
    && (forall k: nat | k < |r0| :: arena[Slot0(k, w.victims)] == r0[k])
    && (forall k: nat | k < |r1| :: arena[Slot1(k)] == r1[k])
  }

  /** Everything known between two steps of the scan: `r0` and `r1` are the runs recorded so far. */
  ghost predicate Scanned(w: Want, arena: seq<Span>, r0: seq<Span>, r1: seq<Span>, blocks: seq<Span>) {
    && Filed(w, arena, r0, r1) && Separate(r0, r1) && InBlocks(r0, blocks) && InBlocks(r1, blocks)
    && AllPure(r0, w.colors, w.m0, w.size) && AllPure(r1, w.colors, w.m1, w.size)
  }

  ghost predicate ClearOf(runs: seq<Span>, s: Span) {
    forall k: nat | k < |runs| :: Apart(runs[k], s)
  }

  /** Everything recorded is clear of the block or lies in front of `p`. */
  ghost predicate BehindAt(runs: seq<Span>, block: Span, p: nat) {
    forall k: nat | k < |runs| :: Apart(runs[k], block) || runs[k].page + runs[k].pages <= p
  }

  lemma Behind(runs: seq<Span>, run: Span, block: Span, p: nat)
    requires run.page == p && Within(run, block) && BehindAt(runs, block, p)
    ensures ClearOf(runs, run)
  {
  }

  lemma BlocksGrow(runs: seq<Span>, blocks: seq<Span>, block: Span)
    requires InBlocks(runs, blocks)
    ensures InBlocks(runs, blocks + [block])
  {
    forall k: nat | k < |runs|
      ensures InBlock(runs[k], blocks + [block])
    {
      var b: nat :| b < |blocks| && Within(runs[k], blocks[b]);
      assert (blocks + [block])[b] == blocks[b];
    }
  }

  /** A run of the first stripe recorded in the next free slot. */
  lemma RecordFirst(w: Want, arena: seq<Span>, r0: seq<Span>, r1: seq<Span>, blocks: seq<Span>, run: Span)
    requires Scanned(w, arena, r0, r1, blocks) && |r0| < w.victims + w.attackers
    requires run.pages == w.size && Pure(run, w.colors, w.m0) && InBlock(run, blocks) && ClearOf(r0, run)
             && ClearOf(r1, run)
    ensures Scanned(w, arena[Slot0(|r0|, w.victims) := run], r0 + [run], r1, blocks)
  {
  }

  lemma RecordSecond(w: Want, arena: seq<Span>, r0: seq<Span>, r1: seq<Span>, blocks: seq<Span>, run: Span)
    requires Scanned(w, arena, r0, r1, blocks) && |r1| < w.attackers
    requires run.pages == w.size && Pure(run, w.colors, w.m1) && InBlock(run, blocks) && ClearOf(r0, run)
             && ClearOf(r1, run)
    ensures Scanned(w, arena[Slot1(|r1|) := run], r0, r1 + [run], blocks)
  {
  }

  // What the scan must not miss.

  /** The run is recorded, or a recorded one overlaps it. */
  ghost predicate Met(runs: seq<Span>, s: Span) { exists k: nat :: k < |runs| && !Apart(runs[k], s) }

  /** Every pure window of the block that starts in front of `p` is met. */
  ghost predicate MetBefore(runs: seq<Span>, colors: nat, mask: set<nat>, size: nat, block: Span, p: nat) {
    forall q: nat | block.page <= q < p && Within(Span(q, size), block) && Pure(Span(q, size), colors, mask) ::
      Met(runs, Span(q, size))
  }

  ghost predicate AllMet(runs: seq<Span>, colors: nat, mask: set<nat>, size: nat, block: Span) {
    MetBefore(runs, colors, mask, size, block, block.page + block.pages)
  }

  /** Runs pure for disjoint masks share no page. */
  lemma PureApart(a: Span, b: Span, colors: nat, m: set<nat>, k: set<nat>)
    requires m !! k && Pure(a, colors, m) && Pure(b, colors, k) && a.pages > 0 && b.pages > 0
    ensures Apart(a, b)
  {
    if !Apart(a, b) {
      var x := if a.page < b.page then b.page else a.page;
      assert BitAt(a, colors, x - a.page) == BitAt(b, colors, x - b.page);
    }
  }

  lemma MetGrows(runs: seq<Span>, more: seq<Span>, colors: nat, mask: set<nat>, size: nat, block: Span, p: nat)
    requires runs <= more && MetBefore(runs, colors, mask, size, block, p)
    ensures MetBefore(more, colors, mask, size, block, p)
  {
    forall q: nat | block.page <= q < p && Within(Span(q, size), block) && Pure(Span(q, size), colors, mask)
      ensures Met(more, Span(q, size))
    {
      var k: nat :| k < |runs| && !Apart(runs[k], Span(q, size));
      assert more[k] == runs[k];
    }
  }

  /** After a recorded run the scan goes on behind it: what starts inside it overlaps it. */
  lemma MetByRecorded(runs: seq<Span>, colors: nat, mask: set<nat>, size: nat, block: Span, p: nat)
    requires size > 0 && MetBefore(runs, colors, mask, size, block, p)
    ensures MetBefore(runs + [Span(p, size)], colors, mask, size, block, p + size)
  {
    var more := runs + [Span(p, size)];
    MetGrows(runs, more, colors, mask, size, block, p);
    forall q: nat | p <= q < p + size
      ensures Met(more, Span(q, size))
    {
      assert !Apart(more[|runs|], Span(q, size));
    }
  }

  /** Nothing pure starts inside a run that is pure for a disjoint mask. */
  lemma MetBehindOther(runs: seq<Span>, colors: nat, mask: set<nat>, size: nat, block: Span, p: nat, other: set<nat>)
    requires size > 0 && mask !! other && Pure(Span(p, size), colors, other)
    requires MetBefore(runs, colors, mask, size, block, p)
    ensures MetBefore(runs, colors, mask, size, block, p + size)
  {
    forall q: nat | p <= q < p + size
      ensures !Pure(Span(q, size), colors, mask)
    {
      if Pure(Span(q, size), colors, mask) { PureApart(Span(q, size), Span(p, size), colors, mask, other); }
    }
  }

  /** Both stripes' windows in front of `p` are met, as long as somebody still needs them. */
  ghost predicate Thorough(w: Want, s0: seq<Span>, s1: seq<Span>, block: Span, p: nat) {
    w.m0 !! w.m1 ==>
      && (|s0| < w.victims + w.attackers ==> MetBefore(s0, w.colors, w.m0, w.size, block, p))
      && (|s1| < w.attackers ==> MetBefore(s1, w.colors, w.m1, w.size, block, p))
  }

  lemma ThoroughFirst(w: Want, s0: seq<Span>, s1: seq<Span>, block: Span, p: nat, more: seq<Span>)
    requires WantOk(w) && Thorough(w, s0, s1, block, p) && Pure(Span(p, w.size), w.colors, w.m0)
    requires more == if |s0| < w.victims + w.attackers then s0 + [Span(p, w.size)] else s0
    ensures Thorough(w, more, s1, block, p + w.size)
  {
    if w.m0 !! w.m1 {
      if |more| < w.victims + w.attackers { MetByRecorded(s0, w.colors, w.m0, w.size, block, p); }
      if |s1| < w.attackers { MetBehindOther(s1, w.colors, w.m1, w.size, block, p, w.m0); }
    }
  }

  lemma ThoroughSecond(w: Want, s0: seq<Span>, s1: seq<Span>, block: Span, p: nat, more: seq<Span>)
    requires WantOk(w) && Thorough(w, s0, s1, block, p) && Pure(Span(p, w.size), w.colors, w.m1)
    requires more == if |s1| < w.attackers then s1 + [Span(p, w.size)] else s1
    ensures Thorough(w, s0, more, block, p + w.size)
  {
    if w.m0 !! w.m1 {
      if |more| < w.attackers { MetByRecorded(s1, w.colors, w.m1, w.size, block, p); }
      if |s0| < w.victims + w.attackers { MetBehindOther(s0, w.colors, w.m0, w.size, block, p, w.m1); }
    }
  }

  lemma ThoroughOne(w: Want, s0: seq<Span>, s1: seq<Span>, block: Span, p: nat)
    requires Thorough(w, s0, s1, block, p)
    requires !Pure(Span(p, w.size), w.colors, w.m0) && !Pure(Span(p, w.size), w.colors, w.m1)
    ensures Thorough(w, s0, s1, block, p + 1)
  {
  }

  /** The runs recorded before the block, and after them only runs of the block. */
  ghost predicate Since(r: seq<Span>, s: seq<Span>, block: Span) {
    r <= s && forall k: nat | k < |s| :: s[k] in r || Within(s[k], block)
  }

  /** The scan has come to page `p` of the last block. */
  ghost predicate Scanning(w: Want, arena: seq<Span>, r0: seq<Span>, r1: seq<Span>, s0: seq<Span>, s1: seq<Span>,
                           blocks: seq<Span>, block: Span, p: nat) {
    && |blocks| > 0 && blocks[|blocks| - 1] == block && block.page <= p
    && Scanned(w, arena, s0, s1, blocks) && BehindAt(s0, block, p) && BehindAt(s1, block, p)
    && Since(r0, s0, block) && Since(r1, s1, block) && Thorough(w, s0, s1, block, p)
  }

  lemma RunClear(w: Want, s0: seq<Span>, s1: seq<Span>, blocks: seq<Span>, block: Span, run: Span)
    requires |blocks| > 0 && blocks[|blocks| - 1] == block && Within(run, block)
    requires BehindAt(s0, block, run.page) && BehindAt(s1, block, run.page)
    ensures InBlock(run, blocks) && ClearOf(s0, run) && ClearOf(s1, run)
  {
    Behind(s0, run, block, run.page);
    Behind(s1, run, block, run.page);
    assert Within(run, blocks[|blocks| - 1]);
  }

  lemma TakeFirst(w: Want, arena: seq<Span>, r0: seq<Span>, r1: seq<Span>, s0: seq<Span>, s1: seq<Span>,
                  blocks: seq<Span>, block: Span, p: nat)
    requires Scanning(w, arena, r0, r1, s0, s1, blocks, block, p) && Within(Span(p, w.size), block)
    requires Pure(Span(p, w.size), w.colors, w.m0) && |s0| < w.victims + w.attackers
    ensures Slot0(|s0|, w.victims) < |arena|
    ensures Scanning(w, arena[Slot0(|s0|, w.victims) := Span(p, w.size)], r0, r1, s0 + [Span(p, w.size)], s1, blocks,
                     block, p + w.size)
  {
    RunClear(w, s0, s1, blocks, block, Span(p, w.size));
    RecordFirst(w, arena, s0, s1, blocks, Span(p, w.size));
    ThoroughFirst(w, s0, s1, block, p, s0 + [Span(p, w.size)]);
  }

  lemma TakeSecond(w: Want, arena: seq<Span>, r0: seq<Span>, r1: seq<Span>, s0: seq<Span>, s1: seq<Span>,
                   blocks: seq<Span>, block: Span, p: nat)
    requires Scanning(w, arena, r0, r1, s0, s1, blocks, block, p) && Within(Span(p, w.size), block)
    requires Pure(Span(p, w.size), w.colors, w.m1) && |s1| < w.attackers
    ensures Slot1(|s1|) < |arena|
    ensures Scanning(w, arena[Slot1(|s1|) := Span(p, w.size)], r0, r1, s0, s1 + [Span(p, w.size)], blocks, block,
                     p + w.size)
  {
    RunClear(w, s0, s1, blocks, block, Span(p, w.size));
    RecordSecond(w, arena, s0, s1, blocks, Span(p, w.size));
    ThoroughSecond(w, s0, s1, block, p, s1 + [Span(p, w.size)]);
  }

  /** A run nobody needs any more, or no run at all. */
  lemma GoOn(w: Want, arena: seq<Span>, r0: seq<Span>, r1: seq<Span>, s0: seq<Span>, s1: seq<Span>,
             blocks: seq<Span>, block: Span, p: nat, first: bool, second: bool)
    requires Scanning(w, arena, r0, r1, s0, s1, blocks, block, p)
    requires first <==> Pure(Span(p, w.size), w.colors, w.m0)
    requires second <==> Pure(Span(p, w.size), w.colors, w.m1)
    requires first ==> |s0| >= w.victims + w.attackers
    requires !first && second ==> |s1| >= w.attackers
    ensures Scanning(w, arena, r0, r1, s0, s1, blocks, block, if first || second then p + w.size else p + 1)
  {
    if first {
      ThoroughFirst(w, s0, s1, block, p, s0);
    } else if second {
      ThoroughSecond(w, s0, s1, block, p, s1);
    } else {
      ThoroughOne(w, s0, s1, block, p);
    }
  }

  /** One block, from its first page on; runs that nobody needs any more are skipped. */
  method ScanBlock(arena: array<Span>, w: Want, block: Span, ghost r0: seq<Span>, ghost r1: seq<Span>,
                   ghost blocks: seq<Span>, n0: nat, n1: nat)
      returns (m0: nat, m1: nat, ghost s0: seq<Span>, ghost s1: seq<Span>)
    requires n0 == |r0| && n1 == |r1| && arena.Length == 3 * RUNS && Scanned(w, arena[..], r0, r1, blocks)
    requires |blocks| > 0 && blocks[|blocks| - 1] == block && ClearOf(r0, block) && ClearOf(r1, block)
    modifies arena
    ensures m0 == |s0| && m1 == |s1| && Scanned(w, arena[..], s0, s1, blocks)
    ensures Since(r0, s0, block) && Since(r1, s1, block) && Thorough(w, s0, s1, block, block.page + block.pages)
  {
    m0, m1, s0, s1 := n0, n1, r0, r1;
    var p := block.page;
    while p + w.size <= block.page + block.pages && (m0 < w.victims + w.attackers || m1 < w.attackers)
      invariant m0 == |s0| && m1 == |s1| && Scanning(w, arena[..], r0, r1, s0, s1, blocks, block, p)
      decreases block.page + block.pages - p
    {
      var run := Span(p, w.size);
      var first := CheckPure(run, w.colors, w.m0);
      if first {
        if m0 < w.victims + w.attackers {
          TakeFirst(w, arena[..], r0, r1, s0, s1, blocks, block, p);
          arena[Slot0(m0, w.victims)] := run;
          s0, m0 := s0 + [run], m0 + 1;
        } else {
          ghost var second := Pure(run, w.colors, w.m1);
          GoOn(w, arena[..], r0, r1, s0, s1, blocks, block, p, true, second);
        }
        p := p + w.size;
      } else {
        var second := CheckPure(run, w.colors, w.m1);
        if second {
          if m1 < w.attackers {
            TakeSecond(w, arena[..], r0, r1, s0, s1, blocks, block, p);
            arena[Slot1(m1)] := run;
            s1, m1 := s1 + [run], m1 + 1;
          } else {
            GoOn(w, arena[..], r0, r1, s0, s1, blocks, block, p, false, true);
          }
          p := p + w.size;
        } else {
          GoOn(w, arena[..], r0, r1, s0, s1, blocks, block, p, false, false);
          p := p + 1;
        }
      }
    }
    ScanEnds(w, s0, s1, block, p);
  }

  lemma ScanEnds(w: Want, s0: seq<Span>, s1: seq<Span>, block: Span, p: nat)
    requires WantOk(w) && Thorough(w, s0, s1, block, p)
    requires p + w.size > block.page + block.pages || (|s0| >= w.victims + w.attackers && |s1| >= w.attackers)
    ensures Thorough(w, s0, s1, block, block.page + block.pages)
  {
  }

  // ---------------------------------------------------------------------------------------------
  // Fetching blocks
  // ---------------------------------------------------------------------------------------------

  /** The allocator: what it answers to the `k`-th request for so many pages.  It never gives the
      same memory out twice. */
  type Allocator = (nat, nat) -> Option<Span>

  ghost predicate NeverTwice(alloc: Allocator) {
    forall k: nat, m: nat, a: nat, b: nat | k < m && alloc(k, a).Some? && alloc(m, b).Some? ::
      Apart(alloc(k, a).value, alloc(m, b).value)
  }

  ghost predicate FromAllocator(blocks: seq<Span>, alloc: Allocator, k: nat) {
    forall b: nat | b < |blocks| :: exists r: nat, a: nat :: r < k && alloc(r, a) == Some(blocks[b])
  }

  lemma InsideApart(run: Span, a: Span, b: Span)
    requires Within(run, a) && Apart(a, b)
    ensures Apart(run, b)
  {
  }

  /** A new block touches nothing recorded. */
  lemma NewBlockClear(runs: seq<Span>, blocks: seq<Span>, alloc: Allocator, k: nat, size: nat)
    requires NeverTwice(alloc) && FromAllocator(blocks, alloc, k) && InBlocks(runs, blocks) && alloc(k, size).Some?
    ensures ClearOf(runs, alloc(k, size).value)
  {
    forall i: nat | i < |runs|
      ensures Apart(runs[i], alloc(k, size).value)
    {
      var b: nat :| b < |blocks| && Within(runs[i], blocks[b]);
      var r: nat, a: nat :| r < k && alloc(r, a) == Some(blocks[b]);
      InsideApart(runs[i], blocks[b], alloc(k, size).value);
    }
  }

  /** The blocks the allocator gave to the first `k` requests, in their order. */
  ghost function Granted(alloc: Allocator, asks: seq<nat>, k: nat): seq<Span>
    requires k <= |asks|
  {
    if k == 0 then []
    else
      var got := alloc(k - 1, asks[k - 1]);
      Granted(alloc, asks, k - 1) + (if got.Some? then [got.value] else [])
  }

  lemma {:induction false} GrantedGrows(alloc: Allocator, asks: seq<nat>, next: nat, k: nat)
    requires k <= |asks|
    ensures Granted(alloc, asks + [next], k) == Granted(alloc, asks, k)
  {
    if k > 0 { GrantedGrows(alloc, asks, next, k - 1); }
  }

  /** What is asked for after this request was answered. */
  function NextAsk(alloc: Allocator, k: nat, ask: nat): nat { if alloc(k, ask).Some? then ask else ask / 2 }

  /** The requests made so far: 2048 pages at first, the same again after a grant, half as many after a refusal,
      and none after the refusal of a request too small to try again. */
  ghost predicate Requests(alloc: Allocator, w: Want, asks: seq<nat>, blocks: seq<Span>) {
    && blocks == Granted(alloc, asks, |asks|) && (|asks| > 0 ==> asks[0] == 2048)
    && forall k: nat | k + 1 < |asks| ::
         (alloc(k, asks[k]).Some? || asks[k] > w.size * PARTITIONS) && asks[k + 1] == NextAsk(alloc, k, asks[k])
  }

  /** What the next request must be for. */
  ghost predicate AsksFor(alloc: Allocator, w: Want, asks: seq<nat>, size: nat) {
    if asks == [] then size == 2048
    else
      var k: nat := |asks| - 1;
      size == NextAsk(alloc, k, asks[k]) && (alloc(k, asks[k]).Some? || asks[k] > w.size * PARTITIONS)
  }

  lemma RequestMade(alloc: Allocator, w: Want, asks: seq<nat>, blocks: seq<Span>, size: nat, more: seq<Span>)
    requires Requests(alloc, w, asks, blocks) && AsksFor(alloc, w, asks, size)
    requires more == if alloc(|asks|, size).Some? then blocks + [alloc(|asks|, size).value] else blocks
    ensures Requests(alloc, w, asks + [size], more)
  {
    GrantedGrows(alloc, asks, size, |asks|);
  }

  /** The last request was refused, and it is too small to be halved. */
  ghost predicate GaveUp(alloc: Allocator, w: Want, asks: seq<nat>) {
    && |asks| > 0 && alloc(|asks| - 1, asks[|asks| - 1]).None?
    && asks[|asks| - 1] <= w.size * PARTITIONS
  }

  /** Every window of every block fetched is recorded or overlaps a recorded run, for whichever stripe is short. */
  ghost predicate NothingMissed(w: Want, r0: seq<Span>, r1: seq<Span>, blocks: seq<Span>) {
    w.m0 !! w.m1 ==>
      && (|r0| < w.victims + w.attackers ==> MetIn(r0, w, w.m0, blocks))
      && (|r1| < w.attackers ==> MetIn(r1, w, w.m1, blocks))
  }

  ghost predicate MetIn(runs: seq<Span>, w: Want, mask: set<nat>, blocks: seq<Span>) {
    forall b: nat | b < |blocks| :: AllMet(runs, w.colors, mask, w.size, blocks[b])
  }

  lemma MetInGrows(runs: seq<Span>, more: seq<Span>, w: Want, mask: set<nat>, blocks: seq<Span>, block: Span)
    requires runs <= more && MetIn(runs, w, mask, blocks) && AllMet(more, w.colors, mask, w.size, block)
    ensures MetIn(more, w, mask, blocks + [block])
  {
    forall b: nat | b < |blocks|
      ensures AllMet(more, w.colors, mask, w.size, blocks[b])
    {
      MetGrows(runs, more, w.colors, mask, w.size, blocks[b], blocks[b].page + blocks[b].pages);
    }
  }

  lemma BlockScanned(w: Want, r0: seq<Span>, r1: seq<Span>, s0: seq<Span>, s1: seq<Span>, blocks: seq<Span>,
                     block: Span)
    requires NothingMissed(w, r0, r1, blocks) && r0 <= s0 && r1 <= s1
    requires Thorough(w, s0, s1, block, block.page + block.pages)
    ensures NothingMissed(w, s0, s1, blocks + [block])
  {
    if w.m0 !! w.m1 {
      if |s0| < w.victims + w.attackers { MetInGrows(r0, s0, w, w.m0, blocks, block); }
      if |s1| < w.attackers { MetInGrows(r1, s1, w, w.m1, blocks, block); }
    }
  }

  /** Everything known between two requests. */
  ghost predicate Collected(w: Want, arena: seq<Span>, alloc: Allocator, r0: seq<Span>, r1: seq<Span>,
                            blocks: seq<Span>, asks: seq<nat>) {
    && Scanned(w, arena, r0, r1, blocks) && FromAllocator(blocks, alloc, |asks|)
    && Requests(alloc, w, asks, blocks) && NothingMissed(w, r0, r1, blocks)
  }

  lemma Refused(w: Want, arena: seq<Span>, alloc: Allocator, r0: seq<Span>, r1: seq<Span>, blocks: seq<Span>,
                asks: seq<nat>, size: nat)
    requires Collected(w, arena, alloc, r0, r1, blocks, asks) && AsksFor(alloc, w, asks, size)
    requires alloc(|asks|, size).None?
    ensures Collected(w, arena, alloc, r0, r1, blocks, asks + [size])
    ensures size > w.size * PARTITIONS ==> AsksFor(alloc, w, asks + [size], size / 2)
  {
    RequestMade(alloc, w, asks, blocks, size, blocks);
  }

  lemma Given(w: Want, arena: seq<Span>, alloc: Allocator, r0: seq<Span>, r1: seq<Span>, blocks: seq<Span>,
              asks: seq<nat>, size: nat)
    requires NeverTwice(alloc) && Collected(w, arena, alloc, r0, r1, blocks, asks) && AsksFor(alloc, w, asks, size)
    requires alloc(|asks|, size).Some?
    ensures
      var block := alloc(|asks|, size).value;
      && Scanned(w, arena, r0, r1, blocks + [block]) && ClearOf(r0, block) && ClearOf(r1, block)
      && FromAllocator(blocks + [block], alloc, |asks| + 1) && Requests(alloc, w, asks + [size], blocks + [block])
      && AsksFor(alloc, w, asks + [size], size)
  {
    var block := alloc(|asks|, size).value;
    RequestMade(alloc, w, asks, blocks, size, blocks + [block]);
    NewBlockClear(r0, blocks, alloc, |asks|, size);
    NewBlockClear(r1, blocks, alloc, |asks|, size);
    BlocksGrow(r0, blocks, block);
    BlocksGrow(r1, blocks, block);
  }

  /** Fetch blocks, halving the request whenever one is refused, until everything is there, memory
      runs out, or the list of blocks is full. */
  method Collect(arena: array<Span>, w: Want, alloc: Allocator)
      returns (n0: nat, n1: nat, blocks: seq<Span>, ghost r0: seq<Span>, ghost r1: seq<Span>, ghost asks: seq<nat>)
    requires arena.Length == 3 * RUNS && WantOk(w) && NeverTwice(alloc)
    modifies arena
    ensures |blocks| <= MAX_BLOCKS && n0 == |r0| && n1 == |r1| && Scanned(w, arena[..], r0, r1, blocks)
    ensures Requests(alloc, w, asks, blocks) && NothingMissed(w, r0, r1, blocks)
    ensures n0 < w.victims + w.attackers || n1 < w.attackers ==> |blocks| == MAX_BLOCKS || GaveUp(alloc, w, asks)
  {
    n0, n1, blocks, r0, r1, asks := 0, 0, [], [], [], [];
    var size: nat, asked: nat := BLOCK_PAGES, 0;
    while (n0 < w.victims + w.attackers || n1 < w.attackers) && |blocks| < MAX_BLOCKS
      invariant |blocks| <= MAX_BLOCKS && n0 == |r0| && n1 == |r1| && asked == |asks|
      invariant Collected(w, arena[..], alloc, r0, r1, blocks, asks) && AsksFor(alloc, w, asks, size)
      decreases MAX_BLOCKS - |blocks|, size
    {
      var got := alloc(asked, size);
      if got.None? {
        Refused(w, arena[..], alloc, r0, r1, blocks, asks, size);
        asks, asked := asks + [size], asked + 1;
        if size <= w.size * PARTITIONS { break; }
        size := size / 2;
      } else {
        var block := got.value;
        Given(w, arena[..], alloc, r0, r1, blocks, asks, size);
        ghost var before, q0, q1 := blocks, r0, r1;
        blocks := blocks + [block];
        asks, asked := asks + [size], asked + 1;
        n0, n1, r0, r1 := ScanBlock(arena, w, block, r0, r1, blocks, n0, n1);
        BlockScanned(w, q0, q1, r0, r1, before, block);
      }
    }
  }

  // ---------------------------------------------------------------------------------------------
  // The check on the chosen colours
  // ---------------------------------------------------------------------------------------------

  ghost predicate TouchedBy(runs: seq<Span>, colors: nat, b: nat) {
    exists k: nat :: k < |runs| && Touches(runs[k], colors, b)
  }

  ghost predicate BitsOf(bits: set<nat>, runs: seq<Span>, colors: nat) {
    forall b: nat :: b in bits <==> TouchedBy(runs, colors, b)
  }

  method UsedBits(runs: seq<Span>, colors: nat) returns (bits: set<nat>)
    ensures BitsOf(bits, runs, colors)
  {
    bits := {};
    for k := 0 to |runs|
      invariant forall b: nat :: b in bits <==> exists m: nat :: m < k && Touches(runs[m], colors, b)
    {
      ghost var before := bits;
      for j := 0 to runs[k].pages
        invariant forall b: nat :: b in bits <==> b in before || exists i: nat ::
                    i < j && BitAt(runs[k], colors, i) == b
      {
        bits := bits + {BitAt(runs[k], colors, j)};
      }
      assert forall b: nat :: Touches(runs[k], colors, b) <==> exists i: nat ::
          i < runs[k].pages && BitAt(runs[k], colors, i) == b;
    }
  }

  /** Victim and disjoint attacker use colours, the disjoint one none of the others', the shared one
      some of the victim's. */
  ghost predicate Faithful(victim: seq<Span>, shared: seq<Span>, disjoint: seq<Span>, colors: nat) {
    && (exists b: nat :: TouchedBy(victim, colors, b)) && (exists b: nat :: TouchedBy(disjoint, colors, b))
    && (forall b: nat :: TouchedBy(disjoint, colors, b) ==>
        !TouchedBy(victim, colors, b) && !TouchedBy(shared, colors, b))
    && (exists b: nat :: TouchedBy(victim, colors, b) && TouchedBy(shared, colors, b))
  }

  lemma FaithfulBits(bv: set<nat>, bg: set<nat>, bd: set<nat>, victim: seq<Span>, shared: seq<Span>,
                     disjoint: seq<Span>,
                     colors: nat)
    requires BitsOf(bv, victim, colors) && BitsOf(bg, shared, colors) && BitsOf(bd, disjoint, colors)
    ensures bv != {} && bd != {} && (bv + bg) * bd == {} && bv * bg != {}
            <==> Faithful(victim, shared, disjoint, colors)
  {
    assert bv != {} <==> exists b: nat :: TouchedBy(victim, colors, b) by {
      if bv != {} { var b :| b in bv; assert TouchedBy(victim, colors, b); }
    }
    assert bd != {} <==> exists b: nat :: TouchedBy(disjoint, colors, b) by {
      if bd != {} { var b :| b in bd; assert TouchedBy(disjoint, colors, b); }
    }
    assert bv * bg != {} <==> exists b: nat :: TouchedBy(victim, colors, b) && TouchedBy(shared, colors, b) by {
      if bv * bg != {} { var b :| b in bv * bg; assert TouchedBy(victim, colors, b) && TouchedBy(shared, colors, b); }
      if b: nat :| TouchedBy(victim, colors, b) && TouchedBy(shared, colors, b) { assert b in bv * bg; }
    }
    if (bv + bg) * bd != {} {
      var b :| b in (bv + bg) * bd;
      assert TouchedBy(disjoint, colors, b);
    } else {
      forall b: nat | TouchedBy(disjoint, colors, b)
        ensures !TouchedBy(victim, colors, b) && !TouchedBy(shared, colors, b)
      {
        assert b in bd && b !in (bv + bg) * bd;
      }
    }
  }

  method CheckColors(victim: seq<Span>, shared: seq<Span>, disjoint: seq<Span>, colors: nat) returns (ok: bool)
    ensures ok <==> Faithful(victim, shared, disjoint, colors)
  {
    var bv := UsedBits(victim, colors);
    var bg := UsedBits(shared, colors);
    var bd := UsedBits(disjoint, colors);
    FaithfulBits(bv, bg, bd, victim, shared, disjoint, colors);
    return bv != {} && bd != {} && (bv + bg) * bd == {} && bv * bg != {};
  }

  /** Pure runs of stripe length, at least one, touch exactly their stripe's block. */
  lemma RunsTouch(runs: seq<Span>, i: nat, colors: nat, b: nat)
    requires Splits(PARTITIONS, colors) && i < PARTITIONS && colors <= U32_LIMIT && |runs| > 0
    requires AllPure(runs, colors, Stripe(i, PARTITIONS, colors).value, PerStripe(PARTITIONS, colors))
    ensures
      var per := PerStripe(PARTITIONS, colors);
      TouchedBy(runs, colors, b) <==> i * per <= b < i * per + per
  {
    var per := PerStripe(PARTITIONS, colors);
    forall k: nat | k < |runs|
      ensures Touches(runs[k], colors, b) <==> i * per <= b < i * per + per
    {
      PureTouches(runs[k], i, PARTITIONS, colors, b);
    }
    if i * per <= b < i * per + per { assert Touches(runs[0], colors, b); }
  }

  /** What the test wants for stripes 0 and 1, with runs of `RegionPages`. */
  ghost predicate StripeWant(w: Want) {
    && WantOk(w) && Splits(PARTITIONS, w.colors) && w.colors <= U32_LIMIT && w.victims > 0 && w.attackers > 0
    && w.m0 == Stripe(0, PARTITIONS, w.colors).value && w.m1 == Stripe(1, PARTITIONS, w.colors).value
    && w.size == RegionPages(w.colors)
  }

  /** Once the setup is complete the check on the colours cannot fail. */
  lemma CompleteIsFaithful(w: Want, arena: seq<Span>, r0: seq<Span>, r1: seq<Span>, blocks: seq<Span>, b: nat)
    requires StripeWant(w) && Scanned(w, arena, r0, r1, blocks)
    requires |r0| == w.victims + w.attackers && |r1| == w.attackers
    ensures
      var per := PerStripe(PARTITIONS, w.colors);
      && per > 0
      && (TouchedBy(arena[..w.victims], w.colors, b) <==> b < per)
      && (TouchedBy(arena[RUNS..RUNS + w.attackers], w.colors, b) <==> b < per)
      && (TouchedBy(arena[2 * RUNS..2 * RUNS + w.attackers], w.colors, b) <==> per <= b < 2 * per)
  {
    LiveFacts(PARTITIONS, w.colors);
    var victim, shared, disjoint := arena[..w.victims], arena[RUNS..RUNS + w.attackers],
        arena[2 * RUNS..2 * RUNS + w.attackers];
    assert victim == r0[..w.victims] by {
      forall k: nat | k < w.victims ensures victim[k] == r0[k] { assert arena[Slot0(k, w.victims)] == r0[k]; }
    }
    assert shared == r0[w.victims..] by {
      forall k: nat | k < w.attackers
        ensures shared[k] == r0[w.victims..][k]
      {
        assert arena[Slot0(w.victims + k, w.victims)] == r0[w.victims + k];
      }
    }
    assert disjoint == r1 by {
      forall k: nat | k < w.attackers ensures disjoint[k] == r1[k] { assert arena[Slot1(k)] == r1[k]; }
    }
    RunsTouch(victim, 0, w.colors, b);
    RunsTouch(shared, 0, w.colors, b);
    RunsTouch(disjoint, 1, w.colors, b);
  }

  /** Windows of stripe length that are pure for one stripe overlap only if they are the same. */
  lemma OverlapIsSame(a: Span, b: Span, i: nat, colors: nat)
    requires Splits(PARTITIONS, colors) && i < PARTITIONS && colors <= U32_LIMIT
    requires a.pages == b.pages == PerStripe(PARTITIONS, colors) && !Apart(a, b)
    requires Pure(a, colors, Stripe(i, PARTITIONS, colors).value)
    requires Pure(b, colors, Stripe(i, PARTITIONS, colors).value)
    ensures a == b
  {
    PureIsWholeStripe(a, i, PARTITIONS, colors);
    PureIsWholeStripe(b, i, PARTITIONS, colors);
    StripeShape(i, PARTITIONS, colors);
    SameRemainder(a.page, b.page, Live(colors));
  }

  /** So no whole stripe is missed: whichever of the two is short, all of it that lies in the blocks is recorded. */
  lemma WholeStripesRecorded(w: Want, arena: seq<Span>, r0: seq<Span>, r1: seq<Span>, blocks: seq<Span>, b: nat,
                             q: nat)
    requires StripeWant(w) && Scanned(w, arena, r0, r1, blocks) && NothingMissed(w, r0, r1, blocks)
    requires b < |blocks| && Within(Span(q, w.size), blocks[b])
    ensures |r0| < w.victims + w.attackers && q % Live(w.colors) == 0 ==> Span(q, w.size) in r0
    ensures |r1| < w.attackers && q % Live(w.colors) == PerStripe(PARTITIONS, w.colors) ==> Span(q, w.size) in r1
  {
    LiveFacts(PARTITIONS, w.colors);
    StripesDisjoint(0, 1, PARTITIONS, w.colors);
    var s := Span(q, w.size);
    PureIsWholeStripe(s, 0, PARTITIONS, w.colors);
    PureIsWholeStripe(s, 1, PARTITIONS, w.colors);
    if |r0| < w.victims + w.attackers && Pure(s, w.colors, w.m0) { RecordedInBlock(w, w.m0, 0, r0, blocks, b, q); }
    if |r1| < w.attackers && Pure(s, w.colors, w.m1) { RecordedInBlock(w, w.m1, 1, r1, blocks, b, q); }
  }

  lemma RecordedInBlock(w: Want, mask: set<nat>, i: nat, runs: seq<Span>, blocks: seq<Span>, b: nat, q: nat)
    requires Splits(PARTITIONS, w.colors) && w.colors <= U32_LIMIT && i < PARTITIONS
    requires mask == Stripe(i, PARTITIONS, w.colors).value && w.size == PerStripe(PARTITIONS, w.colors) > 0
    requires AllPure(runs, w.colors, mask, w.size) && MetIn(runs, w, mask, blocks)
    requires b < |blocks| && Within(Span(q, w.size), blocks[b]) && Pure(Span(q, w.size), w.colors, mask)
    ensures Span(q, w.size) in runs
  {
    assert AllMet(runs, w.colors, mask, w.size, blocks[b]);
    assert Met(runs, Span(q, w.size));
    var k: nat :| k < |runs| && !Apart(runs[k], Span(q, w.size));
    OverlapIsSame(runs[k], Span(q, w.size), i, w.colors);
  }

  /** The setup and its check together: complete implies faithful, and it is complete unless the blocks do not
      hold enough whole stripes and no more are to be had. */
  method Setup(arena: array<Span>, w: Want, alloc: Allocator)
      returns (ran: bool, faithful: bool, blocks: seq<Span>, ghost r0: seq<Span>, ghost r1: seq<Span>,
               ghost asks: seq<nat>)
    requires arena.Length == 3 * RUNS && StripeWant(w) && NeverTwice(alloc)
    modifies arena
    ensures Scanned(w, arena[..], r0, r1, blocks) && |blocks| <= MAX_BLOCKS
    ensures ran <==> |r0| == w.victims + w.attackers && |r1| == w.attackers
    ensures ran ==> faithful
    ensures Requests(alloc, w, asks, blocks) && NothingMissed(w, r0, r1, blocks)
    ensures !ran ==> |blocks| == MAX_BLOCKS || GaveUp(alloc, w, asks)
  {
    var n0, n1;
    n0, n1, blocks, r0, r1, asks := Collect(arena, w, alloc);
    ran := n0 == w.victims + w.attackers && n1 == w.attackers;
    faithful := false;
    if ran {
      var victim := arena[..w.victims];
      var shared := arena[RUNS..RUNS + w.attackers];
      var disjoint := arena[2 * RUNS..2 * RUNS + w.attackers];
      faithful := CheckColors(victim, shared, disjoint, w.colors);
      FaithfulNow(w, arena[..], r0, r1, blocks);
    }
  }

  lemma FaithfulNow(w: Want, arena: seq<Span>, r0: seq<Span>, r1: seq<Span>, blocks: seq<Span>)
    requires StripeWant(w) && Scanned(w, arena, r0, r1, blocks)
    requires |r0| == w.victims + w.attackers && |r1| == w.attackers
    ensures Faithful(arena[..w.victims], arena[RUNS..RUNS + w.attackers], arena[2 * RUNS..2 * RUNS + w.attackers],
            w.colors)
  {
    CompleteIsFaithful(w, arena, r0, r1, blocks, 0);
    CompleteIsFaithful(w, arena, r0, r1, blocks, PerStripe(PARTITIONS, w.colors));
    forall b: nat | TouchedBy(arena[2 * RUNS..2 * RUNS + w.attackers], w.colors, b)
      ensures !TouchedBy(arena[..w.victims], w.colors, b) && !TouchedBy(arena[RUNS..RUNS + w.attackers], w.colors, b)
    {
      CompleteIsFaithful(w, arena, r0, r1, blocks, b);
    }
  }
}
