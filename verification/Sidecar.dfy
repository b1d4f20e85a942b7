/**
  The trap frame travels through memory its handler may rewrite: out as a whole, back only as far as
  the general registers.

  A window is an array of 64-bit words, a slot 64 of them.
 */
module Sidecar {
  const SLOTS: nat := 64
  const SLOT_WORDS: nat := 64
  const FRAME_WORD: nat := 24
  const MAGIC: nat := 0x4350_524B_5F46_524D
  const FORMAT_VERSION: nat := 1

  const W_MAGIC: nat := 0
  const W_VERSION: nat := 1
  const W_GEN: nat := 2
  const W_REASON: nat := 3
  const W_CODE: nat := 4
  const W_NGPR: nat := 5
  const W_NTOTAL: nat := 6
  const W_ARCH: nat := 7
  const W_GROUP: nat := 8
  const W_RESERVED: nat := 9
  const RESERVED_N: nat := 7
  const W_ABI: nat := 16
  const ABI_N: nat := 7

  /** What an architecture fixes: its tag, how many words of a frame are general registers, how many
      words there are, and where the ABI registers lie. */
  datatype Arch = Arch(tag: nat, gpr: nat, total: nat, abi: seq<nat>)

  predicate ArchOk(a: Arch) { a.gpr <= a.total && |a.abi| == ABI_N }

  /** Everything one delivery puts into a slot. */
  datatype Job = Job(arch: Arch, frame: seq<nat>, reason: nat, code: nat, gen: nat)

  predicate JobOk(j: Job) {
    ArchOk(j.arch) && |j.frame| == j.arch.total && j.arch.total <= SLOT_WORDS - FRAME_WORD
  }

  predicate Touched(j: Job, i: nat) { i < FRAME_WORD - 1 || FRAME_WORD <= i < FRAME_WORD + |j.frame| }

  function Content(j: Job, i: nat): nat
    requires JobOk(j) && Touched(j, i)
  {
    if i == W_MAGIC then MAGIC
    else if i == W_VERSION then FORMAT_VERSION
    else if i == W_GEN then j.gen
    else if i == W_REASON then j.reason
    else if i == W_CODE then j.code
    else if i == W_NGPR then j.arch.gpr
    else if i == W_NTOTAL then j.arch.total
    else if i == W_ARCH then j.arch.tag
    else if i < W_ABI then 0
    else if i < FRAME_WORD then j.arch.abi[i - W_ABI]
    else j.frame[i - FRAME_WORD]
  }

  // ---------------------------------------------------------------------------------------------
  // The order of the writes
  // ---------------------------------------------------------------------------------------------

  function Steps(j: Job): nat { |j.frame| + 23 }

  /** The word written in step `k`: the body from front to back, the magic last. */
  function Target(j: Job, k: nat): nat
    requires k < Steps(j)
  {
    if k < 22 then k + 1 else if k + 1 < Steps(j) then k + 2 else W_MAGIC
  }

  /** The step in which word `i` is written. */
  function StepOf(j: Job, i: nat): nat
    requires Touched(j, i)
  {
    if i == W_MAGIC then Steps(j) - 1 else if i < 23 then i - 1 else i - 2
  }

  function WordAfter(win: seq<nat>, slot: nat, j: Job, k: nat, a: nat): nat
    requires JobOk(j) && a < |win|
  {
    var i := a - slot * SLOT_WORDS;
    if i >= 0 && Touched(j, i) && StepOf(j, i) < k then Content(j, i) else win[a]
  }

  /** The window after the first `k` writes. */
  function Partial(win: seq<nat>, slot: nat, j: Job, k: nat): (r: seq<nat>)
    requires JobOk(j) && slot < SLOTS && |win| >= SLOTS * SLOT_WORDS && k <= Steps(j)
    ensures |r| == |win|
  {
    seq(|win|, a requires 0 <= a < |win| => WordAfter(win, slot, j, k, a))
  }

  lemma PartialStep(win: seq<nat>, slot: nat, j: Job, k: nat)
    requires JobOk(j) && slot < SLOTS && |win| >= SLOTS * SLOT_WORDS && k < Steps(j)
    ensures Touched(j, Target(j, k)) && StepOf(j, Target(j, k)) == k
    ensures Partial(win, slot, j, k + 1) ==
              Partial(win, slot, j, k)[slot * SLOT_WORDS + Target(j, k) := Content(j, Target(j, k))]
  {
    var at := slot * SLOT_WORDS + Target(j, k);
    var p, q := Partial(win, slot, j, k), Partial(win, slot, j, k + 1);
    forall a: nat | a < |q|
      ensures q[a] == p[at := Content(j, Target(j, k))][a]
    {
      var i := a - slot * SLOT_WORDS;
      if i >= 0 && Touched(j, i) && StepOf(j, i) == k { assert i == Target(j, k); }
    }
  }

  ghost predicate InSlot(slot: nat, a: nat) { slot * SLOT_WORDS <= a < slot * SLOT_WORDS + SLOT_WORDS }

  /** The slot of a window, as the code reads it. */
  function SlotAt(win: seq<nat>, slot: nat): (s: seq<nat>)
    requires slot < SLOTS && |win| >= SLOTS * SLOT_WORDS
    ensures |s| == SLOT_WORDS
  {
    win[slot * SLOT_WORDS..slot * SLOT_WORDS + SLOT_WORDS]
  }

  /** Delivery touches its own slot only, at every step. */
  lemma OwnSlotOnly(win: seq<nat>, slot: nat, j: Job, k: nat, a: nat)
    requires JobOk(j) && slot < SLOTS && |win| >= SLOTS * SLOT_WORDS && k <= Steps(j) && a < |win| && !InSlot(slot, a)
    ensures Partial(win, slot, j, k)[a] == win[a]
  {
  }

  /** A word of the slot after `k` steps. */
  lemma SlotWord(win: seq<nat>, slot: nat, j: Job, k: nat, i: nat)
    requires JobOk(j) && slot < SLOTS && |win| >= SLOTS * SLOT_WORDS && k <= Steps(j) && i < SLOT_WORDS
    ensures SlotAt(Partial(win, slot, j, k), slot)[i] ==
              if Touched(j, i) && StepOf(j, i) < k then Content(j, i) else SlotAt(win, slot)[i]
  {
  }

  /** In a slot that held no magic, a visible magic means the complete frame. */
  lemma MagicMeansComplete(win: seq<nat>, slot: nat, j: Job, k: nat)
    requires JobOk(j) && slot < SLOTS && |win| >= SLOTS * SLOT_WORDS && k <= Steps(j)
    requires SlotAt(win, slot)[W_MAGIC] != MAGIC
    ensures SlotAt(Partial(win, slot, j, k), slot)[W_MAGIC] == MAGIC <==> k == Steps(j)
    ensures k == Steps(j) ==> forall i: nat | Touched(j, i) ::
              SlotAt(Partial(win, slot, j, k), slot)[i] == Content(j, i)
  {
    SlotWord(win, slot, j, k, W_MAGIC);
    forall i: nat | Touched(j, i) && k == Steps(j)
      ensures SlotAt(Partial(win, slot, j, k), slot)[i] == Content(j, i)
    {
      SlotWord(win, slot, j, k, i);
    }
  }

  /** In a slot used before, the magic is visible all along: after two writes it stands over the new
      generation number and the old frame. */
  lemma ReusedSlotTorn(win: seq<nat>, slot: nat, j: Job, k: nat)
    requires JobOk(j) && slot < SLOTS && |win| >= SLOTS * SLOT_WORDS && 2 <= k <= 22
    requires SlotAt(win, slot)[W_MAGIC] == MAGIC
    ensures
      var s := SlotAt(Partial(win, slot, j, k), slot);
      && s[W_MAGIC] == MAGIC && s[W_GEN] == j.gen
      && forall i: nat | FRAME_WORD <= i < FRAME_WORD + |j.frame| :: s[i] == SlotAt(win, slot)[i]
  {
    forall i: nat | FRAME_WORD <= i < FRAME_WORD + |j.frame|
      ensures SlotAt(Partial(win, slot, j, k), slot)[i] == SlotAt(win, slot)[i]
    {
    }
  }

  /** A slot shows this delivery in full. */
  ghost predicate Shows(s: seq<nat>, j: Job)
    requires JobOk(j) && |s| == SLOT_WORDS
  {
    forall i: nat | Touched(j, i) :: s[i] == Content(j, i)
  }

  /** At every step a visible magic means the complete frame, exactly if the slot held no magic before
      or held this very delivery. */
  lemma NeverTornExactly(win: seq<nat>, slot: nat, j: Job)
    requires JobOk(j) && slot < SLOTS && |win| >= SLOTS * SLOT_WORDS
    ensures
      (forall k: nat | k <= Steps(j) ::
         SlotAt(Partial(win, slot, j, k), slot)[W_MAGIC] == MAGIC ==> Shows(SlotAt(Partial(win, slot, j, k), slot), j))
      <==> (SlotAt(win, slot)[W_MAGIC] != MAGIC || Shows(SlotAt(win, slot), j))
  {
    assert Partial(win, slot, j, 0) == win;
    forall k: nat | k <= Steps(j)
      ensures SlotAt(win, slot)[W_MAGIC] != MAGIC || Shows(SlotAt(win, slot), j) ==>
                SlotAt(Partial(win, slot, j, k), slot)[W_MAGIC] == MAGIC ==>
                    Shows(SlotAt(Partial(win, slot, j, k), slot), j)
    {
      if SlotAt(win, slot)[W_MAGIC] != MAGIC {
        MagicMeansComplete(win, slot, j, k);
      } else if Shows(SlotAt(win, slot), j) {
        forall i: nat | Touched(j, i)
          ensures SlotAt(Partial(win, slot, j, k), slot)[i] == Content(j, i)
        {
          assert SlotAt(win, slot)[i] == Content(j, i);
        }
      }
    }
  }

  // ---------------------------------------------------------------------------------------------
  // Reading a slot back
  // ---------------------------------------------------------------------------------------------

  datatype HeaderVerdict = Good | NoFrame | ForeignVersion(v: nat) | ForeignArch(a: nat) | ForeignWidth(g: nat,
      t: nat) | Reserved

  function CheckHeader(head: seq<nat>, a: Arch): HeaderVerdict {
    if |head| < FRAME_WORD then NoFrame
    else if head[W_MAGIC] != MAGIC then NoFrame
    else if head[W_VERSION] != FORMAT_VERSION then ForeignVersion(head[W_VERSION])
    else if head[W_ARCH] != a.tag then ForeignArch(head[W_ARCH])
    else if head[W_NGPR] != a.gpr || head[W_NTOTAL] != a.total then ForeignWidth(head[W_NGPR], head[W_NTOTAL])
    else if head[W_GROUP] != 0 then Reserved
    else if head[W_RESERVED..W_RESERVED + RESERVED_N] != [0, 0, 0, 0, 0, 0, 0] then Reserved
    else Good
  }

  /** What is refused, and for what: magic, version, architecture, width, reserved words, in this order. */
  lemma HeaderExactly(head: seq<nat>, a: Arch)
    requires |head| >= 24
    ensures
      var r := CheckHeader(head, a);
      var framed, fits := head[0] == 0x4350_524B_5F46_524D, head[5] == a.gpr && head[6] == a.total;
      && (r == NoFrame <==> !framed)
      && (r.ForeignVersion? <==> framed && head[1] != 1)
      && (r.ForeignArch? <==> framed && head[1] == 1 && head[7] != a.tag)
      && (r.ForeignWidth? <==> framed && head[1] == 1 && head[7] == a.tag && !fits)
      && (r == Reserved <==>
            framed && head[1] == 1 && head[7] == a.tag && fits && exists i: nat :: 8 <= i < 16 && head[i] != 0)
      && (r == Good <==>
            framed && head[1] == 1 && head[7] == a.tag && fits && forall i: nat | 8 <= i < 16 :: head[i] == 0)
      && (r.ForeignVersion? ==> r.v == head[1]) && (r.ForeignArch? ==> r.a == head[7])
      && (r.ForeignWidth? ==> r.g == head[5] && r.t == head[6])
  {
    var w := head[W_RESERVED..W_RESERVED + RESERVED_N];
    assert forall i: nat | 9 <= i < 16 :: w[i - 9] == head[i];
    if w != [0, 0, 0, 0, 0, 0, 0] {
      var i: nat :| i < 7 && w[i] != 0;
      assert head[i + 9] != 0;
    }
  }

  /** Where everything stands in a delivered slot. */
  ghost predicate Delivered(s: seq<nat>, arch: Arch, frame: seq<nat>, reason: nat, code: nat, gen: nat) {
    && |s| == 64 && |arch.abi| == 7 && 24 + |frame| <= 64
    && s[0] == 0x4350_524B_5F46_524D && s[1] == 1 && s[2] == gen && s[3] == reason && s[4] == code
    && s[5] == arch.gpr && s[6] == arch.total && s[7] == arch.tag
    && (forall i: nat | 8 <= i < 16 :: s[i] == 0) && s[16..23] == arch.abi && s[24..24 + |frame|] == frame
  }

  lemma DeliveredWords(win: seq<nat>, slot: nat, j: Job)
    requires JobOk(j) && slot < SLOTS && |win| >= SLOTS * SLOT_WORDS
    ensures Delivered(SlotAt(Partial(win, slot, j, Steps(j)), slot), j.arch, j.frame, j.reason, j.code, j.gen)
  {
    var s := SlotAt(Partial(win, slot, j, Steps(j)), slot);
    forall i: nat | Touched(j, i)
      ensures s[i] == Content(j, i)
    {
      SlotWord(win, slot, j, Steps(j), i);
    }
    assert s[16..23] == j.arch.abi;
    assert s[24..24 + |j.frame|] == j.frame;
  }

  datatype TakeBack = Taken | NoWindow | Empty | ForeignHeader(verdict: HeaderVerdict)

  ghost predicate History(history: seq<seq<nat>>, win: seq<nat>, slot: nat, j: Job, k: nat)
    requires JobOk(j) && slot < SLOTS && |win| >= SLOTS * SLOT_WORDS && k <= Steps(j)
  {
    |history| == k + 1 && forall i: nat | i <= k :: history[i] == Partial(win, slot, j, i)
  }

  /** One word; `history` collects the windows between two writes. */
  method Store(window: array<nat>, at: nat, value: nat, ghost win: seq<nat>, slot: nat, ghost j: Job, ghost k: nat,
               ghost history: seq<seq<nat>>) returns (ghost now: seq<seq<nat>>)
    requires JobOk(j) && slot < SLOTS && |win| == window.Length >= SLOTS * SLOT_WORDS && k < Steps(j)
    requires window[..] == Partial(win, slot, j, k) && History(history, win, slot, j, k)
    requires at == slot * SLOT_WORDS + Target(j, k)
    requires Touched(j, Target(j, k)) && value == Content(j, Target(j, k))
    modifies window
    ensures window[..] == Partial(win, slot, j, k + 1) && History(now, win, slot, j, k + 1)
  {
    PartialStep(win, slot, j, k);
    window[at] := value;
    now := history + [window[..]];
  }

  /** The body from front to back, then the magic. */
  method WriteSlot(window: array<nat>, slot: nat, j: Job) returns (ghost history: seq<seq<nat>>)
    requires JobOk(j) && slot < SLOTS && window.Length >= SLOTS * SLOT_WORDS
    modifies window
    ensures window[..] == Partial(old(window[..]), slot, j, Steps(j))
            && History(history, old(window[..]), slot, j, Steps(j))
  {
    ghost var win := window[..];
    var p := slot * SLOT_WORDS;
    history := [win];
    history := WriteHead(window, slot, j, win, history);
    for i := 0 to RESERVED_N
      invariant window[..] == Partial(win, slot, j, 8 + i) && History(history, win, slot, j, 8 + i)
    {
      history := Store(window, p + W_RESERVED + i, 0, win, slot, j, 8 + i, history);
    }
    for i := 0 to ABI_N
      invariant window[..] == Partial(win, slot, j, 15 + i) && History(history, win, slot, j, 15 + i)
    {
      history := Store(window, p + W_ABI + i, j.arch.abi[i], win, slot, j, 15 + i, history);
    }
    for i := 0 to |j.frame|
      invariant window[..] == Partial(win, slot, j, 22 + i) && History(history, win, slot, j, 22 + i)
    {
      history := Store(window, p + FRAME_WORD + i, j.frame[i], win, slot, j, 22 + i, history);
    }
    history := Store(window, p + W_MAGIC, MAGIC, win, slot, j, 22 + |j.frame|, history);
  }

  method WriteHead(window: array<nat>, slot: nat, j: Job, ghost win: seq<nat>, ghost before: seq<seq<nat>>)
      returns (ghost history: seq<seq<nat>>)
    requires JobOk(j) && slot < SLOTS && |win| == window.Length >= SLOTS * SLOT_WORDS
    requires window[..] == Partial(win, slot, j, 0) && History(before, win, slot, j, 0)
    modifies window
    ensures window[..] == Partial(win, slot, j, 8) && History(history, win, slot, j, 8)
  {
    var p := slot * SLOT_WORDS;
    history := Store(window, p + W_VERSION, FORMAT_VERSION, win, slot, j, 0, before);
    history := Store(window, p + W_GEN, j.gen, win, slot, j, 1, history);
    history := Store(window, p + W_REASON, j.reason, win, slot, j, 2, history);
    history := Store(window, p + W_CODE, j.code, win, slot, j, 3, history);
    history := Store(window, p + W_NGPR, j.arch.gpr, win, slot, j, 4, history);
    history := Store(window, p + W_NTOTAL, j.arch.total, win, slot, j, 5, history);
    history := Store(window, p + W_ARCH, j.arch.tag, win, slot, j, 6, history);
    history := Store(window, p + W_GROUP, 0, win, slot, j, 7, history);
  }

  /** The filter is in the loop, not in its bound. */
  method CopyBack(frame: array<nat>, body: seq<nat>, gpr: nat, total: nat)
    requires frame.Length == total && gpr <= total && |body| == SLOT_WORDS && total <= SLOT_WORDS - FRAME_WORD
    modifies frame
    ensures frame[..] == body[FRAME_WORD..FRAME_WORD + gpr] + old(frame[..])[gpr..]
  {
    var w := new nat[gpr];
    for i := 0 to total
      invariant forall k: nat :: k < i && k < gpr ==> w[k] == body[FRAME_WORD + k]
      modifies w
    {
      if i < gpr { w[i] := body[FRAME_WORD + i]; }
    }
    var saved := w[..];
    assert saved == body[FRAME_WORD..FRAME_WORD + gpr];
    CopyFront(frame, saved);
  }

  method CopyFront(frame: array<nat>, w: seq<nat>)
    requires |w| <= frame.Length
    modifies frame
    ensures frame[..] == w + old(frame[..])[|w|..]
  {
    for i := 0 to |w|
      invariant forall k: nat :: k < frame.Length ==> frame[k] == if k < i then w[k] else old(frame[k])
    {
      frame[i] := w[i];
    }
    assert frame[..] == w + old(frame[..])[|w|..];
  }

  class Courier {
    const arch: Arch

    /** How many frames were delivered, and how often either direction failed. */
    var deliveries: nat
    var storeErrors: nat
    var takeErrors: nat

    ghost predicate Valid() { ArchOk(arch) }

    constructor (arch: Arch)
      requires ArchOk(arch)
      ensures Valid() && this.arch == arch && deliveries == 0 && storeErrors == 0 && takeErrors == 0
    {
      this.arch := arch;
      deliveries, storeErrors, takeErrors := 0, 0, 0;
    }

    /** `ablegen`: the whole frame into its slot, or nothing. */
    method Deposit(window: array<nat>, present: bool, slot: nat, frame: seq<nat>, reason: nat, code: nat)
        returns (ok: bool, ghost history: seq<seq<nat>>)
      requires Valid() && |frame| == arch.total && window.Length >= SLOTS * SLOT_WORDS
      modifies this`deliveries, this`storeErrors, window
      ensures Valid()
      ensures ok <==> present && slot < SLOTS && 0 < arch.total <= SLOT_WORDS - FRAME_WORD
      ensures !ok ==>
                && window[..] == old(window[..])
                && storeErrors == old(storeErrors) + 1 && deliveries == old(deliveries)
      ensures ok ==>
                var j := Job(arch, frame, reason, code, old(deliveries) + 1);
                && deliveries == old(deliveries) + 1 && storeErrors == old(storeErrors)
                && Delivered(SlotAt(window[..], slot), arch, frame, reason, code, deliveries)
                && window[..] == Partial(old(window[..]), slot, j, Steps(j))
                && History(history, old(window[..]), slot, j, Steps(j))
    {
      history := [];
      if !present || slot >= SLOTS || arch.total == 0 || arch.total > SLOT_WORDS - FRAME_WORD {
        storeErrors := storeErrors + 1;
        return false, history;
      }
      deliveries := deliveries + 1;
      DeliveredWords(window[..], slot, Job(arch, frame, reason, code, deliveries));
      history := WriteSlot(window, slot, Job(arch, frame, reason, code, deliveries));
      return true, history;
    }

    /** `uebernehmen`: the general registers back, after the header.  `head` and `body` are what the
        reads return -- not necessarily the same slot contents, since the handler may be running. */
    method Take(frame: array<nat>, present: bool, slot: nat, head: seq<nat>, body: seq<nat>) returns (r: TakeBack)
      requires Valid() && frame.Length == arch.total && |head| == FRAME_WORD && |body| == SLOT_WORDS
      requires arch.total <= SLOT_WORDS - FRAME_WORD
      modifies this`takeErrors, frame
      ensures Valid()
      ensures r == Taken <==>
                && present && slot < SLOTS
                && head[0] == 0x4350_524B_5F46_524D && head[1] == 1 && head[7] == arch.tag
                && head[5] == arch.gpr && head[6] == arch.total && forall i: nat | 8 <= i < 16 :: head[i] == 0
      ensures r == Taken <==> present && slot < SLOTS && CheckHeader(head, arch) == Good
      ensures r == NoWindow <==> !present || slot >= SLOTS
      ensures r == Empty <==> present && slot < SLOTS && CheckHeader(head, arch) == NoFrame
      ensures r.ForeignHeader? ==> r.verdict == CheckHeader(head, arch)
      ensures r != Taken ==> frame[..] == old(frame[..]) && takeErrors == old(takeErrors) + 1
      ensures r == Taken ==>
                && takeErrors == old(takeErrors)
                && frame[..] == body[FRAME_WORD..FRAME_WORD + arch.gpr] + old(frame[..])[arch.gpr..]
      ensures frame[..][arch.gpr..] == old(frame[..])[arch.gpr..]
    {
      HeaderExactly(head, arch);
      if !present || slot >= SLOTS {
        takeErrors := takeErrors + 1;
        return NoWindow;
      }
      var verdict := CheckHeader(head, arch);
      if verdict == NoFrame {
        takeErrors := takeErrors + 1;
        return Empty;
      }
      if verdict != Good {
        takeErrors := takeErrors + 1;
        return ForeignHeader(verdict);
      }
      CopyBack(frame, body, arch.gpr, arch.total);
      return Taken;
    }
  }

  /** A delivered slot passes the header check, and taking it back unchanged restores exactly the
      registers that were delivered. */
  lemma DeliveredReadsBack(win: seq<nat>, slot: nat, j: Job)
    requires JobOk(j) && slot < SLOTS && |win| >= SLOTS * SLOT_WORDS
    ensures
      var s := SlotAt(Partial(win, slot, j, Steps(j)), slot);
      && CheckHeader(s[..FRAME_WORD], j.arch) == Good
      && s[FRAME_WORD..FRAME_WORD + j.arch.total] == j.frame
      && s[FRAME_WORD..FRAME_WORD + j.arch.gpr] + j.frame[j.arch.gpr..] == j.frame
      && s[W_GEN] == j.gen
  {
    var s := SlotAt(Partial(win, slot, j, Steps(j)), slot);
    forall i: nat | Touched(j, i)
      ensures s[i] == Content(j, i)
    {
    }
    assert s[FRAME_WORD..FRAME_WORD + j.arch.total] == j.frame;
    var h := s[..FRAME_WORD];
    assert forall i: nat | i < FRAME_WORD - 1 :: h[i] == Content(j, i);
    assert h[W_RESERVED..W_RESERVED + RESERVED_N] == [0, 0, 0, 0, 0, 0, 0];
  }
}
