/** The first interface version of a program is the only one this run of the system accepts. */
module VersionPin {
  import opened Wrappers

  const MAX_TRACKED: nat := 64

  /** What the manifest says about a program, if it says anything. */
  datatype Entry = Entry(noHotReload: bool, version: nat)

  /** One load request, with the verdicts of the policy checks in front of the gate. */
  datatype Request = Request(id: nat, policyOk: bool, numbersOk: bool, entry: Option<Entry>)

  datatype Outcome = Passed | PolicyRefused | NumbersRefused | HotReloadForbidden | VersionChanged | TableFull

  // ---------------------------------------------------------------------------------------------
  // The gate as a function of what is pinned
  // ---------------------------------------------------------------------------------------------

  function Recorded(pins: map<nat, nat>, id: nat, version: nat): (map<nat, nat>, Outcome) {
    if id in pins then (pins, if pins[id] == version then Passed else VersionChanged)
    else if |pins| >= MAX_TRACKED then (pins, TableFull)
    else (pins[id := version], Passed)
  }

  function Gated(pins: map<nat, nat>, r: Request): (map<nat, nat>, Outcome) {
    if !r.policyOk then (pins, PolicyRefused)
    else if !r.numbersOk then (pins, NumbersRefused)
    else AfterLook(r.id in pins, pins, r)
  }

  /** The gate takes the table's lock twice: once to see whether the program is known, once to record
      it.  This is what follows the look, on the table as it is by then. */
  function AfterLook(known: bool, pins: map<nat, nat>, r: Request): (map<nat, nat>, Outcome) {
    if known && r.entry.Some? && r.entry.value.noHotReload then (pins, HotReloadForbidden)
    else if r.entry.None? then (pins, Passed)
    else Recorded(pins, r.id, r.entry.value.version)
  }

  // ---------------------------------------------------------------------------------------------
  // The table
  // ---------------------------------------------------------------------------------------------

  datatype Pin = Pin(id: nat, version: nat)

  /** A table without repetitions that lists a map. */
  ghost predicate Lists(tab: seq<Pin>, pins: map<nat, nat>) {
    && |pins| == |tab|
    && (forall i: nat | i < |tab| :: tab[i].id in pins && pins[tab[i].id] == tab[i].version)
    && (forall i: nat, j: nat | i < j < |tab| :: tab[i].id != tab[j].id)
    && forall id: nat | id in pins :: Has(tab, id)
  }

  ghost predicate Has(tab: seq<Pin>, id: nat) { exists i: nat :: i < |tab| && tab[i].id == id }

  lemma Append(tab: seq<Pin>, pins: map<nat, nat>, id: nat, version: nat)
    requires Lists(tab, pins) && id !in pins
    ensures Lists(tab + [Pin(id, version)], pins[id := version])
  {
    var next, after := tab + [Pin(id, version)], pins[id := version];
    assert |after| == |pins| + 1 by { assert after.Keys == pins.Keys + {id}; }
    assert forall i: nat | i < |tab| :: next[i] == tab[i] && tab[i].id in pins && tab[i].id != id;
    assert next[|tab|] == Pin(id, version);
    forall k: nat | k in after
      ensures Has(next, k)
    {
      if k != id { HasMore(tab, Pin(id, version), k); }
    }
  }

  lemma HasMore(tab: seq<Pin>, pin: Pin, k: nat)
    requires Has(tab, k)
    ensures Has(tab + [pin], k)
  {
    var i: nat :| i < |tab| && tab[i].id == k;
    assert (tab + [pin])[i].id == k;
  }

  class Pins {
    const tab: array<Pin>
    var used: nat

    /** The table as a map. */
    ghost var pins: map<nat, nat>

    ghost predicate Valid()
      reads this, tab
    {
      tab.Length == MAX_TRACKED && used <= MAX_TRACKED && Lists(tab[..used], pins)
    }

    constructor ()
      ensures Valid() && fresh(tab) && pins == map[]
    {
      tab := new Pin[MAX_TRACKED](_ => Pin(0, 0));
      used, pins := 0, map[];
    }

    method Find(id: nat) returns (r: Option<nat>)
      requires Valid()
      ensures r == if id in pins then Some(pins[id]) else None
    {
      for i := 0 to used
        invariant forall k: nat | k < i :: tab[k].id != id
      {
        if tab[i].id == id {
          assert tab[..used][i].id in pins;
          return Some(tab[i].version);
        }
      }
      assert id in pins ==> Has(tab[..used], id);
      return None;
    }

    method RecordOrCheck(id: nat, version: nat) returns (r: Outcome)
      requires Valid()
      modifies this, tab
      ensures Valid() && (pins, r) == Recorded(old(pins), id, version)
    {
      var first := Find(id);
      if first.Some? {
        return if first.value != version then VersionChanged else Passed;
      }
      if used >= MAX_TRACKED { return TableFull; }
      Append(tab[..used], pins, id, version);
      tab[used] := Pin(id, version);
      used := used + 1;
      pins := pins[id := version];
      assert tab[..used] == old(tab[..used]) + [Pin(id, version)];
      return Passed;
    }

    method Gate(q: Request) returns (r: Outcome)
      requires Valid()
      modifies this, tab
      ensures Valid() && (pins, r) == Gated(old(pins), q)
    {
      if !q.policyOk { return PolicyRefused; }
      if !q.numbersOk { return NumbersRefused; }
      var known := Look(q.id);
      r := Record(q, known);
    }

    /** Under the lock: is the program known? */
    method Look(id: nat) returns (known: bool)
      requires Valid()
      ensures known == (id in pins)
    {
      var first := Find(id);
      return first.Some?;
    }

    /** The rest of the gate, which takes the lock a second time. */
    method Record(q: Request, known: bool) returns (r: Outcome)
      requires Valid()
      modifies this, tab
      ensures Valid() && (pins, r) == AfterLook(known, old(pins), q)
    {
      if known && q.entry.Some? && q.entry.value.noHotReload { return HotReloadForbidden; }
      if q.entry.None? { return Passed; }
      r := RecordOrCheck(q.id, q.entry.value.version);
    }
  }

  // ---------------------------------------------------------------------------------------------
  // Histories
  // ---------------------------------------------------------------------------------------------

  /** What is pinned before request `n`. */
  function PinsBefore(rs: seq<Request>, n: nat): map<nat, nat>
    requires n <= |rs|
  {
    if n == 0 then map[] else Gated(PinsBefore(rs, n - 1), rs[n - 1]).0
  }

  function OutcomeOf(rs: seq<Request>, n: nat): Outcome
    requires n < |rs|
  {
    Gated(PinsBefore(rs, n), rs[n]).1
  }

  /** Passed, and the manifest said something about the program. */
  predicate Counted(rs: seq<Request>, n: nat, id: nat) {
    n < |rs| && rs[n].id == id && rs[n].entry.Some? && OutcomeOf(rs, n) == Passed
  }

  lemma {:induction false} PinsStay(rs: seq<Request>, m: nat, n: nat, id: nat)
    requires m <= n <= |rs| && id in PinsBefore(rs, m)
    ensures id in PinsBefore(rs, n) && PinsBefore(rs, n)[id] == PinsBefore(rs, m)[id]
    decreases n
  {
    if m < n { PinsStay(rs, m, n - 1, id); }
  }

  /** All accepted passes of a program carry one version: no drift, not even step by step. */
  lemma OneVersion(rs: seq<Request>, m: nat, n: nat, id: nat)
    requires m <= n && Counted(rs, m, id) && Counted(rs, n, id)
    ensures rs[m].entry.value.version == rs[n].entry.value.version
  {
    PinsStay(rs, m + 1, n + 1, id);
  }

  /** A program the manifest excludes from hot reload does not pass again once it has passed -- whether
      or not that first load then succeeded. */
  lemma NoSecondPass(rs: seq<Request>, m: nat, n: nat, id: nat)
    requires m < n < |rs| && Counted(rs, m, id) && rs[n].id == id && rs[n].entry.Some? && rs[n].entry.value.noHotReload
    ensures OutcomeOf(rs, n) != Passed
  {
    PinsStay(rs, m + 1, n, id);
  }

  lemma {:induction false} NeverOverfull(rs: seq<Request>, n: nat)
    requires n <= |rs|
    ensures |PinsBefore(rs, n)| <= MAX_TRACKED
  {
    if n > 0 {
      NeverOverfull(rs, n - 1);
    }
  }

  /** A full table refuses unknown programs and no others. */
  lemma FullRefusesUnknownOnly(rs: seq<Request>, n: nat)
    requires n < |rs|
    ensures OutcomeOf(rs, n) == TableFull <==>
              && rs[n].policyOk && rs[n].numbersOk && rs[n].entry.Some?
              && rs[n].id !in PinsBefore(rs, n) && |PinsBefore(rs, n)| == MAX_TRACKED
  {
    NeverOverfull(rs, n);
  }

  ghost predicate CountedBefore(rs: seq<Request>, n: nat, id: nat) { exists m: nat :: m < n && Counted(rs, m, id) }

  /** Pinned is what has passed before, and nothing else. */
  lemma {:induction false} PinnedIsPassed(rs: seq<Request>, n: nat, id: nat)
    requires n <= |rs|
    ensures id in PinsBefore(rs, n) <==> CountedBefore(rs, n, id)
  {
    if n > 0 {
      PinnedIsPassed(rs, n - 1, id);
      NeverOverfull(rs, n - 1);
      if Counted(rs, n - 1, id) { assert id in PinsBefore(rs, n); }
      if id in PinsBefore(rs, n) && id !in PinsBefore(rs, n - 1) { assert Counted(rs, n - 1, id); }
    }
  }

  /** The programs that have passed before request `n`. */
  ghost function PassedIds(rs: seq<Request>, n: nat): set<nat>
    requires n <= |rs|
  {
    set m: nat | m < n && Counted(rs, m, rs[m].id) :: rs[m].id
  }

  /** What is pinned, and as which version. */
  lemma PinsByHistory(rs: seq<Request>, n: nat, id: nat)
    requires n <= |rs|
    ensures PinsBefore(rs, n).Keys == PassedIds(rs, n)
    ensures forall m: nat | m < n && Counted(rs, m, id) ::
              id in PinsBefore(rs, n) && PinsBefore(rs, n)[id] == rs[m].entry.value.version
  {
    var pins := PinsBefore(rs, n);
    forall k: nat
      ensures k in pins <==> k in PassedIds(rs, n)
    {
      PinnedIsPassed(rs, n, k);
    }
    forall m: nat | m < n && Counted(rs, m, id)
      ensures id in pins && pins[id] == rs[m].entry.value.version
    {
      PinsStay(rs, m + 1, n, id);
    }
  }

  /** Which earlier requests decide: a program passes if it has never passed and fewer than 64 others
      have, or if it has passed with this very version and may be reloaded. */
  lemma PassesByHistory(rs: seq<Request>, n: nat)
    requires n < |rs|
    ensures
      var q := rs[n];
      OutcomeOf(rs, n) == Passed <==>
        && q.policyOk && q.numbersOk
        && (q.entry.None?
            || (!CountedBefore(rs, n, q.id) && |PassedIds(rs, n)| < MAX_TRACKED)
            || (&& !q.entry.value.noHotReload
                && exists m: nat ::
                    m < n && Counted(rs, m, q.id) && rs[m].entry.value.version == q.entry.value.version))
  {
    PinnedIsPassed(rs, n, rs[n].id);
    PinsByHistory(rs, n, rs[n].id);
  }

  /** And which refusal it is otherwise. */
  lemma RefusalByHistory(rs: seq<Request>, n: nat)
    requires n < |rs|
    ensures
      var q, r := rs[n], OutcomeOf(rs, n);
      var asked := q.policyOk && q.numbersOk && q.entry.Some?;
      var known := CountedBefore(rs, n, q.id);
      && (r == PolicyRefused <==> !q.policyOk)
      && (r == NumbersRefused <==> q.policyOk && !q.numbersOk)
      && (r == HotReloadForbidden <==> asked && known && q.entry.value.noHotReload)
      && (r == VersionChanged <==>
            asked && !q.entry.value.noHotReload
            && exists m: nat :: m < n && Counted(rs, m, q.id) && rs[m].entry.value.version != q.entry.value.version)
      && (r == TableFull <==> asked && !known && |PassedIds(rs, n)| >= 64)
  {
    PinnedIsPassed(rs, n, rs[n].id);
    PinsByHistory(rs, n, rs[n].id);
  }

  // ---------------------------------------------------------------------------------------------
  // Many loaders at once
  // ---------------------------------------------------------------------------------------------

  // Loader `k` carries request `k`, which the policy checks have let through.  Its look and its record
  // are two steps, and between them any other loader may take any step.

  datatype Event = Look(loader: nat) | Record(loader: nat)

  /** The table, and what each loader saw when it looked. */
  datatype Shared = Shared(pins: map<nat, nat>, looks: map<nat, bool>)

  function After(qs: seq<Request>, es: seq<Event>, n: nat): Shared
    requires n <= |es|
  {
    if n == 0 then Shared(map[], map[])
    else
      var s, k := After(qs, es, n - 1), es[n - 1].loader;
      if k >= |qs| then s
      else if es[n - 1].Look? then s.(looks := s.looks[k := qs[k].id in s.pins])
      else if k in s.looks then s.(pins := AfterLook(s.looks[k], s.pins, qs[k]).0)
      else s
  }

  /** Event `n` is the record of loader `k`, which has looked. */
  predicate RecordsAt(qs: seq<Request>, es: seq<Event>, n: nat, k: nat) {
    n < |es| && k < |qs| && es[n] == Record(k) && k in After(qs, es, n).looks
  }

  predicate PassesAt(qs: seq<Request>, es: seq<Event>, n: nat, k: nat) {
    && RecordsAt(qs, es, n, k) && qs[k].entry.Some?
    && AfterLook(After(qs, es, n).looks[k], After(qs, es, n).pins, qs[k]).1 == Passed
  }

  lemma {:induction false} PinsStayInAnyOrder(qs: seq<Request>, es: seq<Event>, m: nat, n: nat, id: nat)
    requires m <= n <= |es| && id in After(qs, es, m).pins
    ensures id in After(qs, es, n).pins && After(qs, es, n).pins[id] == After(qs, es, m).pins[id]
    decreases n
  {
    if m < n { PinsStayInAnyOrder(qs, es, m, n - 1, id); }
  }

  lemma APassPins(qs: seq<Request>, es: seq<Event>, n: nat, k: nat)
    requires PassesAt(qs, es, n, k)
    ensures var pins := After(qs, es, n + 1).pins; qs[k].id in pins && pins[qs[k].id] == qs[k].entry.value.version
  {
  }

  /** In every interleaving all passes of a program carry one version ... */
  lemma OneVersionInAnyOrder(qs: seq<Request>, es: seq<Event>, m: nat, n: nat, j: nat, k: nat)
    requires PassesAt(qs, es, m, j) && PassesAt(qs, es, n, k) && qs[j].id == qs[k].id
    ensures qs[j].entry.value.version == qs[k].entry.value.version
  {
    APassPins(qs, es, m, j);
    APassPins(qs, es, n, k);
    if m <= n {
      PinsStayInAnyOrder(qs, es, m + 1, n + 1, qs[k].id);
    } else {
      PinsStayInAnyOrder(qs, es, n + 1, m + 1, qs[k].id);
    }
  }

  /** ... and there are never more than 64 pins. */
  lemma {:induction false} NeverOverfullInAnyOrder(qs: seq<Request>, es: seq<Event>, n: nat)
    requires n <= |es|
    ensures |After(qs, es, n).pins| <= MAX_TRACKED
  {
    if n > 0 { NeverOverfullInAnyOrder(qs, es, n - 1); }
  }

  /** The record that pins a program is a pass of it. */
  lemma {:induction false} PinnedByAPass(qs: seq<Request>, es: seq<Event>, n: nat, id: nat) returns (f: nat, j: nat)
    requires n <= |es| && id in After(qs, es, n).pins
    ensures f < n && PassesAt(qs, es, f, j) && qs[j].id == id && id !in After(qs, es, f).pins
  {
    if id in After(qs, es, n - 1).pins {
      f, j := PinnedByAPass(qs, es, n - 1, id);
    } else {
      f, j := n - 1, es[n - 1].loader;
    }
  }

  /** A loader keeps what it saw until it looks again. */
  lemma {:induction false} LookKept(qs: seq<Request>, es: seq<Event>, l: nat, n: nat, k: nat)
    requires l < n <= |es| && k < |qs| && es[l] == Look(k) && forall i: nat | l < i < n :: es[i] != Look(k)
    ensures k in After(qs, es, n).looks && After(qs, es, n).looks[k] == (qs[k].id in After(qs, es, l).pins)
    decreases n
  {
    if l + 1 < n { LookKept(qs, es, l, n - 1, k); }
  }

  lemma RecordOfAPinned(qs: seq<Request>, es: seq<Event>, n: nat, k: nat, version: nat)
    requires RecordsAt(qs, es, n, k) && qs[k].entry.Some? && qs[k].entry.value.noHotReload
    requires qs[k].id in After(qs, es, n).pins && After(qs, es, n).pins[qs[k].id] == version
    ensures PassesAt(qs, es, n, k) <==> !After(qs, es, n).looks[k] && qs[k].entry.value.version == version
  {
  }

  /** Pinned at event `f`, a program is known from then on, and was not before. */
  lemma KnownSince(qs: seq<Request>, es: seq<Event>, f: nat, j: nat, l: nat)
    requires PassesAt(qs, es, f, j) && qs[j].id !in After(qs, es, f).pins && l < |es| && l != f
    ensures qs[j].id in After(qs, es, l).pins <==> f < l
  {
    if l < f {
      NotKnownBefore(qs, es, l, f, qs[j].id);
    } else {
      APassPins(qs, es, f, j);
      PinsStayInAnyOrder(qs, es, f + 1, l, qs[j].id);
    }
  }

  lemma NotKnownBefore(qs: seq<Request>, es: seq<Event>, m: nat, n: nat, id: nat)
    requires m <= n <= |es| && id !in After(qs, es, n).pins
    ensures id !in After(qs, es, m).pins
  {
    if id in After(qs, es, m).pins { PinsStayInAnyOrder(qs, es, m, n, id); }
  }

  /** Once a NO_HOTRELOAD program is pinned -- by event `f` -- a loader that looked at event `l` passes
      with it again exactly if it looked before that, and brings the version pinned. */
  lemma PassesAgainExactly(qs: seq<Request>, es: seq<Event>, f: nat, j: nat, l: nat, n: nat, k: nat)
    requires PassesAt(qs, es, f, j) && RecordsAt(qs, es, n, k) && qs[j].id == qs[k].id && f < n
    requires qs[k].id !in After(qs, es, f).pins && qs[k].entry.Some? && qs[k].entry.value.noHotReload
    requires l < n && es[l] == Look(k) && forall i: nat | l < i < n :: es[i] != Look(k)
    ensures PassesAt(qs, es, n, k) <==> l < f && qs[k].entry.value.version == qs[j].entry.value.version
  {
    APassPins(qs, es, f, j);
    PinsStayInAnyOrder(qs, es, f + 1, n, qs[k].id);
    LookKept(qs, es, l, n, k);
    assert l != f;
    KnownSince(qs, es, f, j, l);
    RecordOfAPinned(qs, es, n, k, qs[j].entry.value.version);
  }

  /** And it happens: two loaders that both look before either records both pass. */
  lemma BothPass(q: Request)
    requires q.entry.Some? && q.entry.value.noHotReload
    ensures
      var qs, es := [q, q], [Look(0), Look(1), Record(0), Record(1)];
      PassesAt(qs, es, 2, 0) && PassesAt(qs, es, 3, 1)
  {
    var qs, es := [q, q], [Look(0), Look(1), Record(0), Record(1)];
    assert After(qs, es, 1) == Shared(map[], map[0 := false]);
    assert After(qs, es, 2) == Shared(map[], map[0 := false, 1 := false]);
    assert PassesAt(qs, es, 2, 0);
    PassesAgainExactly(qs, es, 2, 0, 1, 3, 1);
  }

  /** Where loads are serialised -- nothing happens between a look and its record --, a NO_HOTRELOAD
      program that is pinned never passes again. */
  lemma SerialPassesOnce(qs: seq<Request>, es: seq<Event>, n: nat, k: nat)
    requires RecordsAt(qs, es, n, k) && n > 0 && es[n - 1] == Look(k) && qs[k].id in After(qs, es, n).pins
    requires qs[k].entry.Some? && qs[k].entry.value.noHotReload
    ensures !PassesAt(qs, es, n, k)
  {
    var f, j := PinnedByAPass(qs, es, n - 1, qs[k].id);
    PassesAgainExactly(qs, es, f, j, n - 1, n, k);
  }

  /** Loader `k` looks, then records, with nothing in between. */
  predicate TurnOf(es: seq<Event>, k: nat) {
    k + k + 1 < |es| && es[k + k] == Look(k) && es[k + k + 1] == Record(k)
  }

  /** One loader after the other. */
  predicate Serial(qs: seq<Request>, es: seq<Event>, n: nat) {
    n <= |qs| && forall k: nat | k < n :: TurnOf(es, k) && qs[k].policyOk && qs[k].numbersOk
  }

  /** Then the two steps of each loader are one call of the gate: the table is that of the history ... */
  lemma {:induction false} SerialPins(qs: seq<Request>, es: seq<Event>, n: nat)
    requires Serial(qs, es, n)
    ensures SameTable(qs, es, n)
  {
    if n > 0 {
      SerialPins(qs, es, n - 1);
      OneTurn(qs, es, n - 1, n);
    }
  }

  ghost predicate SameTable(qs: seq<Request>, es: seq<Event>, n: nat) {
    n <= |qs| && n + n <= |es| && After(qs, es, n + n).pins == PinsBefore(qs, n)
  }

  lemma OneTurn(qs: seq<Request>, es: seq<Event>, k: nat, n: nat)
    requires n == k + 1 <= |qs| && TurnOf(es, k) && qs[k].policyOk && qs[k].numbersOk && SameTable(qs, es, k)
    ensures SameTable(qs, es, n)
  {
    LookThenRecord(qs, es, k + k, k);
  }

  /** ... and the same requests pass. */
  lemma SerialPasses(qs: seq<Request>, es: seq<Event>, n: nat)
    requires Serial(qs, es, n + 1) && qs[n].entry.Some?
    ensures PassesAt(qs, es, n + n + 1, n) <==> OutcomeOf(qs, n) == Passed
  {
    SerialPins(qs, es, n);
    assert TurnOf(es, n);
    LookThenRecord(qs, es, n + n, n);
  }

  lemma LookThenRecord(qs: seq<Request>, es: seq<Event>, n: nat, k: nat)
    requires n + 1 < |es| && k < |qs| && es[n] == Look(k) && es[n + 1] == Record(k)
    requires qs[k].policyOk && qs[k].numbersOk
    ensures After(qs, es, n + 2).pins == Gated(After(qs, es, n).pins, qs[k]).0
    ensures qs[k].entry.Some? ==> (PassesAt(qs, es, n + 1, k) <==> Gated(After(qs, es, n).pins, qs[k]).1 == Passed)
  {
    var s := After(qs, es, n);
    assert After(qs, es, n + 1) == s.(looks := s.looks[k := qs[k].id in s.pins]);
  }
}
