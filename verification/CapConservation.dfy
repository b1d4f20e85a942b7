/**
  What a load attempt does with capabilities: those it mints for the manifest entry, and the copies
  its caller delegated.

  A handle carries its generation, so it is never given out twice: handles are numbers, in the order
  of minting.  What lies outside the loader answers through `World`.
 */
module CapConservation {
  import opened Wrappers

  const ENDOW_SLOTS: nat := 9
  const LOAD_CAPS_MAX: nat := 10

  class CapTable {
    var live: set<nat>
    var next: nat

    ghost predicate Valid() reads this { forall h: nat | h in live :: h < next }

    method Mint() returns (h: nat)
      requires Valid()
      modifies this
      ensures Valid() && h == old(next) && next == old(next) + 1 && live == old(live) + {h}
    {
      h := next;
      live, next := live + {h}, next + 1;
    }

    /** A handle whose generation has passed deletes nothing. */
    method Delete(h: nat)
      requires Valid()
      modifies this`live
      ensures Valid() && live == old(live) - {h}
    {
      live := live - {h};
    }
  }

  datatype Slotted = Slotted(slot: nat, cap: nat)

  function CapsOf(s: seq<Slotted>): set<nat> { set x | x in s :: x.cap }

  method DeleteAll(table: CapTable, caps: seq<Slotted>)
    requires table.Valid()
    modifies table`live
    ensures table.Valid() && table.live == old(table.live) - CapsOf(caps)
  {
    for i := 0 to |caps|
      invariant table.Valid() && table.live == old(table.live) - CapsOf(caps[..i])
    {
      table.Delete(caps[i].cap);
      assert caps[..i + 1] == caps[..i] + [caps[i]];
    }
    assert caps[..|caps|] == caps;
  }

  // ---------------------------------------------------------------------------------------------
  // What the manifest grants
  // ---------------------------------------------------------------------------------------------

  datatype Entry = Entry(loader: bool, notification: bool, endpoint: bool, mmio: bool, dma: bool, shared: bool,
                         ungrantable: bool, service: nat)

  datatype Grant = Grant(irq: bool, irqNotification: bool)

  /** The answers of everything the loader calls. */
  datatype World = World(loaderCap: bool, notificationCap: bool, serviceKnown: bool, endpointCap: bool,
                         device: Option<Grant>, sharedCap: bool)

  datatype Refusal = UnsupportedAuthority | NoResources | NoDevice

  /** The filled slots in order. */
  function Present(out: seq<Option<nat>>, n: nat): seq<Slotted>
    requires n <= |out|
  {
    if n == 0 then []
    else Present(out, n - 1) + (if out[n - 1].Some? then [Slotted(n - 1, out[n - 1].value)] else [])
  }

  lemma {:induction false} PresentIs(out: seq<Option<nat>>, n: nat)
    requires n <= |out|
    ensures forall s: Slotted :: s in Present(out, n) <==> s.slot < n && out[s.slot] == Some(s.cap)
    ensures forall i: nat, j: nat | i < j < |Present(out, n)| :: Present(out, n)[i].slot < Present(out, n)[j].slot
    ensures |Present(out, n)| <= n
  {
    if n > 0 { PresentIs(out, n - 1); }
  }

  /** What `out` holds while it is being filled: fresh caps, nothing else new. */
  ghost predicate Endowed(out: seq<Option<nat>>, was: set<nat>, from: nat, now: set<nat>, next: nat) {
    && |out| == ENDOW_SLOTS && from <= next
    && (forall i: nat | i < ENDOW_SLOTS && out[i].Some? :: from <= out[i].value < next)
    && HeldOnce(out)
    && now == was + HeldCaps(out)
  }

  /** No cap stands in two slots. */
  ghost predicate HeldOnce(out: seq<Option<nat>>) {
    forall i: nat, j: nat | i < j < |out| && out[i].Some? && out[j].Some? :: out[i].value != out[j].value
  }

  ghost predicate DistinctCaps(s: seq<Slotted>) {
    forall i: nat, j: nat | i < j < |s| :: s[i].cap != s[j].cap
  }

  lemma PresentDistinct(out: seq<Option<nat>>)
    requires HeldOnce(out)
    ensures DistinctSlots(Present(out, |out|)) && DistinctCaps(Present(out, |out|))
  {
    PresentIs(out, |out|);
    var s := Present(out, |out|);
    forall i: nat, j: nat | i < j < |s|
      ensures s[i].cap != s[j].cap
    {
      assert s[i] in s && s[j] in s;
    }
  }

  ghost function HeldCaps(out: seq<Option<nat>>): set<nat> {
    set i: nat | i < |out| && out[i].Some? :: out[i].value
  }

  lemma PresentCaps(out: seq<Option<nat>>)
    ensures CapsOf(Present(out, |out|)) == HeldCaps(out)
  {
    PresentIs(out, |out|);
    forall h: nat | h in HeldCaps(out)
      ensures h in CapsOf(Present(out, |out|))
    {
      var i: nat :| i < |out| && out[i] == Some(h);
      assert Slotted(i, h) in Present(out, |out|);
    }
  }

  method PutCap(table: CapTable, out: array<Option<nat>>, i: nat, ghost was: set<nat>, ghost from: nat)
    requires table.Valid() && i < ENDOW_SLOTS && out.Length == ENDOW_SLOTS && out[i].None?
    requires Endowed(out[..], was, from, table.live, table.next)
    modifies table, out
    ensures table.Valid() && Endowed(out[..], was, from, table.live, table.next) && table.next >= old(table.next)
    ensures out[i].Some? && forall k: nat :: k < ENDOW_SLOTS && k != i ==> out[k] == old(out[k])
  {
    ghost var before := out[..];
    var h := table.Mint();
    out[i] := Some(h);
    HeldMore(before, i, h);
    assert out[..] == before[i := Some(h)];
  }

  lemma HeldMore(out: seq<Option<nat>>, i: nat, h: nat)
    requires i < |out| && out[i].None?
    ensures HeldCaps(out[i := Some(h)]) == HeldCaps(out) + {h}
  {
    var now := out[i := Some(h)];
    assert now[i] == Some(h);
    forall c: nat | c in HeldCaps(out)
      ensures c in HeldCaps(now)
    {
      var k: nat :| k < |out| && out[k] == Some(c);
      assert now[k] == Some(c);
    }
  }

  /** Undo: everything minted so far is deleted. */
  method Undo(table: CapTable, out: seq<Option<nat>>, ghost was: set<nat>, ghost from: nat)
    requires table.Valid() && Endowed(out, was, from, table.live, table.next) && forall h: nat | h in was :: h < from
    modifies table`live
    ensures table.Valid() && table.live == was
  {
    PresentCaps(out);
    DeleteAll(table, Present(out, |out|));
  }

  /** Which slots a granted entry fills. */
  ghost predicate Fills(e: Entry, w: World, out: seq<Option<nat>>) {
    && |out| == ENDOW_SLOTS
    && out[0].Some? == e.loader && out[1].Some? == e.notification && out[2].Some? == e.endpoint
    && out[3].Some? == e.mmio && out[4].Some? == e.mmio && out[5].Some? == e.mmio
    && out[6].Some? == (e.mmio || e.shared)
    && out[7].Some? == (e.mmio && w.device.Some? && w.device.value.irq)
    && out[8].Some? == (e.mmio && w.device.Some? && w.device.value.irqNotification)
  }

  /** The slots a granted entry fills, whatever caps come into them. */
  ghost function WantedSlots(e: Entry, w: World): set<nat> { set i: nat | i < ENDOW_SLOTS && Wanted(e, w, i) }

  ghost predicate Wanted(e: Entry, w: World, i: nat) {
    || (i == 0 && e.loader) || (i == 1 && e.notification) || (i == 2 && e.endpoint)
    || (3 <= i <= 6 && e.mmio) || (i == 6 && e.shared)
    || (i == 7 && e.mmio && w.device.Some? && w.device.value.irq)
    || (i == 8 && e.mmio && w.device.Some? && w.device.value.irqNotification)
  }

  lemma FilledIsWanted(e: Entry, w: World, out: seq<Option<nat>>, i: nat)
    requires Fills(e, w, out) && i < ENDOW_SLOTS
    ensures out[i].Some? <==> Wanted(e, w, i)
  {
  }

  ghost function SlotsOf(s: seq<Slotted>): set<nat> { set x | x in s :: x.slot }

  /** A manifest has each wanted slot once. */
  lemma ManifestSlots(e: Entry, w: World, out: seq<Option<nat>>)
    requires Fills(e, w, out)
    ensures SlotsOf(Present(out, ENDOW_SLOTS)) == WantedSlots(e, w)
    ensures |Present(out, ENDOW_SLOTS)| == |WantedSlots(e, w)|
  {
    var s := Present(out, ENDOW_SLOTS);
    PresentIs(out, ENDOW_SLOTS);
    forall i: nat
      ensures i in SlotsOf(s) <==> i < ENDOW_SLOTS && out[i].Some?
    {
      if i < ENDOW_SLOTS && out[i].Some? { assert Slotted(i, out[i].value) in s; }
    }
    forall i: nat | i < ENDOW_SLOTS
      ensures i in SlotsOf(s) <==> i in WantedSlots(e, w)
    {
      FilledIsWanted(e, w, out, i);
    }
    assert SlotsOf(s) == WantedSlots(e, w);
    SlotCount(s);
  }

  lemma {:induction false} SlotCount(s: seq<Slotted>)
    requires DistinctSlots(s)
    ensures |SlotsOf(s)| == |s|
  {
    if s != [] {
      var last, rest := s[|s| - 1], s[..|s| - 1];
      SlotCount(rest);
      assert SlotsOf(s) == SlotsOf(rest) + {last.slot};
      assert last.slot !in SlotsOf(rest);
    }
  }

  /** The offer goes beside what the entry wants: its slots are its own, and there is room for both. */
  ghost predicate GoTogether(e: Entry, w: World, offer: seq<Slotted>) {
    && DistinctSlots(offer) && SlotsOf(offer) !! WantedSlots(e, w)
    && |WantedSlots(e, w)| + |offer| <= ENDOW_SLOTS
  }

  lemma TogetherExactly(e: Entry, w: World, out: seq<Option<nat>>, offer: seq<Slotted>)
    requires Fills(e, w, out)
    ensures
      var all := Present(out, ENDOW_SLOTS) + offer;
      GoTogether(e, w, offer) <==> DistinctSlots(all) && |all| <= ENDOW_SLOTS
  {
    var s := Present(out, ENDOW_SLOTS);
    PresentIs(out, ENDOW_SLOTS);
    ManifestSlots(e, w, out);
    JoinedDistinct(s, offer);
  }

  lemma JoinedDistinct(s: seq<Slotted>, t: seq<Slotted>)
    requires DistinctSlots(s)
    ensures DistinctSlots(s + t) <==> DistinctSlots(t) && SlotsOf(s) !! SlotsOf(t)
  {
    var all := s + t;
    if DistinctSlots(all) {
      forall i: nat, j: nat | i < j < |t|
        ensures t[i].slot != t[j].slot
      {
        assert all[|s| + i] == t[i] && all[|s| + j] == t[j];
      }
      forall x, y | x in s && y in t
        ensures x.slot != y.slot
      {
        var i: nat :| i < |s| && s[i] == x;
        var j: nat :| j < |t| && t[j] == y;
        assert all[i] == x && all[|s| + j] == y;
      }
    } else {
      var i: nat, j: nat :| i < j < |all| && all[i].slot == all[j].slot;
      if i < |s| <= j {
        assert s[i].slot in SlotsOf(s) && t[j - |s|].slot in SlotsOf(t);
      } else {
        assert |s| <= i && t[i - |s|].slot == t[j - |s|].slot;
      }
    }
  }

  /** When an entry cannot be granted: authority nobody can give, half a driver, or something missing. */
  predicate Refused(e: Entry, w: World, hasChannel: bool) {
    || e.ungrantable || e.mmio != e.dma
    || (e.loader && !w.loaderCap) || (e.notification && !w.notificationCap)
    || (e.endpoint && ((!hasChannel && e.service != 0 && !w.serviceKnown) || !w.endpointCap))
    || (e.mmio && w.device.None?) || (!e.mmio && e.shared && !w.sharedCap)
  }

  /** `endow_from_manifest`: every cap the entry asks for, or none at all. */
  method Endow(table: CapTable, e: Entry, w: World, hasChannel: bool) returns (r: Result<seq<Option<nat>>, Refusal>)
    requires table.Valid()
    modifies table
    ensures table.Valid() && table.next >= old(table.next)
    ensures r.Err? ==> table.live == old(table.live)
    ensures r.Ok? ==> Endowed(r.value, old(table.live), old(table.next), table.live, table.next) && Fills(e, w, r.value)
    ensures r.Err? <==> Refused(e, w, hasChannel)
    ensures r.Err? && r.error == UnsupportedAuthority <==> e.ungrantable || e.mmio != e.dma
    ensures r.Err? && r.error == NoDevice ==> e.mmio && w.device.None?
    ensures r.Err? && r.error == NoResources ==> Refused(e.(mmio := false, dma := false), w, hasChannel)
  {
    ghost var was, from := table.live, table.next;
    var out := new Option<nat>[ENDOW_SLOTS](_ => None);
    if e.ungrantable || e.mmio != e.dma { return Err(UnsupportedAuthority); }
    assert HeldCaps(out[..]) == {};
    if e.loader {
      if !w.loaderCap { return Err(NoResources); }
      PutCap(table, out, 0, was, from);
    }
    if e.notification {
      if !w.notificationCap {
        Undo(table, out[..], was, from);
        return Err(NoResources);
      }
      PutCap(table, out, 1, was, from);
    }
    if e.endpoint {
      if (!hasChannel && e.service != 0 && !w.serviceKnown) || !w.endpointCap {
        Undo(table, out[..], was, from);
        return Err(NoResources);
      }
      PutCap(table, out, 2, was, from);
    }
    r := EndowDevice(table, out, e, w, was, from);
  }

  method EndowDevice(table: CapTable, out: array<Option<nat>>, e: Entry, w: World, ghost was: set<nat>, ghost from: nat)
      returns (r: Result<seq<Option<nat>>, Refusal>)
    requires table.Valid() && out.Length == ENDOW_SLOTS && Endowed(out[..], was, from, table.live, table.next)
    requires forall h: nat | h in was :: h < from
    requires forall i: nat :: 3 <= i < ENDOW_SLOTS ==> out[i].None?
    requires out[0].Some? == e.loader && out[1].Some? == e.notification && out[2].Some? == e.endpoint
    modifies table, out
    ensures table.Valid() && table.next >= old(table.next)
    ensures r.Err? ==> table.live == was && r.error == if e.mmio then NoDevice else NoResources
    ensures r.Err? <==> (e.mmio && w.device.None?) || (!e.mmio && e.shared && !w.sharedCap)
    ensures r.Ok? ==> Endowed(r.value, was, from, table.live, table.next) && Fills(e, w, r.value)
  {
    if e.mmio {
      if w.device.None? {
        Undo(table, out[..], was, from);
        return Err(NoDevice);
      }
      PutCap(table, out, 3, was, from);
      PutCap(table, out, 4, was, from);
      PutCap(table, out, 5, was, from);
      PutCap(table, out, 6, was, from);
      if w.device.value.irq { PutCap(table, out, 7, was, from); }
      if w.device.value.irqNotification { PutCap(table, out, 8, was, from); }
    } else if e.shared {
      if !w.sharedCap {
        Undo(table, out[..], was, from);
        return Err(NoResources);
      }
      PutCap(table, out, 6, was, from);
    }
    return Ok(out[..]);
  }

  // ---------------------------------------------------------------------------------------------
  // Loading from memory
  // ---------------------------------------------------------------------------------------------

  predicate SlotTaken(s: seq<Slotted>, slot: nat) { exists x :: x in s && x.slot == slot }

  ghost predicate DistinctSlots(s: seq<Slotted>) {
    forall i: nat, j: nat | i < j < |s| :: s[i].slot != s[j].slot
  }

  predicate NewSlot(all: seq<Slotted>, i: nat) { i < |all| && !SlotTaken(all[..i], all[i].slot) }

  /** How many caps of a list are collected before one names a slot again or is one too many. */
  function Fitting(all: seq<Slotted>): (k: nat)
    ensures k <= |all| && k <= ENDOW_SLOTS && (k < |all| ==> !NewSlot(all, k) || k == ENDOW_SLOTS)
    ensures forall i: nat | i < k :: NewSlot(all, i)
  {
    FittingFrom(all, 0)
  }

  function FittingFrom(all: seq<Slotted>, n: nat): (k: nat)
    requires n <= |all| && n <= ENDOW_SLOTS && forall i: nat | i < n :: NewSlot(all, i)
    ensures n <= k <= |all| && k <= ENDOW_SLOTS && (k < |all| ==> !NewSlot(all, k) || k == ENDOW_SLOTS)
    ensures forall i: nat | i < k :: NewSlot(all, i)
    decreases |all| - n
  {
    if n == |all| || !NewSlot(all, n) || n == ENDOW_SLOTS then n else FittingFrom(all, n + 1)
  }

  /** Manifest caps first, then the offer; a slot named twice or one too many ends the attempt and
      deletes what has been collected so far. */
  method Combine(table: CapTable, manifest: seq<Slotted>, offer: seq<Slotted>)
      returns (ok: bool, all: seq<Slotted>)
    requires table.Valid() && |manifest| <= ENDOW_SLOTS && DistinctSlots(manifest)
    modifies table`live
    ensures table.Valid()
    ensures ok <==> DistinctSlots(manifest + offer) && |manifest| + |offer| <= ENDOW_SLOTS
    ensures ok ==> all == manifest + offer && table.live == old(table.live)
    ensures ok <==> Fitting(manifest + offer) == |manifest + offer|
    ensures !ok ==> table.live == old(table.live) - CapsOf((manifest + offer)[..Fitting(manifest + offer)])
    ensures Fitting(manifest + offer) >= |manifest|
  {
    AllFit(manifest + offer);
    ManifestFits(manifest, offer);
    ok, all := CollectAll(table, manifest + offer);
  }

  method CollectAll(table: CapTable, both: seq<Slotted>) returns (ok: bool, all: seq<Slotted>)
    requires table.Valid()
    modifies table`live
    ensures table.Valid() && (ok <==> Fitting(both) == |both|)
    ensures ok ==> all == both && table.live == old(table.live)
    ensures !ok ==> table.live == old(table.live) - CapsOf(both[..Fitting(both)])
  {
    all := [];
    for i := 0 to |both|
      invariant all == both[..i] && i <= Fitting(both) && table.live == old(table.live)
    {
      assert i < Fitting(both) ==> NewSlot(both, i);
      if SlotTaken(all, both[i].slot) || |all| == ENDOW_SLOTS {
        DeleteAll(table, all);
        return false, all;
      }
      all := all + [both[i]];
    }
    assert both[..|both|] == both;
    ok := true;
  }

  /** A list is collected to its end exactly if it names no slot twice and is not too long. */
  lemma AllFit(all: seq<Slotted>)
    ensures Fitting(all) == |all| <==> DistinctSlots(all) && |all| <= ENDOW_SLOTS
  {
    var k := Fitting(all);
    if k == |all| {
      forall i: nat, j: nat | i < j < |all|
        ensures all[i].slot != all[j].slot
      {
        assert NewSlot(all, j) && all[..j][i] == all[i];
      }
    } else if SlotTaken(all[..k], all[k].slot) {
      var x :| x in all[..k] && x.slot == all[k].slot;
      var i: nat :| i < k && all[..k][i] == x;
      assert all[i].slot == all[k].slot;
    }
  }

  /** The manifest's own caps are always collected. */
  lemma ManifestFits(manifest: seq<Slotted>, offer: seq<Slotted>)
    requires |manifest| <= ENDOW_SLOTS && DistinctSlots(manifest)
    ensures Fitting(manifest + offer) >= |manifest|
  {
    var both, k := manifest + offer, Fitting(manifest + offer);
    forall i: nat, j: nat | i < j < |manifest|
      ensures both[..j][i].slot != both[j].slot
    {
      assert both[..j][i] == manifest[i] && both[j] == manifest[j];
    }
  }

  /** `lxpddrv_laden`; `loads` is the answer of the last step, which installs all caps or none. */
  method LoadDriver(table: CapTable, e: Entry, w: World, backend: bool, offer: seq<Slotted>, loads: bool)
      returns (r: Option<seq<Slotted>>, ghost out: seq<Option<nat>>)
    requires table.Valid() && CapsOf(offer) <= table.live
    modifies table
    ensures table.Valid()
    ensures r.Some? <==> backend && !Refused(e, w, true) && loads && GoTogether(e, w, offer)
    ensures r.None? && (!backend || Refused(e, w, true)) ==> table.live == old(table.live)
    ensures r.None? && backend && !Refused(e, w, true) ==>
              Fills(e, w, out) && OnlyOfferGone(table.live, old(table.live), Present(out, ENDOW_SLOTS), offer)
    ensures r.Some? ==> Installed(e, w, out, offer, r.value) && table.live == old(table.live) + HeldCaps(out)
                        && HeldCaps(out) !! old(table.live)
  {
    out := [];
    if !backend { return None, out; }
    var caps := Endow(table, e, w, true);
    if caps.Err? { return None, out; }
    out := caps.value;
    PresentIs(caps.value, ENDOW_SLOTS);
    PresentCaps(caps.value);
    ghost var manifest := Present(caps.value, ENDOW_SLOTS);
    TogetherExactly(e, w, out, offer);
    AllFit(manifest + offer);
    r := InstallAll(table, Present(caps.value, ENDOW_SLOTS), offer, loads);
    if r.None? { OfferGone(table.live, old(table.live), manifest, offer); }
  }

  /** The last two steps: combine, then install all or delete all. */
  method InstallAll(table: CapTable, manifest: seq<Slotted>, offer: seq<Slotted>, loads: bool)
      returns (r: Option<seq<Slotted>>)
    requires table.Valid() && |manifest| <= ENDOW_SLOTS && DistinctSlots(manifest)
    modifies table`live
    ensures table.Valid() && |manifest| <= Fitting(manifest + offer)
    ensures r.Some? <==> loads && Fitting(manifest + offer) == |manifest + offer|
    ensures r.Some? ==> r.value == manifest + offer && DistinctSlots(r.value) && table.live == old(table.live)
    ensures r.None? ==> table.live == old(table.live) - CapsOf((manifest + offer)[..Fitting(manifest + offer)])
  {
    var ok, all := Combine(table, manifest, offer);
    if !ok { return None; }
    if !loads {
      assert (manifest + offer)[..|manifest + offer|] == all;
      DeleteAll(table, all);
      return None;
    }
    return Some(all);
  }

  /** Of what was there before, only those offered caps are gone that were collected. */
  ghost predicate OnlyOfferGone(live: set<nat>, was: set<nat>, manifest: seq<Slotted>, offer: seq<Slotted>) {
    var k := Fitting(manifest + offer);
    |manifest| <= k && live == was - CapsOf(offer[..k - |manifest|])
  }

  /** Minted caps come and go. */
  lemma OfferGone(live: set<nat>, was: set<nat>, manifest: seq<Slotted>, offer: seq<Slotted>)
    requires CapsOf(manifest) !! was && |manifest| <= Fitting(manifest + offer)
    requires live == (was + CapsOf(manifest)) - CapsOf((manifest + offer)[..Fitting(manifest + offer)])
    ensures OnlyOfferGone(live, was, manifest, offer)
  {
    var k := Fitting(manifest + offer);
    var part := offer[..k - |manifest|];
    assert (manifest + offer)[..k] == manifest + part;
    CapsJoined(manifest, part);
  }

  /** What is installed: the caps of the manifest in their slots, then the offer, no slot twice. */
  ghost predicate Installed(e: Entry, w: World, out: seq<Option<nat>>, offer: seq<Slotted>, all: seq<Slotted>) {
    Fills(e, w, out) && all == Present(out, ENDOW_SLOTS) + offer && DistinctSlots(all)
  }

  /** `load_verified_image`: on any failure every minted cap and every delegated copy is gone, whether
      or not the inner step had deleted it already; on success exactly the manifest's caps are new. */
  method LoadVerifiedImage(table: CapTable, e: Entry, w: World, admitted: bool, backend: bool, offer: seq<Slotted>,
                           loads: bool) returns (r: Option<seq<Slotted>>, ghost out: seq<Option<nat>>)
    requires table.Valid() && CapsOf(offer) <= table.live
    modifies table
    ensures table.Valid()
    ensures r.Some? <==> admitted && backend && !Refused(e, w, true) && loads && GoTogether(e, w, offer)
    ensures r.None? ==> table.live == old(table.live) - CapsOf(offer)
    ensures r.Some? ==> Installed(e, w, out, offer, r.value) && table.live == old(table.live) + HeldCaps(out)
                        && HeldCaps(out) !! old(table.live)
  {
    r, out := None, [];
    if admitted { r, out := LoadDriver(table, e, w, backend, offer, loads); }
    if r.None? { DeleteAll(table, offer); }
  }

  // ---------------------------------------------------------------------------------------------
  // Loading from the archive
  // ---------------------------------------------------------------------------------------------

  /** How many manifest caps are stored before one meets a slot the offer holds. */
  function Stored(manifest: seq<Slotted>, offer: seq<Slotted>): (k: nat)
    ensures k <= |manifest|
    ensures k < |manifest| ==> SlotTaken(offer, manifest[k].slot)
    ensures forall i: nat | i < k :: !SlotTaken(offer, manifest[i].slot)
    decreases |manifest|
  {
    if manifest == [] then 0
    else
      var k := Stored(manifest[..|manifest| - 1], offer);
      if k < |manifest| - 1 then k
      else if SlotTaken(offer, manifest[|manifest| - 1].slot) then |manifest| - 1
      else |manifest|
  }

  lemma AllStored(manifest: seq<Slotted>, offer: seq<Slotted>)
    ensures Stored(manifest, offer) == |manifest| <==> SlotsOf(manifest) !! SlotsOf(offer)
  {
    var k := Stored(manifest, offer);
    if k < |manifest| {
      assert manifest[k].slot in SlotsOf(manifest);
      var x :| x in offer && x.slot == manifest[k].slot;
      assert x.slot in SlotsOf(offer);
    } else {
      forall x, y | x in manifest && y in offer
        ensures x.slot != y.slot
      {
        var i: nat :| i < |manifest| && manifest[i] == x;
        assert !SlotTaken(offer, manifest[i].slot);
      }
    }
  }

  /** The slots the code fills: the offer, then manifest caps up to the first collision. */
  method Collect(manifest: seq<Slotted>, offer: seq<Slotted>) returns (slots: seq<Slotted>, collision: bool)
    requires |offer| + |manifest| <= LOAD_CAPS_MAX && DistinctSlots(manifest)
    ensures slots == offer + manifest[..Stored(manifest, offer)] && (collision
            <==> Stored(manifest, offer) < |manifest|)
  {
    slots, collision := offer, false;
    for i := 0 to |manifest|
      invariant slots == offer + manifest[..i] && forall k: nat | k < i :: !SlotTaken(offer, manifest[k].slot)
    {
      if SlotTaken(slots, manifest[i].slot) || |slots| == LOAD_CAPS_MAX { return slots, true; }
      slots := slots + [manifest[i]];
    }
  }

  /** The caps of the entry, if there is one and it can be granted; nothing otherwise. */
  method ManifestCaps(table: CapTable, e: Option<Entry>, w: World, hasChannel: bool)
      returns (caps: seq<Slotted>, ghost out: seq<Option<nat>>)
    requires table.Valid()
    modifies table
    ensures table.Valid() && table.live == old(table.live) + CapsOf(caps) && CapsOf(caps) !! old(table.live)
    ensures DistinctSlots(caps) && DistinctCaps(caps) && |caps| <= ENDOW_SLOTS
    ensures e.None? || Refused(e.value, w, hasChannel) ==> caps == []
    ensures e.Some? && !Refused(e.value, w, hasChannel) ==> Fills(e.value, w, out) && caps == Present(out, ENDOW_SLOTS)
    ensures SlotsOf(caps) == if e.Some? && !Refused(e.value, w, hasChannel) then WantedSlots(e.value, w) else {}
  {
    caps, out := [], [];
    if e.Some? {
      var endowed := Endow(table, e.value, w, hasChannel);
      if endowed.Ok? {
        out := endowed.value;
        caps := Present(endowed.value, ENDOW_SLOTS);
        PresentIs(endowed.value, ENDOW_SLOTS);
        PresentDistinct(endowed.value);
        ManifestSlots(e.value, w, endowed.value);
        PresentCaps(endowed.value);
      }
    }
  }

  /** `load_by_index`.  A refused endowment is not told apart from an entry without caps: the program is
      then loaded with the offer alone.  On a collision the colliding cap and those after it were
      neither stored nor deleted: exactly they remain. */
  method LoadByIndex(table: CapTable, e: Option<Entry>, w: World, hasChannel: bool, offer: seq<Slotted>, loads: bool)
      returns (r: Option<seq<Slotted>>, ghost manifest: seq<Slotted>, ghost out: seq<Option<nat>>)
    requires table.Valid() && CapsOf(offer) <= table.live && |offer| <= 1
    modifies table
    ensures table.Valid() && CapsOf(manifest) !! old(table.live) && DistinctSlots(manifest) && DistinctCaps(manifest)
    ensures e.None? || Refused(e.value, w, hasChannel) ==> manifest == []
    ensures e.Some? && !Refused(e.value, w, hasChannel) ==>
              Fills(e.value, w, out) && manifest == Present(out, ENDOW_SLOTS)
    ensures r.Some? <==> loads && Stored(manifest, offer) == |manifest|
    ensures r.Some? <==>
              loads && (e.None? || Refused(e.value, w, hasChannel) || SlotsOf(offer) !! WantedSlots(e.value, w))
    ensures r.Some? ==> r.value == offer + manifest && table.live == old(table.live) + CapsOf(manifest)
    ensures r.None? ==> table.live == old(table.live) - CapsOf(offer) + Residue(manifest, offer)
  {
    var caps;
    caps, out := ManifestCaps(table, e, w, hasChannel);
    manifest := caps;
    AllStored(caps, offer);
    var slots, collision := Collect(caps, offer);
    if !collision && loads {
      assert caps[..|caps|] == caps;
      return Some(slots), manifest, out;
    }
    DeleteAll(table, slots);
    LeftOver(old(table.live), table.live, manifest, offer);
    return None, manifest, out;
  }

  /** The offer and the caps stored so far are deleted. */
  lemma LeftOver(was: set<nat>, live: set<nat>, manifest: seq<Slotted>, offer: seq<Slotted>)
    requires CapsOf(manifest) !! was && CapsOf(offer) <= was
    requires live == (was + CapsOf(manifest)) - CapsOf(offer + manifest[..Stored(manifest, offer)])
    ensures live == was - CapsOf(offer) + Residue(manifest, offer)
  {
    var k := Stored(manifest, offer);
    var front, back := manifest[..k], manifest[k..];
    assert manifest == front + back;
    CapsJoined(offer, front);
    CapsJoined(front, back);
  }

  lemma CapsJoined(s: seq<Slotted>, t: seq<Slotted>)
    ensures CapsOf(s + t) == CapsOf(s) + CapsOf(t)
  {
    assert forall x :: x in s + t <==> x in s || x in t;
  }

  /** What a failed load by index leaves behind. */
  ghost function Residue(manifest: seq<Slotted>, offer: seq<Slotted>): set<nat> {
    CapsOf(manifest[Stored(manifest, offer)..]) - CapsOf(manifest[..Stored(manifest, offer)])
  }

  /** The collided cap of a load and those after it are all that remains: no cap stands in the list twice. */
  lemma ResidueIs(manifest: seq<Slotted>, offer: seq<Slotted>)
    requires DistinctCaps(manifest)
    ensures Residue(manifest, offer) == CapsOf(manifest[Stored(manifest, offer)..])
  {
    var k := Stored(manifest, offer);
    forall x, y | x in manifest[..k] && y in manifest[k..]
      ensures x.cap != y.cap
    {
      var i: nat :| i < k && manifest[..k][i] == x;
      var j: nat :| j < |manifest| - k && manifest[k..][j] == y;
      assert manifest[i] == x && manifest[k + j] == y;
    }
  }

  /** Nothing remains exactly if no manifest cap wants a slot the offer holds. */
  lemma NothingRemains(manifest: seq<Slotted>, offer: seq<Slotted>)
    requires DistinctCaps(manifest)
    ensures Residue(manifest, offer) == {} <==> forall i: nat | i < |manifest| :: !SlotTaken(offer, manifest[i].slot)
  {
    var k := Stored(manifest, offer);
    if k < |manifest| {
      assert manifest[k..][0] == manifest[k];
      assert manifest[k].cap in CapsOf(manifest[k..]);
      assert manifest[k].cap !in CapsOf(manifest[..k]);
      assert manifest[k].cap in Residue(manifest, offer);
    } else {
      assert manifest[k..] == [] && Residue(manifest, offer) == {};
    }
  }
}
