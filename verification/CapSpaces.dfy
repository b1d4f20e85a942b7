/**
  The capability space: two fixed tables, changed in place.

  Every public operation keeps `Valid()`, says for every outcome what both tables hold afterwards,
  and leaves both tables alone when it refuses -- with the one exception `Install` names.
 */
module CapSpaces {
  import opened Wrappers
  import opened CapTables
  import opened CapTree
  import opened CapAuthority

  datatype CapPtr = CapPtr(slot: nat, gen: nat)

  datatype CapError = NoSlot | NoObject | Invalid | HasChildren | OutOfWindow

  /** The physical allocator, as far as the capability space uses it: what was handed back. */
  class PhysAllocator {
    var freed: seq<Region>

    constructor ()
      ensures freed == []
    {
      freed := [];
    }

    method FreeRegion(r: Region)
      modifies this
      ensures freed == old(freed) + [r]
    {
      freed := freed + [r];
    }
  }

  /** `k` more copies of `x`, as far as `cap` allows. */
  function Filled<T>(xs: seq<T>, cap: nat, x: T, k: nat): (r: seq<T>)
    requires |xs| <= cap
    ensures |r| == if |xs| + k <= cap then |xs| + k else cap
    ensures xs <= r && forall i: nat | |xs| <= i < |r| :: r[i] == x
  {
    xs + seq(if |xs| + k <= cap then k else cap - |xs|, _ => x)
  }

  /** The caller's report buffers: bounded, with a flag for a report that did not fit. */
  class Finalized {
    const itemCap: nat
    const dmaCap: nat
    const debugCap: nat
    var items: seq<(nat, nat)>
    var dma: seq<(nat, nat)>
    var debug: seq<nat>
    var overflow: bool

    predicate Valid()
      reads this
    {
      |items| <= itemCap && |dma| <= dmaCap && |debug| <= debugCap
    }

    constructor (itemCap: nat, dmaCap: nat, debugCap: nat)
      ensures Valid() && items == [] && dma == [] && debug == [] && !overflow
      ensures this.itemCap == itemCap && this.dmaCap == dmaCap && this.debugCap == debugCap
    {
      this.itemCap, this.dmaCap, this.debugCap := itemCap, dmaCap, debugCap;
      items, dma, debug, overflow := [], [], [], false;
    }

    method Push(ep: nat, caller: nat)
      requires Valid()
      modifies `items, `overflow
      ensures Valid()
      ensures items == Filled(old(items), itemCap, (ep, caller), 1)
      ensures overflow == (old(overflow) || |old(items)| == itemCap)
    {
      if |items| < itemCap { items := items + [(ep, caller)]; } else { overflow := true; }
    }

    method PushDma(phys: nat, len: nat)
      requires Valid()
      modifies `dma, `overflow
      ensures Valid()
      ensures dma == Filled(old(dma), dmaCap, (phys, len), 1)
      ensures overflow == (old(overflow) || |old(dma)| == dmaCap)
    {
      if |dma| < dmaCap { dma := dma + [(phys, len)]; } else { overflow := true; }
    }

    method PushDebug(pd: nat)
      requires Valid()
      modifies `debug, `overflow
      ensures Valid()
      ensures debug == Filled(old(debug), debugCap, pd, 1)
      ensures overflow == (old(overflow) || |old(debug)| == debugCap)
    {
      if |debug| < debugCap { debug := debug + [pd]; } else { overflow := true; }
    }
  }

  // ---------------------------------------------------------------------------------------------
  // Bounded walks and the window computation, over any table
  // ---------------------------------------------------------------------------------------------

  /** Follow `first_child` to a leaf, at most `limit` steps.  Total on every table, cyclic or torn:
      the leaf and its distance exactly if there is one within the limit. */
  method DescendToLeaf(S: Slots, start: nat, limit: nat) returns (r: Result<(nat, nat), ()>)
    ensures r.Ok? ==> r.value.1 <= limit && LeafAt(S, start, r.value.1) && Down(S, start, r.value.1) == Some(r.value.0)
    ensures r.Err? <==> forall k: nat | k <= limit :: !LeafAt(S, start, k)
  {
    var leaf: nat, steps: nat := start, 0;
    while true
      invariant steps <= limit
      invariant forall j: nat :: Down(S, start, steps + j) == Down(S, leaf, j)
      invariant forall k: nat | k < steps :: !LeafAt(S, start, k)
      decreases limit - steps
    {
      assert Down(S, start, steps + 0) == Down(S, leaf, 0);
      if leaf >= |S| {
        forall k: nat | k <= limit
          ensures !LeafAt(S, start, k)
        {
          if k >= steps { assert Down(S, start, steps + (k - steps)) == Down(S, leaf, k - steps); }
        }
        return Err(());
      }
      var c := S[leaf].mdb.firstChild;
      if c.None? {
        assert LeafAt(S, start, steps);
        return Ok((leaf, steps));
      }
      steps := steps + 1;
      if steps > limit {
        return Err(());
      }
      forall j: nat
        ensures Down(S, start, steps + j) == Down(S, c.value, j)
      {
        assert Down(S, start, steps - 1 + (j + 1)) == Down(S, leaf, j + 1);
      }
      leaf := c.value;
    }
  }

  /** A list of length `n` below `parent`: `n` slots along `next`, then the end. */
  ghost predicate ListLength(S: Slots, parent: nat, n: nat) {
    && parent < |S|
    && (forall k: nat | k < n :: Along(S, S[parent].mdb.firstChild, k).Some?)
    && (if n == 0 then S[parent].mdb.firstChild.None?
        else var last := Along(S, S[parent].mdb.firstChild, n - 1);
             last.Some? && last.value < |S| && S[last.value].mdb.next.None?)
  }

  /** Exact length of a child list of at most `limit` slots, an error for every other shape. */
  method CountChildren(S: Slots, parent: nat, limit: nat) returns (r: Result<nat, ()>)
    ensures r.Ok? ==> r.value <= limit && ListLength(S, parent, r.value)
    ensures r.Err? ==> forall n: nat | n <= limit :: !ListLength(S, parent, n)
  {
    if parent >= |S| { return Err(()); }
    var head := S[parent].mdb.firstChild;
    var n: nat, cur: Option<nat> := 0, head;
    while cur.Some?
      invariant n <= limit
      invariant forall k: nat | k < n :: Along(S, head, k).Some? && Along(S, head, k).value < |S|
      invariant n == 0 ==> cur == head
      invariant n > 0 ==> cur == S[Along(S, head, n - 1).value].mdb.next
      decreases limit - n
    {
      forall m: nat | m <= n
        ensures !ListLength(S, parent, m)
      {
        if 0 < m < n { AlongSplit(S, head, m - 1); assert Along(S, head, m).Some?; }
      }
      n := n + 1;
      if n > limit { return Err(()); }
      if n > 1 { AlongSplit(S, head, n - 2); }
      if cur.value >= |S| {
        assert Along(S, head, n - 1).None?;
        forall m: nat | n <= m <= limit
          ensures !ListLength(S, parent, m)
        {
        }
        return Err(());
      }
      cur := S[cur.value].mdb.next;
    }
    return Ok(n);
  }

  /** The window `[base + offset, base + offset + len)` of a region, if it is one. */
  function Window(whole: Region, offset: nat, len: nat): (r: Result<Region, CapError>)
    ensures r.Ok? <==> 0 < len && offset + len <= whole.len && whole.End() < U64_LIMIT
    ensures r.Ok? ==> r.value.Inside(whole) && r.value.len == len && r.value.base - whole.base == offset
    ensures r.Err? ==> r.error == OutOfWindow
  {
    if len == 0 then Err(OutOfWindow)
    else if whole.base + offset >= U64_LIMIT then Err(OutOfWindow)
    else if whole.base + offset + len >= U64_LIMIT then Err(OutOfWindow)
    else if whole.base + whole.len >= U64_LIMIT then Err(OutOfWindow)
    else if whole.base + offset + len > whole.base + whole.len then Err(OutOfWindow)
    else Ok(Region(whole.base + offset, len))
  }

  /** `kind_einhaengen`: hang `child` in front of the child list of `parent`, in place. */
  method HangInFront(slots: array<CapSlot>, parent: nat, child: nat)
    requires parent < slots.Length && child < slots.Length && LinksInRange(slots[..], parent)
    modifies slots
    ensures slots[..] == LinkChild(old(slots[..]), parent, child)
  {
    var first := slots[parent].mdb.firstChild;
    slots[child] := slots[child].(mdb := slots[child].mdb.(parent := Some(parent), prev := None, next := first));
    if first.Some? {
      slots[first.value] := slots[first.value].(mdb := slots[first.value].mdb.(prev := Some(child)));
    }
    slots[parent] := slots[parent].(mdb := slots[parent].mdb.(firstChild := Some(child)));
  }

  ghost function UsedSet(S: Slots): set<nat> { set i: nat | i < |S| && S[i].used }
  ghost function UsedObjs(O: Objects): set<nat> { set o: nat | o < |O| && O[o].used }

  function Max(a: nat, b: nat): nat { if a < b then b else a }

  /** Distinct caps of one object, `top` and a descendant among them, so dropping one leaves one. */
  lemma TwoRefs(S: Slots, o: nat, a: nat, b: nat)
    requires a in RefSet(S, o) && b in RefSet(S, o) && a != b
    ensures |RefSet(S, o)| >= 2
  {
    SubsetSize({a, b}, RefSet(S, o));
  }

  /** The descendants of `top` already deleted, and those of them that carried the write right. */
  ghost function Gone(S0: Slots, S: Slots, top: nat): set<nat>
    requires |S| == |S0|
  {
    set i: nat | i < |S0| && Desc(S0, top, i) && !S[i].used
  }

  ghost function GoneWriters(S0: Slots, S: Slots, top: nat): set<nat>
    requires |S| == |S0|
  {
    set i: nat | i < |S0| && Desc(S0, top, i) && !S[i].used && Write in S0[i].rights
  }

  /** The descendants of `top` that hold the write right. */
  ghost function Writers(S: Slots, top: nat): set<nat> {
    set i: nat | i < |S| && Desc(S, top, i) && Write in S[i].rights
  }

  class CapSpace {
    const slots: array<CapSlot>
    const objects: array<Obj>
    var peakSlots: nat
    var peakObjects: nat
    var peakCdtWalk: nat
    var peakRevokeOps: nat
    var cdtWalkOverruns: nat
    ghost var depth: seq<nat>
    ghost var age: seq<nat>

    ghost predicate Valid()
      reads this, slots, objects
    {
      WellFormed(slots[..], objects[..], depth, age)
    }

    /** `new` followed by `attach`: two empty tables. */
    constructor (nSlots: nat, nObjects: nat)
      ensures Valid() && fresh(slots) && fresh(objects)
      ensures slots.Length == nSlots && objects.Length == nObjects
      ensures UsedSet(slots[..]) == {} && UsedObjs(objects[..]) == {}
      ensures forall i: nat | i < slots.Length :: slots[i].gen == 0
      ensures cdtWalkOverruns == 0
    {
      slots := new CapSlot[nSlots](_ => CapSlot(false, 0, 0, {}, 0, None, NO_LINKS));
      objects := new Obj[nObjects](_ => Obj(false, Memory(Region(0, 0)), 0, 0));
      peakSlots, peakObjects, peakCdtWalk, peakRevokeOps, cdtWalkOverruns := 0, 0, 0, 0, 0;
      depth := seq(nSlots, _ => 0);
      age := seq(nSlots, _ => 0);
    }

    // --- internal ------------------------------------------------------------------------------

    function Resolve(ptr: CapPtr): (r: Result<nat, CapError>)
      reads this, slots
      ensures r.Ok? <==> ptr.slot < slots.Length && slots[ptr.slot].used && slots[ptr.slot].gen == ptr.gen
      ensures r.Ok? ==> r.value == ptr.slot
      ensures r.Err? ==> r.error == Invalid
    {
      if ptr.slot < slots.Length && slots[ptr.slot].used && slots[ptr.slot].gen == ptr.gen
      then Ok(ptr.slot) else Err(Invalid)
    }

    method FreeSlotIndex() returns (r: Option<nat>)
      ensures r.Some? ==> IsFreeSlot(slots[..], r.value)
      ensures r.None? <==> forall i: nat | i < slots.Length :: slots[i].used
    {
      for i := 0 to slots.Length
        invariant forall j: nat | j < i :: slots[j].used
      {
        if !slots[i].used { return Some(i); }
      }
      return None;
    }

    method UsedSlots() returns (n: nat)
      ensures n == |UsedSet(slots[..])|
    {
      n := 0;
      for i := 0 to slots.Length
        invariant n == |UsedSet(slots[..i])|
      {
        assert UsedSet(slots[..i + 1]) == UsedSet(slots[..i]) + (if slots[i].used then {i} else {});
        if slots[i].used { n := n + 1; }
      }
      assert slots[..slots.Length] == slots[..];
    }

    method UsedObjects() returns (n: nat)
      ensures n == |UsedObjs(objects[..])|
    {
      n := 0;
      for i := 0 to objects.Length
        invariant n == |UsedObjs(objects[..i])|
      {
        assert UsedObjs(objects[..i + 1]) == UsedObjs(objects[..i]) + (if objects[i].used then {i} else {});
        if objects[i].used { n := n + 1; }
      }
      assert objects[..objects.Length] == objects[..];
    }

    method AllocSlot(obj: nat, rights: Rights, badge: nat) returns (r: Result<nat, CapError>)
      modifies slots, `peakSlots
      ensures r.Ok? ==>
                && IsFreeSlot(old(slots[..]), r.value)
                && slots[..] == old(slots[..])[r.value := FreshSlot(old(slots[r.value].gen), obj, rights, badge, None)]
                && peakSlots == Max(old(peakSlots), |UsedSet(slots[..])|)
      ensures r.Err? ==>
                && r.error == NoSlot
                && (forall i: nat | i < slots.Length :: slots[i].used)
                && slots[..] == old(slots[..]) && peakSlots == old(peakSlots)
    {
      var free := FreeSlotIndex();
      if free.None? { return Err(NoSlot); }
      var i := free.value;
      slots[i] := FreshSlot(slots[i].gen, obj, rights, badge, None);
      var now := UsedSlots();
      if now > peakSlots { peakSlots := now; }
      return Ok(i);
    }

    method AllocObject(kind: ObjectKind) returns (r: Result<nat, CapError>)
      modifies objects, `peakObjects
      ensures r.Ok? ==>
                && IsFreeObj(old(objects[..]), r.value)
                && objects[..] == old(objects[..])[r.value := Obj(true, kind, 1, old(objects[r.value].gen))]
                && peakObjects == Max(old(peakObjects), |UsedObjs(objects[..])|)
      ensures r.Err? ==>
                && r.error == NoObject
                && (forall o: nat | o < objects.Length :: objects[o].used)
                && objects[..] == old(objects[..]) && peakObjects == old(peakObjects)
    {
      for i := 0 to objects.Length
        invariant forall j: nat | j < i :: objects[j].used
        invariant objects[..] == old(objects[..]) && peakObjects == old(peakObjects)
      {
        if !objects[i].used {
          objects[i] := Obj(true, kind, 1, objects[i].gen);
          var now := UsedObjects();
          if now > peakObjects { peakObjects := now; }
          return Ok(i);
        }
      }
      return Err(NoObject);
    }

    // --- installing and deriving ---------------------------------------------------------------

    /** A new object with one root cap on it.  When the slot table is full the object entry it had
        taken is given back, but not restored: kind and count stay behind in an unused entry. */
    method Install(kind: ObjectKind, rights: Rights) returns (r: Result<CapPtr, CapError>)
      requires Valid()
      modifies this, slots, objects
      ensures Valid() && cdtWalkOverruns == old(cdtWalkOverruns)
      ensures r.Ok? ==>
                exists o: nat ::
                  && IsFreeObj(old(objects[..]), o)
                  && IsFreeSlot(old(slots[..]), r.value.slot)
                  && r.value.gen == old(slots[r.value.slot].gen)
                  && objects[..] == old(objects[..])[o := Obj(true, kind, 1, old(objects[o].gen))]
                  && slots[..] == old(slots[..])[r.value.slot := FreshSlot(r.value.gen, o, rights, 0, None)]
      ensures r.Ok? ==> Lookup(r.value) == Some((kind, rights, 0))
      ensures r.Ok? ==> AllUntouched(old(slots[..]), old(objects[..]), slots[..], objects[..], {})
      ensures r.Err? ==> slots[..] == old(slots[..])
      ensures r.Err? && r.error == NoObject ==>
                objects[..] == old(objects[..]) && forall o: nat | o < objects.Length :: objects[o].used
      ensures r.Err? && r.error != NoObject ==>
                && r.error == NoSlot
                && (forall i: nat | i < slots.Length :: slots[i].used)
                && exists o: nat ::
                     && IsFreeObj(old(objects[..]), o)
                     && objects[..] == old(objects[..])[o := Obj(false, kind, 1, old(objects[o].gen))]
    {
      ghost var S, O := slots[..], objects[..];
      var obj := AllocObject(kind);
      if obj.Err? { return Err(obj.error); }
      var o := obj.value;
      var slot := AllocSlot(o, rights, 0);
      if slot.Err? {
        objects[o] := objects[o].(used := false);
        RollbackKeepsCounted(S, O, o, kind);
        assert objects[..] == O[o := Obj(false, kind, 1, O[o].gen)];
        forall i: nat | i < |S| && S[i].used
          ensures ConfinedAt(S, objects[..], i)
        {
          assert ConfinedAt(S, O, i);
        }
        return Err(slot.error);
      }
      InstallKeepsWellFormed(S, O, depth, age, slot.value, o, kind, rights);
      InstalledAuthority(S, O, slot.value, o, kind, rights);
      return Ok(CapPtr(slot.value, slots[slot.value].gen));
    }

    /** What a cap authorises: its kind -- narrowed to its window --, its rights and its badge. */
    function Lookup(ptr: CapPtr): (r: Option<(ObjectKind, Rights, nat)>)
      requires Valid()
      reads this, slots, objects
      ensures r.Some? <==> Resolve(ptr).Ok?
      ensures r.Some? ==>
                && slots[ptr.slot].obj < objects.Length
                && r.value == Authority(slots[..], objects[..], ptr.slot)
                && var kind := objects[slots[ptr.slot].obj].kind;
                if kind.Memory? then r.value.0.Memory? && r.value.0.region.Inside(kind.region) else r.value.0 == kind
    {
      if Resolve(ptr).Err? then None
      else
        var s := slots[ptr.slot];
        assert ConfinedAt(slots[..], objects[..], ptr.slot);
        var kind := objects[s.obj].kind;
        Some((if kind.Memory? && s.window.Some? then Memory(s.window.value) else kind, s.rights, s.badge))
    }

    /** What is looked up further down the tree never exceeds what is looked up above it. */
    lemma LookupNarrows(top: CapPtr, ptr: CapPtr)
      requires Valid() && Lookup(top).Some? && Lookup(ptr).Some? && Desc(slots[..], top.slot, ptr.slot)
      ensures NoMore(Lookup(ptr).value, Lookup(top).value)
    {
      NarrowsDown(slots[..], objects[..], depth, age, top.slot, ptr.slot);
    }

    /** A child cap on the same object; `window` is what the child may see of a memory object. */
    method Derive(s: nat, rights: Rights, window: Option<Region>) returns (r: Result<CapPtr, CapError>)
      requires Valid() && s < slots.Length && slots[s].used && slots[s].obj < objects.Length
      requires window.Some? ==>
                 && objects[slots[s].obj].kind.Memory?
                 && window.value.Inside(Effective(objects[slots[s].obj].kind, slots[s].window).value)
      requires window.None? ==> slots[s].window.None?
      modifies this, slots, objects
      ensures Valid() && cdtWalkOverruns == old(cdtWalkOverruns)
      ensures r.Ok? ==>
                var d := r.value.slot;
                && IsFreeSlot(old(slots[..]), d) && r.value.gen == old(slots[d].gen) && d != s
                && LinksInRange(old(slots[..]), s)
                && slots[..] == Derived(old(slots[..]), s, d, old(slots[s].rights) * rights,
                                        old(slots[s].badge), window)
                && objects[..] == AddRef(old(objects[..]), old(slots[s].obj))
      ensures r.Err? ==>
                && r.error == NoSlot && slots[..] == old(slots[..]) && objects[..] == old(objects[..])
                && forall i: nat | i < slots.Length :: slots[i].used
    {
      ghost var S, O := slots[..], objects[..];
      Touch(S, depth, age, s);
      var obj := slots[s].obj;
      var newRights := slots[s].rights * rights;
      var badge := slots[s].badge;
      var dst := AllocSlot(obj, newRights, badge);
      if dst.Err? { return Err(dst.error); }
      var d := dst.value;
      slots[d] := slots[d].(window := window);
      assert slots[..] == S[d := FreshSlot(S[d].gen, obj, newRights, badge, window)];
      objects[obj] := objects[obj].(refcount := objects[obj].refcount + 1);
      HangInFront(slots, s, d);
      ghost var depth', age' := DerivedWellFormed(S, O, depth, age, s, d, newRights, badge, window);
      depth, age := depth', age';
      return Ok(CapPtr(d, slots[d].gen));
    }

    /** `copy`: same object, same window, rights cut to the intersection. */
    method Copy(src: CapPtr, rights: Rights) returns (r: Result<CapPtr, CapError>)
      requires Valid()
      modifies this, slots, objects
      ensures Valid() && cdtWalkOverruns == old(cdtWalkOverruns)
      ensures r.Ok? ==>
                var s, d := src.slot, r.value.slot;
                && old(Resolve(src)).Ok?
                && IsFreeSlot(old(slots[..]), d) && r.value.gen == old(slots[d].gen) && d != s
                && LinksInRange(old(slots[..]), s)
                && slots[..] == Derived(old(slots[..]), s, d, old(slots[s].rights) * rights,
                                        old(slots[s].badge), old(slots[s].window))
                && old(slots[s].obj) < objects.Length
                && objects[..] == AddRef(old(objects[..]), old(slots[s].obj))
      ensures r.Ok? ==>
                && old(Lookup(src)).Some?
                && var (kind, held, badge) := old(Lookup(src)).value;
                Lookup(r.value) == Some((kind, held * rights, badge))
      ensures r.Ok? ==> AllUntouched(old(slots[..]), old(objects[..]), slots[..], objects[..], {})
      ensures r.Err? ==>
                && slots[..] == old(slots[..]) && objects[..] == old(objects[..])
                && (if r.error == Invalid then old(Resolve(src)).Err?
                    else r.error == NoSlot && forall i: nat | i < slots.Length :: slots[i].used)
    {
      var s := Resolve(src);
      if s.Err? { return Err(s.error); }
      assert ConfinedAt(slots[..], objects[..], s.value);
      r := Derive(s.value, rights, slots[s.value].window);
      if r.Ok? {
        DerivedAuthority(old(slots[..]), old(objects[..]), old(depth), old(age), s.value, r.value.slot,
                         old(slots[src.slot].rights) * rights, old(slots[src.slot].badge), old(slots[src.slot].window),
                         slots[..], objects[..]);
      }
    }

    /** `mint`: a copy with a badge of its own. */
    method Mint(src: CapPtr, rights: Rights, badge: nat) returns (r: Result<CapPtr, CapError>)
      requires Valid()
      modifies this, slots, objects
      ensures Valid() && cdtWalkOverruns == old(cdtWalkOverruns)
      ensures r.Ok? ==>
                var s, d := src.slot, r.value.slot;
                && old(Resolve(src)).Ok?
                && IsFreeSlot(old(slots[..]), d) && r.value.gen == old(slots[d].gen) && d != s
                && LinksInRange(old(slots[..]), s)
                && slots[..] == Derived(old(slots[..]), s, d, old(slots[s].rights) * rights,
                                        badge, old(slots[s].window))
                && old(slots[s].obj) < objects.Length
                && objects[..] == AddRef(old(objects[..]), old(slots[s].obj))
      ensures r.Ok? ==>
                && old(Lookup(src)).Some?
                && var (kind, held, _) := old(Lookup(src)).value;
                Lookup(r.value) == Some((kind, held * rights, badge))
      ensures r.Ok? ==> AllUntouched(old(slots[..]), old(objects[..]), slots[..], objects[..], {})
      ensures r.Err? ==>
                && slots[..] == old(slots[..]) && objects[..] == old(objects[..])
                && (if r.error == Invalid then old(Resolve(src)).Err?
                    else r.error == NoSlot && forall i: nat | i < slots.Length :: slots[i].used)
    {
      r := Copy(src, rights);
      if r.Ok? {
        ghost var S := slots[..];
        var d := r.value.slot;
        DerivedShapeOf(old(slots[..]), old(depth), old(age), src.slot, d, old(slots[src.slot].rights) * rights,
                       old(slots[src.slot].badge), badge, old(slots[src.slot].window));
        slots[d] := slots[d].(badge := badge);
        BadgeKeepsWellFormed(S, objects[..], depth, age, d, badge);
        DerivedAuthority(old(slots[..]), old(objects[..]), old(depth), old(age), src.slot, d,
                         old(slots[src.slot].rights) * rights, badge, old(slots[src.slot].window),
                         slots[..], objects[..]);
      }
    }

    /** `subregion`: a child cap on part of what the source cap authorises. */
    method Subregion(src: CapPtr, offset: nat, len: nat, rights: Rights) returns (r: Result<CapPtr, CapError>)
      requires Valid()
      modifies this, slots, objects
      ensures Valid() && cdtWalkOverruns == old(cdtWalkOverruns)
      ensures r.Ok? ==>
                var s, d := src.slot, r.value.slot;
                && old(Resolve(src)).Ok? && old(Lookup(src)).Some? && old(Lookup(src)).value.0.Memory?
                && Window(old(Lookup(src)).value.0.region, offset, len).Ok?
                && IsFreeSlot(old(slots[..]), d) && r.value.gen == old(slots[d].gen) && d != s
                && LinksInRange(old(slots[..]), s)
                && slots[..] == Derived(old(slots[..]), s, d, old(slots[s].rights) * rights, old(slots[s].badge),
                                        Some(Window(old(Lookup(src)).value.0.region, offset, len).value))
                && old(slots[s].obj) < objects.Length
                && objects[..] == AddRef(old(objects[..]), old(slots[s].obj))
      ensures r.Ok? ==>
                && old(Lookup(src)).Some? && old(Lookup(src)).value.0.Memory?
                && var (kind, held, badge) := old(Lookup(src)).value;
                && offset + len <= kind.region.len
                && Lookup(r.value) == Some((Memory(Region(kind.region.base + offset, len)), held * rights, badge))
      ensures r.Ok? ==> AllUntouched(old(slots[..]), old(objects[..]), slots[..], objects[..], {})
      ensures r.Err? ==>
                && slots[..] == old(slots[..]) && objects[..] == old(objects[..])
                && match r.error
                   case Invalid => old(Lookup(src)).None? || !old(Lookup(src)).value.0.Memory?
                   case OutOfWindow =>
                     && old(Lookup(src)).Some? && old(Lookup(src)).value.0.Memory?
                     && Window(old(Lookup(src)).value.0.region, offset, len).Err?
                   case NoSlot => forall i: nat | i < slots.Length :: slots[i].used
                   case _ => false
    {
      var s := Resolve(src);
      if s.Err? { return Err(s.error); }
      assert ConfinedAt(slots[..], objects[..], s.value);
      var obj := slots[s.value].obj;
      if !objects[obj].kind.Memory? { return Err(Invalid); }
      var whole := objects[obj].kind.region;
      var effective := if slots[s.value].window.Some? then slots[s.value].window.value else whole;
      var window := Window(effective, offset, len);
      if window.Err? { return Err(window.error); }
      r := Derive(s.value, rights, Some(window.value));
      if r.Ok? {
        DerivedAuthority(old(slots[..]), old(objects[..]), old(depth), old(age), s.value, r.value.slot,
                         old(slots[src.slot].rights) * rights, old(slots[src.slot].badge), Some(window.value),
                         slots[..], objects[..]);
      }
    }

    /** Count a walk that hit its limit, saturating. */
    method NoteOverrun(hit: bool)
      modifies `cdtWalkOverruns
      ensures cdtWalkOverruns ==
              if hit && old(cdtWalkOverruns) + 1 < U32_LIMIT then old(cdtWalkOverruns) + 1 else old(cdtWalkOverruns)
    {
      if hit && cdtWalkOverruns + 1 < U32_LIMIT { cdtWalkOverruns := cdtWalkOverruns + 1; }
    }

    /** `move_cap`: the cap gets a new slot; every link that named the old slot names the new one,
        and the old handle is dead. */
    method MoveCap(src: CapPtr) returns (r: Result<CapPtr, CapError>)
      requires Valid()
      modifies this, slots, objects
      ensures Valid() && cdtWalkOverruns == old(cdtWalkOverruns)
      ensures objects[..] == old(objects[..])
      ensures r.Ok? ==>
                var s, d := src.slot, r.value.slot;
                && old(Resolve(src)).Ok? && IsFreeSlot(old(slots[..]), d) && d != s
                && r.value.gen == old(slots[d].gen)
                && slots[..] == Moved(old(slots[..]), s, d)
                && Resolve(src).Err? && Resolve(r.value) == Ok(d)
      ensures r.Ok? ==>
                && Lookup(src).None? && Lookup(r.value) == old(Lookup(src))
                && AllUntouched(old(slots[..]), old(objects[..]), slots[..], objects[..], {src.slot})
      ensures r.Err? ==>
                && slots[..] == old(slots[..])
                && (if r.error == Invalid then old(Resolve(src)).Err?
                    else r.error == NoSlot && forall i: nat | i < slots.Length :: slots[i].used)
    {
      ghost var S, O := slots[..], objects[..];
      var from := Resolve(src);
      if from.Err? { return Err(from.error); }
      var s := from.value;
      var free := FreeSlotIndex();
      if free.None? { return Err(NoSlot); }
      var d := free.value;
      Touch(S, depth, age, s);

      MoveNeighbours(s, d);
      ghost var B := slots[..];
      var steps := Adopt(S, B, s, d);
      if steps > peakCdtWalk { peakCdtWalk := steps; }

      slots[s] := Emptied(slots[s]);
      MoveDone(S, depth, age, B, s, d, slots[..]);
      MoveKeepsWellFormed(S, O, depth, age, s, d);
      MovedAuthority(S, O, s, d);
      depth, age := depth[d := depth[s]], age[d := age[s]];
      return Ok(CapPtr(d, slots[d].gen));
    }

    /** The cap copied to slot `d`, and its neighbours pointed there. */
    method MoveNeighbours(s: nat, d: nat)
      requires Linked(slots[..], depth, age) && s < slots.Length && slots[s].used && d < slots.Length && !slots[d].used
      modifies slots
      ensures NeighboursMoved(old(slots[..]), slots[..], s, d)
    {
      ghost var S := slots[..];
      Touch(S, depth, age, s);
      slots[d] := slots[s].(gen := slots[d].gen);
      var m := slots[s].mdb;
      if m.prev.Some? {
        slots[m.prev.value] := slots[m.prev.value].(mdb := slots[m.prev.value].mdb.(next := Some(d)));
      } else if m.parent.Some? {
        slots[m.parent.value] := slots[m.parent.value].(mdb := slots[m.parent.value].mdb.(firstChild := Some(d)));
      }
      if m.next.Some? {
        slots[m.next.value] := slots[m.next.value].(mdb := slots[m.next.value].mdb.(prev := Some(d)));
      }
      NeighboursShape(S, depth, age, s, d, slots[..]);
    }

    /** The children of `s`, one after the other, get `d` for a parent; the walk stays below the
        step limit, so nothing is left out. */
    method Adopt(ghost S: Slots, ghost B: Slots, s: nat, d: nat) returns (steps: nat)
      requires Linked(S, depth, age) && Live(S, s) && d < |S| && !S[d].used
      requires NeighboursMoved(S, B, s, d) && slots[..] == B
      modifies slots, `cdtWalkOverruns
      ensures cdtWalkOverruns == old(cdtWalkOverruns)
      ensures Adopted(S, B, s, d, slots[..])
    {
      var limit := slots.Length;
      var child := slots[s].mdb.firstChild;
      steps := 0;
      ghost var seen: set<nat> := {};
      NeighboursAtSelf(S, depth, age, B, s, d);
      Touch(S, depth, age, s);
      while child.Some?
        invariant ListedFirst(S, s, steps, seen) && child == Along(S, S[s].mdb.firstChild, steps)
        invariant steps <= limit && cdtWalkOverruns == old(cdtWalkOverruns)
        invariant Patched(B, seen, d, slots[..])
        decreases limit - steps
      {
        var c := child.value;
        ListedOneMore(S, depth, age, s, steps, seen);
        steps := steps + 1;
        NoteOverrun(steps > limit);
        if steps > limit { break; }
        ChildNeighbours(S, depth, age, B, s, d, c);
        slots[c] := slots[c].(mdb := slots[c].mdb.(parent := Some(d)));
        seen := seen + {c};
        child := slots[c].mdb.next;
      }
      ListedAll(S, depth, age, s, steps, seen);
    }

    // --- deleting and revoking -----------------------------------------------------------------

    /** `unlink` followed by `release_slot`, in place. */
    method UnlinkAndRelease(s: nat)
      requires Valid() && s < slots.Length && slots[s].used
      modifies slots
      ensures LinksInRange(old(slots[..]), s) && slots[..] == Remove(old(slots[..]), s)
    {
      Touch(slots[..], depth, age, s);
      ghost var S := slots[..];
      var m := slots[s].mdb;
      if m.prev.Some? {
        slots[m.prev.value] := slots[m.prev.value].(mdb := slots[m.prev.value].mdb.(next := m.next));
      } else if m.parent.Some? {
        slots[m.parent.value] := slots[m.parent.value].(mdb := slots[m.parent.value].mdb.(firstChild := m.next));
      }
      if m.next.Some? {
        slots[m.next.value] := slots[m.next.value].(mdb := slots[m.next.value].mdb.(prev := m.prev));
      }
      slots[s] := slots[s].(mdb := NO_LINKS);
      assert slots[..] == Unlink(S, s);
      assert slots[s].gen == S[s].gen by { KeepsGen(S, depth, age, s); }
      slots[s] := Emptied(slots[s]);
    }

    /** A deleted write right over a debuggable domain is reported at once, the root's excepted; the
        object itself is finalised -- memory freed, DMA and replies reported -- exactly when its last
        cap goes. */
    method DeleteLeaf(alloc: PhysAllocator, s: nat, rf: Finalized)
      requires Valid() && rf.Valid() && s < slots.Length && slots[s].used && slots[s].mdb.firstChild.None?
      modifies slots, objects, alloc, rf
      ensures Valid() && rf.Valid()
      ensures LinksInRange(old(slots[..]), s) && slots[..] == Remove(old(slots[..]), s)
      ensures old(slots[s].obj) < objects.Length && old(objects[slots[s].obj].refcount) > 0
      ensures objects[..] == DropRef(old(objects[..]), old(slots[s].obj))
      ensures
        var o := old(objects[slots[s].obj]);
        var last := o.refcount == 1;
        var reported := o.kind.Debuggable? && Write in old(slots[s].rights) && old(slots[s].mdb.parent).Some?;
        && alloc.freed == old(alloc.freed) + (if last && o.kind.Memory? then [o.kind.region] else [])
        && rf.debug == (if reported then Filled(old(rf.debug), rf.debugCap, o.kind.pd, 1) else old(rf.debug))
        && rf.dma == (if last && o.kind.Dma? then Filled(old(rf.dma), rf.dmaCap, (o.kind.phys, o.kind.len), 1)
            else old(rf.dma))
        && rf.items == (if last && o.kind.Reply? then Filled(old(rf.items), rf.itemCap, (o.kind.ep, o.kind.caller), 1)
            else old(rf.items))
        && rf.overflow == (|| old(rf.overflow)
                           || (reported && |old(rf.debug)| == rf.debugCap)
                           || (last && o.kind.Dma? && |old(rf.dma)| == rf.dmaCap)
                           || (last && o.kind.Reply? && |old(rf.items)| == rf.itemCap))
    {
      ghost var S, O := slots[..], objects[..];
      RemoveKeepsWellFormed(S, O, depth, age, s);
      var obj := slots[s].obj;
      if objects[obj].kind.Debuggable? && Write in slots[s].rights && slots[s].mdb.parent.Some? {
        rf.PushDebug(objects[obj].kind.pd);
      }
      UnlinkAndRelease(s);
      objects[obj] := objects[obj].(refcount := objects[obj].refcount - 1);
      if objects[obj].refcount == 0 {
        match objects[obj].kind {
          case Memory(region) => alloc.FreeRegion(region);
          case Dma(phys, len) => rf.PushDma(phys, len);
          case Reply(ep, caller) => rf.Push(ep, caller);
          case _ =>
        }
        objects[obj] := EmptiedObj(objects[obj]);
      }
      assert objects[..] == DropRef(O, obj);
    }

    /** `delete`: a cap without children goes, one with children stays. */
    method Delete(alloc: PhysAllocator, ptr: CapPtr, rf: Finalized) returns (r: Result<(), CapError>)
      requires Valid() && rf.Valid()
      modifies slots, objects, alloc, rf
      ensures Valid() && rf.Valid()
      ensures r.Ok? <==> old(Resolve(ptr)).Ok? && old(slots[ptr.slot].mdb.firstChild).None?
      ensures r.Err? ==>
                && r.error == (if old(Resolve(ptr)).Err? then Invalid else HasChildren)
                && slots[..] == old(slots[..]) && objects[..] == old(objects[..])
                && alloc.freed == old(alloc.freed) && rf.overflow == old(rf.overflow)
                && rf.items == old(rf.items) && rf.dma == old(rf.dma) && rf.debug == old(rf.debug)
      ensures r.Ok? ==>
                && LinksInRange(old(slots[..]), ptr.slot) && slots[..] == Remove(old(slots[..]), ptr.slot)
                && old(slots[ptr.slot].obj) < objects.Length && old(objects[slots[ptr.slot].obj].refcount) > 0
                && objects[..] == DropRef(old(objects[..]), old(slots[ptr.slot].obj))
                && alloc.freed == old(alloc.freed) +
                     (if old(objects[slots[ptr.slot].obj].refcount) == 1
                         && old(objects[slots[ptr.slot].obj].kind).Memory?
                      then [old(objects[slots[ptr.slot].obj].kind).region] else [])
                && Resolve(ptr).Err? && Lookup(ptr).None?
                && AllUntouched(old(slots[..]), old(objects[..]), slots[..], objects[..], {ptr.slot})
    {
      var slot := Resolve(ptr);
      if slot.Err? { return Err(slot.error); }
      if slots[slot.value].mdb.firstChild.Some? { return Err(HasChildren); }
      DeleteLeaf(alloc, slot.value, rf);
      RemovedAuthority(old(slots[..]), old(objects[..]), depth, age, slot.value, slots[..], objects[..]);
      return Ok(());
    }

    /** `revoke`: every descendant goes and nothing else changes.  The table is left exactly as
        `RevokedSlot` says, the shared object loses one reference per deleted cap -- and lives on,
        because the revoked cap still refers to it: a revoke frees no memory and finalises nothing.
        No walk hits its limit. */
    method Revoke(alloc: PhysAllocator, ptr: CapPtr, rf: Finalized) returns (r: Result<(), CapError>)
      requires Valid() && rf.Valid()
      modifies this, slots, objects, alloc, rf
      ensures Valid() && rf.Valid() && cdtWalkOverruns == old(cdtWalkOverruns)
      ensures alloc.freed == old(alloc.freed) && rf.items == old(rf.items) && rf.dma == old(rf.dma)
      ensures r.Err? <==> old(Resolve(ptr)).Err?
      ensures r.Err? ==>
                && r.error == Invalid && slots[..] == old(slots[..]) && objects[..] == old(objects[..])
                && rf.debug == old(rf.debug) && rf.overflow == old(rf.overflow)
      ensures r.Ok? ==>
                var S, top := old(slots[..]), ptr.slot;
                && (forall i: nat | i < slots.Length :: slots[i] == RevokedSlot(S, top, i))
                && S[top].obj < objects.Length
                && var O, o := old(objects[..]), S[top].obj;
                && O[o].refcount > |DescSet(S, top)|
                && objects[..] == O[o := O[o].(refcount := O[o].refcount - |DescSet(S, top)|)]
                && peakRevokeOps == Max(old(peakRevokeOps), |DescSet(S, top)|)
                && var reports := if O[o].kind.Debuggable? then |Writers(S, top)| else 0;
                && rf.debug == (if O[o].kind.Debuggable? then Filled(old(rf.debug), rf.debugCap, O[o].kind.pd, reports)
                                else old(rf.debug))
                && rf.overflow == (old(rf.overflow) || |old(rf.debug)| + reports > rf.debugCap)
      ensures r.Ok? ==>
                && AllUntouched(old(slots[..]), old(objects[..]), slots[..], objects[..],
                                DescSet(old(slots[..]), ptr.slot))
                && forall i: nat | i in DescSet(old(slots[..]), ptr.slot) :: !slots[i].used
    {
      var slot := Resolve(ptr);
      if slot.Err? { return Err(slot.error); }
      var top := slot.value;
      ghost var S0, O0, depth0, age0 := slots[..], objects[..], depth, age;
      var ops := DeleteBelow(alloc, top, rf);
      RevokeFinish(S0, O0, depth0, age0, slots[..], objects[..], depth, age, top, ops);
      if ops > peakRevokeOps { peakRevokeOps := ops; }
      NotBelowItself(S0, depth0, age0, top);
      RevokedAuthority(S0, O0, top, slots[..], objects[..]);
      return Ok(());
    }

    /** Descend from the first child of `top` to a leaf and delete that.  `ghost` arguments name the
        table the revoke started from and how many caps it has deleted since. */
    method DeleteOneBelow(alloc: PhysAllocator, top: nat, rf: Finalized, limit: nat,
                          ghost S0: Slots, ghost O0: Objects, ghost debug0: seq<nat>, ghost over0: bool, ghost ops: nat)
      returns (stuck: bool)
      requires Valid() && rf.Valid() && limit == slots.Length && WellFormed(S0, O0, depth, age)
      requires RevokeInv(S0, O0, slots[..], objects[..], top, ops) && slots[top].mdb.firstChild.Some?
      requires Reports(S0, O0, slots[..], top, debug0, rf.debugCap, over0, rf.debug, rf.overflow)
      modifies this`peakCdtWalk, this`cdtWalkOverruns, slots, objects, alloc, rf
      ensures !stuck && Valid() && rf.Valid() && cdtWalkOverruns == old(cdtWalkOverruns)
      ensures alloc.freed == old(alloc.freed) && rf.items == old(rf.items) && rf.dma == old(rf.dma)
      ensures RevokeInv(S0, O0, slots[..], objects[..], top, ops + 1)
      ensures Reports(S0, O0, slots[..], top, debug0, rf.debugCap, over0, rf.debug, rf.overflow)
      ensures UsedSet(slots[..]) < old(UsedSet(slots[..]))
    {
      ghost var S, O, debug1, over1 := slots[..], objects[..], rf.debug, rf.overflow;
      var child := slots[top].mdb.firstChild.value;
      RevokeChild(S0, depth, age, S, depth, age, top, child);
      var walk := DescendToLeaf(slots[..], child, limit);
      NoteOverrun(walk.Err?);
      if walk.Err? { return true; }
      var leaf, steps := walk.value.0, walk.value.1;
      if steps > peakCdtWalk { peakCdtWalk := steps; }
      RevokeLeaf(S0, O0, depth, age, S, O, depth, age, top, child, leaf, steps, ops);
      DeleteLeaf(alloc, leaf, rf);
      RevokeStep(S0, O0, depth, age, S, O, depth, age, top, leaf, ops);
      RevokeReport(S0, O0, S, slots[..], top, leaf, debug0, rf.debugCap, over0, debug1, over1, rf.debug, rf.overflow);
      return false;
    }

    /** Descend to a leaf below `top` and delete it, until `top` has no child left. */
    method DeleteBelow(alloc: PhysAllocator, top: nat, rf: Finalized) returns (ops: nat)
      requires Valid() && rf.Valid() && Live(slots[..], top)
      modifies this`peakCdtWalk, this`cdtWalkOverruns, slots, objects, alloc, rf
      ensures Valid() && rf.Valid() && cdtWalkOverruns == old(cdtWalkOverruns)
      ensures alloc.freed == old(alloc.freed) && rf.items == old(rf.items) && rf.dma == old(rf.dma)
      ensures slots[top].mdb.firstChild.None?
      ensures RevokeInv(old(slots[..]), old(objects[..]), slots[..], objects[..], top, ops)
      ensures Reports(old(slots[..]), old(objects[..]), slots[..], top, old(rf.debug), rf.debugCap, old(rf.overflow),
                      rf.debug, rf.overflow)
    {
      var limit := slots.Length;
      ops := 0;
      ghost var S0, O0, debug0, over0 := slots[..], objects[..], rf.debug, rf.overflow;
      RevokeStart(S0, O0, depth, age, top, debug0, rf.debugCap, over0);
      while slots[top].mdb.firstChild.Some?
        invariant Valid() && rf.Valid() && cdtWalkOverruns == old(cdtWalkOverruns)
        invariant alloc.freed == old(alloc.freed) && rf.items == old(rf.items) && rf.dma == old(rf.dma)
        invariant RevokeInv(S0, O0, slots[..], objects[..], top, ops)
        invariant Reports(S0, O0, slots[..], top, debug0, rf.debugCap, over0, rf.debug, rf.overflow)
        decreases UsedSet(slots[..])
      {
        var stuck := DeleteOneBelow(alloc, top, rf, limit, S0, O0, debug0, over0, ops);
        if stuck { break; }
        IndexSetSize(limit, Gone(S0, slots[..], top));
        ops := ops + 1;
        NoteOverrun(ops > limit);
        if ops > limit { break; }
      }
    }
  }

  // ---------------------------------------------------------------------------------------------
  // The revoke loop
  // ---------------------------------------------------------------------------------------------

  ghost predicate RevokeInv(S0: Slots, O0: Objects, S: Slots, O: Objects, top: nat, ops: nat) {
    && Partly(S0, S, top)
    && S0[top].used
    && S0[top].obj < |O0|
    && O == O0[S0[top].obj := O0[S0[top].obj].(refcount := |RefSet(S, S0[top].obj)|)]
    && ops == |Gone(S0, S, top)|
  }

  /** How many reports are due for the caps deleted so far. */
  ghost function DebugCount(S0: Slots, O0: Objects, S: Slots, top: nat): nat
    requires |S| == |S0| && top < |S0| && S0[top].obj < |O0|
  {
    if O0[S0[top].obj].kind.Debuggable? then |GoneWriters(S0, S, top)| else 0
  }

  ghost predicate Reports(S0: Slots, O0: Objects, S: Slots, top: nat, before: seq<nat>, cap: nat, over0: bool,
                          now: seq<nat>, over: bool)
  {
    && |S| == |S0| && top < |S0| && S0[top].obj < |O0| && |before| <= cap
    && now == (if O0[S0[top].obj].kind.Debuggable?
               then Filled(before, cap, O0[S0[top].obj].kind.pd, DebugCount(S0, O0, S, top)) else before)
    && over == (over0 || |before| + DebugCount(S0, O0, S, top) > cap)
  }

  lemma RevokeStart(S0: Slots, O0: Objects, depth: seq<nat>, age: seq<nat>, top: nat,
                    debug0: seq<nat>, cap: nat, over0: bool)
    requires WellFormed(S0, O0, depth, age) && Live(S0, top) && |debug0| <= cap
    ensures RevokeInv(S0, O0, S0, O0, top, 0)
    ensures Reports(S0, O0, S0, top, debug0, cap, over0, debug0, over0)
  {
    forall i: nat | i < |S0| && Desc(S0, top, i)
      ensures S0[i].used
    {
      DescDeeper(S0, depth, age, top, i);
    }
    assert Gone(S0, S0, top) == {} && GoneWriters(S0, S0, top) == {};
    assert S0[top] == S0[top].(mdb := S0[top].mdb.(firstChild := S0[top].mdb.firstChild));
    assert O0[S0[top].obj] == O0[S0[top].obj].(refcount := |RefSet(S0, S0[top].obj)|);
  }

  /** The descent from a child of `top` ends, at a leaf below `top`. */
  lemma RevokeChild(S0: Slots, depth0: seq<nat>, age0: seq<nat>, S: Slots, depth: seq<nat>, age: seq<nat>,
                    top: nat, child: nat)
    requires Linked(S0, depth0, age0) && Linked(S, depth, age) && Partly(S0, S, top) && S0[top].used
    requires S[top].mdb.firstChild == Some(child)
    ensures Live(S, child) && Desc(S, top, child)
    ensures exists k: nat :: k <= |S| && LeafAt(S, child, k)
  {
    Touch(S, depth, age, top);
    DescStep(S, top, child);
    DescentWithinLimit(S, depth, age, child);
  }

  lemma RevokeLeaf(S0: Slots, O0: Objects, depth0: seq<nat>, age0: seq<nat>,
                   S: Slots, O: Objects, depth: seq<nat>, age: seq<nat>,
                   top: nat, child: nat, leaf: nat, steps: nat, ops: nat)
    requires WellFormed(S0, O0, depth0, age0) && WellFormed(S, O, depth, age)
    requires RevokeInv(S0, O0, S, O, top, ops) && Live(S, child) && Desc(S, top, child)
    requires LeafAt(S, child, steps) && Down(S, child, steps) == Some(leaf)
    ensures Live(S, leaf) && S[leaf].mdb.firstChild.None? && S[leaf].mdb.parent.Some? && leaf != top
    ensures Desc(S0, top, leaf) && S[leaf].obj == S0[top].obj && S[leaf].rights == S0[leaf].rights
    ensures S0[top].obj < |O| && O[S0[top].obj].refcount >= 2 && O[S0[top].obj].kind == O0[S0[top].obj].kind
  {
    var o := S0[top].obj;
    DownIsBelow(S, depth, age, top, child, steps);
    var k: nat :| Under(S, top, leaf, k);
    StillBelow(S0, S, top, leaf, k);
    DescDeeper(S, depth, age, top, leaf);
    assert S[top].used && S[top].obj == o;
    TwoRefs(S, o, top, leaf);
  }

  lemma RevokeStep(S0: Slots, O0: Objects, depth0: seq<nat>, age0: seq<nat>,
                   S: Slots, O: Objects, depth: seq<nat>, age: seq<nat>, top: nat, leaf: nat, ops: nat)
    requires WellFormed(S0, O0, depth0, age0) && WellFormed(S, O, depth, age)
    requires RevokeInv(S0, O0, S, O, top, ops)
    requires Live(S, leaf) && S[leaf].mdb.firstChild.None? && leaf != top
    requires Desc(S0, top, leaf) && S[leaf].obj == S0[top].obj
    requires S0[top].obj < |O| && O[S0[top].obj].refcount >= 2
    ensures LinksInRange(S, leaf)
    ensures RevokeInv(S0, O0, Remove(S, leaf), DropRef(O, S0[top].obj), top, ops + 1)
    ensures ops + 1 <= |S|
    ensures UsedSet(Remove(S, leaf)) == UsedSet(S) - {leaf} && leaf in UsedSet(S)
  {
    PartlyStep(S0, depth0, age0, S, depth, age, top, leaf);
    RemovedShape(S, depth, age, leaf);
    RevokeCounts(S0, O0, S, O, top, leaf, ops, Remove(S, leaf));
  }

  lemma RevokeCounts(S0: Slots, O0: Objects, S: Slots, O: Objects, top: nat, leaf: nat, ops: nat, R: Slots)
    requires RevokeInv(S0, O0, S, O, top, ops) && Live(S, leaf) && IsRemoved(S, R, leaf)
    requires Desc(S0, top, leaf) && S[leaf].obj == S0[top].obj && S0[top].obj < |O| && O[S0[top].obj].refcount >= 2
    requires Partly(S0, R, top)
    ensures RevokeInv(S0, O0, R, DropRef(O, S0[top].obj), top, ops + 1)
    ensures ops + 1 <= |S|
    ensures UsedSet(R) == UsedSet(S) - {leaf} && leaf in UsedSet(S)
  {
    var o := S0[top].obj;
    RemovedUsed(S, R, leaf);
    assert RefSet(R, o) == RefSet(S, o) - {leaf};
    assert Gone(S0, R, top) == Gone(S0, S, top) + {leaf};
    IndexSetSize(|S|, Gone(S0, R, top));
    assert UsedSet(R) == UsedSet(S) - {leaf};
  }

  lemma RemovedUsed(S: Slots, R: Slots, leaf: nat)
    requires Live(S, leaf) && IsRemoved(S, R, leaf)
    ensures forall i: nat | i < |S| :: R[i].used == (S[i].used && i != leaf) && (R[i].used ==> R[i].obj == S[i].obj)
  {
  }

  lemma RevokeReport(S0: Slots, O0: Objects, S: Slots, R: Slots, top: nat, leaf: nat,
                     debug0: seq<nat>, cap: nat, over0: bool,
                     debug1: seq<nat>, over1: bool, debug2: seq<nat>, over2: bool)
    requires |S| == |S0| == |R| && Live(S, leaf) && Desc(S0, top, leaf)
    requires UsedSet(R) == UsedSet(S) - {leaf}
    requires Reports(S0, O0, S, top, debug0, cap, over0, debug1, over1) && |debug1| <= cap
    requires
      var kind := O0[S0[top].obj].kind;
      var reported := kind.Debuggable? && Write in S0[leaf].rights;
      && debug2 == (if reported then Filled(debug1, cap, kind.pd, 1) else debug1)
      && over2 == (over1 || (reported && |debug1| == cap))
    ensures Reports(S0, O0, R, top, debug0, cap, over0, debug2, over2)
  {
    forall i: nat | i < |S|
      ensures R[i].used == (S[i].used && i != leaf)
    {
      assert i in UsedSet(R) <==> i in UsedSet(S) - {leaf};
    }
    assert GoneWriters(S0, R, top) ==
           GoneWriters(S0, S, top) + (if Write in S0[leaf].rights then {leaf} else {});
  }

  lemma RevokeFinish(S0: Slots, O0: Objects, depth0: seq<nat>, age0: seq<nat>,
                     S: Slots, O: Objects, depth: seq<nat>, age: seq<nat>, top: nat, ops: nat)
    requires WellFormed(S0, O0, depth0, age0) && WellFormed(S, O, depth, age)
    requires RevokeInv(S0, O0, S, O, top, ops) && S[top].mdb.firstChild.None?
    ensures forall i: nat | i < |S| :: S[i] == RevokedSlot(S0, top, i)
    ensures Gone(S0, S, top) == DescSet(S0, top) && GoneWriters(S0, S, top) == Writers(S0, top)
    ensures
      var o := S0[top].obj;
      && O0[o].refcount > |DescSet(S0, top)|
      && O == O0[o := O0[o].(refcount := O0[o].refcount - |DescSet(S0, top)|)]
  {
    var o := S0[top].obj;
    RevokeDone(S0, depth0, age0, S, depth, age, top);
    NotBelowItself(S0, depth0, age0, top);
    assert S0[top].used;
    forall i: nat | i < |S| && Desc(S0, top, i)
      ensures i in RefSet(S0, o) && !S[i].used
    {
      DescDeeper(S0, depth0, age0, top, i);
    }
    assert Gone(S0, S, top) == DescSet(S0, top);
    assert GoneWriters(S0, S, top) == Writers(S0, top);
    assert RefSet(S, o) == RefSet(S0, o) - DescSet(S0, top);
    assert DescSet(S0, top) <= RefSet(S0, o);
    assert top in RefSet(S, o);
  }

  lemma KeepsGen(S: Slots, depth: seq<nat>, age: seq<nat>, s: nat)
    requires Linked(S, depth, age) && Live(S, s)
    ensures LinksInRange(S, s) && Unlink(S, s)[s].gen == S[s].gen
  {
    Touch(S, depth, age, s);
  }

  /** `seen` is the first `n` slots of the child list of `s`. */
  ghost predicate ListedFirst(S: Slots, s: nat, n: nat, seen: set<nat>)
    requires s < |S|
  {
    && |seen| == n
    && (forall k: nat | k < n ::
        Along(S, S[s].mdb.firstChild, k).Some? && Along(S, S[s].mdb.firstChild, k).value in seen)
    && (forall i: nat | i in seen ::
          Live(S, i) && S[i].mdb.parent == Some(s) && exists k: nat ::
              k < n && Along(S, S[s].mdb.firstChild, k) == Some(i))
  }

  lemma ListedOneMore(S: Slots, depth: seq<nat>, age: seq<nat>, s: nat, n: nat, seen: set<nat>)
    requires Linked(S, depth, age) && Live(S, s) && ListedFirst(S, s, n, seen)
    requires Along(S, S[s].mdb.firstChild, n).Some?
    ensures
      var c := Along(S, S[s].mdb.firstChild, n).value;
      && Live(S, c) && S[c].mdb.parent == Some(s) && c !in seen
      && Along(S, S[s].mdb.firstChild, n + 1) == S[c].mdb.next
      && ListedFirst(S, s, n + 1, seen + {c})
      && n + 1 <= |S|
  {
    var head := S[s].mdb.firstChild;
    var c := Along(S, head, n).value;
    ChildOnceInList(S, depth, age, s, n, n);
    if c in seen {
      var k: nat :| k < n && Along(S, head, k) == Some(c);
      ChildOnceInList(S, depth, age, s, n, k);
      assert false;
    }
    AlongSplit(S, head, n);
    Touch(S, depth, age, c);
    IndexSetSize(|S|, seen + {c});
    forall i: nat | i in seen + {c}
      ensures exists k: nat :: k < n + 1 && Along(S, head, k) == Some(i)
    {
      if i == c {
        assert Along(S, head, n) == Some(i);
      } else {
        var k: nat :| k < n && Along(S, head, k) == Some(i);
      }
    }
  }

  lemma ListedAll(S: Slots, depth: seq<nat>, age: seq<nat>, s: nat, n: nat, seen: set<nat>)
    requires Linked(S, depth, age) && Live(S, s) && ListedFirst(S, s, n, seen)
    requires Along(S, S[s].mdb.firstChild, n).None?
    ensures forall i: nat | i < |S| :: i in seen <==> S[i].used && S[i].mdb.parent == Some(s)
  {
    forall i: nat | i < |S| && S[i].used && S[i].mdb.parent == Some(s)
      ensures i in seen
    {
      var k := ChildInList(S, depth, age, i);
      if k >= n { AlongFrom(S, S[s].mdb.firstChild, n, k); }
    }
  }

  ghost predicate Patched(B: Slots, seen: set<nat>, d: nat, R: Slots) {
    && |R| == |B|
    && forall i: nat {:trigger R[i]} | i < |B| ::
         R[i] == if i in seen then B[i].(mdb := B[i].mdb.(parent := Some(d))) else B[i]
  }

  ghost predicate Adopted(S: Slots, B: Slots, s: nat, d: nat, R: Slots)
    requires |B| == |S|
  {
    && |R| == |S|
    && forall i: nat {:trigger R[i]} | i < |S| ::
         R[i] == if S[i].used && S[i].mdb.parent == Some(s) then B[i].(mdb := B[i].mdb.(parent := Some(d))) else B[i]
  }

  lemma NeighboursShape(S: Slots, depth: seq<nat>, age: seq<nat>, s: nat, d: nat, B: Slots)
    requires Linked(S, depth, age) && Live(S, s) && d < |S| && !S[d].used && LinksInRange(S, s)
    requires
      var m := S[s].mdb;
      var S0 := S[d := S[s].(gen := S[d].gen)];
      var S1 :=
        if m.prev.Some? then S0[m.prev.value := S0[m.prev.value].(mdb := S0[m.prev.value].mdb.(next := Some(d)))]
        else if m.parent.Some? then
          S0[m.parent.value := S0[m.parent.value].(mdb := S0[m.parent.value].mdb.(firstChild := Some(d)))]
        else S0;
      B ==
      if m.next.Some? then S1[m.next.value := S1[m.next.value].(mdb := S1[m.next.value].mdb.(prev := Some(d)))]
      else S1
    ensures NeighboursMoved(S, B, s, d)
  {
    Touch(S, depth, age, s);
    var m := S[s].mdb;
    if m.next.Some? { Touch(S, depth, age, m.next.value); }
    if m.prev.Some? { Touch(S, depth, age, m.prev.value); }
    if m.parent.Some? { Touch(S, depth, age, m.parent.value); }
  }

  lemma NeighboursAtSelf(S: Slots, depth: seq<nat>, age: seq<nat>, B: Slots, s: nat, d: nat)
    requires Linked(S, depth, age) && Live(S, s) && d < |S| && !S[d].used && NeighboursMoved(S, B, s, d)
    ensures B[s] == S[s]
  {
    Touch(S, depth, age, s);
  }

  /** A child of `s` is no neighbour of `s`. */
  lemma ChildNeighbours(S: Slots, depth: seq<nat>, age: seq<nat>, B: Slots, s: nat, d: nat, c: nat)
    requires Linked(S, depth, age) && Live(S, s) && d < |S| && !S[d].used && NeighboursMoved(S, B, s, d)
    requires Live(S, c) && S[c].mdb.parent == Some(s)
    ensures B[c] == S[c]
  {
    Touch(S, depth, age, s);
    Touch(S, depth, age, c);
    if S[s].mdb.parent.Some? { Touch(S, depth, age, S[s].mdb.parent.value); }
  }

  lemma MoveDone(S: Slots, depth: seq<nat>, age: seq<nat>, B: Slots, s: nat, d: nat, R: Slots)
    requires Linked(S, depth, age) && Live(S, s) && d < |S| && !S[d].used && NeighboursMoved(S, B, s, d)
    requires |R| == |S| && R[s] == Emptied(S[s])
    requires forall i: nat {:trigger R[i]} | i < |S| && i != s ::
               R[i] == if S[i].used && S[i].mdb.parent == Some(s) then B[i].(mdb := B[i].mdb.(parent := Some(d)))
                   else B[i]
    ensures R == Moved(S, s, d)
  {
    forall i: nat | i < |S|
      ensures R[i] == Moved(S, s, d)[i]
    {
      MovedFromNeighbours(S, depth, age, B, s, d, i);
    }
  }

  lemma DerivedWellFormed(S: Slots, O: Objects, depth: seq<nat>, age: seq<nat>, s: nat, d: nat,
                   rights: Rights, badge: nat, window: Option<Region>)
    returns (depth': seq<nat>, age': seq<nat>)
    requires WellFormed(S, O, depth, age) && Live(S, s) && d < |S| && !S[d].used
    requires rights <= S[s].rights && S[s].obj < |O|
    requires window.Some? ==>
               && O[S[s].obj].kind.Memory?
               && window.value.Inside(Effective(O[S[s].obj].kind, S[s].window).value)
    requires window.None? ==> S[s].window.None?
    ensures LinksInRange(S, s) && s != d
    ensures |Derived(S, s, d, rights, badge, window)| == |S|
    ensures Derived(S, s, d, rights, badge, window)[d].gen == S[d].gen
    ensures WellFormed(Derived(S, s, d, rights, badge, window), AddRef(O, S[s].obj), depth', age')
  {
    DerivedShape(S, depth, age, s, d, rights, badge, window);
    depth', age' := DeriveKeepsWellFormed(S, O, depth, age, s, d, rights, badge, window);
  }

  lemma BadgeKeepsWellFormed(S: Slots, O: Objects, depth: seq<nat>, age: seq<nat>, d: nat, badge: nat)
    requires WellFormed(S, O, depth, age) && Live(S, d)
    ensures WellFormed(S[d := S[d].(badge := badge)], O, depth, age)
  {
    var R := S[d := S[d].(badge := badge)];
    forall i: nat | i < |R| && R[i].used
      ensures SlotOk(R, depth, age, i) && ConfinedAt(R, O, i)
    {
      Touch(S, depth, age, i);
      assert ConfinedAt(S, O, i);
      assert ParentOk(R, depth, i);
      assert HeadOk(R, i);
      assert NextOk(R, age, i);
      assert PrevOk(R, i);
    }
    forall o: nat | o < |O| && O[o].used
      ensures O[o].refcount == |RefSet(R, o)|
    {
      assert RefSet(R, o) == RefSet(S, o);
    }
  }

  /** Deriving and then changing the badge is deriving with that badge. */
  lemma DerivedShapeOf(S: Slots, depth: seq<nat>, age: seq<nat>, s: nat, d: nat, rights: Rights,
                       badge: nat, badge': nat, window: Option<Region>)
    requires Linked(S, depth, age) && Live(S, s) && d < |S| && !S[d].used
    ensures LinksInRange(S, s) && s != d
    ensures
      var R := Derived(S, s, d, rights, badge, window);
      |R| == |S| && R[d].used && R[d := R[d].(badge := badge')] == Derived(S, s, d, rights, badge', window)
  {
    DerivedShape(S, depth, age, s, d, rights, badge, window);
    DerivedShape(S, depth, age, s, d, rights, badge', window);
  }
}
