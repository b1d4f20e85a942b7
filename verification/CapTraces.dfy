/** The operations of the capability space are the steps of a run: each of them, called on a space whose
    history is a run, prolongs that history.  So what holds of every run holds of the space. */
module CapTraces {
  import opened Wrappers
  import opened CapTables
  import opened CapSpaces
  import opened CapRuns
  import opened CapHandles

  /** `ws` is the history of the space, up to now. */
  ghost predicate History(ws: seq<World>, space: CapSpace, alloc: PhysAllocator)
    reads space, space.slots, space.objects, alloc
  {
    && space.Valid() && Run(ws)
    && Last(ws).S == space.slots[..] && Last(ws).O == space.objects[..] && Last(ws).freed == alloc.freed
  }

  /** The history with one step more. */
  ghost predicate Prolongs(next: seq<World>, ws: seq<World>) { |next| == |ws| + 1 && ws <= next }

  method Start(nSlots: nat, nObjects: nat) returns (space: CapSpace, alloc: PhysAllocator, ghost ws: seq<World>)
    ensures fresh(space) && fresh(space.slots) && fresh(space.objects) && fresh(alloc)
    ensures History(ws, space, alloc) && |ws| == 1
  {
    space := new CapSpace(nSlots, nObjects);
    alloc := new PhysAllocator();
    ws := [World(space.slots[..], space.objects[..], [], [])];
    forall i: nat | i < nSlots
      ensures !space.slots[i].used && space.slots[i].gen < U32_LIMIT
    {
      assert i !in UsedSet(space.slots[..]);
    }
    assert forall o: nat | o < nObjects :: o !in UsedObjs(space.objects[..]);
    assert Empty(ws[0]);
  }

  method Install(space: CapSpace, alloc: PhysAllocator, kind: ObjectKind, rights: Rights, ghost ws: seq<World>)
      returns (r: Result<CapPtr, CapError>, ghost next: seq<World>)
    requires History(ws, space, alloc)
    modifies space, space.slots, space.objects
    ensures History(next, space, alloc) && Prolongs(next, ws)
    ensures Last(next).granted == Last(ws).granted + (if r.Ok? && kind.Memory? then [kind.region] else [])
  {
    ghost var w := Last(ws);
    r := space.Install(kind, rights);
    ghost var granted := if r.Ok? && kind.Memory? then [kind.region] else [];
    ghost var w' := World(space.slots[..], space.objects[..], w.freed, w.granted + granted);
    if r.Ok? {
      ghost var o: nat :| IsFreeObj(w.O, o) && w'.O == w.O[o := Obj(true, kind, 1, w.O[o].gen)]
                          && w'.S == w.S[r.value.slot := FreshSlot(r.value.gen, o, rights, 0, None)];
      assert InstallStep(w, w', r.value.slot, o, kind, rights);
    } else if r.error != NoObject {
      ghost var o: nat :| IsFreeObj(w.O, o) && w'.O == w.O[o := Obj(false, kind, 1, w.O[o].gen)];
      assert RefusedInstallStep(w, w', o, kind);
    }
    RunGrows(ws, w');
    next := ws + [w'];
  }

  method Copy(space: CapSpace, alloc: PhysAllocator, src: CapPtr, rights: Rights, ghost ws: seq<World>)
      returns (r: Result<CapPtr, CapError>, ghost next: seq<World>)
    requires History(ws, space, alloc)
    modifies space, space.slots, space.objects
    ensures History(next, space, alloc) && Prolongs(next, ws) && Last(next).granted == Last(ws).granted
  {
    ghost var w := Last(ws);
    r := space.Copy(src, rights);
    ghost var w' := w.(S := space.slots[..], O := space.objects[..]);
    if r.Ok? {
      ghost var s := src.slot;
      assert DeriveStep(w, w', s, r.value.slot, w.S[s].rights * rights, w.S[s].badge, w.S[s].window);
    }
    RunGrows(ws, w');
    next := ws + [w'];
  }

  method Mint(space: CapSpace, alloc: PhysAllocator, src: CapPtr, rights: Rights, badge: nat, ghost ws: seq<World>)
      returns (r: Result<CapPtr, CapError>, ghost next: seq<World>)
    requires History(ws, space, alloc)
    modifies space, space.slots, space.objects
    ensures History(next, space, alloc) && Prolongs(next, ws) && Last(next).granted == Last(ws).granted
  {
    ghost var w := Last(ws);
    r := space.Mint(src, rights, badge);
    ghost var w' := w.(S := space.slots[..], O := space.objects[..]);
    if r.Ok? {
      ghost var s := src.slot;
      assert DeriveStep(w, w', s, r.value.slot, w.S[s].rights * rights, badge, w.S[s].window);
    }
    RunGrows(ws, w');
    next := ws + [w'];
  }

  method Subregion(space: CapSpace, alloc: PhysAllocator, src: CapPtr, offset: nat, len: nat, rights: Rights,
                   ghost ws: seq<World>)
      returns (r: Result<CapPtr, CapError>, ghost next: seq<World>)
    requires History(ws, space, alloc)
    modifies space, space.slots, space.objects
    ensures History(next, space, alloc) && Prolongs(next, ws) && Last(next).granted == Last(ws).granted
  {
    ghost var w := Last(ws);
    ghost var seen := space.Lookup(src);
    r := space.Subregion(src, offset, len, rights);
    ghost var w' := w.(S := space.slots[..], O := space.objects[..]);
    if r.Ok? {
      ghost var s := src.slot;
      ghost var window := Window(seen.value.0.region, offset, len).value;
      assert DeriveStep(w, w', s, r.value.slot, w.S[s].rights * rights, w.S[s].badge, Some(window));
    }
    RunGrows(ws, w');
    next := ws + [w'];
  }

  method MoveCap(space: CapSpace, alloc: PhysAllocator, src: CapPtr, ghost ws: seq<World>)
      returns (r: Result<CapPtr, CapError>, ghost next: seq<World>)
    requires History(ws, space, alloc)
    modifies space, space.slots, space.objects
    ensures History(next, space, alloc) && Prolongs(next, ws) && Last(next).granted == Last(ws).granted
  {
    ghost var w := Last(ws);
    r := space.MoveCap(src);
    ghost var w' := w.(S := space.slots[..], O := space.objects[..]);
    if r.Ok? { assert MoveStep(w, w', src.slot, r.value.slot); }
    RunGrows(ws, w');
    next := ws + [w'];
  }

  method Delete(space: CapSpace, alloc: PhysAllocator, ptr: CapPtr, rf: Finalized, ghost ws: seq<World>)
      returns (r: Result<(), CapError>, ghost next: seq<World>)
    requires History(ws, space, alloc) && rf.Valid()
    modifies space.slots, space.objects, alloc, rf
    ensures rf.Valid() && History(next, space, alloc) && Prolongs(next, ws) && Last(next).granted == Last(ws).granted
  {
    ghost var w := Last(ws);
    r := space.Delete(alloc, ptr, rf);
    ghost var w' := w.(S := space.slots[..], O := space.objects[..], freed := alloc.freed);
    if r.Ok? { assert DeleteStep(w, w', ptr.slot); }
    RunGrows(ws, w');
    next := ws + [w'];
  }

  method Revoke(space: CapSpace, alloc: PhysAllocator, ptr: CapPtr, rf: Finalized, ghost ws: seq<World>)
      returns (r: Result<(), CapError>, ghost next: seq<World>)
    requires History(ws, space, alloc) && rf.Valid()
    modifies space, space.slots, space.objects, alloc, rf
    ensures rf.Valid() && History(next, space, alloc) && Prolongs(next, ws) && Last(next).granted == Last(ws).granted
  {
    ghost var w := Last(ws);
    r := space.Revoke(alloc, ptr, rf);
    ghost var w' := w.(S := space.slots[..], O := space.objects[..]);
    if r.Ok? { assert RevokeStepTo(w, w', ptr.slot); }
    RunGrows(ws, w');
    next := ws + [w'];
  }

  /** The second delete of a handle is a no-op: the cap it was good for at state `m` has been released
      since, and its slot fewer than 2^32 times, so nothing changes whatever has come into the slot. */
  method DeleteAgain(space: CapSpace, alloc: PhysAllocator, ptr: CapPtr, rf: Finalized, ghost ws: seq<World>,
                     ghost m: nat)
      returns (r: Result<(), CapError>)
    requires History(ws, space, alloc) && rf.Valid() && m < |ws| && Resolves(ws[m].S, ptr.slot, ptr.gen)
    requires 0 < Releases(ws, ptr.slot, m, |ws| - 1) < U32_LIMIT
    modifies space.slots, space.objects, alloc, rf
    ensures r == Err(Invalid) && rf.Valid() && History(ws, space, alloc)
    ensures space.slots[..] == old(space.slots[..]) && space.objects[..] == old(space.objects[..])
    ensures alloc.freed == old(alloc.freed) && rf.overflow == old(rf.overflow)
    ensures rf.items == old(rf.items) && rf.dma == old(rf.dma) && rf.debug == old(rf.debug)
  {
    DeadStaysDead(ws, ptr.slot, ptr.gen, m, |ws| - 1);
    r := space.Delete(alloc, ptr, rf);
  }
}
