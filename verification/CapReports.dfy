/** How much room the reports of a revoke need. */
module CapReports {
  import opened Wrappers
  import opened CapTables
  import opened CapTree
  import opened CapSpaces
  import opened CapRuns

  /** One slot is the revoked cap's own, so fewer caps below it carry the write right than there are
      slots. */
  lemma WritersFit(S: Slots, depth: seq<nat>, age: seq<nat>, top: nat)
    requires Linked(S, depth, age) && Live(S, top)
    ensures |Writers(S, top)| < |S|
  {
    NotBelowItself(S, depth, age, top);
    IndexSetSize(|S|, Writers(S, top) + {top});
  }

  /** With room for one report less than there are slots, a revoke loses none. */
  method RevokeReportsAll(space: CapSpace, alloc: PhysAllocator, ptr: CapPtr, rf: Finalized) returns (r: Result<(),
                          CapError>)
    requires space.Valid() && rf.Valid() && space.slots.Length <= rf.debugCap - |rf.debug| + 1
    modifies space, space.slots, space.objects, alloc, rf
    ensures space.Valid() && rf.Valid() && rf.overflow == old(rf.overflow)
  {
    ghost var S, top := space.slots[..], ptr.slot;
    if space.Resolve(ptr).Ok? { WritersFit(S, space.depth, space.age, top); }
    r := space.Revoke(alloc, ptr, rf);
  }

  // ---------------------------------------------------------------------------------------------
  // Every smaller room is too small
  // ---------------------------------------------------------------------------------------------

  /** Slot 0 holds a debuggable object, slots 1 to `k` copies of it with the write right. */
  ghost predicate Crowd(w: World, n: nat, m: nat, k: nat) {
    && |w.S| == n && |w.O| == m && k < n && m > 0
    && w.O[0].used && w.O[0].kind == Debuggable(0)
    && forall i: nat | i < n :: CrowdSlot(w.S[i], i, k)
  }

  predicate CrowdSlot(s: CapSlot, i: nat, k: nat) {
    && (s.used <==> i <= k)
    && (s.used ==>
          && s.obj == 0 && s.rights == {Write} && s.window == None
          && s.mdb.parent == if i == 0 then None else Some(0))
  }

  lemma {:induction false} CrowdRun(n: nat, m: nat, k: nat) returns (ws: seq<World>)
    requires k < n && m > 0
    ensures Run(ws) && Crowd(Last(ws), n, m, k)
    decreases k
  {
    if k == 0 {
      var w := EmptyWorld(n, m);
      assert Run([w]);
      var w' := w.(S := w.S[0 := FreshSlot(0, 0, {Write}, 0, None)], O := w.O[0 := Obj(true, Debuggable(0), 1, 0)]);
      assert InstallStep(w, w', 0, 0, Debuggable(0), {Write});
      RunGrows([w], w');
      ws := [w] + [w'];
    } else {
      var before := CrowdRun(n, m, k - 1);
      var w' := OneMore(before, n, m, k);
      ws := before + [w'];
    }
  }

  lemma OneMore(ws: seq<World>, n: nat, m: nat, k: nat) returns (w': World)
    requires Run(ws) && 0 < k < n && Crowd(Last(ws), n, m, k - 1)
    ensures Run(ws + [w']) && Last(ws + [w']) == w' && Crowd(w', n, m, k)
  {
    var w := Last(ws);
    RunsStayGood(ws, |ws| - 1);
    var depth, age :| WellFormed(w.S, w.O, depth, age);
    assert forall i: nat | i < n :: CrowdSlot(w.S[i], i, k - 1);
    assert Live(w.S, 0) && !w.S[k].used;
    DerivedShape(w.S, depth, age, 0, k, {Write}, 0, None);
    w' := w.(S := Derived(w.S, 0, k, {Write}, 0, None), O := AddRef(w.O, 0));
    assert DeriveStep(w, w', 0, k, {Write}, 0, None);
    forall i: nat | i < n
      ensures CrowdSlot(w'.S[i], i, k)
    {
      assert CrowdSlot(w.S[i], i, k - 1);
    }
    RunGrows(ws, w');
  }

  ghost function Copies(k: nat): (s: set<nat>)
    ensures |s| == k && forall i: nat :: i in s <==> 1 <= i <= k
  {
    if k == 0 then {} else Copies(k - 1) + {k}
  }

  lemma CrowdWrites(w: World, n: nat, m: nat, k: nat)
    requires Crowd(w, n, m, k)
    ensures Live(w.S, 0) && w.S[0].obj == 0 && |Writers(w.S, 0)| >= k
  {
    assert CrowdSlot(w.S[0], 0, k);
    forall i: nat | 1 <= i <= k
      ensures i in Writers(w.S, 0)
    {
      assert CrowdSlot(w.S[i], i, k);
      assert Under(w.S, 0, i, 1);
    }
    SubsetSize(Copies(k), Writers(w.S, 0));
  }

  /** A run leads to tables of `n` slots and `m` objects in which revoking `top` owes more reports than
      there is room for; by `CapSpace.Revoke` that sets the overflow flag and loses the rest. */
  ghost predicate LosesReport(ws: seq<World>, n: nat, m: nat, top: nat, room: nat) {
    && Run(ws) && |Last(ws).S| == n && |Last(ws).O| == m
    && Live(Last(ws).S, top) && Last(ws).S[top].obj < m && Last(ws).O[Last(ws).S[top].obj].kind.Debuggable?
    && |Writers(Last(ws).S, top)| > room
  }

  /** Exactly how much room is enough: one report less than there are slots, whatever the number of
      objects.  `finalize_capacity`, one report per object, is enough where there are about as many
      objects as slots, and nowhere else. */
  lemma RoomNeeded(n: nat, m: nat, room: nat)
    requires m > 0
    ensures (exists ws: seq<World>, top: nat :: LosesReport(ws, n, m, top, room)) <==> room + 1 < n
  {
    if ws: seq<World>, top: nat :| LosesReport(ws, n, m, top, room) {
      RunsStayGood(ws, |ws| - 1);
      var w := Last(ws);
      var depth, age :| WellFormed(w.S, w.O, depth, age);
      WritersFit(w.S, depth, age, top);
    }
    if room + 1 < n {
      var ws := CrowdRun(n, m, n - 1);
      CrowdWrites(Last(ws), n, m, n - 1);
      assert LosesReport(ws, n, m, 0, room);
    }
  }
}
