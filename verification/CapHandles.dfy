/** Handles carry a generation, and so a handle outlives its cap as a dead one -- as long as the 32 bits
    of the generation last. */
module CapHandles {
  import opened Wrappers
  import opened CapTables
  import opened CapTree
  import opened CapRuns

  /** As `CapSpace.Resolve` decides it. */
  predicate Resolves(S: Slots, slot: nat, gen: nat) {
    slot < |S| && S[slot].used && S[slot].gen == gen
  }

  /** Step `n` of a run releases the slot. */
  ghost predicate ReleasedAt(ws: seq<World>, slot: nat, n: nat)
    requires 0 < n < |ws|
  {
    Live(ws[n - 1].S, slot) && !Live(ws[n].S, slot)
  }

  /** How often the slot is released after state `m`, up to state `n`. */
  ghost function Releases(ws: seq<World>, slot: nat, m: nat, n: nat): nat
    requires m <= n < |ws|
    decreases n
  {
    if m == n then 0 else Releases(ws, slot, m, n - 1) + (if ReleasedAt(ws, slot, n) then 1 else 0)
  }

  /** What one operation does to a slot: released, it counts on; otherwise its generation stays. */
  ghost predicate CountsOn(before: CapSlot, now: CapSlot) {
    now.gen == if before.used && !now.used then NextGen(before.gen) else before.gen
  }

  lemma DerivedCounts(w: World, w': World, s: nat, d: nat, rights: Rights, badge: nat, window: Option<Region>, i: nat)
    requires Good(w) && DeriveStep(w, w', s, d, rights, badge, window) && i < |w.S|
    ensures |w'.S| == |w.S| && CountsOn(w.S[i], w'.S[i])
  {
    var depth, age :| WellFormed(w.S, w.O, depth, age);
    DerivedShape(w.S, depth, age, s, d, rights, badge, window);
  }

  lemma DeletedCounts(w: World, w': World, s: nat, i: nat)
    requires Good(w) && DeleteStep(w, w', s) && i < |w.S|
    ensures |w'.S| == |w.S| && CountsOn(w.S[i], w'.S[i])
  {
    var depth, age :| WellFormed(w.S, w.O, depth, age);
    RemovedShape(w.S, depth, age, s);
  }

  lemma StepCounts(w: World, w': World, i: nat)
    requires Good(w) && Step(w, w') && i < |w.S|
    ensures |w'.S| == |w.S| && CountsOn(w.S[i], w'.S[i])
  {
    if j: nat, o: nat, kind: ObjectKind, rights: Rights :| InstallStep(w, w', j, o, kind, rights) {
    } else if s: nat, d: nat, rights: Rights, badge: nat, window: Option<Region> :|
                DeriveStep(w, w', s, d, rights, badge, window) {
      DerivedCounts(w, w', s, d, rights, badge, window, i);
    } else if s: nat :| DeleteStep(w, w', s) {
      DeletedCounts(w, w', s, i);
    } else if s: nat, d: nat :| MoveStep(w, w', s, d) {
    } else if top: nat :| RevokeStepTo(w, w', top) {
      assert w'.S[i] == RevokedSlot(w.S, top, i);
    }
  }

  lemma {:induction false} SameSize(ws: seq<World>, n: nat)
    requires Run(ws) && n < |ws|
    ensures |ws[n].S| == |ws[0].S| && forall i: nat | i < |ws[n].S| :: ws[n].S[i].gen < U32_LIMIT
    decreases n
  {
    if n > 0 {
      SameSize(ws, n - 1);
      RunsStayGood(ws, n - 1);
      assert StepAt(ws, n);
      if |ws[n - 1].S| > 0 { StepCounts(ws[n - 1], ws[n], 0); }
      forall i: nat | i < |ws[n - 1].S|
        ensures i < |ws[n].S| && ws[n].S[i].gen < U32_LIMIT
      {
        StepCounts(ws[n - 1], ws[n], i);
      }
    }
  }

  /** The generation counts the releases, modulo 2 to the 32. */
  lemma {:induction false} GenCounts(ws: seq<World>, slot: nat, m: nat, n: nat)
    requires Run(ws) && m <= n < |ws| && slot < |ws[m].S|
    ensures slot < |ws[n].S| && ws[n].S[slot].gen == (ws[m].S[slot].gen + Releases(ws, slot, m, n)) % U32_LIMIT
    decreases n
  {
    if m == n {
      SameSize(ws, m);
    } else {
      GenCounts(ws, slot, m, n - 1);
      GenStep(ws, slot, n);
      var from, releases := ws[m].S[slot].gen, Releases(ws, slot, m, n - 1);
      OneCount(from, releases, ws[n - 1].S[slot].gen, ws[n].S[slot].gen, ReleasedAt(ws, slot, n));
      assert Releases(ws, slot, m, n) == releases + if ReleasedAt(ws, slot, n) then 1 else 0;
    }
  }

  lemma GenStep(ws: seq<World>, slot: nat, n: nat)
    requires Run(ws) && 0 < n < |ws| && slot < |ws[n - 1].S|
    ensures slot < |ws[n].S|
    ensures ws[n].S[slot].gen == if ReleasedAt(ws, slot, n) then NextGen(ws[n - 1].S[slot].gen)
            else ws[n - 1].S[slot].gen
  {
    RunsStayGood(ws, n - 1);
    assert StepAt(ws, n);
    StepCounts(ws[n - 1], ws[n], slot);
  }

  lemma OneCount(from: nat, releases: nat, before: nat, now: nat, released: bool)
    requires before == (from + releases) % U32_LIMIT && now == if released then NextGen(before) else before
    ensures now == (from + (releases + if released then 1 else 0)) % U32_LIMIT
  {
  }

  /** A handle that was good at state `m` is good at a later state exactly if its slot is used then and
      was released a multiple of 2 to the 32 times in between.  So a dead handle stays dead for the next
      2^32 - 1 releases of its slot ... */
  lemma HandleMeans(ws: seq<World>, slot: nat, gen: nat, m: nat, n: nat)
    requires Run(ws) && m <= n < |ws| && Resolves(ws[m].S, slot, gen)
    ensures Resolves(ws[n].S, slot, gen) <==> Live(ws[n].S, slot) && Releases(ws, slot, m, n) % U32_LIMIT == 0
  {
    SameSize(ws, m);
    GenCounts(ws, slot, m, n);
  }

  /** A handle whose slot has been released is dead, until 2^32 releases have passed. */
  lemma DeadStaysDead(ws: seq<World>, slot: nat, gen: nat, m: nat, n: nat)
    requires Run(ws) && m <= n < |ws| && Resolves(ws[m].S, slot, gen)
    requires 0 < Releases(ws, slot, m, n) < U32_LIMIT
    ensures !Resolves(ws[n].S, slot, gen)
  {
    HandleMeans(ws, slot, gen, m, n);
  }

  /** So a handle that is made is not one that was good before: between the two the slot was released. */
  lemma NewHandleIsNew(ws: seq<World>, slot: nat, m: nat, n: nat)
    requires Run(ws) && m < n < |ws| && Live(ws[m].S, slot) && !Live(ws[n - 1].S, slot) && Live(ws[n].S, slot)
    requires Releases(ws, slot, m, n) < U32_LIMIT
    ensures ws[n].S[slot].gen != ws[m].S[slot].gen
  {
    ReleasedBetween(ws, slot, m, n - 1);
    DeadStaysDead(ws, slot, ws[m].S[slot].gen, m, n);
  }

  lemma {:induction false} ReleasedBetween(ws: seq<World>, slot: nat, m: nat, n: nat)
    requires m <= n < |ws| && Live(ws[m].S, slot) && !Live(ws[n].S, slot)
    ensures Releases(ws, slot, m, n) > 0
    decreases n
  {
    if Live(ws[n - 1].S, slot) {
      assert ReleasedAt(ws, slot, n);
    } else {
      ReleasedBetween(ws, slot, m, n - 1);
    }
  }

  // ---------------------------------------------------------------------------------------------
  // One release more
  // ---------------------------------------------------------------------------------------------

  /** Slot 0 holds the only cap. */
  ghost predicate Alone(w: World) {
    && Live(w.S, 0) && w.S[0].obj == 0 && w.S[0].mdb == NO_LINKS && |w.O| > 0
    && w.O[0].used && w.O[0].refcount == 1 && w.O[0].kind == Plain(0)
  }

  /** The cap is deleted and another one installed in its place. */
  lemma Reuse(ws: seq<World>) returns (next: seq<World>)
    requires Run(ws) && Alone(Last(ws))
    ensures Run(next) && |next| == |ws| + 2 && ws <= next && Alone(Last(next))
    ensures ReleasedAt(next, 0, |ws|) && !ReleasedAt(next, 0, |ws| + 1)
  {
    var w := Last(ws);
    var w1 := w.(S := Remove(w.S, 0), O := DropRef(w.O, 0));
    assert DeleteStep(w, w1, 0);
    RunGrows(ws, w1);
    var w2 := w1.(S := w1.S[0 := FreshSlot(w1.S[0].gen, 0, {}, 0, None)], O := w1.O[0 := Obj(true, Plain(0), 1,
        w1.O[0].gen)]);
    assert InstallStep(w1, w2, 0, 0, Plain(0), {});
    RunGrows(ws + [w1], w2);
    next := ws + [w1] + [w2];
  }

  lemma {:induction false} ReuseRun(nSlots: nat, nObjects: nat, k: nat) returns (ws: seq<World>)
    requires nSlots > 0 && nObjects > 0
    ensures Run(ws) && |ws| == 2 * k + 2 && |ws[1].S| == nSlots && |ws[1].O| == nObjects
    ensures Alone(ws[1]) && Alone(Last(ws)) && Releases(ws, 0, 1, |ws| - 1) == k
  {
    if k == 0 {
      var w := EmptyWorld(nSlots, nObjects);
      assert Run([w]);
      var w' := w.(S := w.S[0 := FreshSlot(0, 0, {}, 0, None)], O := w.O[0 := Obj(true, Plain(0), 1, 0)]);
      assert InstallStep(w, w', 0, 0, Plain(0), {});
      RunGrows([w], w');
      ws := [w] + [w'];
    } else {
      var before := ReuseRun(nSlots, nObjects, k - 1);
      ws := Reuse(before);
      var n := |before| - 1;
      ReleasesPrefix(before, ws, 0, 1, n);
      assert Releases(ws, 0, 1, n + 1) == k;
      assert Releases(ws, 0, 1, n + 2) == k;
    }
  }

  lemma {:induction false} ReleasesPrefix(ws: seq<World>, next: seq<World>, slot: nat, m: nat, n: nat)
    requires m <= n < |ws| && ws <= next
    ensures Releases(next, slot, m, n) == Releases(ws, slot, m, n)
    decreases n
  {
    if m < n {
      ReleasesPrefix(ws, next, slot, m, n - 1);
      assert ReleasedAt(next, slot, n) == ReleasedAt(ws, slot, n);
    }
  }

  /** ... and in tables of every size a run brings it back to life with the 2^32nd. */
  lemma StaleHandleReturns(nSlots: nat, nObjects: nat) returns (ws: seq<World>, gen: nat)
    requires nSlots > 0 && nObjects > 0
    ensures Run(ws) && |ws| > 2 && |ws[1].S| == nSlots && |ws[1].O| == nObjects && Resolves(ws[1].S, 0, gen)
    ensures Releases(ws, 0, 1, |ws| - 1) == U32_LIMIT && Resolves(Last(ws).S, 0, gen)
  {
    ws := ReuseRun(nSlots, nObjects, U32_LIMIT);
    gen := ws[1].S[0].gen;
    HandleMeans(ws, 0, gen, 1, |ws| - 1);
  }
}
