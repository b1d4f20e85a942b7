/**
  Whole runs of the capability space: what every sequence of operations from the empty tables keeps,
  and where the memory goes.
 */
module CapRuns {
  import opened Wrappers
  import opened CapTables
  import opened CapTree
  import opened CapAuthority
  import opened CapSpaces

  /** `granted` are the regions of the memory caps an install accepted, `freed` what came back. */
  datatype World = World(S: Slots, O: Objects, freed: seq<Region>, granted: seq<Region>)

  // ---------------------------------------------------------------------------------------------
  // Steps
  // ---------------------------------------------------------------------------------------------

  ghost predicate InstallStep(w: World, w': World, i: nat, o: nat, kind: ObjectKind, rights: Rights) {
    && IsFreeSlot(w.S, i) && IsFreeObj(w.O, o)
    && w'.S == w.S[i := FreshSlot(w.S[i].gen, o, rights, 0, None)]
    && w'.O == w.O[o := Obj(true, kind, 1, w.O[o].gen)]
    && w'.freed == w.freed
    && w'.granted == w.granted + (if kind.Memory? then [kind.region] else [])
  }

  ghost predicate RefusedInstallStep(w: World, w': World, o: nat, kind: ObjectKind) {
    IsFreeObj(w.O, o) && w' == w.(O := w.O[o := Obj(false, kind, 1, w.O[o].gen)])
  }

  ghost predicate DeriveStep(w: World, w': World, s: nat, d: nat, rights: Rights, badge: nat, window: Option<Region>) {
    && Live(w.S, s) && IsFreeSlot(w.S, d) && LinksInRange(w.S, s) && w.S[s].obj < |w.O|
    && rights <= w.S[s].rights
    && (window == w.S[s].window
        || (&& window.Some? && w.O[w.S[s].obj].kind.Memory?
            && window.value.Inside(Effective(w.O[w.S[s].obj].kind, w.S[s].window).value)))
    && w' == w.(S := Derived(w.S, s, d, rights, badge, window), O := AddRef(w.O, w.S[s].obj))
  }

  ghost predicate MoveStep(w: World, w': World, s: nat, d: nat) {
    Live(w.S, s) && IsFreeSlot(w.S, d) && w' == w.(S := Moved(w.S, s, d))
  }

  ghost predicate DeleteStep(w: World, w': World, s: nat) {
    && Live(w.S, s) && w.S[s].mdb.firstChild.None? && LinksInRange(w.S, s)
    && w.S[s].obj < |w.O| && w.O[w.S[s].obj].refcount > 0
    && var obj := w.O[w.S[s].obj];
    w' == w.(S := Remove(w.S, s), O := DropRef(w.O, w.S[s].obj),
             freed := w.freed + (if obj.refcount == 1 && obj.kind.Memory? then [obj.kind.region] else []))
  }

  ghost predicate RevokeStepTo(w: World, w': World, top: nat) {
    && Live(w.S, top) && w.S[top].obj < |w.O|
    && |w'.S| == |w.S|
    && (forall i: nat | i < |w.S| :: w'.S[i] == RevokedSlot(w.S, top, i))
    && w.O[w.S[top].obj].refcount >= |DescSet(w.S, top)|
    && w'.O == w.O[w.S[top].obj := w.O[w.S[top].obj].(refcount := w.O[w.S[top].obj].refcount - |DescSet(w.S, top)|)]
    && w'.freed == w.freed && w'.granted == w.granted
  }

  /** One operation of the capability space, a refused one included. */
  ghost predicate Step(w: World, w': World) {
    || w' == w
    || (exists i: nat, o: nat, kind: ObjectKind, rights: Rights :: InstallStep(w, w', i, o, kind, rights))
    || (exists o: nat, kind: ObjectKind :: RefusedInstallStep(w, w', o, kind))
    || (exists s: nat, d: nat, rights: Rights, badge: nat, window: Option<Region> ::
          DeriveStep(w, w', s, d, rights, badge, window))
    || (exists s: nat, d: nat :: MoveStep(w, w', s, d))
    || (exists s: nat :: DeleteStep(w, w', s))
    || (exists top: nat :: RevokeStepTo(w, w', top))
  }

  ghost predicate Empty(w: World) {
    && (forall i: nat | i < |w.S| :: !w.S[i].used && w.S[i].gen < U32_LIMIT)
    && (forall o: nat | o < |w.O| :: !w.O[o].used)
    && w.freed == [] && w.granted == []
  }

  function EmptyWorld(n: nat, m: nat): World {
    var slot := CapSlot(false, 0, 0, {}, 0, None, NO_LINKS);
    var obj := Obj(false, Plain(0), 0, 0);
    World(seq(n, _ => slot), seq(m, _ => obj), [], [])
  }

  ghost predicate StepAt(ws: seq<World>, n: nat)
    requires 0 < n < |ws|
  {
    Step(ws[n - 1], ws[n])
  }

  ghost predicate Run(ws: seq<World>) {
    |ws| > 0 && Empty(ws[0]) && forall n: nat | 0 < n < |ws| :: StepAt(ws, n)
  }

  ghost function Last(ws: seq<World>): World
    requires |ws| > 0
  {
    ws[|ws| - 1]
  }

  lemma RunGrows(ws: seq<World>, w: World)
    requires Run(ws) && Step(Last(ws), w)
    ensures Run(ws + [w]) && Last(ws + [w]) == w
  {
    var next := ws + [w];
    forall n: nat | 0 < n < |next|
      ensures StepAt(next, n)
    {
      if n < |ws| { assert StepAt(ws, n); }
    }
  }

  // ---------------------------------------------------------------------------------------------
  // What every run keeps
  // ---------------------------------------------------------------------------------------------

  /** The live memory objects on region `r`. */
  ghost function Holders(O: Objects, r: Region): set<nat> {
    set o: nat | o < |O| && O[o].used && O[o].kind == Memory(r)
  }

  /** Of every region as many copies were freed and are held by live objects as were granted:
      nothing leaks, nothing is freed twice. */
  ghost predicate Conserved(w: World) {
    forall r: Region :: multiset(w.freed)[r] + |Holders(w.O, r)| == multiset(w.granted)[r]
  }

  lemma HoldersUpdate(O: Objects, o: nat, x: Obj, r: Region)
    requires o < |O|
    ensures |Holders(O[o := x], r)| + (if O[o].used && O[o].kind == Memory(r) then 1 else 0)
            == |Holders(O, r)| + (if x.used && x.kind == Memory(r) then 1 else 0)
  {
    var P := O[o := x];
    var rest := Holders(O, r) - {o};
    forall i: nat
      ensures i in Holders(P, r) - {o} <==> i in rest
    {
    }
    WithOrWithout(Holders(P, r), o);
    WithOrWithout(Holders(O, r), o);
    assert Holders(P, r) - {o} == rest;
  }

  lemma WithOrWithout(s: set<nat>, o: nat)
    ensures |s| == |s - {o}| + (if o in s then 1 else 0)
  {
    if o in s { assert s == (s - {o}) + {o}; } else { assert s == s - {o}; }
  }

  lemma ConservedStep(w: World, w': World, o: nat, x: Obj, freed: seq<Region>, granted: seq<Region>)
    requires Conserved(w) && o < |w.O| && w'.O == w.O[o := x]
    requires w'.freed == w.freed + freed && w'.granted == w.granted + granted
    requires forall r: Region ::
               multiset(freed)[r] + (if x.used && x.kind == Memory(r) then 1 else 0)
               == multiset(granted)[r] + (if w.O[o].used && w.O[o].kind == Memory(r) then 1 else 0)
    ensures Conserved(w')
  {
    forall r: Region
      ensures multiset(w'.freed)[r] + |Holders(w'.O, r)| == multiset(w'.granted)[r]
    {
      HoldersUpdate(w.O, o, x, r);
    }
  }

  ghost predicate Good(w: World) {
    && Conserved(w)
    && exists depth: seq<nat>, age: seq<nat> :: WellFormed(w.S, w.O, depth, age)
  }

  /** Deleting leaf after leaf below `top` ends in the table `RevokedSlot` describes. */
  lemma {:induction false} RevokeRun(S0: Slots, O0: Objects, depth: seq<nat>, age: seq<nat>,
                                     S: Slots, O: Objects, top: nat, ops: nat)
    returns (R: Slots, P: Objects)
    requires WellFormed(S0, O0, depth, age) && WellFormed(S, O, depth, age)
    requires RevokeInv(S0, O0, S, O, top, ops)
    ensures WellFormed(R, P, depth, age) && |R| == |S0|
    ensures forall i: nat | i < |R| :: R[i] == RevokedSlot(S0, top, i)
    ensures
      var o := S0[top].obj;
      && O0[o].refcount > |DescSet(S0, top)|
      && P == O0[o := O0[o].(refcount := O0[o].refcount - |DescSet(S0, top)|)]
    decreases UsedSet(S)
  {
    if S[top].mdb.firstChild.None? {
      RevokeFinish(S0, O0, depth, age, S, O, depth, age, top, ops);
      R, P := S, O;
    } else {
      var child := S[top].mdb.firstChild.value;
      RevokeChild(S0, depth, age, S, depth, age, top, child);
      var k: nat :| k <= |S| && LeafAt(S, child, k);
      var leaf := Down(S, child, k).value;
      RevokeLeaf(S0, O0, depth, age, S, O, depth, age, top, child, leaf, k, ops);
      RevokeStep(S0, O0, depth, age, S, O, depth, age, top, leaf, ops);
      RemoveKeepsWellFormed(S, O, depth, age, leaf);
      R, P := RevokeRun(S0, O0, depth, age, Remove(S, leaf), DropRef(O, S0[top].obj), top, ops + 1);
    }
  }

  lemma InstallGood(w: World, w': World, i: nat, o: nat, kind: ObjectKind, rights: Rights)
    requires Good(w) && InstallStep(w, w', i, o, kind, rights)
    ensures Good(w')
  {
    var depth, age :| WellFormed(w.S, w.O, depth, age);
    InstallKeepsWellFormed(w.S, w.O, depth, age, i, o, kind, rights);
    ConservedStep(w, w', o, Obj(true, kind, 1, w.O[o].gen), [], if kind.Memory? then [kind.region] else []);
  }

  lemma RefusedInstallGood(w: World, w': World, o: nat, kind: ObjectKind)
    requires Good(w) && RefusedInstallStep(w, w', o, kind)
    ensures Good(w')
  {
    var depth, age :| WellFormed(w.S, w.O, depth, age);
    RollbackKeepsCounted(w.S, w.O, o, kind);
    forall j: nat | j < |w.S| && w.S[j].used
      ensures ConfinedAt(w'.S, w'.O, j)
    {
      assert ConfinedAt(w.S, w.O, j);
    }
    assert WellFormed(w'.S, w'.O, depth, age);
    ConservedStep(w, w', o, Obj(false, kind, 1, w.O[o].gen), [], []);
  }

  lemma DeriveWellFormed(w: World, w': World, s: nat, d: nat, rights: Rights, badge: nat, window: Option<Region>)
    returns (depth': seq<nat>, age': seq<nat>)
    requires Good(w) && DeriveStep(w, w', s, d, rights, badge, window)
    ensures WellFormed(w'.S, w'.O, depth', age')
  {
    var depth, age :| WellFormed(w.S, w.O, depth, age);
    assert ConfinedAt(w.S, w.O, s);
    depth', age' := DeriveKeepsWellFormed(w.S, w.O, depth, age, s, d, rights, badge, window);
  }

  lemma DeriveGood(w: World, w': World, s: nat, d: nat, rights: Rights, badge: nat, window: Option<Region>)
    requires Good(w) && DeriveStep(w, w', s, d, rights, badge, window)
    ensures Good(w')
  {
    var depth', age' := DeriveWellFormed(w, w', s, d, rights, badge, window);
    var o := w.S[s].obj;
    ConservedStep(w, w', o, w.O[o].(refcount := w.O[o].refcount + 1), [], []);
  }

  lemma MoveGood(w: World, w': World, s: nat, d: nat)
    requires Good(w) && MoveStep(w, w', s, d)
    ensures Good(w')
  {
    var depth, age :| WellFormed(w.S, w.O, depth, age);
    MoveKeepsWellFormed(w.S, w.O, depth, age, s, d);
    assert WellFormed(w'.S, w'.O, depth[d := depth[s]], age[d := age[s]]);
  }

  lemma DeleteConserved(w: World, w': World, s: nat)
    requires Conserved(w) && Counted(w.S, w.O) && DeleteStep(w, w', s)
    ensures Conserved(w')
  {
    var o := w.S[s].obj;
    var obj := w.O[o];
    ConservedStep(w, w', o, w'.O[o], if obj.refcount == 1 && obj.kind.Memory? then [obj.kind.region] else [], []);
  }

  lemma DeleteGood(w: World, w': World, s: nat)
    requires Good(w) && DeleteStep(w, w', s)
    ensures Good(w')
  {
    var depth, age :| WellFormed(w.S, w.O, depth, age);
    RemoveKeepsWellFormed(w.S, w.O, depth, age, s);
    DeleteConserved(w, w', s);
  }

  lemma RevokeGood(w: World, w': World, top: nat)
    requires Good(w) && RevokeStepTo(w, w', top)
    ensures Good(w')
  {
    var depth, age :| WellFormed(w.S, w.O, depth, age);
    RevokeStart(w.S, w.O, depth, age, top, [], 0, false);
    var R, P := RevokeRun(w.S, w.O, depth, age, w.S, w.O, top, 0);
    assert R == w'.S;
    assert WellFormed(w'.S, w'.O, depth, age);
    var o := w.S[top].obj;
    ConservedStep(w, w', o, w'.O[o], [], []);
  }

  lemma StepGood(w: World, w': World)
    requires Good(w) && Step(w, w')
    ensures Good(w')
  {
    if i: nat, o: nat, kind: ObjectKind, rights: Rights :| InstallStep(w, w', i, o, kind, rights) {
      InstallGood(w, w', i, o, kind, rights);
    } else if o: nat, kind: ObjectKind :| RefusedInstallStep(w, w', o, kind) {
      RefusedInstallGood(w, w', o, kind);
    } else if s: nat, d: nat, rights: Rights, badge: nat, window: Option<Region> :|
                DeriveStep(w, w', s, d, rights, badge, window) {
      DeriveGood(w, w', s, d, rights, badge, window);
    } else if s: nat, d: nat :| MoveStep(w, w', s, d) {
      MoveGood(w, w', s, d);
    } else if s: nat :| DeleteStep(w, w', s) {
      DeleteGood(w, w', s);
    } else if top: nat :| RevokeStepTo(w, w', top) {
      RevokeGood(w, w', top);
    }
  }

  /** Every run keeps the whole tree invariant and loses or doubles no granted memory. */
  lemma {:induction false} RunsStayGood(ws: seq<World>, n: nat)
    requires Run(ws) && n < |ws|
    ensures Good(ws[n])
    decreases n
  {
    if n == 0 {
      var w := ws[0];
      var zero := seq(|w.S|, _ => 0);
      assert forall r: Region :: Holders(w.O, r) == {};
      assert WellFormed(w.S, w.O, zero, zero);
    } else {
      RunsStayGood(ws, n - 1);
      assert StepAt(ws, n);
      StepGood(ws[n - 1], ws[n]);
    }
  }

  /** In no state of any run does a cap exceed a cap it was derived from. */
  lemma NoEscalationEver(ws: seq<World>, n: nat, top: nat, i: nat)
    requires Run(ws) && n < |ws| && Desc(ws[n].S, top, i)
    ensures
      var w := ws[n];
      && Live(w.S, i) && Live(w.S, top) && i != top
      && w.S[i].obj == w.S[top].obj < |w.O|
      && NoMore(Authority(w.S, w.O, i), Authority(w.S, w.O, top))
  {
    RunsStayGood(ws, n);
    var w := ws[n];
    var depth, age :| WellFormed(w.S, w.O, depth, age);
    NoEscalation(w.S, w.O, depth, age, top, i);
    NarrowsDown(w.S, w.O, depth, age, top, i);
  }

  /** With every cap gone, every granted region is back exactly once. */
  lemma AllReturned(ws: seq<World>, n: nat)
    requires Run(ws) && n < |ws| && forall i: nat | i < |ws[n].S| :: !ws[n].S[i].used
    ensures multiset(ws[n].freed) == multiset(ws[n].granted)
  {
    RunsStayGood(ws, n);
    var w := ws[n];
    var depth, age :| WellFormed(w.S, w.O, depth, age);
    assert forall o: nat :: RefSet(w.S, o) == {};
    assert forall o: nat | o < |w.O| :: !w.O[o].used;
    assert forall r: Region :: Holders(w.O, r) == {};
  }
}
