/** What the caps of a table authorise, and what each operation on the table changes about it. */
module CapAuthority {
  import opened Wrappers
  import opened CapTables
  import opened CapTree

  /** Kind -- a memory object narrowed to what the cap may see of it --, rights and badge. */
  function Authority(S: Slots, O: Objects, i: nat): (ObjectKind, Rights, nat)
    requires i < |S| && S[i].obj < |O|
  {
    var kind := O[S[i].obj].kind;
    (if kind.Memory? then Memory(Effective(kind, S[i].window).value) else kind, S[i].rights, S[i].badge)
  }

  /** The second authorises whatever the first does: on one object, with no right and no byte more. */
  predicate NoMore(below: (ObjectKind, Rights, nat), above: (ObjectKind, Rights, nat)) {
    && below.1 <= above.1
    && if above.0.Memory? then below.0.Memory? && below.0.region.Inside(above.0.region) else below.0 == above.0
  }

  /** The cap in slot `i` is the same cap with the same authority. */
  ghost predicate Untouched(S: Slots, O: Objects, R: Slots, P: Objects, i: nat)
    requires i < |S| == |R|
  {
    && R[i].used && R[i].gen == S[i].gen && R[i].obj < |P| && S[i].obj < |O|
    && Authority(R, P, i) == Authority(S, O, i)
  }

  /** Every cap outside `gone` is untouched. */
  ghost predicate AllUntouched(S: Slots, O: Objects, R: Slots, P: Objects, gone: set<nat>) {
    |R| == |S| && forall i: nat | i < |S| && S[i].used && i !in gone :: Untouched(S, O, R, P, i)
  }

  lemma Stays(S: Slots, O: Objects, R: Slots, P: Objects, i: nat)
    requires Counted(S, O) && |R| == |S| && Live(S, i) && |P| == |O| && P[S[i].obj].kind == O[S[i].obj].kind
    requires R[i] == S[i].(mdb := R[i].mdb)
    ensures Untouched(S, O, R, P, i)
  {
  }

  lemma InstalledAuthority(S: Slots, O: Objects, i: nat, o: nat, kind: ObjectKind, rights: Rights)
    requires Counted(S, O) && i < |S| && !S[i].used && o < |O| && !O[o].used
    ensures
      var R, P := S[i := FreshSlot(S[i].gen, o, rights, 0, None)], O[o := Obj(true, kind, 1, O[o].gen)];
      Authority(R, P, i) == (kind, rights, 0) && AllUntouched(S, O, R, P, {})
  {
    var R, P := S[i := FreshSlot(S[i].gen, o, rights, 0, None)], O[o := Obj(true, kind, 1, O[o].gen)];
    forall j: nat | j < |S| && S[j].used
      ensures Untouched(S, O, R, P, j)
    {
      Stays(S, O, R, P, j);
    }
  }

  /** A derived cap has the rights, the badge and the part of the object it was made with. */
  lemma DerivedAuthority(S: Slots, O: Objects, depth: seq<nat>, age: seq<nat>, src: nat, dst: nat, rights: Rights,
                         badge: nat, window: Option<Region>, R: Slots, P: Objects)
    requires WellFormed(S, O, depth, age) && Live(S, src) && dst < |S| && !S[dst].used
    requires LinksInRange(S, src) && src != dst && R == Derived(S, src, dst, rights, badge, window)
    requires S[src].obj < |O| && P == AddRef(O, S[src].obj)
    ensures R[dst].obj == S[src].obj && R[dst].window == window && AllUntouched(S, O, R, P, {})
    ensures
      var kind := O[S[src].obj].kind;
      Authority(R, P, dst) == (if kind.Memory? && window.Some? then Memory(window.value) else kind, rights, badge)
  {
    DerivedShape(S, depth, age, src, dst, rights, badge, window);
    forall j: nat | j < |S| && S[j].used
      ensures Untouched(S, O, R, P, j)
    {
      Stays(S, O, R, P, j);
    }
  }

  /** A moved cap authorises in its new slot what it authorised in the old one. */
  lemma MovedAuthority(S: Slots, O: Objects, from: nat, to: nat)
    requires Counted(S, O) && Live(S, from) && to < |S| && !S[to].used
    ensures
      var R := Moved(S, from, to);
      && S[from].obj < |O| && R[to].obj < |O| && Authority(R, O, to) == Authority(S, O, from)
      && AllUntouched(S, O, R, O, {from})
  {
    var R := Moved(S, from, to);
    forall j: nat | j < |S| && S[j].used && j != from
      ensures Untouched(S, O, R, O, j)
    {
      Stays(S, O, R, O, j);
    }
  }

  /** The object goes only with its last cap. */
  lemma DroppedKind(S: Slots, O: Objects, i: nat, j: nat)
    requires Counted(S, O) && Live(S, i) && Live(S, j) && i != j
    ensures
      && S[i].obj < |O| && O[S[i].obj].refcount > 0 && S[j].obj < |O|
      && DropRef(O, S[i].obj)[S[j].obj].kind == O[S[j].obj].kind
  {
    if S[j].obj == S[i].obj {
      var o := S[i].obj;
      assert O[o].refcount == |RefSet(S, o)|;
      SubsetSize({i, j}, RefSet(S, o));
    }
  }

  lemma RemovedAuthority(S: Slots, O: Objects, depth: seq<nat>, age: seq<nat>, i: nat, R: Slots, P: Objects)
    requires WellFormed(S, O, depth, age) && Live(S, i) && S[i].mdb.firstChild.None?
    requires LinksInRange(S, i) && R == Remove(S, i)
    requires S[i].obj < |O| && O[S[i].obj].refcount > 0 && P == DropRef(O, S[i].obj)
    ensures !R[i].used && AllUntouched(S, O, R, P, {i})
  {
    RemovedShape(S, depth, age, i);
    forall j: nat | j < |S| && S[j].used && j != i
      ensures Untouched(S, O, R, P, j)
    {
      DroppedKind(S, O, i, j);
      Stays(S, O, R, P, j);
    }
  }

  /** A revoke leaves every cap alone that is not below the revoked one. */
  lemma RevokedAuthority(S: Slots, O: Objects, top: nat, R: Slots, P: Objects)
    requires Counted(S, O) && Live(S, top) && |R| == |S| && !Desc(S, top, top)
    requires forall i: nat | i < |S| :: R[i] == RevokedSlot(S, top, i)
    requires |P| == |O| && forall o: nat | o < |O| :: P[o].kind == O[o].kind
    ensures AllUntouched(S, O, R, P, DescSet(S, top)) && forall i: nat | i in DescSet(S, top) :: !R[i].used
  {
    forall j: nat | j < |S| && S[j].used && j !in DescSet(S, top)
      ensures Untouched(S, O, R, P, j)
    {
      Stays(S, O, R, P, j);
    }
  }

  /** What lies below a cap, at any distance, authorises no other object, no further right and no byte more. */
  lemma NarrowsDown(S: Slots, O: Objects, depth: seq<nat>, age: seq<nat>, top: nat, i: nat)
    requires WellFormed(S, O, depth, age) && Desc(S, top, i)
    ensures Live(S, i) && Live(S, top) && S[i].obj < |O| && S[top].obj < |O|
    ensures NoMore(Authority(S, O, i), Authority(S, O, top))
  {
    NoEscalation(S, O, depth, age, top, i);
  }
}
