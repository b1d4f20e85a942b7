/** The tables behind the capability space, and what each operation on them keeps. */
module CapTables {
  import opened Wrappers

  // The slot table has the capability derivation tree threaded through it; the object table has the
  // reference counts.  Everything here is a value: `CapSpace` holds the same two tables in arrays and
  // changes them in place, and each of its methods is tied to a function of this module.

  // ---------------------------------------------------------------------------------------------
  // Data
  // ---------------------------------------------------------------------------------------------

  datatype Right = Read | Write | Exec
  type Rights = set<Right>

  datatype Region = Region(base: nat, len: nat)
  {
    function End(): nat { base + len }
    predicate Inside(outer: Region) { outer.base <= base && End() <= outer.End() }
  }

  /** `Plain` stands for every kind that is neither freed nor reported when its last cap goes
      (endpoints, threads, notifications, scheduling contexts, MMIO and interrupt authority, ...). */
  datatype ObjectKind =
    | Memory(region: Region)
    | Dma(phys: nat, len: nat)
    | Reply(ep: nat, caller: nat)
    | Debuggable(pd: nat)
    | Plain(tag: nat)

  datatype Links = Links(parent: Option<nat>, firstChild: Option<nat>,
                         next: Option<nat>, prev: Option<nat>)

  const NO_LINKS: Links := Links(None, None, None, None)

  datatype CapSlot = CapSlot(used: bool, gen: nat, obj: nat, rights: Rights, badge: nat,
                             window: Option<Region>, mdb: Links)

  datatype Obj = Obj(used: bool, kind: ObjectKind, refcount: nat, gen: nat)

  type Slots = seq<CapSlot>
  type Objects = seq<Obj>

  /** A 32-bit generation counter steps with wrap-around. */
  function NextGen(gen: nat): nat { (gen + 1) % U32_LIMIT }

  function Emptied(s: CapSlot): CapSlot {
    CapSlot(false, NextGen(s.gen), 0, {}, 0, None, NO_LINKS)
  }

  function EmptiedObj(o: Obj): Obj {
    Obj(false, Memory(Region(0, 0)), 0, NextGen(o.gen))
  }

  predicate Live(S: Slots, i: nat) { i < |S| && S[i].used }

  /** The region a memory cap authorises: its own window if it has one, else the whole object. */
  function Effective(kind: ObjectKind, window: Option<Region>): Option<Region> {
    match kind
    case Memory(r) => Some(if window.Some? then window.value else r)
    case _ => None
  }

  // ---------------------------------------------------------------------------------------------
  // Well-formedness
  // ---------------------------------------------------------------------------------------------

  // The link clauses at one slot.  `depth` falls strictly along `parent`, `age` along `next`: the
  // two certificates that neither chain can close a cycle.

  ghost predicate ParentOk(S: Slots, depth: seq<nat>, i: nat)
    requires i < |S| == |depth|
  {
    var m := S[i].mdb;
    if m.parent.None? then m.next.None? && m.prev.None?
    else
      && Live(S, m.parent.value)
      && S[m.parent.value].obj == S[i].obj
      && depth[m.parent.value] < depth[i]
      && (m.prev.None? ==> S[m.parent.value].mdb.firstChild == Some(i))
  }

  ghost predicate HeadOk(S: Slots, i: nat)
    requires i < |S|
  {
    var c := S[i].mdb.firstChild;
    c.Some? ==> Live(S, c.value) && S[c.value].mdb.parent == Some(i) && S[c.value].mdb.prev.None?
  }

  ghost predicate NextOk(S: Slots, age: seq<nat>, i: nat)
    requires i < |S| == |age|
  {
    var n := S[i].mdb.next;
    n.Some? ==>
      && Live(S, n.value)
      && S[n.value].mdb.prev == Some(i)
      && S[n.value].mdb.parent == S[i].mdb.parent
      && age[n.value] < age[i]
  }

  ghost predicate PrevOk(S: Slots, i: nat)
    requires i < |S|
  {
    var q := S[i].mdb.prev;
    q.Some? ==>
      Live(S, q.value) && S[q.value].mdb.next == Some(i) && S[q.value].mdb.parent == S[i].mdb.parent
  }

  ghost predicate SlotOk(S: Slots, depth: seq<nat>, age: seq<nat>, i: nat)
    requires i < |S| == |depth| == |age|
  {
    ParentOk(S, depth, i) && HeadOk(S, i) && NextOk(S, age, i) && PrevOk(S, i)
  }

  ghost predicate Linked(S: Slots, depth: seq<nat>, age: seq<nat>) {
    && |depth| == |age| == |S|
    && forall i: nat {:trigger SlotOk(S, depth, age, i)} | i < |S| && S[i].used :: SlotOk(S, depth, age, i)
  }

  /** The used slots that point at object `o`. */
  ghost function RefSet(S: Slots, o: nat): set<nat> {
    set i: nat | i < |S| && S[i].used && S[i].obj == o
  }

  ghost predicate Counted(S: Slots, O: Objects) {
    && (forall i: nat {:trigger S[i]} | i < |S| && S[i].used :: S[i].obj < |O| && O[S[i].obj].used)
    && (forall o: nat {:trigger O[o]} | o < |O| && O[o].used ::
          O[o].refcount == |RefSet(S, o)| && O[o].refcount > 0)
  }

  /** Deriving only ever narrows: a child's rights and its region lie inside its parent's. */
  ghost predicate ConfinedAt(S: Slots, O: Objects, i: nat)
    requires i < |S|
  {
    && S[i].obj < |O|
    && (S[i].window.Some? ==>
          O[S[i].obj].kind.Memory? && S[i].window.value.Inside(O[S[i].obj].kind.region))
    && (S[i].mdb.parent.Some? ==>
          var p := S[i].mdb.parent.value;
          && p < |S|
          && S[i].rights <= S[p].rights
          && (O[S[i].obj].kind.Memory? ==>
                Effective(O[S[i].obj].kind, S[i].window).value.Inside(
                  Effective(O[S[i].obj].kind, S[p].window).value)))
  }

  ghost predicate Confined(S: Slots, O: Objects) {
    forall i: nat {:trigger ConfinedAt(S, O, i)} | i < |S| && S[i].used :: ConfinedAt(S, O, i)
  }

  /** Everything a table keeps over every run. */
  ghost predicate WellFormed(S: Slots, O: Objects, depth: seq<nat>, age: seq<nat>) {
    Linked(S, depth, age) && Counted(S, O) && Confined(S, O)
  }

  // ---------------------------------------------------------------------------------------------
  // Operations on the tables
  // ---------------------------------------------------------------------------------------------

  /** The lowest free slot, as `position(|s| !s.used)` finds it. */
  ghost predicate IsFreeSlot(S: Slots, i: nat) {
    i < |S| && !S[i].used && forall j: nat | j < i :: S[j].used
  }

  ghost predicate IsFreeObj(O: Objects, o: nat) {
    o < |O| && !O[o].used && forall j: nat | j < o :: O[j].used
  }

  function FreshSlot(gen: nat, obj: nat, rights: Rights, badge: nat, window: Option<Region>): CapSlot {
    CapSlot(true, gen, obj, rights, badge, window, NO_LINKS)
  }

  predicate LinksInRange(S: Slots, i: nat)
    requires i < |S|
  {
    var m := S[i].mdb;
    && (m.parent.Some? ==> m.parent.value < |S|)
    && (m.firstChild.Some? ==> m.firstChild.value < |S|)
    && (m.next.Some? ==> m.next.value < |S|)
    && (m.prev.Some? ==> m.prev.value < |S|)
  }

  /** Hang `child` in front of the child list of `parent`. */
  function LinkChild(S: Slots, parent: nat, child: nat): (R: Slots)
    requires parent < |S| && child < |S| && LinksInRange(S, parent)
  {
    var first := S[parent].mdb.firstChild;
    var S1 := S[child := S[child].(mdb := S[child].mdb.(parent := Some(parent), prev := None, next := first))];
    var S2 := if first.Some?
              then S1[first.value := S1[first.value].(mdb := S1[first.value].mdb.(prev := Some(child)))]
              else S1;
    S2[parent := S2[parent].(mdb := S2[parent].mdb.(firstChild := Some(child)))]
  }

  /** Take `i` out of its sibling and child lists. */
  function Unlink(S: Slots, i: nat): (R: Slots)
    requires i < |S| && LinksInRange(S, i)
  {
    var m := S[i].mdb;
    var S1 :=
      if m.prev.Some? then
        S[m.prev.value := S[m.prev.value].(mdb := S[m.prev.value].mdb.(next := m.next))]
      else if m.parent.Some? then
        S[m.parent.value := S[m.parent.value].(mdb := S[m.parent.value].mdb.(firstChild := m.next))]
      else S;
    var S2 :=
      if m.next.Some? then
        S1[m.next.value := S1[m.next.value].(mdb := S1[m.next.value].mdb.(prev := m.prev))]
      else S1;
    S2[i := S2[i].(mdb := NO_LINKS)]
  }

  function Remove(S: Slots, i: nat): (R: Slots)
    requires i < |S| && LinksInRange(S, i)
  {
    Unlink(S, i)[i := Emptied(S[i])]
  }

  /** One reference less; the object goes with its last reference. */
  function DropRef(O: Objects, o: nat): (R: Objects)
    requires o < |O| && O[o].refcount > 0
  {
    if O[o].refcount == 1 then O[o := EmptiedObj(O[o])]
    else O[o := O[o].(refcount := O[o].refcount - 1)]
  }

  function AddRef(O: Objects, o: nat): (R: Objects)
    requires o < |O|
  {
    O[o := O[o].(refcount := O[o].refcount + 1)]
  }

  /** A new cap on the object of `src`, hung below `src`. */
  function Derived(S: Slots, src: nat, dst: nat, rights: Rights, badge: nat, window: Option<Region>): (R: Slots)
    requires src < |S| && dst < |S| && src != dst && LinksInRange(S, src)
  {
    LinkChild(S[dst := FreshSlot(S[dst].gen, S[src].obj, rights, badge, window)], src, dst)
  }

  function Renamed(l: Option<nat>, from: nat, to: nat): Option<nat> {
    if l == Some(from) then Some(to) else l
  }

  /** Every link that named `from` now names `to`; the content of `from` sits in `to`. */
  function Moved(S: Slots, from: nat, to: nat): (R: Slots)
    requires from < |S| && to < |S| && from != to
  {
    seq(|S|, i requires 0 <= i < |S| =>
      if i == to then S[from].(gen := S[to].gen)
      else if i == from then Emptied(S[from])
      else if S[i].used then
        S[i].(mdb := Links(Renamed(S[i].mdb.parent, from, to), Renamed(S[i].mdb.firstChild, from, to),
                           Renamed(S[i].mdb.next, from, to), Renamed(S[i].mdb.prev, from, to)))
      else S[i])
  }

  // ---------------------------------------------------------------------------------------------
  // Linking and unlinking keep the tree
  // ---------------------------------------------------------------------------------------------

  lemma Touch(S: Slots, depth: seq<nat>, age: seq<nat>, i: nat)
    requires Linked(S, depth, age) && Live(S, i)
    ensures ParentOk(S, depth, i) && HeadOk(S, i) && NextOk(S, age, i) && PrevOk(S, i)
    ensures LinksInRange(S, i)
  {
    assert SlotOk(S, depth, age, i);
  }

  function Bound(xs: seq<nat>): (b: nat)
    ensures forall i: nat | i < |xs| :: xs[i] <= b
  {
    if xs == [] then 0
    else
      var b := Bound(xs[..|xs| - 1]);
      assert forall i: nat | i < |xs| - 1 :: xs[i] == xs[..|xs| - 1][i];
      if b < xs[|xs| - 1] then xs[|xs| - 1] else b
  }

  /** A slot that is somebody's parent has a child list. */
  lemma {:induction false} ParentHasList(S: Slots, depth: seq<nat>, age: seq<nat>, i: nat)
    requires Linked(S, depth, age) && Live(S, i) && S[i].mdb.parent.Some?
    ensures Live(S, S[i].mdb.parent.value) && S[S[i].mdb.parent.value].mdb.firstChild.Some?
    decreases Bound(age) - age[i]
  {
    Touch(S, depth, age, i);
    if S[i].mdb.prev.Some? {
      Touch(S, depth, age, S[i].mdb.prev.value);
      ParentHasList(S, depth, age, S[i].mdb.prev.value);
    }
  }

  /** `R` is `S` with the new cap `cap` hung at the head of the child list of `src`. */
  ghost predicate IsDerived(S: Slots, R: Slots, src: nat, dst: nat, cap: CapSlot)
    requires src < |S|
  {
    && |R| == |S|
    && forall i: nat {:trigger R[i]} | i < |S| ::
         R[i] == if i == dst then cap.(mdb := Links(Some(src), None, S[src].mdb.firstChild, None))
                 else if i == src then S[src].(mdb := S[src].mdb.(firstChild := Some(dst)))
                 else if S[src].mdb.firstChild == Some(i) then S[i].(mdb := S[i].mdb.(prev := Some(dst)))
                 else S[i]
  }

  lemma DerivedShape(S: Slots, depth: seq<nat>, age: seq<nat>, src: nat, dst: nat,
                     rights: Rights, badge: nat, window: Option<Region>)
    requires Linked(S, depth, age) && Live(S, src) && dst < |S| && !S[dst].used
    ensures LinksInRange(S, src) && src != dst
    ensures IsDerived(S, Derived(S, src, dst, rights, badge, window), src, dst,
                      FreshSlot(S[dst].gen, S[src].obj, rights, badge, window))
  {
    Touch(S, depth, age, src);
    var first := S[src].mdb.firstChild;
    if first.Some? { Touch(S, depth, age, first.value); }
  }

  lemma DerivedParentOk(S: Slots, depth: seq<nat>, age: seq<nat>, src: nat, dst: nat, cap: CapSlot,
                        R: Slots, depth': seq<nat>, i: nat)
    requires Linked(S, depth, age) && Live(S, src) && dst < |S| && !S[dst].used
    requires cap.used && cap.obj == S[src].obj && IsDerived(S, R, src, dst, cap)
    requires i < |R| && R[i].used
    requires depth' == depth[dst := depth[src] + 1]
    ensures ParentOk(R, depth', i)
  {
    Touch(S, depth, age, src);
    if i != dst { Touch(S, depth, age, i); }
  }

  lemma DerivedHeadOk(S: Slots, depth: seq<nat>, age: seq<nat>, src: nat, dst: nat, cap: CapSlot,
                      R: Slots, i: nat)
    requires Linked(S, depth, age) && Live(S, src) && dst < |S| && !S[dst].used
    requires cap.used && cap.obj == S[src].obj && IsDerived(S, R, src, dst, cap)
    requires i < |R| && R[i].used
    ensures HeadOk(R, i)
  {
    Touch(S, depth, age, src);
    if i != dst { Touch(S, depth, age, i); }
  }

  lemma DerivedNextOk(S: Slots, depth: seq<nat>, age: seq<nat>, src: nat, dst: nat, cap: CapSlot,
                      R: Slots, age': seq<nat>, i: nat)
    requires Linked(S, depth, age) && Live(S, src) && dst < |S| && !S[dst].used
    requires cap.used && cap.obj == S[src].obj && IsDerived(S, R, src, dst, cap)
    requires i < |R| && R[i].used
    requires |age'| == |age| && forall j: nat | j < |S| && j != dst :: age'[j] == age[j]
    requires S[src].mdb.firstChild.Some? ==>
               S[src].mdb.firstChild.value < |S| && age'[dst] > age[S[src].mdb.firstChild.value]
    ensures NextOk(R, age', i)
  {
    Touch(S, depth, age, src);
    if i != dst { Touch(S, depth, age, i); }
  }

  lemma DerivedPrevOk(S: Slots, depth: seq<nat>, age: seq<nat>, src: nat, dst: nat, cap: CapSlot,
                      R: Slots, i: nat)
    requires Linked(S, depth, age) && Live(S, src) && dst < |S| && !S[dst].used
    requires cap.used && cap.obj == S[src].obj && IsDerived(S, R, src, dst, cap)
    requires i < |R| && R[i].used
    ensures PrevOk(R, i)
  {
    Touch(S, depth, age, src);
    if i != dst { Touch(S, depth, age, i); }
  }

  lemma DeriveKeepsLinked(S: Slots, depth: seq<nat>, age: seq<nat>, src: nat, dst: nat,
                          rights: Rights, badge: nat, window: Option<Region>)
    returns (depth': seq<nat>, age': seq<nat>)
    requires Linked(S, depth, age) && Live(S, src) && dst < |S| && !S[dst].used
    ensures LinksInRange(S, src) && src != dst
    ensures Linked(Derived(S, src, dst, rights, badge, window), depth', age')
  {
    DerivedShape(S, depth, age, src, dst, rights, badge, window);
    Touch(S, depth, age, src);
    var first := S[src].mdb.firstChild;
    depth' := depth[dst := depth[src] + 1];
    age' := age[dst := if first.Some? then age[first.value] + 1 else 0];
    var cap := FreshSlot(S[dst].gen, S[src].obj, rights, badge, window);
    var R := Derived(S, src, dst, rights, badge, window);
    forall i: nat | i < |R| && R[i].used
      ensures SlotOk(R, depth', age', i)
    {
      DerivedParentOk(S, depth, age, src, dst, cap, R, depth', i);
      DerivedHeadOk(S, depth, age, src, dst, cap, R, i);
      DerivedNextOk(S, depth, age, src, dst, cap, R, age', i);
      DerivedPrevOk(S, depth, age, src, dst, cap, R, i);
    }
  }

  /** `R` is `S` with the childless slot `i` taken out of its lists and released. */
  ghost predicate IsRemoved(S: Slots, R: Slots, i: nat)
    requires i < |S|
  {
    var m := S[i].mdb;
    && |R| == |S|
    && forall j: nat {:trigger R[j]} | j < |S| ::
         R[j] == if j == i then Emptied(S[i])
                 else if m.prev == Some(j) then S[j].(mdb := S[j].mdb.(next := m.next))
                 else if m.next == Some(j) then S[j].(mdb := S[j].mdb.(prev := m.prev))
                 else if m.prev.None? && m.parent == Some(j) then S[j].(mdb := S[j].mdb.(firstChild := m.next))
                 else S[j]
  }

  lemma RemovedShape(S: Slots, depth: seq<nat>, age: seq<nat>, i: nat)
    requires Linked(S, depth, age) && Live(S, i)
    ensures LinksInRange(S, i)
    ensures IsRemoved(S, Remove(S, i), i)
  {
    Touch(S, depth, age, i);
    var m := S[i].mdb;
    if m.next.Some? { Touch(S, depth, age, m.next.value); }
    if m.prev.Some? { Touch(S, depth, age, m.prev.value); }
    if m.parent.Some? { Touch(S, depth, age, m.parent.value); }
  }

  lemma RemovedParentOk(S: Slots, depth: seq<nat>, age: seq<nat>, i: nat, R: Slots, j: nat)
    requires Linked(S, depth, age) && Live(S, i) && S[i].mdb.firstChild.None?
    requires IsRemoved(S, R, i) && j < |R| && R[j].used
    ensures |R| == |depth| && ParentOk(R, depth, j)
  {
    Touch(S, depth, age, i);
    Touch(S, depth, age, j);
    if S[j].mdb.parent.Some? { ParentHasList(S, depth, age, j); }
    if S[i].mdb.next.Some? { Touch(S, depth, age, S[i].mdb.next.value); }
    if S[i].mdb.prev.Some? { Touch(S, depth, age, S[i].mdb.prev.value); }
  }

  lemma RemovedHeadOk(S: Slots, depth: seq<nat>, age: seq<nat>, i: nat, R: Slots, j: nat)
    requires Linked(S, depth, age) && Live(S, i) && S[i].mdb.firstChild.None?
    requires IsRemoved(S, R, i) && j < |R| && R[j].used
    ensures HeadOk(R, j)
  {
    Touch(S, depth, age, i);
    Touch(S, depth, age, j);
    if S[i].mdb.next.Some? { Touch(S, depth, age, S[i].mdb.next.value); }
    if S[i].mdb.prev.Some? { Touch(S, depth, age, S[i].mdb.prev.value); }
    if S[j].mdb.firstChild.Some? { Touch(S, depth, age, S[j].mdb.firstChild.value); }
  }

  lemma RemovedNextOk(S: Slots, depth: seq<nat>, age: seq<nat>, i: nat, R: Slots, j: nat)
    requires Linked(S, depth, age) && Live(S, i) && S[i].mdb.firstChild.None?
    requires IsRemoved(S, R, i) && j < |R| && R[j].used
    ensures |R| == |age| && NextOk(R, age, j)
  {
    Touch(S, depth, age, i);
    Touch(S, depth, age, j);
    if S[i].mdb.next.Some? { Touch(S, depth, age, S[i].mdb.next.value); }
    if S[i].mdb.prev.Some? { Touch(S, depth, age, S[i].mdb.prev.value); }
  }

  lemma RemovedPrevOk(S: Slots, depth: seq<nat>, age: seq<nat>, i: nat, R: Slots, j: nat)
    requires Linked(S, depth, age) && Live(S, i) && S[i].mdb.firstChild.None?
    requires IsRemoved(S, R, i) && j < |R| && R[j].used
    ensures PrevOk(R, j)
  {
    Touch(S, depth, age, i);
    Touch(S, depth, age, j);
    if S[i].mdb.next.Some? { Touch(S, depth, age, S[i].mdb.next.value); }
    if S[i].mdb.prev.Some? { Touch(S, depth, age, S[i].mdb.prev.value); }
  }

  lemma RemoveKeepsLinked(S: Slots, depth: seq<nat>, age: seq<nat>, i: nat)
    requires Linked(S, depth, age) && Live(S, i) && S[i].mdb.firstChild.None?
    ensures LinksInRange(S, i)
    ensures Linked(Remove(S, i), depth, age)
  {
    RemovedShape(S, depth, age, i);
    var R := Remove(S, i);
    forall j: nat | j < |R| && R[j].used
      ensures SlotOk(R, depth, age, j)
    {
      RemovedParentOk(S, depth, age, i, R, j);
      RemovedHeadOk(S, depth, age, i, R, j);
      RemovedNextOk(S, depth, age, i, R, j);
      RemovedPrevOk(S, depth, age, i, R, j);
    }
  }

  lemma MovedParentOk(S: Slots, depth: seq<nat>, age: seq<nat>, from: nat, to: nat, R: Slots, j: nat)
    requires Linked(S, depth, age) && Live(S, from) && to < |S| && !S[to].used
    requires R == Moved(S, from, to) && j < |R| && R[j].used
    ensures |R| == |depth| && ParentOk(R, depth[to := depth[from]], j)
  {
    Touch(S, depth, age, from);
    var o := if j == to then from else j;
    Touch(S, depth, age, o);
  }

  lemma MovedHeadOk(S: Slots, depth: seq<nat>, age: seq<nat>, from: nat, to: nat, R: Slots, j: nat)
    requires Linked(S, depth, age) && Live(S, from) && to < |S| && !S[to].used
    requires R == Moved(S, from, to) && j < |R| && R[j].used
    ensures HeadOk(R, j)
  {
    Touch(S, depth, age, from);
    var o := if j == to then from else j;
    Touch(S, depth, age, o);
  }

  lemma MovedNextOk(S: Slots, depth: seq<nat>, age: seq<nat>, from: nat, to: nat, R: Slots, j: nat)
    requires Linked(S, depth, age) && Live(S, from) && to < |S| && !S[to].used
    requires R == Moved(S, from, to) && j < |R| && R[j].used
    ensures |R| == |age| && NextOk(R, age[to := age[from]], j)
  {
    Touch(S, depth, age, from);
    var o := if j == to then from else j;
    Touch(S, depth, age, o);
  }

  lemma MovedPrevOk(S: Slots, depth: seq<nat>, age: seq<nat>, from: nat, to: nat, R: Slots, j: nat)
    requires Linked(S, depth, age) && Live(S, from) && to < |S| && !S[to].used
    requires R == Moved(S, from, to) && j < |R| && R[j].used
    ensures PrevOk(R, j)
  {
    Touch(S, depth, age, from);
    var o := if j == to then from else j;
    Touch(S, depth, age, o);
  }

  lemma MoveKeepsLinked(S: Slots, depth: seq<nat>, age: seq<nat>, from: nat, to: nat)
    requires Linked(S, depth, age) && Live(S, from) && to < |S| && !S[to].used
    ensures Linked(Moved(S, from, to), depth[to := depth[from]], age[to := age[from]])
  {
    var R := Moved(S, from, to);
    forall j: nat | j < |R| && R[j].used
      ensures SlotOk(R, depth[to := depth[from]], age[to := age[from]], j)
    {
      MovedParentOk(S, depth, age, from, to, R, j);
      MovedHeadOk(S, depth, age, from, to, R, j);
      MovedNextOk(S, depth, age, from, to, R, j);
      MovedPrevOk(S, depth, age, from, to, R, j);
    }
  }

  lemma InstallKeepsLinked(S: Slots, depth: seq<nat>, age: seq<nat>, i: nat, cap: CapSlot)
    requires Linked(S, depth, age) && i < |S| && !S[i].used && cap.used && cap.mdb == NO_LINKS
    ensures Linked(S[i := cap], depth, age)
  {
    var R := S[i := cap];
    forall j: nat | j < |R| && R[j].used
      ensures SlotOk(R, depth, age, j)
    {
      if j != i { Touch(S, depth, age, j); }
      assert ParentOk(R, depth, j);
      assert HeadOk(R, j);
      assert NextOk(R, age, j);
      assert PrevOk(R, j);
    }
  }

  // ---------------------------------------------------------------------------------------------
  // Counting and confinement
  // ---------------------------------------------------------------------------------------------

  lemma InstallKeepsCounted(S: Slots, O: Objects, i: nat, o: nat, kind: ObjectKind, rights: Rights)
    requires Counted(S, O) && i < |S| && !S[i].used && o < |O| && !O[o].used
    ensures Counted(S[i := FreshSlot(S[i].gen, o, rights, 0, None)], O[o := Obj(true, kind, 1, O[o].gen)])
  {
    var R, P := S[i := FreshSlot(S[i].gen, o, rights, 0, None)], O[o := Obj(true, kind, 1, O[o].gen)];
    forall x: nat | x < |P| && P[x].used
      ensures P[x].refcount == |RefSet(R, x)| && P[x].refcount > 0
    {
      if x == o {
        assert RefSet(R, x) == {i};
      } else {
        assert RefSet(R, x) == RefSet(S, x);
      }
    }
  }

  /** The rollback of an install that found an object but no slot. */
  lemma RollbackKeepsCounted(S: Slots, O: Objects, o: nat, kind: ObjectKind)
    requires Counted(S, O) && o < |O| && !O[o].used
    ensures Counted(S, O[o := Obj(false, kind, 1, O[o].gen)])
  {
  }

  lemma DeriveKeepsCounted(S: Slots, O: Objects, R: Slots, src: nat, dst: nat, cap: CapSlot)
    requires Counted(S, O) && Live(S, src) && dst < |S| && !S[dst].used
    requires cap.used && cap.obj == S[src].obj && IsDerived(S, R, src, dst, cap)
    ensures S[src].obj < |O| && Counted(R, AddRef(O, S[src].obj))
  {
    var o := S[src].obj;
    var P := AddRef(O, o);
    forall x: nat | x < |P| && P[x].used
      ensures P[x].refcount == |RefSet(R, x)| && P[x].refcount > 0
    {
      if x == o {
        assert RefSet(R, x) == RefSet(S, x) + {dst};
      } else {
        assert RefSet(R, x) == RefSet(S, x);
      }
    }
  }

  lemma RemoveKeepsCounted(S: Slots, O: Objects, R: Slots, i: nat)
    requires Counted(S, O) && Live(S, i) && IsRemoved(S, R, i)
    ensures S[i].obj < |O| && O[S[i].obj].refcount > 0 && Counted(R, DropRef(O, S[i].obj))
  {
    var o := S[i].obj;
    var P := DropRef(O, o);
    assert RefSet(R, o) == RefSet(S, o) - {i};
    assert i in RefSet(S, o);
    if O[o].refcount == 1 {
      assert RefSet(R, o) == {};
      assert forall j: nat | j < |R| && R[j].used && R[j].obj == o :: j in RefSet(R, o);
    }
    forall x: nat | x < |P| && P[x].used
      ensures P[x].refcount == |RefSet(R, x)| && P[x].refcount > 0
    {
      if x != o {
        assert RefSet(R, x) == RefSet(S, x);
      }
    }
  }

  lemma MovedContent(S: Slots, from: nat, to: nat, i: nat)
    requires Live(S, from) && to < |S| && !S[to].used && i < |S|
    ensures
      var R := Moved(S, from, to);
      var o := if i == to then from else i;
      && R[i].used == (i != from && S[o].used)
      && (R[i].used ==> R[i].obj == S[o].obj)
  {
  }

  lemma MovedRefSet(S: Slots, from: nat, to: nat, x: nat)
    requires Live(S, from) && to < |S| && !S[to].used
    ensures RefSet(Moved(S, from, to), x) ==
            if x == S[from].obj then RefSet(S, x) - {from} + {to} else RefSet(S, x)
  {
    var R := Moved(S, from, to);
    forall i: nat | i < |S|
      ensures i in RefSet(R, x) <==> (i == to && S[from].obj == x) || (i != from && i in RefSet(S, x))
    {
      MovedContent(S, from, to, i);
    }
  }

  lemma MoveKeepsCounted(S: Slots, O: Objects, from: nat, to: nat)
    requires Counted(S, O) && Live(S, from) && to < |S| && !S[to].used
    ensures Counted(Moved(S, from, to), O)
  {
    var R := Moved(S, from, to);
    forall i: nat | i < |R| && R[i].used
      ensures R[i].obj < |O| && O[R[i].obj].used
    {
      MovedContent(S, from, to, i);
    }
    forall x: nat | x < |O| && O[x].used
      ensures O[x].refcount == |RefSet(R, x)| && O[x].refcount > 0
    {
      MovedRefSet(S, from, to, x);
      assert x == S[from].obj ==> from in RefSet(S, x);
    }
  }

  lemma InstallKeepsConfined(S: Slots, O: Objects, i: nat, o: nat, kind: ObjectKind, rights: Rights)
    requires Counted(S, O) && Confined(S, O) && i < |S| && !S[i].used && o < |O| && !O[o].used
    requires forall j: nat | j < |S| && S[j].used && S[j].mdb.parent.Some? :: Live(S, S[j].mdb.parent.value)
    ensures Confined(S[i := FreshSlot(S[i].gen, o, rights, 0, None)], O[o := Obj(true, kind, 1, O[o].gen)])
  {
    var R, P := S[i := FreshSlot(S[i].gen, o, rights, 0, None)], O[o := Obj(true, kind, 1, O[o].gen)];
    forall j: nat | j < |R| && R[j].used
      ensures ConfinedAt(R, P, j)
    {
      if j != i { assert ConfinedAt(S, O, j); }
    }
  }

  lemma DeriveKeepsConfined(S: Slots, O: Objects, R: Slots, src: nat, dst: nat, cap: CapSlot)
    requires Counted(S, O) && Confined(S, O) && Live(S, src) && dst < |S| && !S[dst].used
    requires forall j: nat | j < |S| && S[j].used && S[j].mdb.parent.Some? :: Live(S, S[j].mdb.parent.value)
    requires cap.used && cap.obj == S[src].obj && IsDerived(S, R, src, dst, cap)
    requires cap.rights <= S[src].rights
    requires cap.window.Some? ==>
               && O[S[src].obj].kind.Memory?
               && cap.window.value.Inside(Effective(O[S[src].obj].kind, S[src].window).value)
    requires cap.window.None? ==> S[src].window.None?
    ensures Confined(R, AddRef(O, S[src].obj))
  {
    assert ConfinedAt(S, O, src);
    var P := AddRef(O, S[src].obj);
    assert R[src].rights == S[src].rights && R[src].window == S[src].window;
    assert R[dst].mdb.parent == Some(src) && R[dst].obj == S[src].obj && R[dst].rights == cap.rights;
    assert R[dst].window == cap.window;
    forall j: nat | j < |R| && R[j].used
      ensures ConfinedAt(R, P, j)
    {
      if j != dst {
        assert ConfinedAt(S, O, j) && S[j].used;
        if S[j].mdb.parent.Some? { assert Live(S, S[j].mdb.parent.value); }
        StaysConfined(S, O, R, P, j);
      }
    }
  }

  /** Only what a cap authorises, its parent's and the object's kind matter. */
  lemma StaysConfined(S: Slots, O: Objects, R: Slots, P: Objects, j: nat)
    requires j < |R| == |S| && ConfinedAt(S, O, j)
    requires R[j].obj == S[j].obj && R[j].rights == S[j].rights && R[j].window == S[j].window
    requires R[j].mdb.parent == S[j].mdb.parent
    requires S[j].mdb.parent.Some? ==>
               var p := S[j].mdb.parent.value;
               R[p].rights == S[p].rights && R[p].window == S[p].window
    requires |P| == |O| && P[S[j].obj].kind == O[S[j].obj].kind
    ensures ConfinedAt(R, P, j)
  {
  }

  lemma RemoveKeepsConfined(S: Slots, O: Objects, R: Slots, i: nat)
    requires Counted(S, O) && Confined(S, O) && Live(S, i) && IsRemoved(S, R, i)
    requires forall j: nat | j < |S| && S[j].used && S[j].mdb.parent.Some? ::
               Live(S, S[j].mdb.parent.value) && S[j].mdb.parent.value != i
    ensures S[i].obj < |O| && O[S[i].obj].refcount > 0 && Confined(R, DropRef(O, S[i].obj))
  {
    RemoveKeepsCounted(S, O, R, i);
    var P := DropRef(O, S[i].obj);
    forall j: nat | j < |R| && R[j].used
      ensures ConfinedAt(R, P, j)
    {
      assert ConfinedAt(S, O, j);
      assert R[j].obj == S[j].obj && P[R[j].obj].used;
      StaysConfined(S, O, R, P, j);
    }
  }

  lemma MoveKeepsConfined(S: Slots, O: Objects, from: nat, to: nat)
    requires Confined(S, O) && Live(S, from) && to < |S| && !S[to].used
    requires forall j: nat | j < |S| && S[j].used && S[j].mdb.parent.Some? ::
               Live(S, S[j].mdb.parent.value) && S[j].mdb.parent.value != j
    ensures Confined(Moved(S, from, to), O)
  {
    var R := Moved(S, from, to);
    forall j: nat | j < |R| && R[j].used
      ensures ConfinedAt(R, O, j)
    {
      var o := if j == to then from else j;
      assert ConfinedAt(S, O, o);
    }
  }

  // ---------------------------------------------------------------------------------------------
  // Every operation keeps the whole invariant
  // ---------------------------------------------------------------------------------------------

  lemma ParentsLive(S: Slots, depth: seq<nat>, age: seq<nat>)
    requires Linked(S, depth, age)
    ensures forall j: nat | j < |S| && S[j].used && S[j].mdb.parent.Some? ::
              Live(S, S[j].mdb.parent.value) && S[j].mdb.parent.value != j
  {
    forall j: nat | j < |S| && S[j].used && S[j].mdb.parent.Some?
      ensures Live(S, S[j].mdb.parent.value) && S[j].mdb.parent.value != j
    {
      Touch(S, depth, age, j);
    }
  }

  lemma NobodyBelow(S: Slots, depth: seq<nat>, age: seq<nat>, i: nat)
    requires Linked(S, depth, age) && Live(S, i) && S[i].mdb.firstChild.None?
    ensures forall j: nat | j < |S| && S[j].used :: S[j].mdb.parent != Some(i)
  {
    forall j: nat | j < |S| && S[j].used
      ensures S[j].mdb.parent != Some(i)
    {
      if S[j].mdb.parent == Some(i) { ParentHasList(S, depth, age, j); }
    }
  }

  /** `install`: a new object and a root cap on it. */
  lemma InstallKeepsWellFormed(S: Slots, O: Objects, depth: seq<nat>, age: seq<nat>,
                               i: nat, o: nat, kind: ObjectKind, rights: Rights)
    requires WellFormed(S, O, depth, age) && i < |S| && !S[i].used && o < |O| && !O[o].used
    ensures WellFormed(S[i := FreshSlot(S[i].gen, o, rights, 0, None)],
                       O[o := Obj(true, kind, 1, O[o].gen)], depth, age)
  {
    ParentsLive(S, depth, age);
    InstallKeepsLinked(S, depth, age, i, FreshSlot(S[i].gen, o, rights, 0, None));
    InstallKeepsCounted(S, O, i, o, kind, rights);
    InstallKeepsConfined(S, O, i, o, kind, rights);
  }

  /** `copy`, `mint` and `subregion`: a child cap with no more rights and no larger region. */
  lemma DeriveKeepsWellFormed(S: Slots, O: Objects, depth: seq<nat>, age: seq<nat>, src: nat, dst: nat,
                              rights: Rights, badge: nat, window: Option<Region>)
    returns (depth': seq<nat>, age': seq<nat>)
    requires WellFormed(S, O, depth, age) && Live(S, src) && dst < |S| && !S[dst].used
    requires rights <= S[src].rights && S[src].obj < |O|
    requires window.Some? ==>
               && O[S[src].obj].kind.Memory?
               && window.value.Inside(Effective(O[S[src].obj].kind, S[src].window).value)
    requires window.None? ==> S[src].window.None?
    ensures LinksInRange(S, src) && src != dst
    ensures WellFormed(Derived(S, src, dst, rights, badge, window), AddRef(O, S[src].obj), depth', age')
  {
    ParentsLive(S, depth, age);
    depth', age' := DeriveKeepsLinked(S, depth, age, src, dst, rights, badge, window);
    DerivedShape(S, depth, age, src, dst, rights, badge, window);
    var cap := FreshSlot(S[dst].gen, S[src].obj, rights, badge, window);
    DeriveKeepsCounted(S, O, Derived(S, src, dst, rights, badge, window), src, dst, cap);
    DeriveKeepsConfined(S, O, Derived(S, src, dst, rights, badge, window), src, dst, cap);
  }

  /** `delete` of a leaf. */
  lemma RemoveKeepsWellFormed(S: Slots, O: Objects, depth: seq<nat>, age: seq<nat>, i: nat)
    requires WellFormed(S, O, depth, age) && Live(S, i) && S[i].mdb.firstChild.None?
    ensures LinksInRange(S, i) && S[i].obj < |O| && O[S[i].obj].refcount > 0
    ensures WellFormed(Remove(S, i), DropRef(O, S[i].obj), depth, age)
  {
    ParentsLive(S, depth, age);
    NobodyBelow(S, depth, age, i);
    RemoveKeepsLinked(S, depth, age, i);
    RemovedShape(S, depth, age, i);
    RemoveKeepsCounted(S, O, Remove(S, i), i);
    RemoveKeepsConfined(S, O, Remove(S, i), i);
  }

  /** `move_cap`: the cap changes its slot, the tree keeps its shape. */
  lemma MoveKeepsWellFormed(S: Slots, O: Objects, depth: seq<nat>, age: seq<nat>, from: nat, to: nat)
    requires WellFormed(S, O, depth, age) && Live(S, from) && to < |S| && !S[to].used
    ensures WellFormed(Moved(S, from, to), O, depth[to := depth[from]], age[to := age[from]])
  {
    ParentsLive(S, depth, age);
    MoveKeepsLinked(S, depth, age, from, to);
    MoveKeepsCounted(S, O, from, to);
    MoveKeepsConfined(S, O, from, to);
  }
}
