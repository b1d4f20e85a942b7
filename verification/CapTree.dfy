/**
  The derivation tree as a relation: which caps lie below a cap, what a derivation can never gain,
  and what revoking a cap does to the whole table.
 */
module CapTree {
  import opened Wrappers
  import opened CapTables

  // ---------------------------------------------------------------------------------------------
  // Descendants
  // ---------------------------------------------------------------------------------------------

  /** `i` lies at most `k` parent steps below `top`. */
  ghost predicate Under(S: Slots, top: nat, i: nat, k: nat)
    decreases k
  {
    && k > 0
    && Live(S, i)
    && S[i].mdb.parent.Some?
    && (S[i].mdb.parent.value == top || Under(S, top, S[i].mdb.parent.value, k - 1))
  }

  /** `i` is a proper descendant of `top`. */
  ghost predicate Desc(S: Slots, top: nat, i: nat) {
    exists k: nat :: Under(S, top, i, k)
  }

  ghost function DescSet(S: Slots, top: nat): set<nat> {
    set i: nat | i < |S| && Desc(S, top, i)
  }

  lemma DescStep(S: Slots, top: nat, i: nat)
    requires Live(S, i) && S[i].mdb.parent.Some?
    ensures Desc(S, top, i) <==> S[i].mdb.parent.value == top || Desc(S, top, S[i].mdb.parent.value)
  {
    var p := S[i].mdb.parent.value;
    if Desc(S, top, i) {
      var k: nat :| Under(S, top, i, k);
      if p != top { assert Under(S, top, p, k - 1); }
    }
    if p == top {
      assert Under(S, top, i, 1);
    } else if Desc(S, top, p) {
      var k: nat :| Under(S, top, p, k);
      assert Under(S, top, i, k + 1);
    }
  }

  /** A descendant shares its ancestor's object, is strictly deeper, and holds no right and no
      byte of memory its ancestor does not hold: deriving never escalates, over any distance. */
  lemma {:induction false} NoEscalation(S: Slots, O: Objects, depth: seq<nat>, age: seq<nat>, top: nat, i: nat)
    requires WellFormed(S, O, depth, age) && Desc(S, top, i)
    ensures Live(S, i) && Live(S, top) && S[i].obj == S[top].obj < |O| && O[S[i].obj].used
    ensures depth[top] < depth[i]
    ensures S[i].rights <= S[top].rights
    ensures O[S[top].obj].kind.Memory? ==>
              Effective(O[S[top].obj].kind, S[i].window).value.Inside(
                Effective(O[S[top].obj].kind, S[top].window).value)
    decreases depth[i]
  {
    var k: nat :| Under(S, top, i, k);
    Touch(S, depth, age, i);
    var p := S[i].mdb.parent.value;
    assert ConfinedAt(S, O, i);
    if p != top {
      assert Under(S, top, p, k - 1);
      NoEscalation(S, O, depth, age, top, p);
    }
  }

  lemma {:induction false} DescDeeper(S: Slots, depth: seq<nat>, age: seq<nat>, top: nat, i: nat)
    requires Linked(S, depth, age) && Desc(S, top, i)
    ensures Live(S, i) && Live(S, top) && S[i].obj == S[top].obj && depth[top] < depth[i]
    decreases depth[i]
  {
    var k: nat :| Under(S, top, i, k);
    Touch(S, depth, age, i);
    if S[i].mdb.parent.value != top {
      assert Under(S, top, S[i].mdb.parent.value, k - 1);
      DescDeeper(S, depth, age, top, S[i].mdb.parent.value);
    }
  }

  /** The parent chain closes no cycle, of any length. */
  lemma NotBelowItself(S: Slots, depth: seq<nat>, age: seq<nat>, i: nat)
    requires Linked(S, depth, age)
    ensures !Desc(S, i, i)
  {
    if Desc(S, i, i) { DescDeeper(S, depth, age, i, i); }
  }

  // ---------------------------------------------------------------------------------------------
  // Child lists
  // ---------------------------------------------------------------------------------------------

  /** The slot `k` steps along `next` from `start`. */
  ghost function Along(S: Slots, start: Option<nat>, k: nat): Option<nat>
    decreases k
  {
    if start.None? || start.value >= |S| then None
    else if k == 0 then start
    else Along(S, S[start.value].mdb.next, k - 1)
  }

  lemma {:induction false} AlongSplit(S: Slots, start: Option<nat>, k: nat)
    requires Along(S, start, k).Some?
    ensures Along(S, start, k).value < |S|
    ensures Along(S, start, k + 1) == Along(S, S[Along(S, start, k).value].mdb.next, 0)
    decreases k
  {
    if k > 0 { AlongSplit(S, S[start.value].mdb.next, k - 1); }
  }

  lemma {:induction false} AlongLive(S: Slots, depth: seq<nat>, age: seq<nat>, start: nat, k: nat)
    requires Linked(S, depth, age) && Live(S, start) && Along(S, Some(start), k).Some?
    ensures
      var i := Along(S, Some(start), k).value;
      && Live(S, i)
      && S[i].mdb.parent == S[start].mdb.parent
      && age[i] + k <= age[start]
    decreases k
  {
    Touch(S, depth, age, start);
    if k > 0 { AlongLive(S, depth, age, S[start].mdb.next.value, k - 1); }
  }

  /** Every child is reached from the head of its parent's child list ... */
  lemma {:induction false} ChildInList(S: Slots, depth: seq<nat>, age: seq<nat>, i: nat) returns (k: nat)
    requires Linked(S, depth, age) && Live(S, i) && S[i].mdb.parent.Some?
    ensures Live(S, S[i].mdb.parent.value)
    ensures Along(S, S[S[i].mdb.parent.value].mdb.firstChild, k) == Some(i)
    decreases Bound(age) - age[i]
  {
    Touch(S, depth, age, i);
    if S[i].mdb.prev.None? {
      k := 0;
    } else {
      var q := S[i].mdb.prev.value;
      Touch(S, depth, age, q);
      var j := ChildInList(S, depth, age, q);
      AlongSplit(S, S[S[i].mdb.parent.value].mdb.firstChild, j);
      k := j + 1;
    }
  }

  lemma {:induction false} AlongFrom(S: Slots, start: Option<nat>, j: nat, k: nat)
    requires j <= k && Along(S, start, k).Some?
    ensures Along(S, start, j).Some? && Along(S, start, k) == Along(S, Along(S, start, j), k - j)
    decreases j
  {
    if j > 0 { AlongFrom(S, S[start.value].mdb.next, j - 1, k - 1); }
  }

  /** ... exactly once, and every slot in the list is a child. */
  lemma ChildOnceInList(S: Slots, depth: seq<nat>, age: seq<nat>, p: nat, j: nat, k: nat)
    requires Linked(S, depth, age) && Live(S, p)
    requires Along(S, S[p].mdb.firstChild, j).Some?
    ensures Live(S, Along(S, S[p].mdb.firstChild, j).value)
    ensures S[Along(S, S[p].mdb.firstChild, j).value].mdb.parent == Some(p)
    ensures Along(S, S[p].mdb.firstChild, j) == Along(S, S[p].mdb.firstChild, k) ==> j == k
  {
    Touch(S, depth, age, p);
    var head := S[p].mdb.firstChild;
    AlongLive(S, depth, age, head.value, j);
    if Along(S, head, j) == Along(S, head, k) && j != k {
      var lo, hi := if j < k then j else k, if j < k then k else j;
      AlongFrom(S, head, lo, hi);
      AlongLive(S, depth, age, head.value, lo);
      AlongLive(S, depth, age, Along(S, head, lo).value, hi - lo);
      assert false;
    }
  }

  // ---------------------------------------------------------------------------------------------
  // Descending to a leaf
  // ---------------------------------------------------------------------------------------------

  /** The slot `k` steps along `first_child` from `start`. */
  ghost function Down(S: Slots, start: nat, k: nat): Option<nat>
    decreases k
  {
    if start >= |S| then None
    else if k == 0 then Some(start)
    else if S[start].mdb.firstChild.None? then None
    else Down(S, S[start].mdb.firstChild.value, k - 1)
  }

  ghost predicate LeafAt(S: Slots, start: nat, k: nat) {
    && Down(S, start, k).Some?
    && Down(S, start, k).value < |S|
    && S[Down(S, start, k).value].mdb.firstChild.None?
  }

  ghost function Deeper(depth: seq<nat>, d: nat): set<nat> {
    set i: nat | i < |depth| && depth[i] > d
  }

  lemma {:induction false} IndexSetSize(n: nat, s: set<nat>)
    requires forall i | i in s :: i < n
    ensures |s| <= n
    decreases n
  {
    if n > 0 {
      assert |s - {n - 1}| >= |s| - 1;
      IndexSetSize(n - 1, s - {n - 1});
    } else {
      assert s == {};
    }
  }

  /** Under a well-formed tree the descent reaches a leaf in fewer steps than there are slots. */
  lemma {:induction false} DescentEnds(S: Slots, depth: seq<nat>, age: seq<nat>, start: nat) returns (k: nat)
    requires Linked(S, depth, age) && Live(S, start)
    ensures LeafAt(S, start, k) && k <= |Deeper(depth, depth[start])|
    decreases Bound(depth) - depth[start]
  {
    Touch(S, depth, age, start);
    if S[start].mdb.firstChild.None? {
      k := 0;
    } else {
      var c := S[start].mdb.firstChild.value;
      Touch(S, depth, age, c);
      var j := DescentEnds(S, depth, age, c);
      k := j + 1;
      assert c in Deeper(depth, depth[start]) && c !in Deeper(depth, depth[c]);
      assert Deeper(depth, depth[c]) + {c} <= Deeper(depth, depth[start]);
      SubsetSize(Deeper(depth, depth[c]) + {c}, Deeper(depth, depth[start]));
    }
  }

  lemma DescentWithinLimit(S: Slots, depth: seq<nat>, age: seq<nat>, start: nat)
    requires Linked(S, depth, age) && Live(S, start)
    ensures exists k: nat :: k < |S| && LeafAt(S, start, k)
  {
    var k := DescentEnds(S, depth, age, start);
    assert start !in Deeper(depth, depth[start]);
    IndexSetSize(|S|, Deeper(depth, depth[start]) + {start});
  }

  lemma {:induction false} LeafUnique(S: Slots, start: nat, j: nat, k: nat)
    requires LeafAt(S, start, j) && Down(S, start, k).Some?
    ensures k <= j
    decreases k
  {
    if k > 0 && j > 0 { LeafUnique(S, S[start].mdb.firstChild.value, j - 1, k - 1); }
  }

  lemma {:induction false} DownIsBelow(S: Slots, depth: seq<nat>, age: seq<nat>, top: nat, start: nat, k: nat)
    requires Linked(S, depth, age) && Live(S, start) && Desc(S, top, start) && Down(S, start, k).Some?
    ensures Live(S, Down(S, start, k).value) && Desc(S, top, Down(S, start, k).value)
    decreases k
  {
    if k > 0 {
      Touch(S, depth, age, start);
      var c := S[start].mdb.firstChild.value;
      DescStep(S, top, c);
      DownIsBelow(S, depth, age, top, c, k - 1);
    }
  }

  // ---------------------------------------------------------------------------------------------
  // Revoke
  // ---------------------------------------------------------------------------------------------

  /** What a complete revoke of `top` leaves in slot `i`. */
  ghost function RevokedSlot(S: Slots, top: nat, i: nat): CapSlot
    requires i < |S|
  {
    if i == top then S[i].(mdb := S[i].mdb.(firstChild := None))
    else if Desc(S, top, i) then Emptied(S[i])
    else S[i]
  }

  ghost predicate Survives(before: CapSlot, now: CapSlot) {
    now == before.(mdb := now.mdb) && now.mdb.parent == before.mdb.parent && now.used
  }

  /** `S` is `S0` with some of the descendants of `top` deleted and nothing else touched. */
  ghost predicate Partly(S0: Slots, S: Slots, top: nat) {
    && |S| == |S0|
    && top < |S|
    && S[top] == S0[top].(mdb := S0[top].mdb.(firstChild := S[top].mdb.firstChild))
    && forall i: nat {:trigger S[i]} | i < |S| && i != top ::
         if Desc(S0, top, i) then S[i] == Emptied(S0[i]) || Survives(S0[i], S[i])
         else S[i] == S0[i]
  }

  lemma {:induction false} StillBelow(S0: Slots, S: Slots, top: nat, i: nat, k: nat)
    requires Partly(S0, S, top) && Under(S, top, i, k)
    ensures Under(S0, top, i, k)
    decreases k
  {
    if S[i].mdb.parent.value != top { StillBelow(S0, S, top, S[i].mdb.parent.value, k - 1); }
  }

  lemma PartlyStep(S0: Slots, depth0: seq<nat>, age0: seq<nat>, S: Slots, depth: seq<nat>, age: seq<nat>,
                   top: nat, leaf: nat)
    requires Linked(S0, depth0, age0) && Linked(S, depth, age) && Partly(S0, S, top)
    requires Live(S, leaf) && S[leaf].mdb.firstChild.None? && Desc(S0, top, leaf) && leaf != top
    ensures LinksInRange(S, leaf) && Partly(S0, Remove(S, leaf), top)
  {
    RemovedShape(S, depth, age, leaf);
    Touch(S, depth, age, leaf);
    var R := Remove(S, leaf);
    DescDeeper(S0, depth0, age0, top, leaf);
    DescStep(S0, top, leaf);
    NotBelowItself(S0, depth0, age0, top);
    var p := S[leaf].mdb.parent;
    forall q: nat | (S[leaf].mdb.prev == Some(q) || S[leaf].mdb.next == Some(q))
      ensures q != top && Desc(S0, top, q)
    {
      assert Live(S, q) && S[q].mdb.parent == p;
      assert S0[q].used && S0[q].mdb.parent == p;
      DescStep(S0, top, q);
    }
  }

  lemma {:induction false} AllGone(S0: Slots, S: Slots, depth: seq<nat>, age: seq<nat>, top: nat, i: nat, k: nat)
    requires Linked(S, depth, age) && Partly(S0, S, top) && i != top && !Desc(S0, top, top)
    requires S[top].mdb.firstChild.None? && Under(S0, top, i, k) && i < |S|
    ensures S[i] == Emptied(S0[i])
    decreases k
  {
    assert Desc(S0, top, i);
    if S[i] != Emptied(S0[i]) {
      Touch(S, depth, age, i);
      var p := S[i].mdb.parent.value;
      if p == top {
        ParentHasList(S, depth, age, i);
      } else {
        AllGone(S0, S, depth, age, top, p, k - 1);
      }
      assert false;
    }
  }

  lemma RevokeDone(S0: Slots, depth0: seq<nat>, age0: seq<nat>, S: Slots, depth: seq<nat>, age: seq<nat>, top: nat)
    requires Linked(S0, depth0, age0) && Linked(S, depth, age) && Partly(S0, S, top)
    requires S[top].mdb.firstChild.None?
    ensures forall i: nat | i < |S| :: S[i] == RevokedSlot(S0, top, i)
  {
    NotBelowItself(S0, depth0, age0, top);
    forall i: nat | i < |S|
      ensures S[i] == RevokedSlot(S0, top, i)
    {
      if i != top && Desc(S0, top, i) {
        var k: nat :| Under(S0, top, i, k);
        AllGone(S0, S, depth, age, top, i, k);
      }
    }
  }

  // ---------------------------------------------------------------------------------------------
  // Moving a cap
  // ---------------------------------------------------------------------------------------------

  function Rename(i: nat, from: nat, to: nat): nat { if i == from then to else i }

  lemma {:induction false} MovedUnder(S: Slots, depth: seq<nat>, age: seq<nat>, from: nat, to: nat,
                                      top: nat, i: nat, k: nat)
    requires Linked(S, depth, age) && Live(S, from) && to < |S| && !S[to].used
    requires Live(S, top) && Live(S, i)
    ensures Under(S, top, i, k) <==>
            Under(Moved(S, from, to), Rename(top, from, to), Rename(i, from, to), k)
    decreases k
  {
    if k > 0 && S[i].mdb.parent.Some? {
      Touch(S, depth, age, i);
      MovedUnder(S, depth, age, from, to, top, S[i].mdb.parent.value, k - 1);
    }
  }

  /** A move keeps "lies below" between all caps: only the slot number changes. */
  lemma MovedDesc(S: Slots, depth: seq<nat>, age: seq<nat>, from: nat, to: nat, top: nat, i: nat)
    requires Linked(S, depth, age) && Live(S, from) && to < |S| && !S[to].used
    requires Live(S, top) && Live(S, i)
    ensures Desc(S, top, i) <==>
            Desc(Moved(S, from, to), Rename(top, from, to), Rename(i, from, to))
  {
    var R := Moved(S, from, to);
    if Desc(S, top, i) {
      var k: nat :| Under(S, top, i, k);
      MovedUnder(S, depth, age, from, to, top, i, k);
      assert Under(R, Rename(top, from, to), Rename(i, from, to), k);
    }
    if Desc(R, Rename(top, from, to), Rename(i, from, to)) {
      var k: nat :| Under(R, Rename(top, from, to), Rename(i, from, to), k);
      MovedUnder(S, depth, age, from, to, top, i, k);
    }
  }

  /** The neighbours of `from` point at `to`, its children do not yet. */
  ghost predicate NeighboursMoved(S: Slots, B: Slots, from: nat, to: nat)
    requires from < |S| && to < |S|
  {
    var m := S[from].mdb;
    && |B| == |S|
    && forall i: nat {:trigger B[i]} | i < |S| ::
         B[i] == if i == to then S[from].(gen := S[to].gen)
                 else if m.prev == Some(i) then S[i].(mdb := S[i].mdb.(next := Some(to)))
                 else if m.next == Some(i) then S[i].(mdb := S[i].mdb.(prev := Some(to)))
                 else if m.prev.None? && m.parent == Some(i) then S[i].(mdb := S[i].mdb.(firstChild := Some(to)))
                 else S[i]
  }

  lemma MovedFromNeighbours(S: Slots, depth: seq<nat>, age: seq<nat>, B: Slots, from: nat, to: nat, i: nat)
    requires Linked(S, depth, age) && Live(S, from) && to < |S| && !S[to].used
    requires NeighboursMoved(S, B, from, to) && i < |S|
    ensures Moved(S, from, to)[i] ==
            if i == from then Emptied(S[from])
            else if S[i].used && S[i].mdb.parent == Some(from) then B[i].(mdb := B[i].mdb.(parent := Some(to)))
            else B[i]
  {
    Touch(S, depth, age, from);
    var m := S[from].mdb;
    if m.prev.Some? { Touch(S, depth, age, m.prev.value); }
    if m.next.Some? { Touch(S, depth, age, m.next.value); }
    if m.parent.Some? { Touch(S, depth, age, m.parent.value); }
    if S[i].used {
      Touch(S, depth, age, i);
    }
  }
}
