/** The runtime oracle of the capability space, `audit_cdt`, and exactly what it says. */
module CapAudit {
  import opened Wrappers
  import opened CapTables
  import opened CapTree

  // The oracle runs over any table, torn ones included, so nothing here presupposes well-formedness.
  // It indexes the slot table with links it has not checked yet; where that leaves the table the
  // kernel panics, and so `Panicked` is one of its outcomes.

  datatype Verdict = Code(n: nat) | Panicked

  // ---------------------------------------------------------------------------------------------
  // The checks, one by one
  // ---------------------------------------------------------------------------------------------

  ghost predicate ObjectsReferenced(S: Slots, O: Objects) {
    forall i: nat | i < |S| && S[i].used :: S[i].obj < |O| && O[S[i].obj].used
  }

  ghost predicate CountsMatch(S: Slots, O: Objects) {
    forall o: nat | o < |O| && O[o].used :: O[o].refcount == |RefSet(S, o)| && |RefSet(S, o)| > 0
  }

  ghost predicate InList(S: Slots, head: Option<nat>, i: nat) {
    exists k: nat :: k <= |S| && Along(S, head, k) == Some(i)
  }

  ghost predicate ParentChecked(S: Slots, i: nat)
    requires i < |S|
  {
    var p := S[i].mdb.parent;
    p.Some? ==>
      && Live(S, p.value)
      && S[p.value].obj == S[i].obj
      && InList(S, S[p.value].mdb.firstChild, i)
  }

  ghost predicate NextChecked(S: Slots, i: nat)
    requires i < |S|
  {
    var n := S[i].mdb.next;
    n.Some? ==> Live(S, n.value) && S[n.value].mdb.prev == Some(i) && S[n.value].mdb.parent == S[i].mdb.parent
  }

  ghost predicate PrevChecked(S: Slots, i: nat)
    requires i < |S|
  {
    var q := S[i].mdb.prev;
    q.Some? ==> Live(S, q.value) && S[q.value].mdb.next == Some(i)
  }

  ghost predicate LinksChecked(S: Slots, i: nat)
    requires i < |S|
  {
    ParentChecked(S, i) && HeadOk(S, i) && NextChecked(S, i) && PrevChecked(S, i)
  }

  /** The parent chain from `i` has at most `k` steps. */
  ghost predicate ChainEnds(S: Slots, i: nat, k: nat)
    decreases k
  {
    i < |S| && (S[i].mdb.parent.None? || (k > 0 && ChainEnds(S, S[i].mdb.parent.value, k - 1)))
  }

  ghost predicate AllChecked(S: Slots, O: Objects) {
    && ObjectsReferenced(S, O)
    && CountsMatch(S, O)
    && (forall i: nat | i < |S| && S[i].used :: LinksChecked(S, i))
    && (forall i: nat | i < |S| && S[i].used :: ChainEnds(S, i, |S|))
  }

  // ---------------------------------------------------------------------------------------------
  // The oracle
  // ---------------------------------------------------------------------------------------------

  /** Is `i` in the list that starts at `head`?  4: the list ends without it; 7: no answer within the
      limit. */
  method FindInList(S: Slots, head: Option<nat>, i: nat) returns (v: Verdict)
    requires i < |S|
    ensures v == Code(0) <==> InList(S, head, i)
    ensures v.Panicked? <==> !InList(S, head, i) && exists k: nat :: k <= |S| && LeavesTable(S, head, k)
    ensures v == Code(7) <==> !InList(S, head, i) && Along(S, head, |S|).Some?
    ensures v.Code? ==> v.n in {0, 4, 7}
  {
    var limit := |S|;
    var c, steps: nat := head, 0;
    while c.Some?
      invariant steps <= limit
      invariant forall k: nat | k < steps :: Along(S, head, k).Some? && Along(S, head, k) != Some(i)
      invariant forall k: nat | k < steps :: !LeavesTable(S, head, k)
      invariant steps == 0 ==> c == head
      invariant steps > 0 ==> Along(S, head, steps - 1).value < |S| && c == S[Along(S, head, steps - 1).value].mdb.next
      decreases limit - steps
    {
      if steps > 0 { AlongSplit(S, head, steps - 1); }
      if c.value == i {
        assert Along(S, head, steps) == Some(i);
        return Code(0);
      }
      if c.value >= |S| {
        assert LeavesTable(S, head, steps) && Along(S, head, steps).None?;
        if Along(S, head, limit).Some? { AlongFrom(S, head, steps, limit); }
        NothingBeyond(S, head, steps, i);
        return Panicked;
      }
      assert !LeavesTable(S, head, steps);
      c := S[c.value].mdb.next;
      steps := steps + 1;
      if steps > limit { return Code(7); }
    }
    if steps > 0 { AlongSplit(S, head, steps - 1); }
    NothingBeyond(S, head, steps, i);
    forall k: nat
      ensures !LeavesTable(S, head, k)
    {
      if k > steps && Along(S, head, k - 1).Some? { AlongFrom(S, head, steps, k - 1); }
    }
    if Along(S, head, limit).Some? { AlongFrom(S, head, steps, limit); }
    return Code(4);
  }

  /** After `k` steps the list names a slot the table does not have. */
  ghost predicate LeavesTable(S: Slots, head: Option<nat>, k: nat) {
    if k == 0 then head.Some? && head.value >= |S|
    else
      && Along(S, head, k - 1).Some? && Along(S, head, k - 1).value < |S|
      && S[Along(S, head, k - 1).value].mdb.next.Some?
      && S[Along(S, head, k - 1).value].mdb.next.value >= |S|
  }

  lemma NothingBeyond(S: Slots, head: Option<nat>, n: nat, i: nat)
    requires Along(S, head, n).None?
    requires forall k: nat | k < n :: Along(S, head, k) != Some(i)
    ensures forall k: nat :: Along(S, head, k) != Some(i)
  {
    forall k: nat
      ensures Along(S, head, k) != Some(i)
    {
      if k >= n && Along(S, head, k).Some? { AlongFrom(S, head, n, k); }
    }
  }

  /** What looking for `i` in the list of its parent comes to. */
  ghost function SearchVerdict(S: Slots, head: Option<nat>, i: nat): Verdict {
    if InList(S, head, i) then Code(0)
    else if Along(S, head, |S|).Some? then Code(7)
    else if exists k: nat :: k <= |S| && LeavesTable(S, head, k) then Panicked
    else Code(4)
  }

  /** What is wrong with the links of `i`, the graver fault first. */
  ghost function LinkVerdict(S: Slots, i: nat): Verdict
    requires i < |S|
  {
    var p := S[i].mdb.parent;
    if p.Some? && (!Live(S, p.value) || S[p.value].obj != S[i].obj) then Code(4)
    else if p.Some? && SearchVerdict(S, S[p.value].mdb.firstChild, i) != Code(0) then
      SearchVerdict(S, S[p.value].mdb.firstChild, i)
    else if !HeadOk(S, i) then Code(6)
    else if !NextChecked(S, i) || !PrevChecked(S, i) then Code(5)
    else Code(0)
  }

  // The same fault by fault, on the links themselves.

  ghost predicate ParentBad(S: Slots, i: nat)
    requires i < |S|
  {
    var p := S[i].mdb.parent;
    p.Some? && (p.value >= |S| || !S[p.value].used || S[p.value].obj != S[i].obj)
  }

  ghost predicate ChildBad(S: Slots, i: nat)
    requires i < |S|
  {
    var c := S[i].mdb.firstChild;
    c.Some? && (c.value >= |S| || !S[c.value].used || S[c.value].mdb.parent != Some(i) || S[c.value].mdb.prev.Some?)
  }

  ghost predicate SiblingsBad(S: Slots, i: nat)
    requires i < |S|
  {
    var m := S[i].mdb;
    || (m.next.Some? && (m.next.value >= |S| || !S[m.next.value].used || S[m.next.value].mdb.prev != Some(i)
                         || S[m.next.value].mdb.parent != m.parent))
    || (m.prev.Some? && (m.prev.value >= |S| || !S[m.prev.value].used || S[m.prev.value].mdb.next != Some(i)))
  }

  /** The parent is right, but its list does not lead to `i`. */
  ghost predicate NotListed(S: Slots, i: nat)
    requires i < |S|
  {
    var p := S[i].mdb.parent;
    p.Some? && !ParentBad(S, i) && !InList(S, S[p.value].mdb.firstChild, i)
  }

  ghost function ListHead(S: Slots, i: nat): Option<nat>
    requires i < |S|
  {
    var p := S[i].mdb.parent;
    if p.Some? && p.value < |S| then S[p.value].mdb.firstChild else None
  }

  /** Every link verdict with its exact condition: parent, membership in its list, first child, siblings, in this
      order. */
  ghost predicate LinkFaults(S: Slots, i: nat, v: Verdict)
    requires i < |S|
  {
    var listed, long := !ParentBad(S, i) && !NotListed(S, i), Along(S, ListHead(S, i), |S|).Some?;
    var torn := exists k: nat :: k <= |S| && LeavesTable(S, ListHead(S, i), k);
    && (v == Code(4) <==> ParentBad(S, i) || (NotListed(S, i) && !long && !torn))
    && (v == Code(7) <==> NotListed(S, i) && long)
    && (v == Panicked <==> NotListed(S, i) && !long && torn)
    && (v == Code(6) <==> listed && ChildBad(S, i))
    && (v == Code(5) <==> listed && !ChildBad(S, i) && SiblingsBad(S, i))
    && (v == Code(0) <==> listed && !ChildBad(S, i) && !SiblingsBad(S, i))
  }

  lemma LinkVerdictExactly(S: Slots, i: nat)
    requires i < |S|
    ensures LinkFaults(S, i, LinkVerdict(S, i))
  {
  }

  method AuditLinks(S: Slots, i: nat) returns (v: Verdict)
    requires i < |S|
    ensures LinkFaults(S, i, v)
    ensures v == LinkVerdict(S, i) && (v == Code(0) <==> LinksChecked(S, i))
  {
    LinkVerdictExactly(S, i);
    var m := S[i].mdb;
    if m.parent.Some? {
      var p := m.parent.value;
      if p >= |S| || !S[p].used || S[p].obj != S[i].obj { return Code(4); }
      v := FindInList(S, S[p].mdb.firstChild, i);
      if v != Code(0) { return; }
    }
    if m.firstChild.Some? {
      var c := m.firstChild.value;
      if c >= |S| || !S[c].used || S[c].mdb.parent != Some(i) || S[c].mdb.prev.Some? { return Code(6); }
    }
    if m.next.Some? {
      var n := m.next.value;
      if n >= |S| || !S[n].used || S[n].mdb.prev != Some(i) || S[n].mdb.parent != m.parent { return Code(5); }
    }
    if m.prev.Some? {
      var q := m.prev.value;
      if q >= |S| || !S[q].used || S[q].mdb.next != Some(i) { return Code(5); }
    }
    return Code(0);
  }

  method AuditChain(S: Slots, i: nat) returns (v: Verdict)
    requires i < |S| && S[i].used
    requires forall j: nat | j < |S| && S[j].used && S[j].mdb.parent.Some? :: Live(S, S[j].mdb.parent.value)
    ensures v == Code(0) <==> ChainEnds(S, i, |S|)
    ensures v == Code(0) || v == Code(7)
  {
    var limit := |S|;
    var x, steps: nat := i, 0;
    var p := S[i].mdb.parent;
    while p.Some?
      invariant steps <= limit && Live(S, x) && p == S[x].mdb.parent
      invariant ChainEnds(S, i, limit) == ChainEnds(S, x, limit - steps)
      decreases limit - steps
    {
      steps := steps + 1;
      if steps > limit { return Code(7); }
      x := p.value;
      p := S[x].mdb.parent;
    }
    return Code(0);
  }

  /** How often each object is referenced, or the first used slot without a live object. */
  method CountRefs(S: Slots, O: Objects) returns (refs: Option<seq<nat>>)
    ensures refs.Some? <==> ObjectsReferenced(S, O)
    ensures refs.Some? ==> |refs.value| == |O| && forall o: nat | o < |O| :: refs.value[o] == |RefSet(S, o)|
  {
    var count: seq<nat> := seq(|O|, _ => 0);
    for s := 0 to |S|
      invariant |count| == |O|
      invariant forall o: nat | o < |O| :: count[o] == |RefSet(S[..s], o)|
      invariant forall i: nat | i < s && S[i].used :: S[i].obj < |O| && O[S[i].obj].used
    {
      if S[s].used {
        var obj := S[s].obj;
        if obj >= |O| || !O[obj].used { return None; }
        count := count[obj := count[obj] + 1];
      }
      forall o: nat | o < |O|
        ensures |RefSet(S[..s + 1], o)| == |RefSet(S[..s], o)| + (if S[s].used && S[s].obj == o then 1 else 0)
      {
        OneMoreRef(S, s, o);
      }
    }
    assert S[..|S|] == S;
    return Some(count);
  }

  lemma OneMoreRef(S: Slots, s: nat, o: nat)
    requires s < |S|
    ensures |RefSet(S[..s + 1], o)| == |RefSet(S[..s], o)| + (if S[s].used && S[s].obj == o then 1 else 0)
  {
    assert RefSet(S[..s + 1], o) == RefSet(S[..s], o) + (if S[s].used && S[s].obj == o then {s} else {});
  }

  ghost function CountVerdict(S: Slots, O: Objects, o: nat): Verdict
    requires o < |O|
  {
    if !O[o].used then Code(0)
    else if O[o].refcount != |RefSet(S, o)| then Code(2)
    else if RefSet(S, o) == {} then Code(3)
    else Code(0)
  }

  /** The first object with a wrong count gives verdict `v`. */
  ghost predicate FirstCountFault(S: Slots, O: Objects, v: Verdict) {
    exists o: nat ::
      && o < |O| && CountVerdict(S, O, o) == v != Code(0)
      && forall x: nat | x < o :: CountVerdict(S, O, x) == Code(0)
  }

  /** Object `o` is the first in use whose count is wrong or zero. */
  ghost predicate FirstWrong(S: Slots, O: Objects, o: nat) {
    && o < |O| && O[o].used && (O[o].refcount != |RefSet(S, o)| || O[o].refcount == 0)
    && forall x: nat | x < o && O[x].used :: O[x].refcount == |RefSet(S, x)| > 0
  }

  method AuditCounts(S: Slots, O: Objects) returns (v: Verdict)
    ensures v == Code(0) <==> ObjectsReferenced(S, O) && CountsMatch(S, O)
    ensures v == Code(1) <==> !ObjectsReferenced(S, O)
    ensures v == Code(2) || v == Code(3) <==> ObjectsReferenced(S, O) && FirstCountFault(S, O, v)
    ensures v.Code? && v.n <= 3
    ensures v == Code(2) ==> exists o: nat :: FirstWrong(S, O, o) && O[o].refcount != |RefSet(S, o)|
    ensures v == Code(3) ==> exists o: nat :: FirstWrong(S, O, o) && O[o].refcount == 0 && RefSet(S, o) == {}
  {
    var refs := CountRefs(S, O);
    if refs.None? { return Code(1); }
    for o := 0 to |O|
      invariant forall x: nat | x < o :: CountVerdict(S, O, x) == Code(0)
      invariant forall x: nat | x < o && O[x].used :: O[x].refcount == |RefSet(S, x)| > 0
    {
      assert |RefSet(S, o)| == 0 <==> RefSet(S, o) == {};
      if O[o].used {
        if O[o].refcount != refs.value[o] {
          assert CountVerdict(S, O, o) == Code(2) && FirstWrong(S, O, o);
          return Code(2);
        }
        if refs.value[o] == 0 {
          assert CountVerdict(S, O, o) == Code(3) && FirstWrong(S, O, o);
          return Code(3);
        }
      } else {
        assert refs.value[o] == 0;
      }
    }
    forall o: nat | o < |O| && O[o].used
      ensures O[o].refcount == |RefSet(S, o)| && |RefSet(S, o)| > 0
    {
      assert CountVerdict(S, O, o) == Code(0);
      assert RefSet(S, o) != {};
    }
    return Code(0);
  }

  ghost predicate CountsRight(S: Slots, O: Objects) { ObjectsReferenced(S, O) && CountsMatch(S, O) }

  /** The counts are right, and the first slot with wrong links gives verdict `v`. */
  ghost predicate FirstLinkFault(S: Slots, O: Objects, v: Verdict) { CountsRight(S, O) && FirstBadLink(S, v) }

  ghost predicate FirstBadLink(S: Slots, v: Verdict) {
    exists s: nat :: FirstBadAt(S, s, v)
  }

  ghost predicate FirstBadAt(S: Slots, s: nat, v: Verdict) {
    && s < |S| && S[s].used && LinkVerdict(S, s) == v != Code(0)
    && forall j: nat | j < s && S[j].used :: LinksChecked(S, j)
  }

  /** Counts and links are right, but some parent chain does not end. */
  ghost predicate OnlyChainsFail(S: Slots, O: Objects) {
    && CountsRight(S, O)
    && (forall i: nat | i < |S| && S[i].used :: LinksChecked(S, i))
    && exists i: nat :: i < |S| && S[i].used && !ChainEnds(S, i, |S|)
  }

  /** `audit_cdt` with a count buffer of `refsLen` entries. */
  method AuditCdt(S: Slots, O: Objects, refsLen: nat) returns (v: Verdict)
    ensures v == Code(8) <==> refsLen < |O|
    ensures v == Code(1) <==> refsLen >= |O| && !ObjectsReferenced(S, O)
    ensures v == Code(2) || v == Code(3) <==> refsLen >= |O| && ObjectsReferenced(S, O) && FirstCountFault(S, O, v)
    ensures v in {Code(4), Code(5), Code(6), Panicked} <==> refsLen >= |O| && v != Code(7) && FirstLinkFault(S, O, v)
    ensures v == Code(7) <==> refsLen >= |O| && (FirstLinkFault(S, O, Code(7)) || OnlyChainsFail(S, O))
    ensures v == Code(0) <==> refsLen >= |O| && AllChecked(S, O)
  {
    if refsLen < |O| { return Code(8); }
    v := AuditCounts(S, O);
    if v != Code(0) { return; }
    v := AuditTree(S, O);
  }

  /** What follows once the counts are right. */
  method AuditTree(S: Slots, O: Objects) returns (v: Verdict)
    requires CountsRight(S, O)
    ensures v in {Code(0), Code(4), Code(5), Code(6), Code(7), Panicked}
    ensures v in {Code(4), Code(5), Code(6), Panicked} <==> v != Code(7) && FirstLinkFault(S, O, v)
    ensures v == Code(7) <==> FirstLinkFault(S, O, Code(7)) || OnlyChainsFail(S, O)
    ensures v == Code(0) <==> AllChecked(S, O)
  {
    v := AuditAllLinks(S);
    if v != Code(0) {
      OneFirstFault(S, v);
      return;
    }
    NoFault(S);
    CheckedParentsLive(S);
    v := AuditAllChains(S);
  }

  /** There is one first link fault. */
  lemma OneFirstFault(S: Slots, v: Verdict)
    requires FirstBadLink(S, v)
    ensures v in {Code(4), Code(5), Code(6), Code(7), Panicked} && forall w :: FirstBadLink(S, w) ==> w == v
    ensures exists i: nat :: i < |S| && S[i].used && !LinksChecked(S, i)
  {
    var s: nat :| FirstBadAt(S, s, v);
    assert !LinksChecked(S, s);
    forall w | FirstBadLink(S, w)
      ensures w == v
    {
      var t: nat :| FirstBadAt(S, t, w);
      assert !LinksChecked(S, t);
    }
  }

  lemma NoFault(S: Slots)
    requires forall i: nat | i < |S| && S[i].used :: LinksChecked(S, i)
    ensures forall w :: !FirstBadLink(S, w)
  {
  }

  lemma CheckedParentsLive(S: Slots)
    requires forall i: nat | i < |S| && S[i].used :: LinksChecked(S, i)
    ensures forall j: nat | j < |S| && S[j].used && S[j].mdb.parent.Some? :: Live(S, S[j].mdb.parent.value)
  {
    forall j: nat | j < |S| && S[j].used && S[j].mdb.parent.Some?
      ensures Live(S, S[j].mdb.parent.value)
    {
      assert LinksChecked(S, j);
    }
  }

  method AuditAllLinks(S: Slots) returns (v: Verdict)
    ensures v == Code(0) <==> forall i: nat | i < |S| && S[i].used :: LinksChecked(S, i)
    ensures v != Code(0) ==> FirstBadLink(S, v)
  {
    for s := 0 to |S|
      invariant forall i: nat | i < s && S[i].used :: LinksChecked(S, i)
    {
      if S[s].used {
        v := AuditLinks(S, s);
        if v != Code(0) {
          assert FirstBadAt(S, s, v);
          return;
        }
      }
    }
    return Code(0);
  }

  method AuditAllChains(S: Slots) returns (v: Verdict)
    requires forall j: nat | j < |S| && S[j].used && S[j].mdb.parent.Some? :: Live(S, S[j].mdb.parent.value)
    ensures v == Code(0) <==> forall i: nat | i < |S| && S[i].used :: ChainEnds(S, i, |S|)
    ensures v == Code(0) || v == Code(7)
  {
    for s := 0 to |S|
      invariant forall i: nat | i < s && S[i].used :: ChainEnds(S, i, |S|)
    {
      if S[s].used {
        v := AuditChain(S, s);
        if v != Code(0) { return; }
      }
    }
    return Code(0);
  }

  // ---------------------------------------------------------------------------------------------
  // What verdict 0 means
  // ---------------------------------------------------------------------------------------------

  /** The link clauses of `SlotOk`, with the sibling links of a root left open. */
  ghost predicate AuditedAt(S: Slots, depth: seq<nat>, age: seq<nat>, i: nat)
    requires i < |S| == |depth| == |age|
  {
    var m := S[i].mdb;
    && (m.parent.Some? ==>
          && Live(S, m.parent.value)
          && S[m.parent.value].obj == S[i].obj
          && depth[m.parent.value] < depth[i]
          && (m.prev.None? ==> S[m.parent.value].mdb.firstChild == Some(i)))
    && HeadOk(S, i)
    && (m.next.Some? ==>
          && Live(S, m.next.value)
          && S[m.next.value].mdb.prev == Some(i)
          && S[m.next.value].mdb.parent == m.parent
          && (m.parent.Some? ==> age[m.next.value] < age[i]))
    && PrevOk(S, i)
  }

  ghost predicate Audited(S: Slots, O: Objects, depth: seq<nat>, age: seq<nat>) {
    && Counted(S, O)
    && |depth| == |age| == |S|
    && forall i: nat {:trigger AuditedAt(S, depth, age, i)} | i < |S| && S[i].used :: AuditedAt(S, depth, age, i)
  }

  ghost function ChainLength(S: Slots, i: nat, fuel: nat): nat
    decreases fuel
  {
    if i >= |S| || S[i].mdb.parent.None? || fuel == 0 then 0
    else 1 + ChainLength(S, S[i].mdb.parent.value, fuel - 1)
  }

  lemma {:induction false} ChainLengthFuel(S: Slots, i: nat, k: nat, f: nat, g: nat)
    requires ChainEnds(S, i, k) && k <= f && k <= g
    ensures ChainLength(S, i, f) == ChainLength(S, i, g)
    decreases k
  {
    if S[i].mdb.parent.Some? { ChainLengthFuel(S, S[i].mdb.parent.value, k - 1, f - 1, g - 1); }
  }

  /** How far from `start` the list first meets `i`. */
  ghost function FirstHit(S: Slots, start: Option<nat>, i: nat, fuel: nat): nat
    decreases fuel
  {
    if start == Some(i) || fuel == 0 || start.None? || start.value >= |S| then 0
    else 1 + FirstHit(S, S[start.value].mdb.next, i, fuel - 1)
  }

  lemma {:induction false} FirstHitIs(S: Slots, start: Option<nat>, i: nat, k: nat, fuel: nat)
    requires Along(S, start, k) == Some(i) && k <= fuel && i < |S|
    ensures FirstHit(S, start, i, fuel) <= k
    ensures Along(S, start, FirstHit(S, start, i, fuel)) == Some(i)
    decreases k
  {
    if start != Some(i) { FirstHitIs(S, S[start.value].mdb.next, i, k - 1, fuel - 1); }
  }

  lemma {:induction false} CheckedAlong(S: Slots, start: nat, k: nat)
    requires forall i: nat | i < |S| && S[i].used :: LinksChecked(S, i)
    requires Live(S, start) && Along(S, Some(start), k).Some?
    ensures Live(S, Along(S, Some(start), k).value)
    ensures S[Along(S, Some(start), k).value].mdb.parent == S[start].mdb.parent
    decreases k
  {
    if k > 0 { CheckedAlong(S, S[start].mdb.next.value, k - 1); }
  }

  ghost function Position(S: Slots, i: nat): nat
    requires i < |S|
  {
    if S[i].mdb.parent.Some? && S[i].mdb.parent.value < |S|
    then FirstHit(S, S[S[i].mdb.parent.value].mdb.firstChild, i, |S|) else 0
  }

  ghost function ByDepth(S: Slots): seq<nat> { seq(|S|, i requires 0 <= i < |S| => ChainLength(S, i, |S|)) }

  ghost function ByAge(S: Slots): seq<nat> {
    seq(|S|, i requires 0 <= i < |S| => if Position(S, i) <= |S| then |S| - Position(S, i) else 0)
  }

  /** In a checked list the entry before a slot is its `prev`. */
  lemma ListPredecessor(S: Slots, i: nat, k: nat)
    requires forall j: nat | j < |S| && S[j].used :: LinksChecked(S, j)
    requires Live(S, i) && S[i].mdb.parent.Some? && Live(S, S[i].mdb.parent.value) && k > 0
    requires Along(S, S[S[i].mdb.parent.value].mdb.firstChild, k) == Some(i)
    ensures Along(S, S[S[i].mdb.parent.value].mdb.firstChild, k - 1).Some?
    ensures S[i].mdb.prev == Along(S, S[S[i].mdb.parent.value].mdb.firstChild, k - 1)
  {
    var p := S[i].mdb.parent.value;
    assert LinksChecked(S, p);
    var head := S[p].mdb.firstChild;
    AlongFrom(S, head, k - 1, k);
    CheckedAlong(S, head.value, k - 1);
    AlongSplit(S, head, k - 1);
    assert LinksChecked(S, Along(S, head, k - 1).value);
  }

  /** One step along `next` is one step away from the head. */
  lemma NextIsLater(S: Slots, i: nat)
    requires forall j: nat | j < |S| && S[j].used :: LinksChecked(S, j)
    requires Live(S, i) && S[i].mdb.parent.Some? && S[i].mdb.next.Some?
    ensures Live(S, S[i].mdb.next.value) && Position(S, i) < Position(S, S[i].mdb.next.value) <= |S|
  {
    assert LinksChecked(S, i);
    var n := S[i].mdb.next.value;
    assert LinksChecked(S, n);
    var p := S[i].mdb.parent.value;
    assert LinksChecked(S, p);
    var head := S[p].mdb.firstChild;
    var k: nat :| k <= |S| && Along(S, head, k) == Some(n);
    FirstHitIs(S, head, n, k, |S|);
    var h := Position(S, n);
    assert Along(S, head, h) == Some(n);
    ListPredecessor(S, n, h);
    FirstHitIs(S, head, i, h - 1, |S|);
  }

  /** A listed child without a predecessor is the head. */
  lemma NoPrevIsHead(S: Slots, i: nat)
    requires forall j: nat | j < |S| && S[j].used :: LinksChecked(S, j)
    requires Live(S, i) && S[i].mdb.parent.Some? && S[i].mdb.prev.None?
    ensures Live(S, S[i].mdb.parent.value) && S[S[i].mdb.parent.value].mdb.firstChild == Some(i)
  {
    assert LinksChecked(S, i);
    var head := S[S[i].mdb.parent.value].mdb.firstChild;
    var k: nat :| k <= |S| && Along(S, head, k) == Some(i);
    if k > 0 { ListPredecessor(S, i, k); }
  }

  lemma CheckedMeansAudited(S: Slots, O: Objects)
    requires AllChecked(S, O)
    ensures Audited(S, O, ByDepth(S), ByAge(S))
  {
    var depth, age := ByDepth(S), ByAge(S);
    forall i: nat | i < |S| && S[i].used
      ensures AuditedAt(S, depth, age, i)
    {
      assert LinksChecked(S, i) && ChainEnds(S, i, |S|);
      if S[i].mdb.parent.Some? {
        var p := S[i].mdb.parent.value;
        ChainLengthFuel(S, p, |S| - 1, |S| - 1, |S|);
        if S[i].mdb.prev.None? { NoPrevIsHead(S, i); }
        if S[i].mdb.next.Some? { NextIsLater(S, i); }
      }
      if S[i].mdb.prev.Some? { assert LinksChecked(S, S[i].mdb.prev.value); }
    }
  }

  lemma {:induction false} AuditedChild(S: Slots, O: Objects, depth: seq<nat>, age: seq<nat>, i: nat) returns (k: nat)
    requires Audited(S, O, depth, age) && Live(S, i) && S[i].mdb.parent.Some?
    ensures Live(S, S[i].mdb.parent.value)
    ensures Along(S, S[S[i].mdb.parent.value].mdb.firstChild, k) == Some(i) && k <= |Deeper(age, age[i])|
    decreases Bound(age) - age[i]
  {
    assert AuditedAt(S, depth, age, i);
    if S[i].mdb.prev.None? {
      k := 0;
    } else {
      var q := S[i].mdb.prev.value;
      assert AuditedAt(S, depth, age, q);
      var j := AuditedChild(S, O, depth, age, q);
      AlongSplit(S, S[S[i].mdb.parent.value].mdb.firstChild, j);
      k := j + 1;
      assert q in Deeper(age, age[i]) && q !in Deeper(age, age[q]);
      assert Deeper(age, age[q]) + {q} <= Deeper(age, age[i]);
      SubsetSize(Deeper(age, age[q]) + {q}, Deeper(age, age[i]));
    }
  }

  ghost function Shallower(depth: seq<nat>, d: nat): set<nat> { set i: nat | i < |depth| && depth[i] < d }

  lemma {:induction false} AuditedChain(S: Slots, O: Objects, depth: seq<nat>, age: seq<nat>, i: nat, k: nat)
    requires Audited(S, O, depth, age) && Live(S, i) && |Shallower(depth, depth[i])| <= k
    ensures ChainEnds(S, i, k)
    decreases depth[i]
  {
    assert AuditedAt(S, depth, age, i);
    if S[i].mdb.parent.Some? {
      var p := S[i].mdb.parent.value;
      assert p in Shallower(depth, depth[i]) && p !in Shallower(depth, depth[p]);
      assert Shallower(depth, depth[p]) + {p} <= Shallower(depth, depth[i]);
      SubsetSize(Shallower(depth, depth[p]) + {p}, Shallower(depth, depth[i]));
      AuditedChain(S, O, depth, age, p, k - 1);
    }
  }

  lemma AuditedMeansChecked(S: Slots, O: Objects, depth: seq<nat>, age: seq<nat>)
    requires Audited(S, O, depth, age)
    ensures AllChecked(S, O)
  {
    forall i: nat | i < |S| && S[i].used
      ensures LinksChecked(S, i) && ChainEnds(S, i, |S|)
    {
      assert AuditedAt(S, depth, age, i);
      IndexSetSize(|S|, Shallower(depth, depth[i]));
      AuditedChain(S, O, depth, age, i, |S|);
      if S[i].mdb.parent.Some? {
        var k := AuditedChild(S, O, depth, age, i);
        IndexSetSize(|S|, Deeper(age, age[i]));
        assert Along(S, S[S[i].mdb.parent.value].mdb.firstChild, k) == Some(i);
      }
    }
  }

  /** Verdict 0, exactly: the counts are right and every parent chain and every child list is
      finite, reciprocal and complete. */
  lemma VerdictZero(S: Slots, O: Objects)
    ensures AllChecked(S, O) <==> exists depth: seq<nat>, age: seq<nat> :: Audited(S, O, depth, age)
  {
    if AllChecked(S, O) { CheckedMeansAudited(S, O); }
    if depth: seq<nat>, age: seq<nat> :| Audited(S, O, depth, age) { AuditedMeansChecked(S, O, depth, age); }
  }

  /** Every table the operations can produce passes ... */
  lemma WellFormedPasses(S: Slots, O: Objects, depth: seq<nat>, age: seq<nat>)
    requires WellFormed(S, O, depth, age)
    ensures AllChecked(S, O)
  {
    forall i: nat | i < |S| && S[i].used
      ensures AuditedAt(S, depth, age, i)
    {
      Touch(S, depth, age, i);
    }
    AuditedMeansChecked(S, O, depth, age);
  }

  ghost predicate RootsAlone(S: Slots) {
    forall i: nat | i < |S| && S[i].used && S[i].mdb.parent.None? :: S[i].mdb.next.None? && S[i].mdb.prev.None?
  }

  /** ... and what passes is a well-linked tree exactly when its roots have no siblings. */
  lemma PassesAndLinked(S: Slots, O: Objects)
    ensures AllChecked(S, O) && RootsAlone(S) <==>
            Counted(S, O) && exists depth: seq<nat>, age: seq<nat> :: Linked(S, depth, age)
  {
    if AllChecked(S, O) && RootsAlone(S) {
      CheckedMeansAudited(S, O);
      var depth, age := ByDepth(S), ByAge(S);
      forall i: nat | i < |S| && S[i].used
        ensures SlotOk(S, depth, age, i)
      {
        assert AuditedAt(S, depth, age, i);
      }
      assert Linked(S, depth, age);
    }
    if Counted(S, O) && exists depth: seq<nat>, age: seq<nat> :: Linked(S, depth, age) {
      var depth: seq<nat>, age: seq<nat> :| Linked(S, depth, age);
      forall i: nat | i < |S| && S[i].used
        ensures AuditedAt(S, depth, age, i) && (S[i].mdb.parent.None? ==> S[i].mdb.next.None? && S[i].mdb.prev.None?)
      {
        Touch(S, depth, age, i);
      }
      assert Audited(S, O, depth, age);
      AuditedMeansChecked(S, O, depth, age);
    }
  }

  /** The gap is real: two roots chained to each other in a ring pass. */
  lemma RootRingPasses() returns (S: Slots, O: Objects)
    ensures AllChecked(S, O) && !RootsAlone(S)
  {
    var root := CapSlot(true, 0, 0, {}, 0, None, Links(None, None, Some(1), Some(1)));
    S := [root, root.(obj := 1, mdb := Links(None, None, Some(0), Some(0)))];
    O := [Obj(true, Plain(0), 1, 0), Obj(true, Plain(0), 1, 0)];
    assert RefSet(S, 0) == {0} && RefSet(S, 1) == {1};
    assert AuditedAt(S, [0, 0], [0, 0], 0) && AuditedAt(S, [0, 0], [0, 0], 1);
    assert Audited(S, O, [0, 0], [0, 0]);
    AuditedMeansChecked(S, O, [0, 0], [0, 0]);
    assert S[0].used && S[0].mdb.next.Some?;
  }

  /** The oracle can panic: here slot 0 is looked for in a list that starts outside the table, and
      the slot that would have been refused for that comes later. */
  lemma TornListPanics() returns (S: Slots, O: Objects)
    ensures FirstLinkFault(S, O, Panicked)
  {
    var cap := CapSlot(true, 0, 0, {}, 0, None, NO_LINKS);
    S := [cap.(mdb := Links(Some(1), None, None, None)), cap.(mdb := Links(None, Some(9), None, None))];
    O := [Obj(true, Plain(0), 2, 0)];
    assert RefSet(S, 0) == {0, 1};
    assert LeavesTable(S, Some(9), 0);
    assert FirstBadAt(S, 0, Panicked);
  }

  /** It never does on a table the operations can produce. */
  lemma WellFormedNeverPanics(S: Slots, O: Objects, depth: seq<nat>, age: seq<nat>)
    requires WellFormed(S, O, depth, age)
    ensures !FirstLinkFault(S, O, Panicked)
  {
    WellFormedPasses(S, O, depth, age);
    forall i: nat | i < |S| && S[i].used
      ensures LinkVerdict(S, i) == Code(0)
    {
      assert LinksChecked(S, i);
    }
  }
}
