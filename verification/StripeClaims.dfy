/**
  The lock-free stripe allocator: any number of tasks, each between the steps of its own claim or
  release, over one shared word.

  A step is one atomic access: the load with which a claim looks for a free stripe, the
  compare-exchange that may fail for no reason, or the clearing of a held bit.
 */
module StripeClaims {
  import opened Wrappers
  import opened Colors

  // ---------------------------------------------------------------------------------------------
  // The lowest free stripe
  // ---------------------------------------------------------------------------------------------

  predicate Lowest(taken: set<nat>, n: nat, i: nat) {
    i < n && i !in taken && forall j: nat :: j < i ==> j in taken
  }

  method PickFree(taken: set<nat>, n: nat) returns (r: Option<nat>)
    ensures r.Some? ==> n <= 32 && Lowest(taken, n, r.value)
    ensures r.None? <==> n > 32 || forall j: nat :: j < n ==> j in taken
  {
    if n == 0 || n > 32 { return None; }
    var i := 0;
    while i < n
      invariant i <= n && forall j: nat :: j < i ==> j in taken
    {
      if i !in taken { return Some(i); }
      i := i + 1;
    }
    return None;
  }

  // ---------------------------------------------------------------------------------------------
  // Tasks and steps
  // ---------------------------------------------------------------------------------------------

  datatype Task =
    | Idle
    | Picked(seen: set<nat>, stripe: nat)
    | Holding(stripe: nat)
    | Refused(seen: set<nat>)

  datatype State = State(taken: set<nat>, tasks: seq<Task>)

  /** The load: nothing free, no valid split, or a stripe to try for. */
  ghost predicate Load(colors: nat, s: State, t: State, k: nat)
    requires k < |s.tasks|
  {
    && s.tasks[k].Idle? && t.taken == s.taken
    && exists now: Task :: t.tasks == s.tasks[k := now] && Looked(colors, s.taken, now)
  }

  ghost predicate Looked(colors: nat, taken: set<nat>, now: Task) {
    || (now == Refused(taken) && ((forall j: nat :: j < PARTITIONS ==> j in taken) || !Splits(PARTITIONS, colors)))
    || (now.Picked? && now.seen == taken && Lowest(taken, PARTITIONS, now.stripe) && Splits(PARTITIONS, colors))
  }

  /** The exchange succeeds only if the word is still what was loaded. */
  ghost predicate Exchange(s: State, t: State, k: nat)
    requires k < |s.tasks|
  {
    && s.tasks[k].Picked? && s.taken == s.tasks[k].seen
    && t == State(s.taken + {s.tasks[k].stripe}, s.tasks[k := Holding(s.tasks[k].stripe)])
  }

  /** It may fail for any reason; the claim starts over. */
  ghost predicate ExchangeFails(s: State, t: State, k: nat)
    requires k < |s.tasks|
  {
    s.tasks[k].Picked? && t == s.(tasks := s.tasks[k := Idle])
  }

  ghost predicate Release(s: State, t: State, k: nat)
    requires k < |s.tasks|
  {
    s.tasks[k].Holding? && t == State(s.taken - {s.tasks[k].stripe}, s.tasks[k := Idle])
  }

  ghost predicate TryAgain(s: State, t: State, k: nat)
    requires k < |s.tasks|
  {
    s.tasks[k].Refused? && t == s.(tasks := s.tasks[k := Idle])
  }

  ghost predicate Step(colors: nat, s: State, t: State, k: nat) {
    k < |s.tasks| && (Load(colors, s, t, k) || Exchange(s, t, k) || ExchangeFails(s, t, k) || Release(s, t, k)
        || TryAgain(s, t, k))
  }

  ghost predicate Run(colors: nat, states: seq<State>, actors: seq<nat>) {
    && |states| == |actors| + 1 && states[0].taken == {} && (forall k: nat :: k < |states[0].tasks| ==>
        states[0].tasks[k].Idle?)
    && forall i: nat | i < |actors| :: Step(colors, states[i], states[i + 1], actors[i])
  }

  // ---------------------------------------------------------------------------------------------
  // What every run keeps
  // ---------------------------------------------------------------------------------------------

  ghost predicate Holds(s: State, k: nat, b: nat) { k < |s.tasks| && s.tasks[k] == Holding(b) }

  ghost predicate TaskOk(colors: nat, task: Task) {
    match task
    case Idle => true
    case Picked(seen, i) => Lowest(seen, PARTITIONS, i) && Splits(PARTITIONS, colors)
    case Holding(i) => i < PARTITIONS && Splits(PARTITIONS, colors)
    case Refused(seen) => (forall j: nat :: j < PARTITIONS ==> j in seen) || !Splits(PARTITIONS, colors)
  }

  /** The word names exactly the held stripes, and each has one holder. */
  ghost predicate Exact(s: State) {
    && (forall b: nat :: b in s.taken <==> exists k: nat :: Holds(s, k, b))
    && (forall k: nat, m: nat, b: nat :: Holds(s, k, b) && Holds(s, m, b) ==> k == m)
  }

  ghost predicate Good(colors: nat, s: State) {
    Exact(s) && forall k: nat | k < |s.tasks| :: TaskOk(colors, s.tasks[k])
  }

  /** A step that neither takes nor gives up a stripe. */
  lemma QuietKeepsExact(s: State, t: State, k: nat)
    requires Exact(s) && k < |s.tasks| == |t.tasks| && t.taken == s.taken && !s.tasks[k].Holding?
             && !t.tasks[k].Holding?
    requires forall m: nat | m < |s.tasks| && m != k :: t.tasks[m] == s.tasks[m]
    ensures Exact(t)
  {
    assert forall m: nat, b: nat :: Holds(t, m, b) <==> Holds(s, m, b);
  }

  lemma ExchangeKeepsExact(s: State, t: State, k: nat)
    requires Exact(s) && k < |s.tasks| && Exchange(s, t, k) && s.tasks[k].stripe !in s.taken
    ensures Exact(t)
  {
    var i := s.tasks[k].stripe;
    assert Holds(t, k, i);
    forall m: nat, b: nat
      ensures Holds(t, m, b) <==> if m == k then b == i else Holds(s, m, b)
    {
    }
    forall b: nat
      ensures b in t.taken <==> exists m: nat :: Holds(t, m, b)
    {
      if b in s.taken {
        var m: nat :| Holds(s, m, b);
        assert Holds(t, m, b);
      }
    }
  }

  lemma ReleaseKeepsExact(s: State, t: State, k: nat)
    requires Exact(s) && k < |s.tasks| && Release(s, t, k)
    ensures Exact(t)
  {
    var i := s.tasks[k].stripe;
    assert Holds(s, k, i);
    forall m: nat, b: nat
      ensures Holds(t, m, b) <==> m != k && Holds(s, m, b)
    {
    }
    forall b: nat
      ensures b in t.taken <==> exists m: nat :: Holds(t, m, b)
    {
      if b in s.taken && b != i {
        var m: nat :| Holds(s, m, b);
        assert Holds(t, m, b);
      }
    }
  }

  lemma StepKeepsGood(colors: nat, s: State, t: State, k: nat)
    requires Good(colors, s) && Step(colors, s, t, k)
    ensures Good(colors, t)
  {
    assert TaskOk(colors, s.tasks[k]);
    if Exchange(s, t, k) {
      ExchangeKeepsExact(s, t, k);
    } else if Release(s, t, k) {
      ReleaseKeepsExact(s, t, k);
    } else {
      QuietKeepsExact(s, t, k);
    }
  }

  lemma {:induction false} RunStaysGood(colors: nat, states: seq<State>, actors: seq<nat>)
    requires Run(colors, states, actors)
    ensures Good(colors, states[|actors|])
    decreases |actors|
  {
    if |actors| > 0 {
      var n := |actors| - 1;
      assert Run(colors, states[..|actors|], actors[..n]);
      RunStaysGood(colors, states[..|actors|], actors[..n]);
      StepKeepsGood(colors, states[n], states[n + 1], actors[n]);
    } else {
      assert forall k: nat, b: nat :: !Holds(states[0], k, b);
    }
  }

  /** In any run, two tasks never hold a page colour in common. */
  lemma HoldersShareNoColor(colors: nat, states: seq<State>, actors: seq<nat>, k: nat, m: nat, a: nat, b: nat, c: nat)
    requires Run(colors, states, actors) && k != m && Holds(states[|actors|], k, a) && Holds(states[|actors|], m, b)
    ensures Stripe(a, PARTITIONS, colors).Some? && Stripe(b, PARTITIONS, colors).Some?
    ensures !(c % MASK_BITS in Stripe(a, PARTITIONS, colors).value
            && c % MASK_BITS in Stripe(b, PARTITIONS, colors).value)
  {
    var s := states[|actors|];
    RunStaysGood(colors, states, actors);
    assert TaskOk(colors, s.tasks[k]) && TaskOk(colors, s.tasks[m]);
    StripesDisjoint(a, b, PARTITIONS, colors);
  }

  /** A claim is refused only if the word it loaded had all four bits, or nothing can be split. */
  lemma RefusedMeansFull(colors: nat, states: seq<State>, actors: seq<nat>, k: nat)
    requires Run(colors, states, actors) && k < |states[|actors|].tasks| && states[|actors|].tasks[k].Refused?
    ensures (forall j: nat :: j < PARTITIONS ==> j in states[|actors|].tasks[k].seen) || !Splits(PARTITIONS, colors)
  {
    RunStaysGood(colors, states, actors);
    assert TaskOk(colors, states[|actors|].tasks[k]);
  }

  // ---------------------------------------------------------------------------------------------
  // A second release
  // ---------------------------------------------------------------------------------------------

  /** Clearing a bit without holding it is harmless exactly when nobody else holds it.  "A second
      release has no effect" is true only until the stripe is claimed again. */
  lemma StrayRelease(s: State, i: nat)
    requires Exact(s)
    ensures Exact(s.(taken := s.taken - {i})) <==> i !in s.taken
  {
    var t := s.(taken := s.taken - {i});
    assert forall k: nat, b: nat :: Holds(t, k, b) <==> Holds(s, k, b);
    if i in s.taken {
      var k: nat :| Holds(s, k, i);
      assert Holds(t, k, i);
    } else {
      assert t.taken == s.taken;
    }
  }

  /** After it, if the stripe is the lowest free one, one load and one exchange give it to a second
      holder. */
  lemma StrayReleaseShares(colors: nat, s: State, i: nat, k: nat, m: nat)
    requires Splits(PARTITIONS, colors) && Good(colors, s) && Holds(s, k, i) && Lowest(s.taken - {i}, PARTITIONS, i)
    requires m < |s.tasks| && m != k && s.tasks[m].Idle?
    ensures
      exists u: State, v: State ::
        && Step(colors, s.(taken := s.taken - {i}), u, m) && Step(colors, u, v, m) && Holds(v, k, i) && Holds(v, m, i)
  {
    var t := s.(taken := s.taken - {i});
    var u := t.(tasks := t.tasks[m := Picked(t.taken, i)]);
    var v := State(t.taken + {i}, u.tasks[m := Holding(i)]);
    assert Looked(colors, t.taken, u.tasks[m]);
    assert Load(colors, t, u, m) && Exchange(u, v, m);
    assert Step(colors, t, u, m) && Step(colors, u, v, m) && Holds(v, k, i) && Holds(v, m, i);
  }
}
