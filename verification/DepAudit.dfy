/**
  Two tools on the same question: the certificate tool walks the whole dependency closure, the
  enclosure guard looks at one manifest at a time.  If the guard is silent, the walk passes.

  A crate is its name; what the tools read from its sources and manifest are fields.
 */
module DepAudit {
  import opened Wrappers

  // ---------------------------------------------------------------------------------------------
  // The certificate tool
  // ---------------------------------------------------------------------------------------------

  /** What the certificate tool counts in a crate's sources. */
  datatype Source = Source(unsafes: nat, forbids: bool)

  datatype Tree = Tree(deps: map<string, seq<string>>, sources: map<string, Source>)

  function DepsOf(t: Tree, c: string): seq<string> { if c in t.deps then t.deps[c] else [] }

  ghost predicate Path(t: Tree, p: seq<string>) {
    |p| > 0 && forall i: nat | i + 1 < |p| :: p[i + 1] in DepsOf(t, p[i])
  }

  ghost predicate Reach(t: Tree, root: string, c: string) {
    exists p: seq<string> :: Path(t, p) && p[0] == root && p[|p| - 1] == c
  }

  lemma ReachSelf(t: Tree, root: string)
    ensures Reach(t, root, root)
  {
    assert Path(t, [root]);
  }

  lemma ReachOn(t: Tree, root: string, c: string, d: string)
    requires Reach(t, root, c) && d in DepsOf(t, c)
    ensures Reach(t, root, d)
  {
    var p: seq<string> :| Path(t, p) && p[0] == root && p[|p| - 1] == c;
    var q := p + [d];
    assert forall i: nat | i + 1 < |q| :: q[i + 1] in DepsOf(t, q[i]);
    assert Path(t, q) && q[0] == root && q[|q| - 1] == d;
  }

  ghost predicate Closed(t: Tree, s: set<string>) {
    forall c: string, d: string | c in s && d in DepsOf(t, c) :: d in s
  }

  /** A closed set with the root in it holds the end of every path. */
  lemma {:induction false} ClosedHoldsPath(t: Tree, s: set<string>, p: seq<string>, n: nat)
    requires Closed(t, s) && Path(t, p) && p[0] in s && n < |p|
    ensures p[n] in s
  {
    if n > 0 {
      ClosedHoldsPath(t, s, p, n - 1);
      assert p[n - 1 + 1] in DepsOf(t, p[n - 1]);
    }
  }

  lemma ClosedHoldsReach(t: Tree, s: set<string>, root: string, c: string)
    requires Closed(t, s) && root in s && Reach(t, root, c)
    ensures c in s
  {
    var p: seq<string> :| Path(t, p) && p[0] == root && p[|p| - 1] == c;
    ClosedHoldsPath(t, s, p, |p| - 1);
  }

  /** Between two rounds: everything known is reachable, and what a seen crate needs is known. */
  ghost predicate Working(t: Tree, root: string, seen: set<string>, stack: seq<string>) {
    && (root in seen || root in stack)
    && (forall c: string | c in seen || c in stack :: Reach(t, root, c))
    && (forall c: string, d: string | c in seen && d in DepsOf(t, c) :: d in seen || d in stack)
  }

  lemma PopSeen(t: Tree, root: string, seen: set<string>, stack: seq<string>)
    requires Working(t, root, seen, stack) && stack != [] && stack[|stack| - 1] in seen
    ensures Working(t, root, seen, stack[..|stack| - 1])
  {
    assert forall c: string | c in stack :: c == stack[|stack| - 1] || c in stack[..|stack| - 1];
  }

  lemma PopNew(t: Tree, root: string, seen: set<string>, stack: seq<string>)
    requires Working(t, root, seen, stack) && stack != []
    ensures
      var cur := stack[|stack| - 1];
      Working(t, root, seen + {cur}, stack[..|stack| - 1] + DepsOf(t, cur))
  {
    var cur, rest := stack[|stack| - 1], stack[..|stack| - 1];
    assert cur in stack;
    assert forall c: string | c in stack :: c == cur || c in rest;
    forall d: string | d in DepsOf(t, cur)
      ensures Reach(t, root, d)
    {
      ReachOn(t, root, cur, d);
    }
  }

  /** The worklist ends, with exactly the reachable crates. */
  method Closure(t: Tree, root: string) returns (seen: set<string>)
    ensures forall c: string :: c in seen <==> Reach(t, root, c)
  {
    seen := {};
    var stack := [root];
    ReachSelf(t, root);
    while stack != []
      invariant Working(t, root, seen, stack)
      decreases |t.deps.Keys - seen|, |stack|
    {
      var cur := stack[|stack| - 1];
      if cur in seen {
        PopSeen(t, root, seen, stack);
        stack := stack[..|stack| - 1];
      } else {
        PopNew(t, root, seen, stack);
        Fewer(t, seen, cur);
        seen := seen + {cur};
        stack := stack[..|stack| - 1] + DepsOf(t, cur);
      }
    }
    forall c: string | Reach(t, root, c)
      ensures c in seen
    {
      ClosedHoldsReach(t, seen, root, c);
    }
  }

  lemma Fewer(t: Tree, seen: set<string>, cur: string)
    requires cur !in seen
    ensures cur in t.deps ==> |t.deps.Keys - (seen + {cur})| < |t.deps.Keys - seen|
    ensures cur !in t.deps ==> t.deps.Keys - (seen + {cur}) == t.deps.Keys - seen && DepsOf(t, cur) == []
  {
    if cur in t.deps { Smaller(t.deps.Keys - seen, t.deps.Keys - (seen + {cur}), cur); }
  }

  lemma Smaller(a: set<string>, b: set<string>, c: string)
    requires b == a - {c} && c in a
    ensures |b| < |a|
  {
  }

  const PROGRAM_FORBID: nat := 1
  const PROJECT_CLEAN: nat := 2
  const ALLOWLIST_OK: nat := 4
  const ALL_PASS: nat := 7

  function SourceOf(t: Tree, c: string): Source { if c in t.sources then t.sources[c] else Source(0, false) }

  ghost predicate CleanFrom(t: Tree, root: string, allow: set<string>) {
    forall c: string | Reach(t, root, c) && c !in allow :: SourceOf(t, c).unsafes == 0
  }

  /** The status word.  Two of its three bits always agree: they record the same count. */
  method Audit(t: Tree, root: string, allow: set<string>) returns (status: nat, ok: bool)
    ensures status == (if SourceOf(t, root).forbids && SourceOf(t, root).unsafes == 0 then PROGRAM_FORBID else 0)
                      + (if CleanFrom(t, root, allow) then PROJECT_CLEAN + ALLOWLIST_OK else 0)
    ensures ok <==> SourceOf(t, root).forbids && SourceOf(t, root).unsafes == 0 && CleanFrom(t, root, allow)
  {
    var seen := Closure(t, root);
    var rootUnsafe, programForbid, projectClean, violations := 0, false, true, 0;
    var todo := seen;
    ReachSelf(t, root);
    while todo != {}
      invariant todo <= seen
      invariant root !in todo ==> rootUnsafe == SourceOf(t, root).unsafes && programForbid == SourceOf(t, root).forbids
      invariant projectClean <==> violations == 0
      invariant projectClean <==> forall c: string | c in seen && c !in todo && c !in allow ::
                  SourceOf(t, c).unsafes == 0
      decreases |todo|
    {
      var c :| c in todo;
      var s := SourceOf(t, c);
      if c == root { rootUnsafe, programForbid := s.unsafes, s.forbids; }
      if s.unsafes > 0 && c !in allow { violations, projectClean := violations + 1, false; }
      todo := todo - {c};
    }
    status := 0;
    if programForbid && rootUnsafe == 0 { status := status + PROGRAM_FORBID; }
    if projectClean { status := status + PROJECT_CLEAN; }
    if violations == 0 { status := status + ALLOWLIST_OK; }
    ok := status == ALL_PASS;
  }

  // ---------------------------------------------------------------------------------------------
  // The enclosure guard
  // ---------------------------------------------------------------------------------------------

  const STRICT: string := "streng"

  /** What the guard reads of one crate. */
  datatype Crate = Crate(name: string, marker: Option<string>, rootModules: nat, forbid: bool, denyOnly: bool,
                         unsafes: nat, buildScript: bool, lint: Option<string>, deps: set<string>,
                             pathDeps: set<string>,
                         member: bool)

  datatype Code =
    | UnknownValue | NoRootModule | OnlyDeny | NoForbid | UnsafeInSource | BuildScript | LintsLoosened
    | ForeignDependency | NameConfusion | NotInWorkspace | StaleConcession | Unmarked | StaleRefusal | Coupling

  datatype Finding = Finding(code: Code, crate: string)

  /** The guard's world: all crates, the allowed dependencies, the named refusals, and the certificate
      tool's allowlist as the guard reads it (`None` if its anchor is gone). */
  datatype World = World(all: seq<Crate>, allowed: set<string>, refused: set<string>, other: Option<set<string>>)

  predicate Candidate(c: Crate) { c.marker == Some(STRICT) }

  ghost predicate IsCandidate(w: World, name: string) {
    exists i: nat :: i < |w.all| && w.all[i].name == name && Candidate(w.all[i])
  }

  ghost predicate IsLocal(w: World, name: string) { exists i: nat :: i < |w.all| && w.all[i].name == name }

  /** The last crate of a name: later ones hide earlier ones. */
  function Lookup(all: seq<Crate>, name: string): Option<Crate> {
    if all == [] then None
    else if all[|all| - 1].name == name then Some(all[|all| - 1])
    else Lookup(all[..|all| - 1], name)
  }

  ghost predicate DepsOk(w: World, c: Crate) {
    && (forall d: string | d in c.deps :: IsCandidate(w, d) || d in w.allowed)
    && (forall d: string | d in c.deps && IsLocal(w, d) :: d in c.pathDeps)
  }

  ghost predicate CrateOk(w: World, c: Crate) {
    && c.rootModules > 0 && c.forbid && c.unsafes == 0 && !c.buildScript && c.lint.None? && c.member && DepsOk(w, c)
  }

  ghost predicate MarkersOk(w: World) {
    forall i: nat | i < |w.all| :: w.all[i].marker.None? || Candidate(w.all[i])
  }

  ghost predicate CandidatesOk(w: World) {
    forall i: nat | i < |w.all| && Candidate(w.all[i]) :: CrateOk(w, w.all[i])
  }

  ghost predicate Needed(w: World, name: string) {
    exists i: nat :: i < |w.all| && Candidate(w.all[i]) && name in w.all[i].deps
  }

  ghost predicate RatchetsOk(w: World) {
    && (forall a: string | a in w.allowed :: Needed(w, a))
    && (forall i: nat | i < |w.all| && w.all[i].forbid :: IsCandidate(w, w.all[i].name) || w.all[i].name in w.refused)
    && (forall r: string | r in w.refused ::
        Lookup(w.all, r).Some? && !IsCandidate(w, r) && Lookup(w.all, r).value.forbid)
    && w.other == Some(w.allowed)
  }

  ghost predicate Silent(w: World) { MarkersOk(w) && CandidatesOk(w) && RatchetsOk(w) }

  // Finding by finding.

  /** What is reported of a candidate. */
  ghost predicate Complaint(w: World, c: Crate, code: Code) {
    match code
    case NoRootModule => c.rootModules == 0
    case OnlyDeny => c.rootModules > 0 && !c.forbid && c.denyOnly
    case NoForbid => c.rootModules > 0 && !c.forbid && !c.denyOnly
    case UnsafeInSource => c.unsafes > 0
    case BuildScript => c.buildScript
    case LintsLoosened => c.lint.Some?
    case ForeignDependency => exists d: string :: d in c.deps && !IsCandidate(w, d) && d !in w.allowed
    case NameConfusion =>
      exists d: string ::
        d in c.deps && (IsCandidate(w, d) || d in w.allowed) && IsLocal(w, d) && d !in c.pathDeps
    case NotInWorkspace => !c.member
    case _ => false
  }

  /** What is reported of the lists. */
  ghost predicate RatchetBroken(w: World, f: Finding) {
    match f.code
    case StaleConcession => f.crate == "" && exists a: string :: a in w.allowed && !Needed(w, a)
    case Unmarked =>
      f.crate == "" && exists i: nat ::
        i < |w.all| && w.all[i].forbid && !IsCandidate(w, w.all[i].name) && w.all[i].name !in w.refused
    case StaleRefusal =>
      f.crate == "" && exists r: string ::
        r in w.refused && (Lookup(w.all, r).None? || IsCandidate(w, r) || !Lookup(w.all, r).value.forbid)
    case Coupling => f.crate == "tools/sign_trusted.py" && w.other != Some(w.allowed)
    case _ => false
  }

  ghost predicate UnknownMarker(w: World, f: Finding, n: nat) {
    exists i: nat :: i < n && i < |w.all| && f == Finding(UnknownValue, w.all[i].name) && w.all[i].marker.Some?
                     && w.all[i].marker.value != STRICT
  }

  ghost predicate CandidateComplaint(w: World, f: Finding, n: nat) {
    exists i: nat :: i < n && i < |w.all| && Candidate(w.all[i]) && f.crate == w.all[i].name
                     && Complaint(w, w.all[i], f.code)
  }

  /** Names of the candidates, and of all crates. */
  method Names(w: World) returns (candidates: set<string>, local: set<string>, findings: seq<Finding>)
    ensures forall n: string :: n in candidates <==> IsCandidate(w, n)
    ensures forall n: string :: n in local <==> IsLocal(w, n)
    ensures findings == [] <==> MarkersOk(w)
    ensures forall f: Finding :: f in findings <==> UnknownMarker(w, f, |w.all|)
  {
    candidates, local, findings := {}, {}, [];
    for i := 0 to |w.all|
      invariant forall n: string :: n in candidates <==> exists k: nat ::
                  k < i && w.all[k].name == n && Candidate(w.all[k])
      invariant forall n: string :: n in local <==> exists k: nat :: k < i && w.all[k].name == n
      invariant findings == [] <==> forall k: nat | k < i :: w.all[k].marker.None? || Candidate(w.all[k])
      invariant forall f: Finding :: f in findings <==> UnknownMarker(w, f, i)
    {
      var c := w.all[i];
      local := local + {c.name};
      if c.marker.Some? {
        if c.marker.value != STRICT {
          findings := findings + [Finding(UnknownValue, c.name)];
        } else {
          candidates := candidates + {c.name};
        }
      }
    }
  }

  method CheckDeps(w: World, c: Crate, candidates: set<string>, local: set<string>) returns (findings: seq<Finding>)
    requires forall n: string :: n in candidates <==> IsCandidate(w, n)
    requires forall n: string :: n in local <==> IsLocal(w, n)
    ensures findings == [] <==> DepsOk(w, c)
    ensures forall f: Finding :: f in findings <==>
              f.crate == c.name && f.code in {ForeignDependency, NameConfusion} && Complaint(w, c, f.code)
  {
    findings := [];
    var foreign := set d | d in c.deps && d !in candidates && d !in w.allowed;
    var confusable := set d | d in c.deps && d !in foreign && d in local && d !in c.pathDeps;
    if foreign != {} { findings := findings + [Finding(ForeignDependency, c.name)]; }
    if confusable != {} { findings := findings + [Finding(NameConfusion, c.name)]; }
    assert foreign != {} <==> Complaint(w, c, ForeignDependency) by {
      if foreign != {} { var d :| d in foreign; assert d in c.deps && !IsCandidate(w, d); }
      if Complaint(w, c, ForeignDependency) {
        var d: string :| d in c.deps && !IsCandidate(w, d) && d !in w.allowed;
        assert d in foreign;
      }
    }
    assert confusable != {} <==> Complaint(w, c, NameConfusion) by {
      if confusable != {} { var d :| d in confusable; assert d in c.deps && IsLocal(w, d); }
      if Complaint(w, c, NameConfusion) {
        var d: string :| d in c.deps && (IsCandidate(w, d) || d in w.allowed) && IsLocal(w, d) && d !in c.pathDeps;
        assert d in confusable;
      }
    }
    if foreign == {} && confusable == {} {
      forall d: string | d in c.deps
        ensures (IsCandidate(w, d) || d in w.allowed) && (IsLocal(w, d) ==> d in c.pathDeps)
      {
        assert d !in foreign && d !in confusable;
      }
    } else if foreign != {} {
      var d :| d in foreign;
      assert d in c.deps && !IsCandidate(w, d);
    } else {
      var d :| d in confusable;
      assert d in c.deps && IsLocal(w, d);
    }
  }

  method CheckCrate(w: World, c: Crate, candidates: set<string>, local: set<string>) returns (findings: seq<Finding>)
    requires forall n: string :: n in candidates <==> IsCandidate(w, n)
    requires forall n: string :: n in local <==> IsLocal(w, n)
    ensures findings == [] <==> CrateOk(w, c)
    ensures forall f: Finding :: f in findings <==> f.crate == c.name && Complaint(w, c, f.code)
  {
    findings := CheckSource(w, c);
    var deps := CheckDeps(w, c, candidates, local);
    findings := findings + deps;
    if !c.member { findings := findings + [Finding(NotInWorkspace, c.name)]; }
  }

  /** Attribute, source text, build script and lints. */
  method CheckSource(ghost w: World, c: Crate) returns (findings: seq<Finding>)
    ensures findings == [] <==> c.rootModules > 0 && c.forbid && c.unsafes == 0 && !c.buildScript && c.lint.None?
    ensures forall f: Finding :: f in findings <==>
              && f.crate == c.name && Complaint(w, c, f.code)
              && f.code !in {ForeignDependency, NameConfusion, NotInWorkspace}
  {
    findings := [];
    if c.rootModules == 0 {
      findings := findings + [Finding(NoRootModule, c.name)];
    } else if !c.forbid {
      findings := findings + [Finding(if c.denyOnly then OnlyDeny else NoForbid, c.name)];
    }
    if c.unsafes > 0 { findings := findings + [Finding(UnsafeInSource, c.name)]; }
    if c.buildScript { findings := findings + [Finding(BuildScript, c.name)]; }
    if c.lint.Some? { findings := findings + [Finding(LintsLoosened, c.name)]; }
  }

  method CheckCandidates(w: World, candidates: set<string>, local: set<string>) returns (findings: seq<Finding>)
    requires forall n: string :: n in candidates <==> IsCandidate(w, n)
    requires forall n: string :: n in local <==> IsLocal(w, n)
    ensures findings == [] <==> CandidatesOk(w)
    ensures forall f: Finding :: f in findings <==> CandidateComplaint(w, f, |w.all|)
  {
    findings := [];
    for i := 0 to |w.all|
      invariant findings == [] <==> forall k: nat | k < i && Candidate(w.all[k]) :: CrateOk(w, w.all[k])
      invariant forall f: Finding :: f in findings <==> CandidateComplaint(w, f, i)
    {
      if Candidate(w.all[i]) {
        var more := CheckCrate(w, w.all[i], candidates, local);
        findings := findings + more;
      }
    }
  }

  method CheckRatchets(w: World, candidates: set<string>) returns (findings: seq<Finding>)
    requires forall n: string :: n in candidates <==> IsCandidate(w, n)
    ensures findings == [] <==> RatchetsOk(w)
    ensures forall f: Finding :: f in findings <==> RatchetBroken(w, f)
  {
    var needed: set<string>, unmarked: set<string> := {}, {};
    for i := 0 to |w.all|
      invariant forall n: string :: n in needed <==> exists k: nat :: k < i && Candidate(w.all[k]) && n in w.all[k].deps
      invariant unmarked == {} <==>
                  forall k: nat | k < i && w.all[k].forbid ::
                      IsCandidate(w, w.all[k].name) || w.all[k].name in w.refused
    {
      if Candidate(w.all[i]) { needed := needed + w.all[i].deps; }
      if w.all[i].name !in candidates && w.all[i].forbid && w.all[i].name !in w.refused {
        unmarked := unmarked + {w.all[i].name};
      }
    }
    var stale := w.allowed - needed;
    findings := ReportRatchets(w, candidates, needed, unmarked, stale);
  }

  /** The lists are in order exactly if nothing is to be reported of them. */
  lemma RatchetsExactly(w: World)
    ensures RatchetsOk(w) <==>
              && !RatchetBroken(w, Finding(StaleConcession, "")) && !RatchetBroken(w, Finding(Unmarked, ""))
              && !RatchetBroken(w, Finding(StaleRefusal, "")) && w.other == Some(w.allowed)
  {
  }

  /** The findings on the lists, once it is known what is needed and what is unmarked. */
  method ReportRatchets(w: World, candidates: set<string>, ghost needed: set<string>, unmarked: set<string>,
                        stale: set<string>) returns (findings: seq<Finding>)
    requires forall n: string :: n in candidates <==> IsCandidate(w, n)
    requires forall n: string :: n in needed <==> Needed(w, n)
    requires unmarked == {} <==>
               forall k: nat | k < |w.all| && w.all[k].forbid ::
                   IsCandidate(w, w.all[k].name) || w.all[k].name in w.refused
    requires stale == w.allowed - needed
    ensures findings == [] <==> RatchetsOk(w)
    ensures forall f: Finding :: f in findings <==> RatchetBroken(w, f)
  {
    findings := [];
    var bad := set r | r in w.refused && (Lookup(w.all, r).None? || r in candidates || !Lookup(w.all, r).value.forbid);
    assert stale != {} <==> RatchetBroken(w, Finding(StaleConcession, "")) by {
      if stale != {} { var a :| a in stale; assert !Needed(w, a); }
      if a: string :| a in w.allowed && !Needed(w, a) { assert a in stale; }
    }
    assert unmarked != {} <==> RatchetBroken(w, Finding(Unmarked, ""));
    assert bad != {} <==> RatchetBroken(w, Finding(StaleRefusal, "")) by {
      if bad != {} { var r :| r in bad; }
      if r: string :|
        r in w.refused && (Lookup(w.all, r).None? || IsCandidate(w, r) || !Lookup(w.all, r).value.forbid)
      {
        assert r in bad;
      }
    }
    RatchetsExactly(w);
    if stale != {} { findings := findings + [Finding(StaleConcession, "")]; }
    if unmarked != {} { findings := findings + [Finding(Unmarked, "")]; }
    if bad != {} { findings := findings + [Finding(StaleRefusal, "")]; }
    if w.other != Some(w.allowed) { findings := findings + [Finding(Coupling, "tools/sign_trusted.py")]; }
  }

  /** The guard: silent exactly when every local condition holds.  Without candidates it says nothing
      about anything, and its caller treats that as a failure of its own. */
  method Guard(w: World) returns (findings: seq<Finding>, candidates: set<string>)
    ensures forall n: string :: n in candidates <==> IsCandidate(w, n)
    ensures candidates != {} ==> (findings == [] <==> Silent(w))
    ensures candidates == {} ==> (findings == [] <==> MarkersOk(w))
    ensures forall f: Finding :: f in findings <==>
              || UnknownMarker(w, f, |w.all|)
              || (candidates != {} && (CandidateComplaint(w, f, |w.all|) || RatchetBroken(w, f)))
  {
    var local, more;
    candidates, local, findings := Names(w);
    if candidates == {} { return; }
    more := CheckCandidates(w, candidates, local);
    findings := findings + more;
    more := CheckRatchets(w, candidates);
    findings := findings + more;
  }

  // ---------------------------------------------------------------------------------------------
  // Local checks against the closure
  // ---------------------------------------------------------------------------------------------

  /** What links the guard's manifests to the tree cargo resolves: a candidate's edges are those of
      its manifest, both tools see the same sources, and an allowed crate -- which the guard does not
      look into -- depends only on candidates and allowed crates. */
  ghost predicate Resolved(w: World, t: Tree) {
    && CandidatesAgree(w, t)
    && (forall a: string, d: string | a in w.allowed && d in DepsOf(t, a) :: IsCandidate(w, d) || d in w.allowed)
  }

  /** Both tools see the same of every candidate: its dependencies, its `unsafe`, its `forbid`. */
  ghost predicate CandidatesAgree(w: World, t: Tree) {
    forall i: nat | i < |w.all| && Candidate(w.all[i]) ::
      && (forall d: string | d in DepsOf(t, w.all[i].name) :: d in w.all[i].deps)
      && (w.all[i].unsafes == 0 ==> SourceOf(t, w.all[i].name).unsafes == 0)
      && (w.all[i].forbid ==> SourceOf(t, w.all[i].name).forbids)
  }

  ghost predicate Enclosed(w: World, name: string) { IsCandidate(w, name) || name in w.allowed }

  lemma {:induction false} PathStaysEnclosed(w: World, t: Tree, p: seq<string>, n: nat)
    requires CandidatesOk(w) && Resolved(w, t) && Path(t, p) && Enclosed(w, p[0]) && n < |p|
    ensures Enclosed(w, p[n])
  {
    if n > 0 {
      PathStaysEnclosed(w, t, p, n - 1);
      assert p[n - 1 + 1] in DepsOf(t, p[n - 1]);
      if p[n - 1] !in w.allowed {
        var i: nat :| i < |w.all| && w.all[i].name == p[n - 1] && Candidate(w.all[i]);
        assert DepsOk(w, w.all[i]);
      }
    }
  }

  lemma ReachThrough(t: Tree, a: string, b: string, c: string)
    requires Reach(t, a, b) && Reach(t, b, c)
    ensures Reach(t, a, c)
  {
    var p: seq<string> :| Path(t, p) && p[0] == b && p[|p| - 1] == c;
    ReachAlong(t, a, p, |p| - 1);
  }

  lemma {:induction false} ReachAlong(t: Tree, a: string, p: seq<string>, n: nat)
    requires Path(t, p) && Reach(t, a, p[0]) && n < |p|
    ensures Reach(t, a, p[n])
  {
    if n > 0 {
      ReachAlong(t, a, p, n - 1);
      assert p[n - 1 + 1] in DepsOf(t, p[n - 1]);
      ReachOn(t, a, p[n - 1], p[n]);
    }
  }

  /** The crate lies behind an allowed crate that the root reaches. */
  ghost predicate BehindAllowed(w: World, t: Tree, root: string, c: string) {
    exists a: string :: a in w.allowed && Reach(t, root, a) && Reach(t, a, c)
  }

  /** Every crate on a path from a candidate is a candidate itself, or lies behind an allowed one. */
  lemma {:induction false} CandidateOrBehind(w: World, t: Tree, p: seq<string>, n: nat)
    requires CandidatesOk(w) && CandidatesAgree(w, t) && Path(t, p) && IsCandidate(w, p[0]) && n < |p|
    ensures IsCandidate(w, p[n]) || BehindAllowed(w, t, p[0], p[n])
  {
    if n > 0 {
      CandidateOrBehind(w, t, p, n - 1);
      var c, d := p[n - 1], p[n];
      assert d == p[n - 1 + 1] && d in DepsOf(t, c);
      if BehindAllowed(w, t, p[0], c) {
        var a: string :| a in w.allowed && Reach(t, p[0], a) && Reach(t, a, c);
        ReachOn(t, a, c, d);
      } else {
        var i: nat :| i < |w.all| && w.all[i].name == c && Candidate(w.all[i]);
        assert DepsOk(w, w.all[i]);
        if d in w.allowed {
          ReachSelf(t, p[0]);
          ReachAlong(t, p[0], p, n);
          ReachSelf(t, d);
        }
      }
    }
  }

  /** Exactly when a silent guard means a clean audit: when everything behind the allowed crates that a
      candidate reaches is clean.  The guard does not look there. */
  lemma CleanExactly(w: World, t: Tree, root: string)
    requires Silent(w) && CandidatesAgree(w, t) && IsCandidate(w, root)
    ensures CleanFrom(t, root, w.allowed) <==>
            forall a: string | a in w.allowed && Reach(t, root, a) :: CleanFrom(t, a, w.allowed)
  {
    if CleanFrom(t, root, w.allowed) {
      forall a: string, c: string | a in w.allowed && Reach(t, root, a) && Reach(t, a, c) && c !in w.allowed
        ensures SourceOf(t, c).unsafes == 0
      {
        ReachThrough(t, root, a, c);
      }
    }
    if forall a: string | a in w.allowed && Reach(t, root, a) :: CleanFrom(t, a, w.allowed) {
      forall c: string | Reach(t, root, c) && c !in w.allowed
        ensures SourceOf(t, c).unsafes == 0
      {
        var p: seq<string> :| Path(t, p) && p[0] == root && p[|p| - 1] == c;
        CandidateOrBehind(w, t, p, |p| - 1);
        if IsCandidate(w, c) { CandidateIsClean(w, t, c); }
      }
    }
  }

  lemma CandidateIsClean(w: World, t: Tree, name: string)
    requires CandidatesOk(w) && CandidatesAgree(w, t) && IsCandidate(w, name)
    ensures SourceOf(t, name).forbids && SourceOf(t, name).unsafes == 0
  {
    var i: nat :| i < |w.all| && w.all[i].name == name && Candidate(w.all[i]);
    assert CrateOk(w, w.all[i]);
  }

  /** If the guard is silent, every candidate passes the certificate tool's audit -- as long as allowed
      crates depend on candidates and allowed crates only. */
  lemma SilentGuardPassesAudit(w: World, t: Tree, root: string)
    requires Silent(w) && Resolved(w, t) && IsCandidate(w, root)
    ensures w.other == Some(w.allowed)
    ensures SourceOf(t, root).forbids && SourceOf(t, root).unsafes == 0 && CleanFrom(t, root, w.other.value)
  {
    CandidateIsClean(w, t, root);
    forall a: string, c: string | a in w.allowed && Reach(t, a, c) && c !in w.allowed
      ensures SourceOf(t, c).unsafes == 0
    {
      var p: seq<string> :| Path(t, p) && p[0] == a && p[|p| - 1] == c;
      PathStaysEnclosed(w, t, p, |p| - 1);
      CandidateIsClean(w, t, c);
    }
    CleanExactly(w, t, root);
  }

  function HoleWorld(): World {
    World([Crate("app", Some(STRICT), 1, true, false, 0, false, None, {"abi"}, {"abi"}, true)], {"abi"}, {},
        Some({"abi"}))
  }

  function HoleTree(): Tree {
    Tree(map["app" := ["abi"], "abi" := ["alien"]],
         map["app" := Source(0, true), "abi" := Source(3, false), "alien" := Source(1, false)])
  }

  lemma HoleIsSilent()
    ensures Silent(HoleWorld()) && IsCandidate(HoleWorld(), "app")
  {
    var w := HoleWorld();
    assert Candidate(w.all[0]) && w.all[0].name == "app";
    assert IsCandidate(w, "app") && Needed(w, "abi");
    assert CrateOk(w, w.all[0]);
  }

  lemma HoleAgrees()
    ensures CandidatesAgree(HoleWorld(), HoleTree()) && SourceOf(HoleTree(), "app") == Source(0, true)
  {
    assert DepsOf(HoleTree(), "app") == ["abi"];
  }

  lemma HoleIsUnclean()
    ensures Reach(HoleTree(), "app", "abi") && !CleanFrom(HoleTree(), "abi", {"abi"})
  {
    var t := HoleTree();
    ReachSelf(t, "app");
    ReachOn(t, "app", "app", "abi");
    ReachSelf(t, "abi");
    ReachOn(t, "abi", "abi", "alien");
    assert SourceOf(t, "alien").unsafes == 1 && "alien" !in {"abi"};
  }

  /** The condition can fail: the guard is silent about this world, and the audit fails on what the
      allowed crate drags in. */
  lemma AllowedCrateIsAHole()
    ensures
      exists w: World, t: Tree ::
        && Silent(w) && CandidatesAgree(w, t) && IsCandidate(w, "app") && w.other == Some({"abi"})
        && SourceOf(t, "app") == Source(0, true) && !CleanFrom(t, "app", {"abi"})
  {
    HoleIsSilent();
    HoleAgrees();
    HoleIsUnclean();
    CleanExactly(HoleWorld(), HoleTree(), "app");
  }
}
