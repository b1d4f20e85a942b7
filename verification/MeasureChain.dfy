/** The loader's bounded measurement chain and the offline tool that recomputes it. */
module MeasureChain {
  import opened Wrappers
  import opened Bytes
  import opened Collisions

  const MAX_LINKS: nat := 64

  type Word = v: nat | v < U32_LIMIT

  datatype Measurement = Measurement(program: Word, domain: Word, image: Digest)

  datatype Link = Link(what: Measurement, pcr: Digest)

  function Message(prev: Digest, m: Measurement): (s: seq<Byte>)
    ensures |s| == 72
  {
    prev + Le32(m.program) + Le32(m.domain) + m.image
  }

  /** One extension. */
  function Step(sha: Sha, prev: Digest, m: Measurement): Digest { sha(Message(prev, m)) }

  /** The chain state after all of `ms`, starting from `genesis`. */
  function Head(sha: Sha, genesis: Digest, ms: seq<Measurement>): Digest {
    if ms == [] then genesis else Step(sha, Head(sha, genesis, ms[..|ms| - 1]), ms[|ms| - 1])
  }

  /** Link `i` holds measurement `i` and the state after it. */
  ghost predicate LinkOk(link: Option<Link>, sha: Sha, genesis: Digest, ms: seq<Measurement>, i: nat)
    requires i < |ms|
  {
    link == Some(Link(ms[i], Head(sha, genesis, ms[..i + 1])))
  }

  ghost predicate LinksOk(links: seq<Option<Link>>, sha: Sha, genesis: Digest, ms: seq<Measurement>, n: nat) {
    n <= |ms| && n <= |links| && forall i: nat | i < n :: LinkOk(links[i], sha, genesis, ms, i)
  }

  lemma LinksStayOk(links: seq<Option<Link>>, sha: Sha, genesis: Digest, ms: seq<Measurement>, m: Measurement, n: nat)
    requires LinksOk(links, sha, genesis, ms, n)
    ensures LinksOk(links, sha, genesis, ms + [m], n)
  {
    forall i: nat | i < n
      ensures LinkOk(links[i], sha, genesis, ms + [m], i)
    {
      LinkStaysOk(links[i], sha, genesis, ms, m, i);
    }
  }

  lemma NextLinkOk(links: seq<Option<Link>>, sha: Sha, genesis: Digest, ms: seq<Measurement>, m: Measurement,
                   pcr: Digest)
    requires |ms| < |links| && LinksOk(links, sha, genesis, ms, |ms|) && pcr == Step(sha, Head(sha, genesis, ms), m)
    ensures LinksOk(links[|ms| := Some(Link(m, pcr))], sha, genesis, ms + [m], |ms| + 1)
  {
    var n, next := |ms|, links[|ms| := Some(Link(m, pcr))];
    LinksStayOk(links, sha, genesis, ms, m, n);
    LastLinkOk(sha, genesis, ms, m, pcr);
    forall i: nat | i < n + 1
      ensures LinkOk(next[i], sha, genesis, ms + [m], i)
    {
      if i < n { assert next[i] == links[i]; }
    }
  }

  lemma LastLinkOk(sha: Sha, genesis: Digest, ms: seq<Measurement>, m: Measurement, pcr: Digest)
    requires pcr == Step(sha, Head(sha, genesis, ms), m)
    ensures LinkOk(Some(Link(m, pcr)), sha, genesis, ms + [m], |ms|)
  {
    var n, all := |ms|, ms + [m];
    assert all[..n + 1] == all && all[..n] == ms && all[n] == m;
  }

  lemma LinkStaysOk(link: Option<Link>, sha: Sha, genesis: Digest, ms: seq<Measurement>, m: Measurement, i: nat)
    requires i < |ms| && LinkOk(link, sha, genesis, ms, i)
    ensures LinkOk(link, sha, genesis, ms + [m], i)
  {
    assert (ms + [m])[..i + 1] == ms[..i + 1];
  }

  // ---------------------------------------------------------------------------------------------
  // The kernel's side
  // ---------------------------------------------------------------------------------------------

  class Chain {
    const sha: Sha
    const genesis: Digest
    const links: array<Option<Link>>
    var count: nat
    var discarded: nat

    /** Every measurement ever handed in. */
    ghost var measured: seq<Measurement>

    ghost predicate Valid()
      reads this, links
    {
      && links.Length == MAX_LINKS && count <= MAX_LINKS
      && count == (if |measured| < MAX_LINKS then |measured| else MAX_LINKS) && discarded == |measured| - count
      && LinksOk(links[..], sha, genesis, measured, count)
    }

    /** What the chain has kept: the first 64 measurements. */
    ghost function Kept(): seq<Measurement>
      requires Valid()
      reads this, links
    {
      measured[..count]
    }

    constructor (sha: Sha, genesis: Digest)
      ensures Valid() && fresh(links) && measured == [] && this.sha == sha && this.genesis == genesis
    {
      this.sha, this.genesis := sha, genesis;
      links := new Option<Link>[MAX_LINKS](_ => None);
      count, discarded, measured := 0, 0, [];
    }

    method Extend(m: Measurement)
      requires Valid()
      modifies this, links
      ensures Valid() && measured == old(measured) + [m]
      ensures count == (if old(count) < MAX_LINKS then old(count) + 1 else old(count))
      ensures discarded == (if old(count) < MAX_LINKS then old(discarded) else old(discarded) + 1)
      ensures forall i: nat | i < old(count) :: links[i] == old(links[i])
    {
      var prev := genesis;
      if count > 0 {
        prev := if links[count - 1].Some? then links[count - 1].value.pcr else genesis;
      }
      var pcr := Step(sha, prev, m);
      ghost var before := measured;
      measured := before + [m];
      if count >= MAX_LINKS {
        LinksStayOk(links[..], sha, genesis, before, m, count);
        discarded := discarded + 1;
        return;
      }
      assert before[..count] == before;
      NextLinkOk(links[..], sha, genesis, before, m, pcr);
      links[count] := Some(Link(m, pcr));
      count := count + 1;
    }

    method Current() returns (pcr: Digest, n: nat)
      requires Valid()
      ensures n == count && pcr == Head(sha, genesis, Kept())
    {
      if count == 0 { return genesis, 0; }
      return links[count - 1].value.pcr, count;
    }
  }

  // ---------------------------------------------------------------------------------------------
  // The tool's side
  // ---------------------------------------------------------------------------------------------

  datatype Report = Report(pcr: Digest, count: int, nonce: int)

  datatype Evidence = Evidence(genesis: Digest, entries: seq<Measurement>, report: Report, expected: Option<int>,
                               key: Option<Digest>, signature: seq<Byte>)

  /** `Overflow` is a report whose count or nonce does not fit the signed message. */
  datatype Verdict =
    HeadBroken | CountBroken | NothingExpected | Replay | Unsigned | Overflow | BadSignature | AllPass

  method Recompute(sha: Sha, genesis: Digest, entries: seq<Measurement>) returns (head: Digest)
    ensures head == Head(sha, genesis, entries)
  {
    head := genesis;
    for i := 0 to |entries|
      invariant head == Head(sha, genesis, entries[..i])
    {
      assert entries[..i + 1][..i] == entries[..i];
      head := Step(sha, head, entries[i]);
    }
    assert entries[..|entries|] == entries;
  }

  predicate Packable(r: Report) { 0 <= r.count < U64_LIMIT && 0 <= r.nonce < U64_LIMIT }

  function Tag(sha: Sha, key: Digest, r: Report): seq<Byte>
    requires Packable(r)
  {
    var message := Signed(r);
    sha(key + message) + sha(message + key)
  }

  /** Head, count and nonce, in this order: what is signed. */
  function Signed(r: Report): (s: seq<Byte>)
    requires Packable(r)
    ensures |s| == 48
  {
    r.pcr + Le64(r.count) + Le64(r.nonce)
  }

  lemma SignedParts(r: Report)
    requires Packable(r)
    ensures var s := Signed(r); s[..32] == r.pcr && U64(s, 32) == r.count && U64(s, 40) == r.nonce
  {
    var s := Signed(r);
    assert s[32..40] == Le64(r.count) && s[40..48] == Le64(r.nonce);
    Le64Read(s, 32, r.count);
    Le64Read(s, 40, r.nonce);
  }

  lemma SplitBehind(a: seq<Byte>, b: seq<Byte>, c: seq<Byte>)
    requires a + b == a + c
    ensures b == c
  {
    assert (a + b)[|a|..] == b && (a + c)[|a|..] == c;
  }

  lemma SplitFront(a: seq<Byte>, b: seq<Byte>, c: seq<Byte>)
    requires |b| == |c| && b + a == c + a
    ensures b == c
  {
    assert (b + a)[..|b|] == b && (c + a)[..|c|] == c;
  }

  /** Under one key a tag is good for one report only, up to two collisions: with the key in front of the signed
      bytes and with the key behind them. */
  lemma TagExactly(sha: Sha, key: Digest, r: Report, q: Report)
    requires Packable(r) && Packable(q)
    ensures Tag(sha, key, r)[..32] == sha(key + Signed(r)) && Tag(sha, key, r)[32..] == sha(Signed(r) + key)
    ensures Tag(sha, key, r) == Tag(sha, key, q) <==>
              || r == q
              || (&& key + Signed(r) != key + Signed(q) && sha(key + Signed(r)) == sha(key + Signed(q))
                  && Signed(r) + key != Signed(q) + key && sha(Signed(r) + key) == sha(Signed(q) + key))
  {
    SignedParts(r);
    SignedParts(q);
    TwoHalves(sha(key + Signed(r)), sha(Signed(r) + key), sha(key + Signed(q)), sha(Signed(q) + key));
    if key + Signed(r) == key + Signed(q) { SplitBehind(key, Signed(r), Signed(q)); }
    if Signed(r) + key == Signed(q) + key { SplitFront(key, Signed(r), Signed(q)); }
  }

  lemma TwoHalves(a: Digest, b: Digest, c: Digest, d: Digest)
    ensures a + b == c + d <==> a == c && b == d
  {
    assert (a + b)[..32] == a && (c + d)[..32] == c && (a + b)[32..] == b && (c + d)[32..] == d;
  }

  /** Head and count fit a report: what every acceptance rests on. */
  ghost predicate Fits(sha: Sha, genesis: Digest, entries: seq<Measurement>, r: Report) {
    Head(sha, genesis, entries) == r.pcr && |entries| == r.count
  }

  /** Head, count and nonce are right: what every acceptance rests on. */
  ghost predicate Fresh(sha: Sha, e: Evidence) {
    Fits(sha, e.genesis, e.entries, e.report) && e.expected == Some(e.report.nonce)
  }

  /** `cmd_kette`: head, count, nonce, and a signature if a key is given. */
  method Check(sha: Sha, e: Evidence) returns (v: Verdict)
    ensures v == HeadBroken <==> Head(sha, e.genesis, e.entries) != e.report.pcr
    ensures v == CountBroken <==> Head(sha, e.genesis, e.entries) == e.report.pcr && e.report.count != |e.entries|
    ensures v == NothingExpected <==> Fits(sha, e.genesis, e.entries, e.report) && e.expected.None?
    ensures v == Unsigned <==> Fresh(sha, e) && e.key.None?
    ensures v == AllPass <==>
            Fresh(sha, e) && e.key.Some? && Packable(e.report) && Tag(sha, e.key.value, e.report) == e.signature
    ensures v == BadSignature <==>
            Fresh(sha, e) && e.key.Some? && Packable(e.report) && Tag(sha, e.key.value, e.report) != e.signature
    ensures v == Overflow <==> Fresh(sha, e) && e.key.Some? && !Packable(e.report)
  {
    var head := Recompute(sha, e.genesis, e.entries);
    if head != e.report.pcr { return HeadBroken; }
    if e.report.count != |e.entries| { return CountBroken; }
    if e.expected.None? { return NothingExpected; }
    if e.report.nonce != e.expected.value { return Replay; }
    if e.key.None? { return Unsigned; }
    if !Packable(e.report) { return Overflow; }
    if Tag(sha, e.key.value, e.report) != e.signature { return BadSignature; }
    return AllPass;
  }

  // ---------------------------------------------------------------------------------------------
  // Both sides together
  // ---------------------------------------------------------------------------------------------

  // SHA-256 is a parameter, any function to 32 bytes.  None is free of collisions, so what the tool can be sure of
  // is stated exactly: up to a collision, which is named.

  lemma MessageParts(p: Digest, m: Measurement)
    ensures
      var s := Message(p, m);
      && s[..32] == p && s[32..36] == Le32(m.program) && s[36..40] == Le32(m.domain) && s[40..72] == m.image
  {
    var front, middle := p + Le32(m.program), p + Le32(m.program) + Le32(m.domain);
    assert Message(p, m) == middle + m.image && middle == front + Le32(m.domain);
    assert Message(p, m)[..40] == middle && middle[..36] == front && front[..32] == p;
    assert middle[36..40] == Le32(m.domain) && front[32..36] == Le32(m.program);
  }

  lemma Le32Injective(v: nat, w: nat)
    requires v < U32_LIMIT && w < U32_LIMIT && Le32(v) == Le32(w)
    ensures v == w
  {
    Le32Read(Le32(v), 0, v);
    Le32Read(Le32(w), 0, w);
  }

  /** A message says the state before, the program, the domain and the image. */
  lemma MessageInjective(p: Digest, m: Measurement, q: Digest, k: Measurement)
    requires Message(p, m) == Message(q, k)
    ensures p == q && m == k
  {
    MessageParts(p, m);
    MessageParts(q, k);
    Le32Injective(m.program, k.program);
    Le32Injective(m.domain, k.domain);
  }

  /** The message that is hashed for measurement `i`. */
  function MessageAt(sha: Sha, g: Digest, ms: seq<Measurement>, i: nat): seq<Byte>
    requires i < |ms|
  {
    Message(Head(sha, g, ms[..i]), ms[i])
  }

  /** The two chains collide at measurement `i`, and say the same after it. */
  ghost predicate CollideAt(sha: Sha, g: Digest, ms: seq<Measurement>, h: Digest, ks: seq<Measurement>, i: nat) {
    && i < |ms| == |ks|
    && Collide(sha, MessageAt(sha, g, ms, i), MessageAt(sha, h, ks, i))
    && ms[i + 1..] == ks[i + 1..]
  }

  lemma HeadAfter(sha: Sha, g: Digest, ms: seq<Measurement>, i: nat)
    requires i < |ms|
    ensures Head(sha, g, ms[..i + 1]) == sha(MessageAt(sha, g, ms, i))
  {
    assert ms[..i + 1][..i] == ms[..i];
  }

  /** Whatever states the same measurements follow on, the same state gives the same head. */
  lemma {:induction false} SameTail(sha: Sha, g: Digest, ms: seq<Measurement>, h: Digest, ks: seq<Measurement>, i: nat)
    requires i <= |ms| == |ks| && ms[i..] == ks[i..] && Head(sha, g, ms[..i]) == Head(sha, h, ks[..i])
    ensures Head(sha, g, ms) == Head(sha, h, ks)
    decreases |ms| - i
  {
    if i == |ms| {
      assert ms[..i] == ms && ks[..i] == ks;
    } else {
      assert ms[i..][0] == ms[i] && ks[i..][0] == ks[i];
      assert ms[i..][1..] == ms[i + 1..] && ks[i..][1..] == ks[i + 1..];
      HeadAfter(sha, g, ms, i);
      HeadAfter(sha, h, ks, i);
      SameTail(sha, g, ms, h, ks, i + 1);
    }
  }

  lemma CollisionCarries(sha: Sha, g: Digest, ms: seq<Measurement>, h: Digest, ks: seq<Measurement>, i: nat)
    requires |ms| == |ks| > 0 && ms[|ms| - 1] == ks[|ks| - 1]
    requires CollideAt(sha, g, ms[..|ms| - 1], h, ks[..|ks| - 1], i)
    ensures CollideAt(sha, g, ms, h, ks, i)
  {
    var n := |ms| - 1;
    assert ms[..n][..i] == ms[..i] && ks[..n][..i] == ks[..i];
    assert ms[i + 1..] == ms[..n][i + 1..] + [ms[n]] && ks[i + 1..] == ks[..n][i + 1..] + [ks[n]];
  }

  ghost predicate CollideSomewhere(sha: Sha, g: Digest, ms: seq<Measurement>, h: Digest, ks: seq<Measurement>) {
    exists i: nat :: CollideAt(sha, g, ms, h, ks, i)
  }

  /** Which chains of one length have one head, exactly: the same chain, and those that collide somewhere
      and go on alike. */
  lemma SameHeadExactly(sha: Sha, g: Digest, ms: seq<Measurement>, h: Digest, ks: seq<Measurement>)
    requires |ms| == |ks|
    ensures Head(sha, g, ms) == Head(sha, h, ks) <==> (g == h && ms == ks) || CollideSomewhere(sha, g, ms, h, ks)
  {
    if Head(sha, g, ms) == Head(sha, h, ks) { SameOrCollide(sha, g, ms, h, ks); }
    if CollideSomewhere(sha, g, ms, h, ks) { CollisionGivesHead(sha, g, ms, h, ks); }
  }

  lemma CollisionGivesHead(sha: Sha, g: Digest, ms: seq<Measurement>, h: Digest, ks: seq<Measurement>)
    requires |ms| == |ks| && CollideSomewhere(sha, g, ms, h, ks)
    ensures Head(sha, g, ms) == Head(sha, h, ks)
  {
    var i: nat :| CollideAt(sha, g, ms, h, ks, i);
    HeadAfter(sha, g, ms, i);
    HeadAfter(sha, h, ks, i);
    SameTail(sha, g, ms, h, ks, i + 1);
  }

  lemma {:induction false} SameOrCollide(sha: Sha, g: Digest, ms: seq<Measurement>, h: Digest, ks: seq<Measurement>)
    requires |ms| == |ks| && Head(sha, g, ms) == Head(sha, h, ks)
    ensures (g == h && ms == ks) || CollideSomewhere(sha, g, ms, h, ks)
    decreases |ms|
  {
    if ms != [] {
      var n := |ms| - 1;
      if MessageAt(sha, g, ms, n) != MessageAt(sha, h, ks, n) {
        assert ms[n + 1..] == ks[n + 1..] && CollideAt(sha, g, ms, h, ks, n);
      } else {
        MessageInjective(Head(sha, g, ms[..n]), ms[n], Head(sha, h, ks[..n]), ks[n]);
        SameOrCollide(sha, g, ms[..n], h, ks[..n]);
        if CollideSomewhere(sha, g, ms[..n], h, ks[..n]) {
          var i: nat :| CollideAt(sha, g, ms[..n], h, ks[..n], i);
          CollisionCarries(sha, g, ms, h, ks, i);
        } else {
          assert ms == ms[..n] + [ms[n]] && ks == ks[..n] + [ks[n]];
        }
      }
    }
  }

  /** What the tool can be sure of: head and count of the kernel's report fit the kernel's own genesis and
      entries, and nothing else but a chain that collides with them. */
  lemma KernelsChainExactly(sha: Sha, g: Digest, kept: seq<Measurement>, h: Digest, entries: seq<Measurement>,
                            nonce: int)
    ensures Fits(sha, h, entries, Report(Head(sha, g, kept), |kept|, nonce)) <==>
              (h == g && entries == kept) || CollideSomewhere(sha, g, kept, h, entries)
  {
    if |entries| == |kept| { SameHeadExactly(sha, g, kept, h, entries); }
  }

  /** Whoever has another chain that fits has two messages with one hash. */
  lemma OwnChainOrCollision(sha: Sha, g: Digest, kept: seq<Measurement>, h: Digest, entries: seq<Measurement>,
                            nonce: int) returns (a: seq<Byte>, b: seq<Byte>)
    requires Fits(sha, h, entries, Report(Head(sha, g, kept), |kept|, nonce))
    ensures (h == g && entries == kept) || Collide(sha, a, b)
  {
    KernelsChainExactly(sha, g, kept, h, entries, nonce);
    a, b := [], [];
    if !(h == g && entries == kept) {
      var i: nat :| CollideAt(sha, g, kept, h, entries, i);
      a, b := MessageAt(sha, g, kept, i), MessageAt(sha, h, entries, i);
    }
  }

  /** The state and the measurement a message says. */
  lemma MessageOf(s: seq<Byte>) returns (p: Digest, m: Measurement)
    requires |s| == 72
    ensures Message(p, m) == s
  {
    p, m := s[..32], Measurement(U32(s, 32), U32(s, 36), s[40..]);
    Le32Unique(s, 32, m.program);
    Le32Unique(s, 36, m.domain);
    MessageParts(p, m);
    var t := Message(p, m);
    assert t == t[..32] + t[32..36] + t[36..40] + t[40..72];
    assert s == s[..32] + s[32..36] + s[36..40] + s[40..];
  }

  /** There are such chains for every hash: no head and no count rule out all others. */
  lemma AnotherChainFits(sha: Sha, nonce: int) returns (g: Digest, m: Measurement, h: Digest, k: Measurement)
    ensures !(g == h && m == k) && Fits(sha, h, [k], Report(Head(sha, g, [m]), 1, nonce))
  {
    var a, b := EveryHashCollides(sha);
    g, m := MessageOf(a);
    h, k := MessageOf(b);
    OneLink(sha, g, m);
    OneLink(sha, h, k);
  }

  lemma OneLink(sha: Sha, g: Digest, m: Measurement)
    ensures Head(sha, g, [m]) == sha(Message(g, m))
  {
    assert [m][..1] == [m] && [m][..0] == [];
    HeadAfter(sha, g, [m], 0);
  }

  /** The count is needed: without its first entry, and with that entry's state for a genesis, the
      chain still ends in the same head. */
  lemma {:induction false} FrontCutKeepsHead(sha: Sha, g: Digest, ms: seq<Measurement>)
    requires |ms| >= 1
    ensures Head(sha, Head(sha, g, ms[..1]), ms[1..]) == Head(sha, g, ms)
    decreases |ms|
  {
    var n := |ms| - 1;
    if n > 0 {
      FrontCutKeepsHead(sha, g, ms[..n]);
      assert ms[..n][..1] == ms[..1] && ms[..n][1..] == ms[1..][..n - 1];
      assert ms[1..][n - 1] == ms[n];
    } else {
      assert ms[..1] == ms && ms[1..] == [];
    }
  }

  /** What a chain reports: what `Current` returns, with a nonce. */
  ghost function Reported(c: Chain, nonce: int): Report
    requires c.Valid()
    reads c, c.links
  {
    Report(Head(c.sha, c.genesis, c.Kept()), c.count, nonce)
  }

  /** The tool accepts for a chain's report what that chain has kept, and what collides with it. */
  lemma KeptExactly(c: Chain, h: Digest, entries: seq<Measurement>, nonce: int)
    requires c.Valid()
    ensures Fits(c.sha, h, entries, Reported(c, nonce)) <==>
              (h == c.genesis && entries == c.Kept()) || CollideSomewhere(c.sha, c.genesis, c.Kept(), h, entries)
  {
    KernelsChainExactly(c.sha, c.genesis, c.Kept(), h, entries, nonce);
  }

  /** Measurements beyond the 64th do not show: two chains report the same if their first 64 measurements are
      the same, whatever they discarded and however much of it ... */
  lemma DiscardsInvisible(c: Chain, e: Chain, nonce: int)
    requires c.Valid() && e.Valid() && c.sha == e.sha && c.genesis == e.genesis
    requires |c.measured| >= MAX_LINKS && |e.measured| >= MAX_LINKS
    requires c.measured[..MAX_LINKS] == e.measured[..MAX_LINKS]
    ensures Reported(c, nonce) == Reported(e, nonce)
  {
  }

  /** ... and the first 64 do, up to a collision. */
  lemma KeptIsVisible(c: Chain, e: Chain, nonce: int)
    requires c.Valid() && e.Valid() && c.sha == e.sha && c.genesis == e.genesis
    ensures Reported(c, nonce) == Reported(e, nonce) <==>
              c.Kept() == e.Kept() || CollideSomewhere(c.sha, c.genesis, c.Kept(), e.genesis, e.Kept())
  {
    KernelsChainExactly(c.sha, c.genesis, c.Kept(), e.genesis, e.Kept(), nonce);
  }

  /** Two chains with different measurements and one report, for every hash: they differ in the 65th. */
  method TwoChainsOneReport(sha: Sha, genesis: Digest, m: Measurement, k: Measurement) returns (c: Chain, e: Chain)
    requires m != k
    ensures fresh(c) && fresh(e) && c.Valid() && e.Valid()
    ensures c.measured != e.measured && forall nonce: int :: Reported(c, nonce) == Reported(e, nonce)
  {
    c := FullChain(sha, genesis, m);
    e := FullChain(sha, genesis, m);
    c.Extend(m);
    e.Extend(k);
    assert c.measured[MAX_LINKS] != e.measured[MAX_LINKS];
    assert c.measured[..MAX_LINKS] == e.measured[..MAX_LINKS];
    forall nonce: int
      ensures Reported(c, nonce) == Reported(e, nonce)
    {
      DiscardsInvisible(c, e, nonce);
    }
  }

  method FullChain(sha: Sha, genesis: Digest, m: Measurement) returns (c: Chain)
    ensures fresh(c) && fresh(c.links) && c.Valid() && c.sha == sha && c.genesis == genesis
    ensures c.measured == seq(MAX_LINKS, _ => m)
  {
    c := new Chain(sha, genesis);
    for i := 0 to MAX_LINKS
      invariant fresh(c) && fresh(c.links) && c.Valid() && c.measured == seq(i, _ => m)
    {
      c.Extend(m);
    }
  }
}
