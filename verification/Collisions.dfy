/** Hashes into 32 bytes, and why every one of them has collisions: there are more strings of 33 bytes. */
module Collisions {
  import opened Wrappers
  import opened Bytes

  type Digest = s: seq<Byte> | |s| == 32 witness Zeros(32)
  type Sha = seq<Byte> -> Digest

  /** Two different messages of the measurement chain's length with one hash. */
  ghost predicate Collide(sha: Sha, a: seq<Byte>, b: seq<Byte>) {
    |a| == |b| == 72 && a != b && sha(a) == sha(b)
  }

  /** All strings of a length. */
  ghost function Strings(n: nat): (s: set<seq<Byte>>)
    ensures forall x: seq<Byte> :: x in s <==> |x| == n
  {
    if n == 0 then {[]}
    else
      var s := set b: Byte, t | b < 256 && t in Strings(n - 1) :: [b] + t;
      assert forall x: seq<Byte> | |x| == n :: x == [x[0]] + x[1..] && x[1..] in Strings(n - 1);
      s
  }

  ghost predicate OneToOne(s: set<seq<Byte>>, f: seq<Byte> -> seq<Byte>) {
    forall x: seq<Byte>, y: seq<Byte> | x in s && y in s && f(x) == f(y) :: x == y
  }

  ghost function ImageOf(s: set<seq<Byte>>, f: seq<Byte> -> seq<Byte>): set<seq<Byte>> { set x | x in s :: f(x) }

  lemma {:induction false} ImageSize(s: set<seq<Byte>>, f: seq<Byte> -> seq<Byte>)
    requires OneToOne(s, f)
    ensures |ImageOf(s, f)| == |s|
    decreases |s|
  {
    if s != {} {
      var a :| a in s;
      var rest := s - {a};
      ImageSize(rest, f);
      assert ImageOf(s, f) == ImageOf(rest, f) + {f(a)};
    }
  }

  ghost predicate HasLength(s: set<seq<Byte>>, n: nat) { forall x: seq<Byte> | x in s :: |x| == n }

  lemma FixedLength(s: set<seq<Byte>>, n: nat)
    requires HasLength(s, n)
    ensures |s| <= |Strings(n)|
  {
    SubsetSize(s, Strings(n));
  }

  function Prefixed(t: seq<Byte>): seq<Byte> { [0] + t }

  lemma PrefixedOneToOne(s: set<seq<Byte>>)
    ensures OneToOne(s, Prefixed)
  {
    forall x: seq<Byte>, y: seq<Byte> | Prefixed(x) == Prefixed(y)
      ensures x == y
    {
      assert Prefixed(x)[1..] == x && Prefixed(y)[1..] == y;
    }
  }

  lemma OnesAreNew(n: nat)
    ensures HasLength(ImageOf(Strings(n), Prefixed), n + 1) && [1] + Zeros(n) !in ImageOf(Strings(n), Prefixed)
  {
    forall x | x in ImageOf(Strings(n), Prefixed)
      ensures |x| == n + 1 && x[0] == 0
    {
      var t :| t in Strings(n) && Prefixed(t) == x;
    }
    assert ([1] + Zeros(n))[0] == 1;
  }

  /** A longer string is to be had by putting a zero in front, or a one. */
  lemma MoreStrings(n: nat)
    ensures |Strings(n)| < |Strings(n + 1)|
  {
    PrefixedOneToOne(Strings(n));
    ImageSize(Strings(n), Prefixed);
    var image := ImageOf(Strings(n), Prefixed);
    var other: seq<Byte> := [1] + Zeros(n);
    OnesAreNew(n);
    FixedLength(image + {other}, n + 1);
  }

  /** Whatever shortens strings by a byte maps two of them to one. */
  lemma Pigeonhole(f: seq<Byte> -> seq<Byte>, n: nat) returns (x: seq<Byte>, y: seq<Byte>)
    requires forall z: seq<Byte> :: |f(z)| == n
    ensures |x| == |y| == n + 1 && x != y && f(x) == f(y)
  {
    if OneToOne(Strings(n + 1), f) {
      ImageSize(Strings(n + 1), f);
      FixedLength(ImageOf(Strings(n + 1), f), n);
      MoreStrings(n);
      assert false;
    }
    x, y :| x in Strings(n + 1) && y in Strings(n + 1) && f(x) == f(y) && x != y;
  }

  /** So no hash is free of collisions on the chain's messages. */
  lemma EveryHashCollides(sha: Sha) returns (a: seq<Byte>, b: seq<Byte>)
    ensures Collide(sha, a, b)
  {
    var f: seq<Byte> -> seq<Byte> := (z: seq<Byte>) => sha(z + Zeros(39));
    forall z: seq<Byte>
      ensures |f(z)| == 32
    {
      var d: Digest := sha(z + Zeros(39));
      assert f(z) == d;
    }
    var x, y := Pigeonhole(f, 32);
    a, b := x + Zeros(39), y + Zeros(39);
    assert a[..33] == x && b[..33] == y;
  }
}
