/** The Merkle tree over a block's transaction hashes. */
module TributaryMerkle {
  import opened Transactions

  /** One level up: digests are hashed in pairs, an odd last one with zero. */
  function Level(hashes: seq<Digest>): (r: seq<Digest>)
    ensures |r| == (|hashes| + 1) / 2
  {
    if hashes == [] then []
    else if |hashes| == 1 then [Branch(hashes[0], Zero)]
    else [Branch(hashes[0], hashes[1])] + Level(hashes[2..])
  }

  function Root(hashes: seq<Digest>): Digest
    decreases |hashes|
  {
    if hashes == [] then Zero else if |hashes| == 1 then hashes[0] else Root(Level(hashes))
  }

  function Leaves(hashes: seq<Digest>): (r: seq<Digest>)
    ensures |r| == |hashes| && forall i :: 0 <= i < |r| ==> r[i] == Leaf(hashes[i])
  {
    seq(|hashes|, i requires 0 <= i < |hashes| => Leaf(hashes[i]))
  }

  /** The levels as the loop builds them. */
  lemma {:induction false} LevelAt(hashes: seq<Digest>, k: nat)
    requires 2 * k < |hashes|
    ensures Level(hashes)[k] == Branch(hashes[2 * k], if 2 * k + 1 < |hashes| then hashes[2 * k + 1] else Zero)
  {
    if k > 0 {
      LevelAt(hashes[2..], k - 1);
      assert hashes[2..][2 * k - 2] == hashes[2 * k];
    }
  }

  method NextLevel(level: seq<Digest>) returns (interim: seq<Digest>)
    ensures interim == Level(level)
  {
    interim := [];
    var i := 0;
    while i < |level|
      invariant i == 2 * |interim| && |interim| <= (|level| + 1) / 2
      invariant forall k :: 0 <= k < |interim| ==> interim[k] == Level(level)[k]
    {
      LevelAt(level, |interim|);
      interim := interim + [Branch(level[i], if i + 1 < |level| then level[i + 1] else Zero)];
      i := i + 2;
    }
    assert interim == Level(level);
  }

  method Merkle(hashes: seq<Digest>) returns (r: Digest)
    ensures r == Root(Leaves(hashes))
  {
    var level := [];
    for i := 0 to |hashes|
      invariant |level| == i && forall k :: 0 <= k < i ==> level[k] == Leaf(hashes[k])
    {
      level := level + [Leaf(hashes[i])];
    }
    assert level == Leaves(hashes);
    while |level| > 1
      invariant Root(level) == Root(Leaves(hashes))
      decreases |level|
    {
      level := NextLevel(level);
    }
    r := if level == [] then Zero else level[0];
  }

  /** How many branches are above a leaf, down the left. */
  ghost function Depth(d: Digest): int {
    if d.Branch? then 1 + Depth(d.left) else 0
  }

  ghost predicate AtDepth(hashes: seq<Digest>, depth: int) {
    forall i :: 0 <= i < |hashes| ==> hashes[i] != Zero && Depth(hashes[i]) == depth
  }

  lemma LevelDepth(hashes: seq<Digest>, depth: int)
    requires AtDepth(hashes, depth)
    ensures AtDepth(Level(hashes), depth + 1)
  {
    forall k | 0 <= k < |Level(hashes)| ensures Level(hashes)[k] != Zero && Depth(Level(hashes)[k]) == depth + 1 {
      LevelAt(hashes, k);
    }
  }

  lemma {:induction false} RootDepth(hashes: seq<Digest>, depth: int)
    requires AtDepth(hashes, depth) && hashes != []
    ensures Root(hashes) != Zero && Depth(Root(hashes)) >= depth && (|hashes| > 1 ==> Depth(Root(hashes)) > depth)
    decreases |hashes|
  {
    if |hashes| > 1 {
      LevelDepth(hashes, depth);
      RootDepth(Level(hashes), depth + 1);
    }
  }

  lemma {:induction false} LevelInjective(a: seq<Digest>, b: seq<Digest>)
    requires Level(a) == Level(b) && Zero !in a && Zero !in b
    ensures a == b
  {
    assert |Level(a)| == |Level(b)|;
    if a != [] {
      assert Level(a)[0] == Level(b)[0];
      if |a| == 1 {
        assert forall i :: 0 <= i < |b| ==> b[i] in b;
      } else {
        assert a[1] in a;
        assert |b| >= 2;
        assert Level(a)[1..] == Level(a[2..]) && Level(b)[1..] == Level(b[2..]);
        LevelInjective(a[2..], b[2..]);
        assert a == [a[0], a[1]] + a[2..] && b == [b[0], b[1]] + b[2..];
      }
    }
  }

  lemma {:induction false} RootInjective(a: seq<Digest>, b: seq<Digest>, depth: int)
    requires AtDepth(a, depth) && AtDepth(b, depth) && Root(a) == Root(b)
    ensures a == b
    decreases |a|
  {
    if a == [] || b == [] {
      if a != [] { RootDepth(a, depth); }
      if b != [] { RootDepth(b, depth); }
    } else {
      RootDepth(a, depth);
      RootDepth(b, depth);
      if |a| == 1 {
        assert |b| == 1;
      } else {
        assert |b| > 1;
        LevelDepth(a, depth);
        LevelDepth(b, depth);
        RootInjective(Level(a), Level(b), depth + 1);
        LevelInjective(a, b);
      }
    }
  }

  /** Equal roots are of equal lists, of whatever lengths. */
  lemma MerkleInjective(a: seq<Digest>, b: seq<Digest>)
    requires Root(Leaves(a)) == Root(Leaves(b))
    ensures a == b
  {
    RootInjective(Leaves(a), Leaves(b), 0);
    assert forall i :: 0 <= i < |a| ==> Leaves(a)[i] == Leaves(b)[i];
  }
}
