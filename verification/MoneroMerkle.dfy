/** Monero's tree hash over any amount of leaves. */
module MoneroMerkle {
  import opened Powers

  /** Digests, with a hash of two which doesn't collide. */
  datatype Digest = Given(bytes: nat) | Hash(left: Digest, right: Digest)

  /** The tree over a power of two of digests, by halves. */
  ghost function Tree(hashes: seq<Digest>): Digest
    requires hashes != []
    decreases |hashes|
  {
    if |hashes| == 1 then hashes[0]
    else Hash(Tree(hashes[..|hashes| / 2]), Tree(hashes[|hashes| / 2..]))
  }

  /** Digests hashed in pairs. */
  ghost function Pairs(hashes: seq<Digest>): (r: seq<Digest>)
    requires |hashes| % 2 == 0
    ensures |r| == |hashes| / 2 && forall i :: 0 <= i < |r| ==> r[i] == Hash(hashes[2 * i], hashes[2 * i + 1])
  {
    seq(|hashes| / 2, i requires 0 <= i < |hashes| / 2 => Hash(hashes[2 * i], hashes[2 * i + 1]))
  }

  lemma PairsHalves(hashes: seq<Digest>)
    requires |hashes| % 4 == 0
    ensures Pairs(hashes)[..|hashes| / 4] == Pairs(hashes[..|hashes| / 2])
    ensures Pairs(hashes)[|hashes| / 4..] == Pairs(hashes[|hashes| / 2..])
  {}

  /** Hashing a level in pairs leaves the tree the same. */
  lemma {:induction false} TreeOfPairs(hashes: seq<Digest>, k: nat)
    requires |hashes| == Pow2(k + 1)
    ensures |Pairs(hashes)| == Pow2(k) && Tree(Pairs(hashes)) == Tree(hashes)
  {
    var n := |hashes| / 2;
    if k == 0 {
      assert hashes[..1][0] == hashes[0] && hashes[1..][0] == hashes[1];
    } else {
      assert Pow2(k + 1) == 2 * Pow2(k) && Pow2(k) == 2 * Pow2(k - 1);
      PairsHalves(hashes);
      TreeOfPairs(hashes[..n], k - 1);
      TreeOfPairs(hashes[n..], k - 1);
    }
  }

  /** The power of two below the amount of digests, and at least half of it. */
  ghost predicate LowerPower(n: nat, k: nat) {
    Pow2(k) < n <= 2 * Pow2(k)
  }

  lemma {:induction false} LowerPowerExists(n: nat, k: nat)
    requires 2 <= n <= 2 * Pow2(k)
    ensures exists j :: LowerPower(n, j)
  {
    if Pow2(k) < n {
      assert LowerPower(n, k);
    } else {
      assert k > 0 by { assert Pow2(0) == 1; }
      LowerPowerExists(n, k - 1);
    }
  }

  /** The exponent of the lower power of two. */
  ghost function Lower(n: nat): (k: nat)
    requires n >= 2
    ensures LowerPower(n, k)
  {
    Pow2Exceeds(n);
    LowerPowerExists(n, n);
    var k :| LowerPower(n, k);
    k
  }

  /** The right-most digests merged in pairs, for there to be a power of two of them. */
  ghost function Merged(hashes: seq<Digest>, k: nat): (r: seq<Digest>)
    requires LowerPower(|hashes|, k)
    ensures |r| == Pow2(k)
  {
    var kept := 2 * Pow2(k) - |hashes|;
    hashes[..kept] + Pairs(hashes[kept..])
  }

  lemma {:induction false} LowerPowerUnique(n: nat, j: nat, k: nat)
    requires LowerPower(n, j) && LowerPower(n, k)
    ensures j == k
  {
    if j < k { Pow2Monotone(j + 1, k); } else if k < j { Pow2Monotone(k + 1, j); }
  }

  ghost function RootOf(root: Digest, leaves: seq<Digest>): Digest {
    if leaves == [] then root
    else if |leaves| == 1 then Hash(root, leaves[0])
    else Tree(Merged([root] + leaves, Lower(|leaves| + 1)))
  }

  /** Pairing off a list. */
  method PairOff(hashes: seq<Digest>) returns (paired: seq<Digest>)
    requires |hashes| % 2 == 0
    ensures paired == Pairs(hashes)
  {
    paired := [];
    var i := 0;
    while i < |hashes|
      invariant i == 2 * |paired| <= |hashes|
      invariant forall j :: 0 <= j < |paired| ==> paired[j] == Hash(hashes[2 * j], hashes[2 * j + 1])
    {
      paired := paired + [Hash(hashes[i], hashes[i + 1])];
      i := i + 2;
    }
  }

  /** Twice the lower power of two. */
  method HighPower(n: nat) returns (high: nat)
    requires n >= 3
    ensures high == 2 * Pow2(Lower(n))
  {
    high := 4;
    ghost var k := 1;
    assert Pow2(1) == 2;
    while high < n
      invariant high == Pow2(k + 1) && Pow2(k) < n
      decreases n - high
    {
      high, k := high * 2, k + 1;
    }
    LowerPowerUnique(n, k, Lower(n));
  }

  /** `merkle_root`: no index is out of range and nothing underflows, and the result is the tree over the
      leaves, merged down to the lower power of two. */
  method MerkleRoot(root: Digest, leaves: seq<Digest>) returns (r: Digest)
    ensures r == RootOf(root, leaves)
  {
    if |leaves| == 0 {
      return root;
    }
    if |leaves| == 1 {
      return Hash(root, leaves[0]);
    }
    var merged := Merge([root] + leaves);
    r := PairUp(merged, Lower(|leaves| + 1));
  }

  /** Merging the right-most digests, for them to be exactly the lower power of two. */
  method Merge(hashes: seq<Digest>) returns (merged: seq<Digest>)
    requires |hashes| >= 3
    ensures merged == Merged(hashes, Lower(|hashes|))
  {
    var high := HighPower(|hashes|);
    var low := high / 2;
    var overage := |hashes| - low;
    ghost var k := Lower(|hashes|);
    assert LowerPower(|hashes|, k) && low == Pow2(k) && low - overage == 2 * Pow2(k) - |hashes|;
    var rightmost := hashes[low - overage..];
    assert |rightmost| == 2 * overage;
    var paired := PairOff(rightmost);
    merged := hashes[..low - overage] + paired;
    assert |merged| == low;
  }

  /** The traditional pairing off. */
  method PairUp(level: seq<Digest>, ghost k: nat) returns (r: Digest)
    requires |level| == Pow2(k)
    ensures r == Tree(level)
  {
    var hashes := level;
    ghost var left := k;
    while |hashes| > 1
      invariant |hashes| == Pow2(left) && Tree(hashes) == Tree(level)
      decreases |hashes|
    {
      TreeOfPairs(hashes, left - 1);
      hashes := PairOff(hashes);
      left := left - 1;
    }
    r := hashes[0];
  }

  // Injectivity

  lemma {:induction false} TreeInjective(a: seq<Digest>, b: seq<Digest>)
    requires |a| == |b| > 0 && Tree(a) == Tree(b)
    ensures a == b
    decreases |a|
  {
    if |a| > 1 {
      var n := |a| / 2;
      TreeInjective(a[..n], b[..n]);
      TreeInjective(a[n..], b[n..]);
      assert a == a[..n] + a[n..] && b == b[..n] + b[n..];
    }
  }

  lemma PairsInjective(a: seq<Digest>, b: seq<Digest>)
    requires |a| == |b| && |a| % 2 == 0 && Pairs(a) == Pairs(b)
    ensures a == b
  {
    forall i | 0 <= i < |a| ensures a[i] == b[i] {
      assert Pairs(a)[i / 2] == Pairs(b)[i / 2];
    }
  }

  lemma MergedInjective(x: seq<Digest>, y: seq<Digest>, k: nat)
    requires |x| == |y| && LowerPower(|x|, k) && Merged(x, k) == Merged(y, k)
    ensures x == y
  {
    var kept := 2 * Pow2(k) - |x|;
    assert x[..kept] == Merged(x, k)[..kept] && y[..kept] == Merged(y, k)[..kept];
    assert Pairs(x[kept..]) == Merged(x, k)[kept..] && Pairs(y[kept..]) == Merged(y, k)[kept..];
    PairsInjective(x[kept..], y[kept..]);
    assert x == x[..kept] + x[kept..] && y == y[..kept] + y[kept..];
  }

  /** Equal roots of equally many leaves are of the same leaves. */
  lemma RootInjective(r: Digest, a: seq<Digest>, s: Digest, b: seq<Digest>)
    requires |a| == |b| && RootOf(r, a) == RootOf(s, b)
    ensures r == s && a == b
  {
    if |a| == 1 {
      assert a == [a[0]] && b == [b[0]];
    } else if |a| >= 2 {
      var x, y, k := [r] + a, [s] + b, Lower(|a| + 1);
      TreeInjective(Merged(x, k), Merged(y, k));
      MergedInjective(x, y, k);
      assert x[0] == r && y[0] == s && x[1..] == a && y[1..] == b;
    }
  }
}
