/** Sums and products over the values of a map, taken in any order. */
module Sums {
  import opened Scalars
  import opened Points

  /** Participants are non-zero 16-bit integers. */
  type Participant = p: nat | 0 < p <= 65535 witness 1

  ghost function FoldSumMap(m: map<Participant, int>): int
    decreases |m|
  {
    if m == map[] then 0 else var k :| k in m; m[k] + FoldSumMap(m - {k})
  }

  lemma {:induction false} FoldSumMapRemove(m: map<Participant, int>, k: Participant)
    requires k in m
    ensures FoldSumMap(m) == m[k] + FoldSumMap(m - {k})
    decreases |m|
  {
    var j :| j in m && FoldSumMap(m) == m[j] + FoldSumMap(m - {j});
    if j != k {
      FoldSumMapRemove(m - {j}, k);
      FoldSumMapRemove(m - {k}, j);
      assert m - {j} - {k} == m - {k} - {j};
    }
  }

  predicate SumMapAt(m: map<Participant, int>, k: Participant) { true }

  ghost predicate IsSumMap(f: map<Participant, int> -> int) {
    && f(map[]) == 0
    && forall m, k {:trigger SumMapAt(m, k)} :: SumMapAt(m, k) && k in m ==> f(m) == m[k] + f(m - {k})
  }

  lemma FoldSumMapIs()
    ensures IsSumMap(FoldSumMap)
  {
    forall m: map<Participant, int>, k: Participant {:trigger SumMapAt(m, k)} | SumMapAt(m, k) && k in m
      ensures FoldSumMap(m) == m[k] + FoldSumMap(m - {k})
    {
      FoldSumMapRemove(m, k);
    }
  }

  type SumMapType = f: map<Participant, int> -> int | IsSumMap(f) ghost witness (FoldSumMapIs(); FoldSumMap)

  /** The sum of a map's values, which is unfolded only by `SumMapRemove`. */
  ghost const SumMap: SumMapType

  lemma SumMapRemove(m: map<Participant, int>, k: Participant)
    requires k in m
    ensures SumMap(m) == m[k] + SumMap(m - {k})
  {
    assert SumMapAt(m, k);
  }

  lemma {:induction false} SumMapCong(a: map<Participant, int>, b: map<Participant, int>)
    requires a.Keys == b.Keys
    requires forall k :: k in a ==> Cong(a[k], b[k])
    ensures Cong(SumMap(a), SumMap(b))
    decreases |a|
  {
    if a == map[] {
      assert b == map[];
    } else {
      var k :| k in a;
      SumMapRemove(a, k);
      SumMapRemove(b, k);
      SumMapCong(a - {k}, b - {k});
      CongAdd(a[k], b[k], SumMap(a - {k}), SumMap(b - {k}));
    }
  }

  lemma Distribute(x: int, a: int, s: int, y: int, b: int, t: int, z: int, c: int, u: int)
    requires z * c == x * a + y * b && z * u == x * s + y * t
    ensures z * (c + u) == x * (a + s) + y * (b + t)
  {}

  /** Sums are linear: if z * c == x * a + y * b value by value, so it is of the sums. */
  lemma {:induction false} SumMapLinear(x: int, a: map<Participant, int>, y: int, b: map<Participant, int>, z: int,
                                        c: map<Participant, int>)
    requires a.Keys == b.Keys == c.Keys
    requires forall k :: k in c ==> z * c[k] == x * a[k] + y * b[k]
    ensures z * SumMap(c) == x * SumMap(a) + y * SumMap(b)
    decreases |a|
  {
    if a == map[] {
      assert b == map[] && c == map[];
    } else {
      var k :| k in a;
      SumMapRemove(a, k);
      SumMapRemove(b, k);
      SumMapRemove(c, k);
      SumMapLinear(x, a - {k}, y, b - {k}, z, c - {k});
      Distribute(x, a[k], SumMap(a - {k}), y, b[k], SumMap(b - {k}), z, c[k], SumMap(c - {k}));
    }
  }

  /** Scaling every value up to congruence scales the sum. */
  lemma SumMapScaled(x: int, a: map<Participant, int>, c: map<Participant, int>)
    requires a.Keys == c.Keys
    requires forall k :: k in c ==> Cong(c[k], x * a[k])
    ensures Cong(SumMap(c), x * SumMap(a))
  {
    var d := map k | k in a :: x * a[k];
    SumMapCong(c, d);
    SumMapLinear(x, a, 0, a, 1, d);
  }

  ghost function FoldProductMap(m: map<Participant, int>): int
    decreases |m|
  {
    if m == map[] then 1 else var k :| k in m; m[k] * FoldProductMap(m - {k})
  }

  lemma Rearrange(a: int, b: int, c: int)
    ensures a * (b * c) == b * (a * c)
  {}

  lemma {:induction false} FoldProductMapRemove(m: map<Participant, int>, k: Participant)
    requires k in m
    ensures FoldProductMap(m) == m[k] * FoldProductMap(m - {k})
    decreases |m|
  {
    var j :| j in m && FoldProductMap(m) == m[j] * FoldProductMap(m - {j});
    if j != k {
      FoldProductMapRemove(m - {j}, k);
      FoldProductMapRemove(m - {k}, j);
      assert m - {j} - {k} == m - {k} - {j};
      Rearrange(m[j], m[k], FoldProductMap(m - {j} - {k}));
    }
  }

  predicate ProductMapAt(m: map<Participant, int>, k: Participant) { true }

  ghost predicate IsProductMap(f: map<Participant, int> -> int) {
    && f(map[]) == 1
    && forall m, k {:trigger ProductMapAt(m, k)} :: ProductMapAt(m, k) && k in m ==> f(m) == m[k] * f(m - {k})
  }

  lemma FoldProductMapIs()
    ensures IsProductMap(FoldProductMap)
  {
    forall m: map<Participant, int>, k: Participant {:trigger ProductMapAt(m, k)} | ProductMapAt(m, k) && k in m
      ensures FoldProductMap(m) == m[k] * FoldProductMap(m - {k})
    {
      FoldProductMapRemove(m, k);
    }
  }

  type ProductMapType = f: map<Participant, int> -> int | IsProductMap(f)
    ghost witness (FoldProductMapIs(); FoldProductMap)

  /** The product of a map's values. */
  ghost const ProductMap: ProductMapType

  lemma ProductMapRemove(m: map<Participant, int>, k: Participant)
    requires k in m
    ensures ProductMap(m) == m[k] * ProductMap(m - {k})
  {
    assert ProductMapAt(m, k);
  }

  lemma {:induction false} ProductNonZero(m: map<Participant, int>)
    requires forall k :: k in m ==> !Cong(m[k], 0)
    ensures !Cong(ProductMap(m), 0)
    decreases |m|
  {
    OneIsNotZero();
    if m != map[] {
      var k :| k in m;
      ProductMapRemove(m, k);
      ProductNonZero(m - {k});
      if Cong(m[k] * ProductMap(m - {k}), 0) { ZeroProduct(m[k], ProductMap(m - {k})); }
    }
  }

  ghost function FoldPointSum(m: map<Participant, Point>): Point
    decreases |m|
  {
    if m == map[] then Identity else var k :| k in m; Plus(m[k], FoldPointSum(m - {k}))
  }

  lemma {:induction false} FoldPointSumRemove(m: map<Participant, Point>, k: Participant)
    requires k in m
    ensures FoldPointSum(m) == Plus(m[k], FoldPointSum(m - {k}))
    decreases |m|
  {
    var j :| j in m && FoldPointSum(m) == Plus(m[j], FoldPointSum(m - {j}));
    if j != k {
      FoldPointSumRemove(m - {j}, k);
      FoldPointSumRemove(m - {k}, j);
      assert m - {j} - {k} == m - {k} - {j};
      var p := FoldPointSum(m - {j} - {k});
      PlusLaws(m[j], m[k], p);
      PlusLaws(m[k], m[j], p);
    }
  }

  predicate PointSumAt(m: map<Participant, Point>, k: Participant) { true }

  ghost predicate IsPointSum(f: map<Participant, Point> -> Point) {
    && f(map[]) == Identity
    && forall m, k {:trigger PointSumAt(m, k)} :: PointSumAt(m, k) && k in m ==> f(m) == Plus(m[k], f(m - {k}))
  }

  lemma FoldPointSumIs()
    ensures IsPointSum(FoldPointSum)
  {
    forall m: map<Participant, Point>, k: Participant {:trigger PointSumAt(m, k)} | PointSumAt(m, k) && k in m
      ensures FoldPointSum(m) == Plus(m[k], FoldPointSum(m - {k}))
    {
      FoldPointSumRemove(m, k);
    }
  }

  type PointSumType = f: map<Participant, Point> -> Point | IsPointSum(f) ghost witness (FoldPointSumIs(); FoldPointSum)

  /** The sum of a map's points. */
  ghost const PointSum: PointSumType

  lemma PointSumRemove(m: map<Participant, Point>, k: Participant)
    requires k in m
    ensures PointSum(m) == Plus(m[k], PointSum(m - {k}))
  {
    assert PointSumAt(m, k);
  }

  lemma {:induction false} PointSumPlus(a: map<Participant, Point>, b: map<Participant, Point>,
                                        c: map<Participant, Point>)
    requires a.Keys == b.Keys == c.Keys
    requires forall k :: k in c ==> c[k] == Plus(a[k], b[k])
    ensures PointSum(c) == Plus(PointSum(a), PointSum(b))
    decreases |a|
  {
    if a == map[] {
      assert b == map[] && c == map[];
      PlusLaws(Identity, Identity, Identity);
    } else {
      var k :| k in a;
      PointSumRemove(a, k);
      PointSumRemove(b, k);
      PointSumRemove(c, k);
      PointSumPlus(a - {k}, b - {k}, c - {k});
      PlusSwap(a[k], b[k], PointSum(a - {k}), PointSum(b - {k}));
    }
  }

  lemma {:induction false} PointSumScale(a: map<Participant, Point>, x: int, c: map<Participant, Point>)
    requires a.Keys == c.Keys
    requires forall k :: k in c ==> c[k] == Scale(x, a[k])
    ensures PointSum(c) == Scale(x, PointSum(a))
    decreases |a|
  {
    if a == map[] {
      assert c == map[];
      ScaleIdentity(x);
    } else {
      var k :| k in a;
      PointSumRemove(a, k);
      PointSumRemove(c, k);
      PointSumScale(a - {k}, x, c - {k});
      ScalePlus(x, a[k], PointSum(a - {k}));
    }
  }

  /** The sum of the multiples of a point is the multiple by the sum. */
  lemma {:induction false} PointSumOfMultiples(s: map<Participant, int>, p: Point, c: map<Participant, Point>)
    requires s.Keys == c.Keys
    requires forall k :: k in c ==> c[k] == Scale(s[k], p)
    ensures PointSum(c) == Scale(SumMap(s), p)
    decreases |s|
  {
    if s == map[] {
      assert c == map[];
      ScaleZeroOne(p);
    } else {
      var k :| k in s;
      SumMapRemove(s, k);
      PointSumRemove(c, k);
      PointSumOfMultiples(s - {k}, p, c - {k});
      ScaleAdd(s[k], SumMap(s - {k}), p);
    }
  }
}
