/** The points of a ciphersuite: the elements of an unspecified abelian group of prime order Q.

    Elements carry arbitrary labels below Q, the identity's being 0, and the group law is an
    unspecified constant, so every statement holds for each group of order Q. */
module Points {
  import opened Scalars

  datatype Point = Point(tag: Scalar)

  const Identity := Point(0)

  /** The laws below are instantiated where `At` is mentioned, and nowhere else. */
  predicate At(a: Point, b: Point, c: Point) { true }

  ghost predicate IsGroupLaw(add: (Point, Point) -> Point) {
    && (forall a, b, c {:trigger At(a, b, c)} ::
          At(a, b, c) ==>
            && add(add(a, b), c) == add(a, add(b, c))
            && add(a, b) == add(b, a)
            && add(a, Identity) == a)
    && (forall a {:trigger Iterate(add, Q, a)} :: Iterate(add, Q, a) == Identity)
  }

  ghost function Iterate(add: (Point, Point) -> Point, n: nat, p: Point): Point {
    if n == 0 then Identity else add(p, Iterate(add, n - 1, p))
  }

  /** The residues under addition are such a group. */
  function AddLabels(a: Point, b: Point): Point { Point(FAdd(a.tag, b.tag)) }

  lemma {:induction false} IterateLabels(n: nat, p: Point)
    ensures Cong(Iterate(AddLabels, n, p).tag, n * p.tag)
  {
    if n == 0 {
    } else {
      IterateLabels(n - 1, p);
      var i := Iterate(AddLabels, n - 1, p);
      FAddCong(p.tag, i.tag);
      CongAdd(p.tag, p.tag, i.tag, (n - 1) * p.tag);
      assert p.tag + (n - 1) * p.tag == n * p.tag;
    }
  }

  lemma LabelLaws(x: Scalar, y: Scalar, z: Scalar)
    ensures FAdd(FAdd(x, y), z) == FAdd(x, FAdd(y, z)) && FAdd(x, 0) == x
  {
    assert FAdd(x, y) == if x + y < Q then x + y else x + y - Q by { FAddReduced(x, y); }
    assert FAdd(y, z) == if y + z < Q then y + z else y + z - Q by { FAddReduced(y, z); }
    FAddReduced(FAdd(x, y), z);
    FAddReduced(x, FAdd(y, z));
    FAddReduced(x, 0);
  }

  lemma FAddReduced(x: Scalar, y: Scalar)
    ensures FAdd(x, y) as int == if x + y < Q then x + y else x + y - Q
  {
    var k := if x + y < Q then 0 else 1;
    var r := x + y - k * Q;
    FAddCong(x, y);
    CongIntro(x + y, r, k);
    CongReduced(FAdd(x, y), r);
  }

  lemma LabelsAreAGroup()
    ensures IsGroupLaw(AddLabels)
  {
    forall a: Point, b: Point, c: Point {:trigger At(a, b, c)}
      ensures At(a, b, c)
      ensures AddLabels(AddLabels(a, b), c) == AddLabels(a, AddLabels(b, c))
      ensures AddLabels(a, b) == AddLabels(b, a) && AddLabels(a, Identity) == a
    {
      LabelLaws(a.tag, b.tag, c.tag);
    }
    forall a: Point ensures Iterate(AddLabels, Q, a) == Identity {
      IterateLabels(Q, a);
      CongIntro(Q * a.tag, 0, a.tag);
      CongReduced(Iterate(AddLabels, Q, a).tag, 0);
    }
  }

  type GroupLaw = add: (Point, Point) -> Point | IsGroupLaw(add) witness (LabelsAreAGroup(); AddLabels)

  const Law: GroupLaw

  /** The generator, and nothing is assumed of it. */
  const Generator: Point

  // Addition

  function Plus(a: Point, b: Point): Point { Law(a, b) }

  lemma PlusLaws(a: Point, b: Point, c: Point)
    ensures Plus(Plus(a, b), c) == Plus(a, Plus(b, c))
    ensures Plus(a, b) == Plus(b, a)
    ensures Plus(a, Identity) == a && Plus(Identity, a) == a
  {
    assert At(a, b, c) && At(Identity, a, a) && At(a, Identity, a);
  }

  /** (a + b) + (c + d) == (a + c) + (b + d) */
  lemma PlusSwap(a: Point, b: Point, c: Point, d: Point)
    ensures Plus(Plus(a, b), Plus(c, d)) == Plus(Plus(a, c), Plus(b, d))
  {
    PlusLaws(a, b, Plus(c, d));
    PlusLaws(b, c, d);
    PlusLaws(c, b, d);
    PlusLaws(a, c, Plus(b, d));
  }

  // Multiples

  /** n * p by repeated addition. */
  ghost function Times(n: nat, p: Point): Point {
    if n == 0 then Identity else Plus(p, Times(n - 1, p))
  }

  lemma {:induction false} TimesIsIterate(n: nat, p: Point)
    ensures Times(n, p) == Iterate(Law, n, p)
  {
    if n > 0 { TimesIsIterate(n - 1, p); }
  }

  lemma TimesOrder(p: Point)
    ensures Times(Q, p) == Identity
  {
    TimesIsIterate(Q, p);
  }

  lemma {:induction false} TimesAdd(m: nat, n: nat, p: Point)
    ensures Times(m + n, p) == Plus(Times(m, p), Times(n, p))
  {
    PlusLaws(Times(n, p), p, p);
    if m > 0 {
      TimesAdd(m - 1, n, p);
      PlusLaws(p, Times(m - 1, p), Times(n, p));
    }
  }

  lemma {:induction false} TimesMul(m: nat, n: nat, p: Point)
    ensures Times(m * n, p) == Times(m, Times(n, p))
  {
    if m > 0 {
      TimesMul(m - 1, n, p);
      assert m * n == n + (m - 1) * n;
      TimesAdd(n, (m - 1) * n, p);
    }
  }

  lemma {:induction false} TimesPlus(n: nat, a: Point, b: Point)
    ensures Times(n, Plus(a, b)) == Plus(Times(n, a), Times(n, b))
  {
    PlusLaws(Identity, Identity, Identity);
    if n > 0 {
      TimesPlus(n - 1, a, b);
      PlusSwap(a, b, Times(n - 1, a), Times(n - 1, b));
    }
  }

  lemma {:induction false} TimesIdentity(n: nat)
    ensures Times(n, Identity) == Identity
  {
    if n > 0 { TimesIdentity(n - 1); PlusLaws(Identity, Identity, Identity); }
  }

  lemma TimesMod(n: nat, p: Point)
    ensures Times(n, p) == Times(n % Q, p)
  {
    assert n == (n / Q) * Q + n % Q;
    TimesAdd((n / Q) * Q, n % Q, p);
    TimesMul(n / Q, Q, p);
    TimesOrder(p);
    TimesIdentity(n / Q);
    PlusLaws(Times(n % Q, p), Identity, Identity);
  }

  // Multiples by any integer, which only depend on the integer modulo Q

  ghost function Scale(k: int, p: Point): Point {
    Times(Residue(k), p)
  }

  lemma ScaleCong(k: int, l: int, p: Point)
    requires Cong(k, l)
    ensures Scale(k, p) == Scale(l, p)
  {}

  lemma ScaleNat(k: nat, p: Point)
    ensures Scale(k, p) == Times(k, p)
  {
    ResidueIs(k);
    TimesMod(k, p);
  }

  lemma ScaleAdd(k: int, l: int, p: Point)
    ensures Scale(k + l, p) == Plus(Scale(k, p), Scale(l, p))
  {
    var x: nat, y: nat := Residue(k), Residue(l);
    CongResidue(k); CongResidue(l);
    CongAdd(x, k, y, l);
    ScaleNat(x + y, p);
    TimesAdd(x, y, p);
  }

  lemma ScaleMul(k: int, l: int, p: Point)
    ensures Scale(k * l, p) == Scale(k, Scale(l, p))
  {
    var x: nat, y: nat := Residue(k), Residue(l);
    CongResidue(k); CongResidue(l);
    CongMul(x, k, y, l);
    ScaleNat(x * y, p);
    TimesMul(x, y, p);
  }

  lemma ScalePlus(k: int, a: Point, b: Point)
    ensures Scale(k, Plus(a, b)) == Plus(Scale(k, a), Scale(k, b))
  {
    TimesPlus(Residue(k), a, b);
  }

  lemma ScaleIdentity(k: int)
    ensures Scale(k, Identity) == Identity
  {
    TimesIdentity(Residue(k));
  }

  lemma ScaleZeroOne(p: Point)
    ensures Scale(0, p) == Identity && Scale(1, p) == p
  {
    ScaleNat(0, p); ScaleNat(1, p);
    assert Times(1, p) == Plus(p, Times(0, p));
    PlusLaws(p, p, p);
  }

  /** a + (-a) is the identity. */
  lemma ScaleNegate(k: int, p: Point)
    ensures Plus(Scale(k, p), Scale(0 - k, p)) == Identity
  {
    ScaleAdd(k, 0 - k, p);
    ScaleZeroOne(p);
  }

  /** A non-zero multiple of a point is the identity only if the point is. */
  lemma ScaleCancel(k: Scalar, p: Point)
    requires k != 0
    ensures Scale(k, p) == Identity <==> p == Identity
  {
    var r := FInv(k);
    assert r * k == k * r;
    ScaleMul(r, k, p);
    ScaleCong(r * k, 1, p);
    ScaleZeroOne(p);
    ScaleIdentity(r);
    ScaleIdentity(k);
  }

  lemma PlusCancel(a: Point, b: Point, c: Point)
    requires Plus(a, c) == Plus(b, c)
    ensures a == b
  {
    ScaleZeroOne(c);
    ScaleNegate(1, c);
    var n := Scale(0 - 1, c);
    PlusLaws(a, c, n);
    PlusLaws(b, c, n);
  }
}
