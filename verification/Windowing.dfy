/** A number as groups of `w` bits, least significant first. */
module Windowing {
  import opened Powers

  /** The scalar without its lowest `b` windows. */
  ghost function High(s: nat, w: nat, b: nat): nat {
    Quotient(s, Pow2(w * b))
  }

  /** Window `b` of the scalar. */
  ghost function Digit(s: nat, w: nat, b: nat): nat {
    High(s, w, b) % Pow2(w)
  }

  lemma HighStep(s: nat, w: nat, b: nat)
    ensures High(s, w, b) == Pow2(w) * High(s, w, b + 1) + Digit(s, w, b)
    ensures Digit(s, w, b) < Pow2(w)
  {
    assert w * (b + 1) == w * b + w;
    Pow2Add(w * b, w);
    DivDiv(s, Pow2(w * b), Pow2(w));
    DivModFacts(High(s, w, b), Pow2(w));
  }

  /** Bit `i` of a scalar, as `to_le_bits` yields it. */
  function Bit(s: nat, i: nat): nat {
    (s / Pow2(i)) % 2
  }

  /** `v | (bit << r)` for a single bit. */
  function OrBit(v: nat, bit: nat, r: nat): nat {
    if bit == 1 && (v / Pow2(r)) % 2 == 0 then v + Pow2(r) else v
  }

  function Clamp(x: int, w: nat): nat {
    if x < 0 then 0 else if x > w then w else x
  }

  /** Taking bit `w * j + r` extends the low `r` bits of window `j` by one. */
  lemma NextBit(s: nat, w: nat, j: nat, r: nat)
    ensures OrBit(High(s, w, j) % Pow2(r), Bit(s, w * j + r), r) == High(s, w, j) % Pow2(r + 1)
  {
    var x := High(s, w, j);
    Pow2Add(w * j, r);
    DivDiv(s, Pow2(w * j), Pow2(r));
    assert Pow2(r + 1) == Pow2(r) * 2;
    DivDiv(x, Pow2(r), 2);
    DivSmall(x % Pow2(r), Pow2(r));
  }

  /** With `bits` bits in all, the low `bits - w * j` bits of window `j` are the whole window. */
  lemma LowWindow(s: nat, w: nat, j: nat, bits: nat)
    requires s < Pow2(bits) && w * j < bits
    ensures High(s, w, j) % Pow2(Clamp(bits - w * j, w)) == Digit(s, w, j)
  {
    var m := bits - w * j;
    if m < w {
      Pow2Add(w * j, m);
      DivDiv(s, Pow2(w * j), Pow2(m));
      DivSmall(s, Pow2(bits));
      var x := High(s, w, j);
      assert x == Pow2(m) * (x / Pow2(m)) + x % Pow2(m);
      Pow2Monotone(m, w);
      DivSmall(x, Pow2(w));
    }
  }

  ghost predicate WindowsUpTo(s: nat, w: nat, g: seq<nat>, i: nat) {
    forall j :: 0 <= j < |g| ==> g[j] == High(s, w, j) % Pow2(Clamp(i - w * j, w))
  }

  lemma WindowsNone(s: nat, w: nat, g: seq<nat>)
    requires forall j :: 0 <= j < |g| ==> g[j] == 0
    ensures WindowsUpTo(s, w, g, 0)
  {
    forall j | 0 <= j < |g| ensures High(s, w, j) % Pow2(Clamp(0 - w * j, w)) == 0 {
      MulMono(w, 0, j);
      assert Pow2(0) == 1;
    }
  }

  lemma OtherWindow(w: nat, k: nat, r: nat, j: nat)
    requires r < w && j != k
    ensures Clamp(w * k + r - w * j, w) == Clamp(w * k + r + 1 - w * j, w)
  {
    if j < k { MulMono(w, j + 1, k); } else { MulMono(w, k + 1, j); }
  }

  lemma SameWindow(w: nat, k: nat, r: nat)
    requires r < w
    ensures Clamp(w * k + r - w * k, w) == r && Clamp(w * k + r + 1 - w * k, w) == r + 1
  {}

  lemma WindowsStep(s: nat, w: nat, g: seq<nat>, k: nat, r: nat)
    requires r < w && k < |g| && WindowsUpTo(s, w, g, w * k + r)
    ensures WindowsUpTo(s, w, g[k := OrBit(g[k], Bit(s, w * k + r), r)], w * k + r + 1)
  {
    var g' := g[k := OrBit(g[k], Bit(s, w * k + r), r)];
    forall j | 0 <= j < |g'|
      ensures g'[j] == High(s, w, j) % Pow2(Clamp(w * k + r + 1 - w * j, w))
    {
      if j == k {
        NextBit(s, w, k, r);
        SameWindow(w, k, r);
      } else {
        OtherWindow(w, k, r, j);
      }
    }
  }
}
