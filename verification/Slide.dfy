/** Monero's signed recoding of 256-bit scalars, `slide`, and the scalar it stands for. */
module Slide {
  import opened Powers

  type Byte = x: nat | x < 256

  /** The order of the prime subgroup of edwards25519. */
  const ELL: nat := 0x1000000000000000000000000000000014def9dea2f79cd65812631a5cf5d3ed

  // Values of digits and bytes, least significant first

  ghost function Value(digits: seq<int>): int {
    if digits == [] then 0 else digits[0] + 2 * Value(digits[1..])
  }

  ghost function LittleEndian(bytes: seq<Byte>): nat {
    if bytes == [] then 0 else bytes[0] + 256 * LittleEndian(bytes[1..])
  }

  ghost predicate AreBits(s: seq<int>) {
    forall k :: 0 <= k < |s| ==> s[k] == 0 || s[k] == 1
  }

  lemma {:induction false} BitsBound(s: seq<int>)
    requires AreBits(s)
    ensures 0 <= Value(s) < Pow2(|s|)
  {
    if s != [] { BitsBound(s[1..]); }
  }

  /** The windows of a number of `len` bits: zero for an even number, otherwise what the number is modulo
      32, from -15 to 15, or the number itself if there aren't five bits left. */
  function Digit(x: nat, len: nat): int {
    if x % 2 == 0 then 0
    else if len < 5 then x
    else if x % 32 < 16 then x % 32
    else x % 32 - 32
  }

  /** What remains once the window is taken off, in the bits above, where a carry out of the top is lost. */
  function Rest(x: nat, len: nat): nat
    requires 0 < len && x < Pow2(len)
  {
    RestFacts(x, len);
    ((x - Digit(x, len)) / 2) % Pow2(len - 1)
  }

  /** The width-5 non-adjacent form, in `len` digits. */
  function Naf(x: nat, len: nat): (r: seq<int>)
    requires x < Pow2(len)
    ensures |r| == len
    decreases len
  {
    if len == 0 then [] else [Digit(x, len)] + Naf(Rest(x, len), len - 1)
  }

  // What the form is

  lemma Windowed(x: nat, p: nat)
    requires x < 32 * p && x % 2 == 1
    ensures var d := Digit(x, 5);
            0 <= x - d && (x - d) % 32 == 0 && (x - d) / 2 <= 16 * p && (x - d) / 2 % 16 == 0 && d % 2 == 1
    ensures p % 2 == 0 && x <= 16 * p ==> (x - Digit(x, 5)) / 2 <= 8 * p
  {
    var q, r := x / 32, x % 32;
    assert x == 32 * q + r && q < p;
    assert x - Digit(x, 5) == if r < 16 then 32 * q else 32 * (q + 1);
    assert (x - Digit(x, 5)) / 2 == if r < 16 then 16 * q else 16 * (q + 1);
  }

  lemma RestFacts(x: nat, len: nat)
    requires 0 < len && x < Pow2(len)
    ensures var y := (x - Digit(x, len)) / 2;
            && 0 <= y <= Pow2(len - 1) && x == Digit(x, len) + 2 * y
            && (2 * x <= Pow2(len) ==> y < Pow2(len - 1) && 2 * y <= Pow2(len - 1))
    ensures Digit(x, len) == 0 || (Digit(x, len) % 2 == 1 && -15 <= Digit(x, len) <= 15)
    ensures len >= 5 && x % 2 == 1 ==> ((x - Digit(x, len)) / 2) % 16 == 0
  {
    if len < 5 {
      assert Pow2(1) == 2 && Pow2(2) == 4 && Pow2(3) == 8 && Pow2(4) == 16;
    } else {
      FiveBits(len);
      if x % 2 == 1 {
        Windowed(x, Pow2(len - 5));
        assert len >= 6 ==> Pow2(len - 5) % 2 == 0;
      }
    }
  }

  lemma FiveBits(len: nat)
    requires len >= 5
    ensures Pow2(len) == 32 * Pow2(len - 5) && Pow2(len - 1) == 16 * Pow2(len - 5)
  {
    assert Pow2(len - 1) == 2 * Pow2(len - 2) && Pow2(len - 2) == 2 * Pow2(len - 3);
    assert Pow2(len - 3) == 2 * Pow2(len - 4);
  }

  /** Every digit is zero, or odd and from -15 to 15. */
  lemma {:induction false} NafDigits(x: nat, len: nat, k: nat)
    requires x < Pow2(len) && k < len
    ensures var d := Naf(x, len)[k]; d == 0 || (d % 2 == 1 && -15 <= d <= 15)
    decreases len
  {
    RestFacts(x, len);
    if k > 0 { NafDigits(Rest(x, len), len - 1, k - 1); }
  }

  /** The low digits of a multiple of a power of two are zero. */
  lemma {:induction false} NafZeros(x: nat, len: nat, j: nat, k: nat)
    requires x < Pow2(len) && k < j && k < len && x % Pow2(j) == 0
    ensures Naf(x, len)[k] == 0
    decreases len
  {
    Halve(x, Pow2(j - 1));
    if k > 0 {
      Reduced(x / 2, Pow2(len - 1));
      NafZeros(Rest(x, len), len - 1, j - 1, k - 1);
    }
  }

  lemma Halve(x: nat, p: nat)
    requires p > 0 && x % (2 * p) == 0
    ensures x % 2 == 0 && (x / 2) % p == 0
  {
    var q := x / (2 * p);
    assert x == (2 * p) * q + x % (2 * p);
    assert (2 * p) * q == 2 * (p * q);
    DivModUnique(x / 2, p, q, 0);
  }

  lemma Reduced(x: nat, m: nat)
    requires x < m
    ensures x % m == x
  { DivSmall(x, m); }

  /** Four zeros follow every non-zero digit. */
  lemma {:induction false} NafGaps(x: nat, len: nat, k: nat, m: nat)
    requires x < Pow2(len) && k < m <= k + 4 && m < len
    ensures Naf(x, len)[k] != 0 ==> Naf(x, len)[m] == 0
    decreases len
  {
    if k > 0 {
      NafGaps(Rest(x, len), len - 1, k - 1, m - 1);
    } else if x % 2 == 1 {
      RestFacts(x, len);
      var y := (x - Digit(x, len)) / 2;
      if len < 5 {
        assert y == 0;
        NafZeros(0, len - 1, m, m - 1);
      } else {
        FiveBits(len);
        RestMultiple(y, Pow2(len - 5));
        assert Pow2(4) == 16;
        NafZeros(Rest(x, len), len - 1, 4, m - 1);
      }
    }
  }

  lemma RestMultiple(y: nat, p: nat)
    requires p > 0 && y % 16 == 0 && y <= 16 * p
    ensures (y % (16 * p)) % 16 == 0
  {
    if y < 16 * p { Reduced(y, 16 * p); } else { DivModUnique(y, 16 * p, 1, 0); }
  }

  /** The digits sum to the number, unless a carry out of the top was lost: then to the number less
      2^len. A number of at most 2^(len - 1) never carries out. */
  lemma {:induction false} NafValue(x: nat, len: nat)
    requires x < Pow2(len)
    ensures Value(Naf(x, len)) == x || Value(Naf(x, len)) == x - Pow2(len)
    ensures 2 * x <= Pow2(len) ==> Value(Naf(x, len)) == x
    decreases len
  {
    if len > 0 {
      RestFacts(x, len);
      var y := (x - Digit(x, len)) / 2;
      var r := Rest(x, len);
      NafValue(r, len - 1);
      assert Naf(x, len)[1..] == Naf(r, len - 1);
      if y < Pow2(len - 1) {
        Reduced(y, Pow2(len - 1));
      } else {
        DivModUnique(y, Pow2(len - 1), 1, 0);
      }
    }
  }

  // Bits

  method AsBits(bytes: seq<Byte>) returns (bits: seq<int>)
    ensures |bits| == 8 * |bytes| && AreBits(bits) && Value(bits) == LittleEndian(bytes)
  {
    bits := [];
    for i := 0 to 8 * |bytes|
      invariant |bits| == i && forall k :: 0 <= k < i ==> bits[k] == BitOf(bytes[k / 8], k % 8)
    {
      bits := bits + [BitOf(bytes[i / 8], i % 8)];
    }
    BitsValue(bytes, bits, 0);
    assert bits[0..] == bits && bytes[0..] == bytes;
  }

  function BitOf(x: Byte, k: nat): (r: int)
    ensures r == 0 || r == 1
  {
    (x / Pow2(k)) % 2
  }

  /** A byte's bits from `k` up. */
  ghost function BitsFrom(x: Byte, k: nat): int
    requires k <= 8
    decreases 8 - k
  {
    if k == 8 then 0 else BitOf(x, k) + 2 * BitsFrom(x, k + 1)
  }

  lemma {:induction false} ByteBits(x: Byte, k: nat)
    requires k <= 8
    ensures BitsFrom(x, k) == x / Pow2(k)
    decreases 8 - k
  {
    if k == 8 {
      assert Pow2(4) == 16;
      Pow2Add(4, 4);
    } else {
      ByteBits(x, k + 1);
      DivDiv(x, Pow2(k), 2);
    }
  }

  lemma Eight(s: seq<int>)
    requires |s| >= 8
    ensures Value(s) == s[0] + 2 * (s[1] + 2 * (s[2] + 2 * (s[3] + 2 * (s[4] + 2 * (s[5] + 2 * (s[6] + 2 * s[7]))))))
                          + 256 * Value(s[8..])
  {
    Four(s);
    Four(s[4..]);
    assert s[4..][4..] == s[8..];
  }

  lemma AllBits(x: Byte)
    ensures BitsFrom(x, 0) == BitOf(x, 0) + 2 * (BitOf(x, 1) + 2 * (BitOf(x, 2) + 2 * (BitOf(x, 3) + 2 * (BitOf(x, 4)
                              + 2 * (BitOf(x, 5) + 2 * (BitOf(x, 6) + 2 * BitOf(x, 7)))))))
  {
    assert BitsFrom(x, 4) == BitOf(x, 4) + 2 * (BitOf(x, 5) + 2 * (BitOf(x, 6) + 2 * BitOf(x, 7)));
  }

  lemma Four(s: seq<int>)
    requires |s| >= 4
    ensures Value(s) == s[0] + 2 * (s[1] + 2 * (s[2] + 2 * s[3])) + 16 * Value(s[4..])
  {
    var t, u := s[1..], s[2..];
    assert t[1..] == u && u[1..] == s[3..] && s[3..][1..] == s[4..];
  }

  lemma {:induction false} BitsValue(bytes: seq<Byte>, bits: seq<int>, j: nat)
    requires j <= |bytes| && |bits| == 8 * |bytes|
    requires forall k :: 0 <= k < |bits| ==> bits[k] == BitOf(bytes[k / 8], k % 8)
    ensures Value(bits[8 * j..]) == LittleEndian(bytes[j..])
    decreases |bytes| - j
  {
    if j < |bytes| {
      BitsValue(bytes, bits, j + 1);
      var s := bits[8 * j..];
      forall m | 0 <= m < 8 ensures s[m] == BitOf(bytes[j], m) {
        DivModUnique(8 * j + m, 8, j, m);
      }
      Eight(s);
      ByteBits(bytes[j], 0);
      AllBits(bytes[j]);
      assert s[8..] == bits[8 * (j + 1)..] && bytes[j..][1..] == bytes[j + 1..];
    }
  }

  // The recoding, in place

  lemma {:induction false} ValueUpdate(s: seq<int>, k: nat, v: int)
    requires k < |s|
    ensures Value(s[k := v]) == Value(s) + (v - s[k]) * Pow2(k)
  {
    if k == 0 {
      assert s[0 := v][1..] == s[1..];
    } else {
      ValueUpdate(s[1..], k - 1, v);
      assert s[k := v][1..] == s[1..][k - 1 := v];
      Double(v - s[k], Pow2(k - 1));
    }
  }

  lemma Double(a: int, p: int)
    ensures 2 * (a * p) == a * (2 * p)
  {}

  lemma {:induction false} ZerosValue(s: seq<int>, k: nat)
    requires k <= |s| && forall m :: 0 <= m < k ==> s[m] == 0
    ensures Value(s) == Pow2(k) * Value(s[k..])
  {
    if k == 0 {
      assert s[0..] == s;
    } else {
      ZerosValue(s[1..], k - 1);
      assert s[1..][k - 1..] == s[k..];
      Double(Value(s[k..]), Pow2(k - 1));
    }
  }

  /** Adding one from `from` up, where a carry out of the top is lost. */
  method Ripple(naf: array<int>, from: nat)
    requires from < naf.Length && AreBits(naf[from..])
    modifies naf
    ensures naf[..from] == old(naf[..from]) && AreBits(naf[from..])
    ensures var before, after := Value(old(naf[from..])), Value(naf[from..]);
            after == before + 1 || after == before + 1 - Pow2(naf.Length - from)
    ensures old(naf[from]) == 1 ==> naf[from] == 0
  {
    ghost var before := naf[from..];
    ghost var len := naf.Length - from;
    for k := from to naf.Length
      invariant naf[..from] == old(naf[..from]) && AreBits(naf[from..])
      invariant forall m :: from <= m < k ==> old(naf[m]) == 1 && naf[m] == 0
      invariant forall m :: k <= m < naf.Length ==> naf[m] == old(naf[m])
      invariant Value(naf[from..]) + Pow2(k - from) == Value(before) + 1
    {
      ghost var now := naf[from..];
      if naf[k] == 0 {
        naf[k] := 1;
        ValueUpdate(now, k - from, 1);
        assert naf[from..] == now[k - from := 1];
        return;
      }
      naf[k] := 0;
      ValueUpdate(now, k - from, 0);
      assert naf[from..] == now[k - from := 0];
    }
  }

  /** The window starting at the first digit, before combining digit `b` into it. */
  ghost predicate Partial(s: seq<int>, x: int, b: nat) {
    && 0 < |s| && 1 <= b <= 4 && AreBits(s[1..])
    && (forall m :: 0 < m < b && m < |s| ==> s[m] == 0)
    && 0 < s[0] < Pow2(b) && s[0] % 2 == 1 && Value(s) == x
  }

  /** The window, with everything combined into it. */
  ghost predicate Combined(s: seq<int>, x: int) {
    && 0 < |s| && AreBits(s[1..])
    && (forall m :: 0 < m < 5 && m < |s| ==> s[m] == 0)
    && -15 <= s[0] <= 15 && s[0] % 2 == 1
    && (Value(s) == x || (|s| >= 5 && Value(s) == x - Pow2(|s|)))
  }

  lemma SmallPowers()
    ensures Pow2(1) == 2 && Pow2(2) == 4 && Pow2(3) == 8 && Pow2(4) == 16 && Pow2(5) == 32
  {}

  lemma Start(s: seq<int>)
    requires AreBits(s) && s != [] && s[0] == 1
    ensures Partial(s, Value(s), 1)
  {
    SmallPowers();
  }

  /** There are no more digits to combine. */
  lemma Exhausted(s: seq<int>, x: int, b: nat)
    requires Partial(s, x, b) && b >= |s|
    ensures Combined(s, x)
  {
    SmallPowers();
  }

  lemma Unchanged(s: seq<int>, x: int, b: nat)
    requires Partial(s, x, b) && b < |s| && s[b] == 0
    ensures if b < 4 then Partial(s, x, b + 1) else Combined(s, x)
  {
    SmallPowers();
  }

  lemma Added(s: seq<int>, x: int, b: nat)
    requires Partial(s, x, b) && b < |s| && s[b] == 1 && s[0] + Pow2(b) <= 15
    ensures b < 4 && Partial(s[0 := s[0] + Pow2(b)][b := 0], x, b + 1)
  {
    SmallPowers();
    var t := s[0 := s[0] + Pow2(b)];
    ValueUpdate(s, 0, s[0] + Pow2(b));
    ValueUpdate(t, b, 0);
    assert t[b := 0][1..] == s[1..][b - 1 := 0];
  }

  /** Subtracting, and the one carried into the digits above. */
  lemma Subtracted(s: seq<int>, x: int, b: nat, t: seq<int>)
    requires Partial(s, x, b) && b < |s| == |t| && s[b] == 1 && s[0] + Pow2(b) > 15
    requires t[..b] == s[0 := s[0] - Pow2(b)][..b] && AreBits(t[b..]) && t[b] == 0
    requires Value(t[b..]) == Value(s[b..]) + 1 || Value(t[b..]) == Value(s[b..]) + 1 - Pow2(|s| - b)
    ensures b == 4 && Combined(t, x)
  {
    SmallPowers();
    assert t[0] == s[0] - 16 && t[1..4] == s[1..4];
    Four(s);
    Four(t);
    assert t[1] == 0 && t[2] == 0 && t[3] == 0;
    FourthPower(|s| - 4);
    forall k | 0 <= k < |t[1..]| ensures t[1..][k] == 0 || t[1..][k] == 1 {
      if k >= 3 { assert t[1..][k] == t[4..][k - 3]; } else { assert t[1..][k] == s[1..][k]; }
    }
  }

  lemma FourthPower(n: nat)
    ensures Pow2(n + 4) == 16 * Pow2(n)
  {
    SmallPowers();
    Pow2Add(4, n);
  }

  /** The combined window is the digit of the form, with what remains above it. */
  lemma CombinedIs(s: seq<int>, x: nat)
    requires Combined(s, x) && x < Pow2(|s|)
    ensures x % 2 == 1 && s[0] == Digit(x, |s|) && Value(s[1..]) == Rest(x, |s|)
  {
    if |s| < 5 {
      AllZeros(s[1..]);
      NarrowIs(x, |s|);
    } else {
      BitsBound(s[1..]);
      ZerosValue(s[1..], 4);
      WideIs(x, |s|, s[0], Value(s[1..]), Value(s[1..][4..]));
    }
  }

  lemma AllZeros(s: seq<int>)
    requires forall m :: 0 <= m < |s| ==> s[m] == 0
    ensures Value(s) == 0
  {
    ZerosValue(s, |s|);
    assert s[|s|..] == [];
  }

  lemma NarrowIs(x: nat, len: nat)
    requires 0 < len < 5 && x < Pow2(len) && x % 2 == 1
    ensures Digit(x, len) == x && Rest(x, len) == 0
  {
    Reduced(0, Pow2(len - 1));
  }

  lemma WideIs(x: nat, len: nat, d: int, v: nat, w: int)
    requires len >= 5 && x < Pow2(len) && -15 <= d <= 15 && d % 2 == 1
    requires v < Pow2(len - 1) && v == Pow2(4) * w
    requires x == d + 2 * v || x == d + 2 * v + Pow2(len)
    ensures x % 2 == 1 && d == Digit(x, len) && v == Rest(x, len)
  {
    SmallPowers();
    FiveBits(len);
    SignedResidue(x, d, w, Pow2(len - 5));
    RestIs(x, d, v, Pow2(len - 1));
  }

  lemma RestIs(x: int, d: int, v: nat, p: nat)
    requires v < p && (x == d + 2 * v || x == d + 2 * v + 2 * p)
    ensures ((x - d) / 2) % p == v
  {
    if x == d + 2 * v { DivModUnique(v, p, 0, v); } else { DivModUnique(v + p, p, 1, v); }
  }

  lemma SignedResidue(x: nat, d: int, v: int, p: nat)
    requires -15 <= d <= 15 && d % 2 == 1 && (x == d + 32 * v || x == d + 32 * v + 32 * p)
    ensures x % 2 == 1 && Digit(x, 5) == d
  {
    var q := if x == d + 32 * v then v else v + p;
    assert x == 32 * q + d;
  }

  function ShiftLeft(x: int, b: nat): int {
    x * Pow2(b)
  }

  /** Combining digit `i + b`, and whether that ends the window. */
  method Combine(naf: array<int>, i: nat, b: nat, ghost x: int) returns (stop: bool)
    requires i < naf.Length && 1 <= b <= 5
    requires if b <= 4 then Partial(naf[i..], x, b) else Combined(naf[i..], x)
    modifies naf
    ensures naf[..i] == old(naf[..i])
    ensures if !stop && b < 4 then Partial(naf[i..], x, b + 1) else Combined(naf[i..], x)
  {
    ghost var s := naf[i..];
    if i + b >= naf.Length {
      if b <= 4 { Exhausted(s, x, b); }
      return true;
    }
    SmallPowers();
    assert s[b] == naf[i + b] == s[1..][b - 1];
    var potentialCarry := ShiftLeft(naf[i + b], b);
    assert potentialCarry == if s[b] == 0 then 0 else Pow2(b);
    if potentialCarry != 0 {
      if naf[i] + potentialCarry <= 15 {
        Added(s, x, b);
        naf[i] := naf[i] + potentialCarry;
        naf[i + b] := 0;
        assert naf[i..] == s[0 := s[0] + Pow2(b)][b := 0];
      } else if naf[i] - potentialCarry >= -15 {
        naf[i] := naf[i] - potentialCarry;
        assert naf[i + b..] == s[b..];
        assert naf[i..i + b] == s[0 := s[0] - Pow2(b)][..b];
        ghost var prefix := naf[..i + b];
        Ripple(naf, i + b);
        assert naf[i..i + b] == prefix[i..] && naf[..i] == prefix[..i];
        assert naf[i..][b..] == naf[i + b..] && naf[i..][..b] == naf[i..i + b];
        Subtracted(s, x, b, naf[i..]);
      } else {
        return true;
      }
    } else if b <= 4 {
      Unchanged(s, x, b);
    }
    stop := false;
  }

  method Window(naf: array<int>, i: nat)
    requires i < naf.Length && AreBits(naf[i..]) && naf[i] == 1
    modifies naf
    ensures naf[..i] == old(naf[..i]) && AreBits(naf[i + 1..])
    ensures var x, len := Value(old(naf[i..])), naf.Length - i;
            0 <= x < Pow2(len) && naf[i] == Digit(x, len) && Value(naf[i + 1..]) == Rest(x, len)
  {
    ghost var x := Value(naf[i..]);
    BitsBound(naf[i..]);
    Start(naf[i..]);
    for b := 1 to 6
      invariant naf[..i] == old(naf[..i])
      invariant if b <= 4 then Partial(naf[i..], x, b) else Combined(naf[i..], x)
    {
      var stop := Combine(naf, i, b, x);
      if stop {
        break;
      }
    }
    CombinedIs(naf[i..], x);
    assert naf[i..][1..] == naf[i + 1..];
  }

  lemma EvenStep(s: seq<int>)
    requires AreBits(s) && s != [] && s[0] == 0
    ensures 0 <= Value(s) < Pow2(|s|) && Digit(Value(s), |s|) == 0 && Value(s[1..]) == Rest(Value(s), |s|)
  {
    BitsBound(s);
    BitsBound(s[1..]);
    EvenRest(Value(s[1..]), |s|);
  }

  lemma EvenRest(v: nat, len: nat)
    requires len > 0 && v < Pow2(len - 1)
    ensures Digit(2 * v, len) == 0 && Rest(2 * v, len) == v
  {
    Reduced(v, Pow2(len - 1));
  }

  /** The digits up to `i` are done, and the bits from there on are what remains to be recoded. */
  ghost predicate Recoding(naf: seq<int>, i: nat, form: seq<int>) {
    && i <= |naf| && AreBits(naf[i..]) && 0 <= Value(naf[i..]) < Pow2(|naf| - i)
    && naf[..i] + Naf(Value(naf[i..]), |naf| - i) == form
  }

  lemma RecodingStep(before: seq<int>, naf: seq<int>, i: nat, form: seq<int>)
    requires Recoding(before, i, form) && i < |before| == |naf| && naf[..i] == before[..i] && AreBits(naf[i + 1..])
    requires var x, len := Value(before[i..]), |naf| - i; naf[i] == Digit(x, len) && Value(naf[i + 1..]) == Rest(x, len)
    ensures Recoding(naf, i + 1, form)
  {
    var x, len := Value(before[i..]), |naf| - i;
    BitsBound(naf[i + 1..]);
    assert naf[..i + 1] == before[..i] + [Digit(x, len)];
    assert before[..i] + ([Digit(x, len)] + Naf(Rest(x, len), len - 1)) == naf[..i + 1] + Naf(Rest(x, len), len - 1);
  }

  /** `non_adjacent_form`, in place: the width-5 form of the scalar. */
  method NonAdjacentForm(bytes: seq<Byte>) returns (naf: array<int>)
    ensures LittleEndian(bytes) < Pow2(8 * |bytes|) && naf[..] == Naf(LittleEndian(bytes), 8 * |bytes|)
  {
    var bits := AsBits(bytes);
    BitsBound(bits);
    naf := new int[|bits|];
    for b := 0 to |bits|
      invariant naf[..b] == bits[..b]
    {
      naf[b] := bits[b];
    }
    ghost var form := Naf(LittleEndian(bytes), |bits|);
    assert naf[..] == bits && bits[0..] == bits && bits[..0] == [];
    for i := 0 to naf.Length
      invariant naf.Length == |bits| && Recoding(naf[..], i, form)
    {
      ghost var before := naf[..];
      assert naf[i..] == before[i..];
      if naf[i] != 0 {
        Window(naf, i);
        assert naf[..][..i] == before[..i];
      } else {
        EvenStep(naf[i..]);
        assert naf[i..][1..] == naf[i + 1..];
      }
      assert naf[..][i + 1..] == naf[i + 1..];
      RecodingStep(before, naf[..], i, form);
    }
    assert naf[..][..naf.Length] == naf[..];
  }

  // The scalar the form stands for

  function Reduce(x: int): (r: nat)
    ensures r < ELL
  {
    x % ELL
  }

  method PrecomputedScalars() returns (r: seq<nat>)
    ensures |r| == 8 && forall k :: 0 <= k < 8 ==> r[k] == 2 * k + 1
  {
    r := [1];
    for i := 1 to 8
      invariant |r| == i && forall k :: 0 <= k < i ==> r[k] == 2 * k + 1
    {
      r := r + [Reduce(i * 2 + 1)];
    }
  }

  lemma ReduceStep(x: int, d: int)
    ensures Reduce(Reduce(Reduce(x) + Reduce(x)) + d) == Reduce(d + 2 * x)
  {
    var r := Reduce(x) + Reduce(x);
    Congruent(x);
    Congruent(r);
    SameResidue(Reduce(r) + d, d + 2 * x, (Quotients(x) * 2) + Quotients(r));
  }

  ghost function Quotients(x: int): int { x / ELL }

  lemma Congruent(x: int)
    ensures x == ELL * Quotients(x) + Reduce(x)
  {}

  lemma SameResidue(a: int, b: int, k: int)
    requires b == a + ELL * k
    ensures Reduce(a) == Reduce(b)
  {
    Congruent(a);
    Flip(ELL, Quotients(a) + k);
    assert ELL * (Quotients(a) + k) == ELL * Quotients(a) + ELL * k;
    DivModUnique(b, ELL, Quotients(a) + k, Reduce(a));
  }

  lemma Flip(a: int, b: int)
    ensures a * b == b * a
  {}

  method AddDigit(x: nat, numb: int, precomputed: seq<nat>) returns (r: nat)
    requires numb == 0 || (numb % 2 == 1 && -15 <= numb <= 15)
    requires x < ELL && |precomputed| == 8 && forall k :: 0 <= k < 8 ==> precomputed[k] == 2 * k + 1
    ensures r == Reduce(x + numb)
  {
    r := x;
    if numb > 0 {
      r := Reduce(x + precomputed[numb / 2]);
    } else if numb < 0 {
      r := Reduce(x - precomputed[-numb / 2]);
    }
  }

  /** The double-and-add loop. */
  method DoubleAndAdd(naf: array<int>) returns (recovered: nat)
    requires AreDigits(naf[..])
    ensures recovered == Reduce(Value(naf[..]))
  {
    var precomputed := PrecomputedScalars();
    recovered := 0;
    for j := 0 to naf.Length
      invariant recovered == Reduce(Value(naf[naf.Length - j..]))
    {
      var k := naf.Length - 1 - j;
      ReduceStep(Value(naf[k + 1..]), naf[k]);
      assert naf[k..][1..] == naf[k + 1..];
      recovered := Reduce(recovered + recovered);
      recovered := AddDigit(recovered, naf[k], precomputed);
    }
    assert naf[0..] == naf[..];
  }

  lemma {:induction false} HighBit(bytes: seq<Byte>)
    requires bytes != []
    ensures LittleEndian(bytes) < Pow2(8 * |bytes|)
    ensures bytes[|bytes| - 1] < 128 <==> 2 * LittleEndian(bytes) < Pow2(8 * |bytes|)
  {
    SmallPowers();
    if |bytes| == 1 {
      Pow2Add(4, 4);
      assert LittleEndian(bytes[1..]) == 0;
    } else {
      HighBit(bytes[1..]);
      Pow2Add(4, 4);
      Pow2Add(8, 8 * |bytes| - 8);
    }
  }

  method TopBitClear(x: Byte) returns (r: bool)
    ensures r <==> x < 128
  {
    r := (x / 128) % 2 == 0;
  }

  /** `recover_monero_slide_scalar`, for scalars of any size: with the top bit clear or not, the scalar Monero's
      form stands for. */
  method RecoverMoneroSlideScalar(bytes: seq<Byte>) returns (r: nat)
    requires bytes != []
    ensures LittleEndian(bytes) < Pow2(8 * |bytes|)
    ensures r == Reduce(Value(Naf(LittleEndian(bytes), 8 * |bytes|)))
    ensures r == Reduce(LittleEndian(bytes)) <==> !Loses(LittleEndian(bytes), 8 * |bytes|)
  {
    SlideSum(bytes);
    RecoveredExact(bytes);
    var clear := TopBitClear(bytes[|bytes| - 1]);
    if clear {
      r := FromBytesModOrder(bytes);
    } else {
      r := RecoverByForm(bytes);
    }
  }

  /** A window begins so close to the top that its carry ripples off the end. */
  predicate Loses(x: nat, len: nat)
    requires x < Pow2(len)
    decreases len
  {
    len >= 5 && ((x % 2 == 1 && x + 15 >= Pow2(len)) || Loses(Rest(x, len), len - 1))
  }

  /** The carry ripples off the end, and nothing remains. */
  lemma CarryLost(x: nat, len: nat)
    requires len >= 5 && x < Pow2(len) && x % 2 == 1 && x + 15 >= Pow2(len)
    ensures Digit(x, len) == x - Pow2(len) && Rest(x, len) == 0
  {
    FiveBits(len);
    WideIs(x, len, x - Pow2(len), 0, 0);
  }

  lemma CarryKept(x: nat, len: nat)
    requires len >= 5 && x < Pow2(len) && x % 2 == 1 && x + 15 < Pow2(len)
    ensures Digit(x, len) + 2 * Rest(x, len) == x
  {
    RestFacts(x, len);
    Reduced((x - Digit(x, len)) / 2, Pow2(len - 1));
  }

  lemma {:induction false} ZeroExact(len: nat)
    ensures !Loses(0, len)
  {
    if len >= 5 {
      Reduced(0, Pow2(len - 1));
      ZeroExact(len - 1);
    }
  }

  /** The form stands for the number, less 2 to its length exactly if a carry ripples off the end. */
  lemma {:induction false} NafExact(x: nat, len: nat)
    requires x < Pow2(len)
    ensures Value(Naf(x, len)) == if Loses(x, len) then x - Pow2(len) else x
    decreases len
  {
    if len > 0 {
      NafSplit(x, len);
      NafExact(Rest(x, len), len - 1);
      if x % 2 == 0 {
        EvenRest(x / 2, len);
      } else if len < 5 {
        NarrowIs(x, len);
      } else {
        if x + 15 >= Pow2(len) {
          CarryLost(x, len);
          ZeroExact(len - 1);
        } else {
          CarryKept(x, len);
        }
      }
    }
  }

  /** The form of a scalar sums to the scalar exactly if no carry is lost, which it isn't with the top bit clear. */
  lemma SlideSum(bytes: seq<Byte>)
    requires bytes != []
    ensures LittleEndian(bytes) < Pow2(8 * |bytes|)
    ensures var n, sum, len := LittleEndian(bytes), Value(Naf(LittleEndian(bytes), 8 * |bytes|)), 8 * |bytes|;
            sum == (if Loses(n, len) then n - Pow2(len) else n) && (bytes[|bytes| - 1] < 128 ==> !Loses(n, len))
  {
    HighBit(bytes);
    NafExact(LittleEndian(bytes), 8 * |bytes|);
    NafValue(LittleEndian(bytes), 8 * |bytes|);
  }

  /** If a double is a multiple of the order, which is odd, the half is. */
  lemma HalfResidue(p: nat)
    ensures Reduce(2 * p) == 0 ==> Reduce(p) == 0
  {}

  /** So no power of two is. */
  lemma {:induction false} PowerResidue(n: nat)
    ensures Reduce(Pow2(n)) != 0
  {
    if n > 0 {
      PowerResidue(n - 1);
      HalfResidue(Pow2(n - 1));
    }
  }

  lemma DistinctResidue(n: int, p: int)
    requires Reduce(p) != 0
    ensures Reduce(n - p) != Reduce(n)
  {
    Congruent(n);
    Congruent(n - p);
    var q := Quotients(n) - Quotients(n - p);
    assert p == ELL * q + (Reduce(n) - Reduce(n - p));
    if Reduce(n - p) == Reduce(n) { DivModUnique(p, ELL, q, 0); }
  }

  /** What is recovered is the scalar itself exactly if no carry is lost. */
  lemma RecoveredExact(bytes: seq<Byte>)
    requires bytes != []
    ensures LittleEndian(bytes) < Pow2(8 * |bytes|)
    ensures var n, len := LittleEndian(bytes), 8 * |bytes|;
            Reduce(Value(Naf(n, len))) == Reduce(n) <==> !Loses(n, len)
  {
    SlideSum(bytes);
    PowerResidue(8 * |bytes|);
    DistinctResidue(LittleEndian(bytes), Pow2(8 * |bytes|));
  }

  method RecoverByForm(bytes: seq<Byte>) returns (r: nat)
    ensures LittleEndian(bytes) < Pow2(8 * |bytes|)
    ensures r == Reduce(Value(Naf(LittleEndian(bytes), 8 * |bytes|)))
  {
    var naf := NonAdjacentForm(bytes);
    FormDigits(naf[..], LittleEndian(bytes), 8 * |bytes|);
    r := DoubleAndAdd(naf);
  }

  ghost predicate AreDigits(naf: seq<int>) {
    forall k :: 0 <= k < |naf| ==> naf[k] == 0 || (naf[k] % 2 == 1 && -15 <= naf[k] <= 15)
  }

  lemma FormDigits(naf: seq<int>, x: nat, len: nat)
    requires x < Pow2(len) && naf == Naf(x, len)
    ensures AreDigits(naf)
  {
    forall k | 0 <= k < |naf| ensures naf[k] == 0 || (naf[k] % 2 == 1 && -15 <= naf[k] <= 15) {
      NafDigits(x, len, k);
    }
  }

  method FromBytesModOrder(bytes: seq<Byte>) returns (r: nat)
    ensures r == Reduce(LittleEndian(bytes))
  {
    var n: nat := 0;
    for j := 0 to |bytes|
      invariant n == LittleEndian(bytes[|bytes| - j..])
    {
      var k := |bytes| - 1 - j;
      assert bytes[k..][1..] == bytes[k + 1..];
      var byte: nat := bytes[k];
      n := byte + 256 * n;
    }
    assert bytes[0..] == bytes;
    r := Reduce(n);
  }

  /** The carry is really lost: the form of the greatest number stands for -1. */
  lemma LostCarry(len: nat, x: nat)
    requires len >= 5 && x == Pow2(len) - 1
    ensures Value(Naf(x, len)) == -1
  {
    GreatestWindow(len, x);
    NafSplit(x, len);
    NafValue(0, len - 1);
  }

  lemma GreatestWindow(len: nat, x: nat)
    requires len >= 5 && x == Pow2(len) - 1
    ensures Digit(x, len) == -1 && Rest(x, len) == 0
  {
    FiveBits(len);
    WideIs(x, len, -1, 0, 0);
  }

  lemma NafSplit(x: nat, len: nat)
    requires 0 < len && x < Pow2(len)
    ensures Value(Naf(x, len)) == Digit(x, len) + 2 * Value(Naf(Rest(x, len), len - 1))
  {
    assert Naf(x, len)[1..] == Naf(Rest(x, len), len - 1);
  }
}
