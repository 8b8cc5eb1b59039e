/** Schnorr signatures (R, s) with s = r + c * x. */
module Schnorr {
  import opened Scalars
  import opened Points
  import opened MultiExponentiation
  import opened Batch
  import opened ThresholdKeys

  datatype Signature = Signature(R: Point, s: Scalar)

  /** s * G == R + c * A */
  ghost predicate Verifies(sig: Signature, publicKey: Point, challenge: Scalar) {
    Scale(sig.s, Generator) == Plus(sig.R, Scale(challenge, publicKey))
  }

  /** challenge * x + nonce */
  function SignWith(privateKey: Scalar, nonce: Scalar, challenge: Scalar): Scalar {
    FAdd(FMul(challenge, privateKey), nonce)
  }

  /** A signature share by the key and nonce behind A and R verifies. */
  lemma SignVerifies(privateKey: Scalar, nonce: Scalar, challenge: Scalar)
    ensures Verifies(Signature(Scale(nonce, Generator), SignWith(privateKey, nonce, challenge)),
                     Scale(privateKey, Generator), challenge)
  {
    var cx: int := challenge * privateKey;
    FMulCong(challenge, privateKey);
    FAddCong(FMul(challenge, privateKey), nonce);
    CongAdd(FMul(challenge, privateKey), cx, nonce, nonce);
    ScaleCong(SignWith(privateKey, nonce, challenge), cx + nonce, Generator);
    ScaleAdd(cx, nonce, Generator);
    ScaleMul(challenge, privateKey, Generator);
    PlusLaws(Scale(cx, Generator), Scale(nonce, Generator), Identity);
  }

  function BatchStatements(sig: Signature, publicKey: Point, challenge: Scalar): seq<Pair> {
    [(1, sig.R), (challenge, publicKey), (FNeg(sig.s), Generator)]
  }

  lemma StatementsVerify(sig: Signature, publicKey: Point, challenge: Scalar)
    ensures Sum(BatchStatements(sig, publicKey, challenge)) == Identity <==> Verifies(sig, publicKey, challenge)
  {
    var st := BatchStatements(sig, publicKey, challenge);
    SumIs(st);
    ScaleNat(1, sig.R);
    ScaleZeroOne(sig.R);
    ScaleNat(challenge, publicKey);
    ScaleNat(FNeg(sig.s), Generator);
    PlusLaws(sig.R, Identity, Identity);
    assert SumTo(st, 1) == Plus(SumTo(st, 0), Times(1, sig.R));
    assert SumTo(st, 2) == Plus(SumTo(st, 1), Times(challenge, publicKey));
    assert SumTo(st, 3) == Plus(SumTo(st, 2), Times(FNeg(sig.s), Generator));
    DifferenceIsIdentity(Plus(sig.R, Scale(challenge, publicKey)), sig.s);
  }

  lemma DifferenceIsIdentity(a: Point, x: Scalar)
    ensures Plus(a, Scale(FNeg(x), Generator)) == Identity <==> a == Scale(x, Generator)
  {
    FNegCong(x);
    ScaleCong(FNeg(x), 0 - x, Generator);
    ScaleNegate(x, Generator);
    if Plus(a, Scale(FNeg(x), Generator)) == Identity {
      PlusCancel(a, Scale(x, Generator), Scale(0 - x, Generator));
    }
  }

  method Verify(sig: Signature, publicKey: Point, challenge: Scalar) returns (r: bool)
    ensures r <==> Verifies(sig, publicKey, challenge)
  {
    StatementsVerify(sig, publicKey, challenge);
    var sum := MultiexpVartime(BatchStatements(sig, publicKey, challenge), false);
    r := sum == Identity;
  }
}
