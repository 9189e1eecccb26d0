/**
  SM2 signing and verifying in the fixture oracle, over any cyclic group of odd order n in which the
  public key is the generator itself. Group elements are written by their exponent modulo n, and the
  affine x coordinate is an arbitrary function of the element.
 */
module Sm2 {

  datatype Group = Group(n: nat, x: nat -> nat)

  datatype Sig = Sig(r: nat, s: nat)

  /** Odd order; a prime order other than two is a special case. */
  ghost predicate Odd(g: Group) { g.n >= 3 && g.n % 2 == 1 }

  /** `BigInteger.mod`: never negative. */
  function Mod(a: int, n: nat): (m: nat)
    requires n > 0
    ensures m < n
  {
    a % n
  }

  /** The inverse of two modulo an odd number. */
  function InverseOfTwo(n: nat): nat { (n + 1) / 2 }

  function Sign(g: Group, e: nat, k: nat): Sig
    requires g.n > 0
  {
    var r := Mod(e + g.x(Mod(k, g.n)), g.n);
    Sig(r, Mod(InverseOfTwo(g.n) * (k - r), g.n))
  }

  /** The point s G + t Q with Q = G. */
  function Combined(g: Group, sig: Sig): nat
    requires g.n > 0
  {
    Mod(sig.s + Mod(sig.r + sig.s, g.n), g.n)
  }

  predicate Verify(g: Group, e: nat, sig: Sig)
    requires g.n > 0
  {
    Mod(e + g.x(Combined(g, sig)), g.n) == sig.r
  }

  // ---- arithmetic modulo n -------------------------------------------------------------------------

  /** Two numbers that leave the same remainder. */
  ghost predicate Congruent(a: int, b: int, n: nat)
  {
    exists q: int :: a - b == q * n
  }

  lemma {:induction false} CongruentBy(a: int, b: int, n: nat, q: int)
    requires a - b == q * n
    ensures Congruent(a, b, n)
  {
  }

  lemma {:induction false} ModIsCongruent(a: int, n: nat)
    requires n > 0
    ensures Congruent(a, Mod(a, n), n)
  {
    CongruentBy(a, a % n, n, a / n);
  }

  lemma {:induction false} CongruentAdd(a: int, b: int, c: int, d: int, n: nat)
    requires Congruent(a, b, n) && Congruent(c, d, n)
    ensures Congruent(a + c, b + d, n)
  {
    var q: int :| a - b == q * n;
    var p: int :| c - d == p * n;
    assert (q + p) * n == q * n + p * n;
    CongruentBy(a + c, b + d, n, q + p);
  }

  lemma {:induction false} CongruentTrans(a: int, b: int, c: int, n: nat)
    requires Congruent(a, b, n) && Congruent(b, c, n)
    ensures Congruent(a, c, n)
  {
    CongruentAdd(a, b, b, c, n);
    var q: int :| (a + b) - (b + c) == q * n;
    CongruentBy(a, c, n, q);
  }

  lemma {:induction false} CongruentFlip(a: int, b: int, n: nat)
    requires Congruent(a, b, n)
    ensures Congruent(b, a, n)
  {
    var q: int :| a - b == q * n;
    assert (-q) * n == -(q * n);
    CongruentBy(b, a, n, -q);
  }

  /** How far apart the multiples of a number lie. */
  lemma {:induction false} Multiples(q: int, n: int)
    requires n >= 0
    ensures q == 1 ==> q * n == n
    ensures q == -1 ==> q * n == -n
    ensures q >= 1 ==> q * n >= n
    ensures q >= 2 ==> q * n >= 2 * n
    ensures q <= 0 ==> q * n <= 0
    ensures q <= -1 ==> q * n <= -n
    ensures q <= -2 ==> q * n <= -2 * n
  {
    if q >= 2 { assert q * n == 2 * n + (q - 2) * n; }
    if q <= -2 { assert q * n == -2 * n + (q + 2) * n; }
  }

  /** Congruent remainders are equal. */
  lemma {:induction false} RemainderUnique(a: int, b: int, n: nat)
    requires n > 0 && Congruent(a, b, n) && 0 <= a < n && 0 <= b < n
    ensures a == b
  {
    var q: int :| a - b == q * n;
    Multiples(q, n);
  }

  lemma {:induction false} ModUnique(a: int, b: int, n: nat)
    requires n > 0
    ensures Congruent(a, b, n) <==> Mod(a, n) == Mod(b, n)
  {
    hide Congruent;
    ModIsCongruent(a, n);
    ModIsCongruent(b, n);
    CongruentFlip(b, Mod(b, n), n);
    if Congruent(a, b, n) {
      CongruentFlip(a, Mod(a, n), n);
      CongruentTrans(Mod(a, n), a, b, n);
      CongruentTrans(Mod(a, n), b, Mod(b, n), n);
      RemainderUnique(Mod(a, n), Mod(b, n), n);
    }
    if Mod(a, n) == Mod(b, n) { CongruentTrans(a, Mod(b, n), b, n); }
  }

  lemma {:induction false} ModSmall(a: nat, n: nat)
    requires a < n
    ensures Mod(a, n) == a
  {
    ModIsCongruent(a, n);
    RemainderUnique(a, Mod(a, n), n);
  }

  lemma {:induction false} TwoHalvesIs(n: nat, a: int)
    requires n % 2 == 1
    ensures Congruent(2 * (InverseOfTwo(n) * a), a, n)
  {
    assert 2 * InverseOfTwo(n) == n + 1;
    assert 2 * (InverseOfTwo(n) * a) == (n + 1) * a == a * n + a;
    CongruentBy(2 * (InverseOfTwo(n) * a), a, n, a);
  }

  // ---- signatures -----------------------------------------------------------------------------------

  /** What is signed with k satisfies 2 s + r = k, which is the point the verifier computes. */
  lemma {:induction false} SignatureRecoversNonce(g: Group, e: nat, k: nat)
    requires Odd(g)
    ensures Congruent(2 * Sign(g, e, k).s + Sign(g, e, k).r, k, g.n)
    ensures Combined(g, Sign(g, e, k)) == Mod(k, g.n)
  {
    hide Congruent, InverseOfTwo, Mod;
    var n := g.n;
    var sig := Sign(g, e, k);
    var half := InverseOfTwo(n) * (k - sig.r);
    ModIsCongruent(half, n);
    CongruentFlip(half, sig.s, n);
    CongruentAdd(sig.s, half, sig.s, half, n);
    TwoHalvesIs(n, k - sig.r);
    CongruentTrans(2 * sig.s, 2 * half, k - sig.r, n);
    Reflexive(sig.r, n);
    CongruentAdd(2 * sig.s, k - sig.r, sig.r, sig.r, n);
    CombinedIs(g, sig);
    ModUnique(2 * sig.s + sig.r, k, n);
  }

  lemma {:induction false} Reflexive(a: int, n: nat)
    ensures Congruent(a, a, n)
  {
    CongruentBy(a, a, n, 0);
  }

  lemma {:induction false} CombinedIs(g: Group, sig: Sig)
    requires g.n > 0
    ensures Combined(g, sig) == Mod(2 * sig.s + sig.r, g.n)
  {
    hide Congruent, Mod;
    var n := g.n;
    ModIsCongruent(sig.r + sig.s, n);
    CongruentFlip(sig.r + sig.s, Mod(sig.r + sig.s, n), n);
    Reflexive(sig.s, n);
    CongruentAdd(sig.s, sig.s, Mod(sig.r + sig.s, n), sig.r + sig.s, n);
    ModUnique(sig.s + Mod(sig.r + sig.s, n), 2 * sig.s + sig.r, n);
  }

  /** Every signature the oracle makes is one its verifier accepts, for every hash and every nonce. */
  lemma {:induction false} SignedVerifies(g: Group, e: nat, k: nat)
    requires Odd(g)
    ensures Verify(g, e, Sign(g, e, k))
  {
    hide Combined, Congruent, Mod;
    SignatureRecoversNonce(g, e, k);
  }

  /** A signature with r in range is accepted exactly when it is what signing with 2 s + r gives. */
  lemma {:induction false} VerifiedIsSigned(g: Group, e: nat, sig: Sig)
    requires Odd(g) && sig.r < g.n && sig.s < g.n
    ensures Verify(g, e, sig) <==> Sign(g, e, Mod(2 * sig.s + sig.r, g.n)) == sig
  {
    hide Congruent, InverseOfTwo, Combined, Mod;
    var n := g.n;
    var k := Mod(2 * sig.s + sig.r, n);
    ModSmall(k, n);
    CombinedIs(g, sig);
    SignatureRecoversNonce(g, e, k);
    var made := Sign(g, e, k);
    assert Mod(k, n) == k;
    assert Verify(g, e, sig) <==> made.r == sig.r;
    if made.r == sig.r { SameHalf(g, sig, made); }
  }

  lemma {:induction false} SameHalf(g: Group, a: Sig, b: Sig)
    requires Odd(g) && a.r == b.r && a.s < g.n && b.s < g.n
    requires Congruent(2 * b.s + b.r, Mod(2 * a.s + a.r, g.n), g.n)
    ensures a == b
  {
    var n := g.n;
    ModIsCongruent(2 * a.s + a.r, n);
    CongruentFlip(2 * a.s + a.r, Mod(2 * a.s + a.r, n), n);
    CongruentTrans(2 * b.s + b.r, Mod(2 * a.s + a.r, n), 2 * a.s + a.r, n);
    var q: int :| (2 * b.s + b.r) - (2 * a.s + a.r) == q * n;
    EvenMultiple(q, n, b.s - a.s);
  }

  /** Twice a small number is an odd modulus times something only if it is zero. */
  lemma {:induction false} EvenMultiple(q: int, n: int, d: int)
    requires n % 2 == 1 && 2 * d == q * n && -n < d < n
    ensures d == 0
  {
    Multiples(q, n);
  }

  // ---- the checks the standard adds ---------------------------------------------------------------------

  /** Clause 7.1 of GB/T 32918.2: r and s in range and r + s not zero modulo n. */
  predicate StandardVerify(g: Group, e: nat, sig: Sig)
    requires g.n > 0
  {
    && 1 <= sig.r < g.n && 1 <= sig.s < g.n
    && Mod(sig.r + sig.s, g.n) != 0
    && Verify(g, e, sig)
  }

  /**
    Clause 6.1 draws another nonce when r is zero, r + k is n or s is zero; the oracle does not, and
    its signatures satisfy the standard's verifier exactly when the nonce was none of those.
   */
  lemma {:induction false} StandardAcceptsIff(g: Group, e: nat, k: nat)
    requires Odd(g) && 0 < k < g.n
    ensures var sig := Sign(g, e, k);
            StandardVerify(g, e, sig) <==> sig.r != 0 && sig.r + k != g.n && sig.r != k
  {
    hide Congruent, InverseOfTwo, Combined, Mod;
    var n := g.n;
    var sig := Sign(g, e, k);
    SignedVerifies(g, e, k);
    SignatureRecoversNonce(g, e, k);
    ZeroS(g, sig, k);
    ZeroT(g, sig, k);
  }

  lemma {:induction false} ZeroS(g: Group, sig: Sig, k: nat)
    requires Odd(g) && sig.r < g.n && sig.s < g.n && 0 < k < g.n
    requires Congruent(2 * sig.s + sig.r, k, g.n)
    ensures sig.s == 0 <==> sig.r == k
  {
    var q: int :| 2 * sig.s + sig.r - k == q * g.n;
    if sig.s == 0 { RemainderUnique(sig.r, k, g.n); }
    if sig.r == k { EvenMultiple(q, g.n, sig.s); }
  }

  lemma {:induction false} ZeroT(g: Group, sig: Sig, k: nat)
    requires Odd(g) && sig.r < g.n && sig.s < g.n && 0 < k < g.n
    requires Congruent(2 * sig.s + sig.r, k, g.n)
    ensures sig.r != 0 && sig.s != 0 ==> (Mod(sig.r + sig.s, g.n) == 0 <==> sig.r + k == g.n)
  {
    var n := g.n;
    var q: int :| 2 * sig.s + sig.r - k == q * n;
    if sig.r != 0 && sig.s != 0 {
      var t := sig.r + sig.s;
      assert 2 * (t - n) == (q - 2) * n + sig.r + k by { assert (q - 2) * n == q * n - 2 * n; }
      assert Mod(t, n) == 0 <==> t == n by { SmallMultiple(t, n); }
      if sig.r + k == n {
        assert 2 * (t - n) == (q - 1) * n by { assert (q - 1) * n == (q - 2) * n + n; }
        EvenMultiple(q - 1, n, t - n);
      }
      if t == n {
        assert (2 - q) * n == sig.r + k by { assert (2 - q) * n == -((q - 2) * n); }
        OnlyOnce(2 - q, n, sig.r + k);
      }
    }
  }

  lemma {:induction false} SmallMultiple(t: nat, n: nat)
    requires 0 < t < 2 * n
    ensures Mod(t, n) == 0 <==> t == n
  {
    hide Mod, Congruent;
    ModSmall(0, n);
    if t < n {
      ModSmall(t, n);
    } else {
      ModSmall(t - n, n);
      CongruentBy(t, t - n, n, 1);
      ModUnique(t, t - n, n);
    }
  }

  lemma {:induction false} OnlyOnce(p: int, n: nat, m: int)
    requires p * n == m && 0 < m < 2 * n
    ensures m == n
  {
    Multiples(p, n);
  }

  /** What the oracle signs it accepts, and the standard's verifier refuses it. */
  predicate SignedInVain(g: Group, e: nat, k: nat)
    requires g.n > 0
  {
    Verify(g, e, Sign(g, e, k)) && !StandardVerify(g, e, Sign(g, e, k))
  }

  /**
    On every curve and for every nonce there are three hashes below n for which clause 6.1 would draw
    another nonce: r becomes zero, r becomes the nonce, r and the nonce add up to n. The oracle signs
    all three and accepts what it signed; the standard's verifier refuses it.
   */
  lemma {:induction false} RetriesAreSkipped(g: Group, k: nat)
    requires Odd(g) && 0 < k < g.n
    ensures var x: int, n := g.x(Mod(k, g.n)), g.n;
            && Sign(g, Mod(-x, n), k).r == 0 && SignedInVain(g, Mod(-x, n), k)
            && Sign(g, Mod(k - x, n), k).r == k && SignedInVain(g, Mod(k - x, n), k)
            && Sign(g, Mod(0 - k - x, n), k).r == n - k && SignedInVain(g, Mod(0 - k - x, n), k)
  {
    hide Verify, StandardVerify, Sign, Mod;
    RefusedWhen(g, k, 0, 0);
    RefusedWhen(g, k, k, k);
    RefusedWhen(g, k, 0 - k, g.n - k);
  }

  lemma {:induction false} RefusedWhen(g: Group, k: nat, wanted: int, r: nat)
    requires Odd(g) && 0 < k < g.n && r < g.n && (wanted == r || wanted == r - g.n)
    requires r == 0 || r == k || r + k == g.n
    ensures var e := Mod(wanted - g.x(Mod(k, g.n)), g.n);
            Sign(g, e, k).r == r && SignedInVain(g, e, k)
  {
    hide Verify, StandardVerify, Mod, Congruent, InverseOfTwo;
    var x, n := g.x(Mod(k, g.n)), g.n;
    var e := Mod(wanted - x, n);
    ModIsCongruent(wanted - x, n);
    CongruentFlip(wanted - x, e, n);
    Reflexive(x, n);
    CongruentAdd(e, wanted - x, x, x, n);
    CongruentBy(wanted, r, n, if wanted == r then 0 else -1);
    CongruentTrans(e + x, wanted, r, n);
    ModUnique(e + x, r, n);
    ModSmall(r, n);
    SignedVerifies(g, e, k);
    StandardAcceptsIff(g, e, k);
  }
}
