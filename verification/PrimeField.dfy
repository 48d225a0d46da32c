/** What the primality of p and the choice of d say about the congruences of the field. */
module PrimeField {
  import Bits
  import FieldPrime
  import opened Field
  import Primes

  lemma SameIsCongruent(a: int, b: int)
    ensures Primes.Same(a, b, P) <==> Congruent(a, b)
  {
    CongruentIff(a, b);
  }

  /** A nonzero residue has an inverse. */
  lemma Inverse(a: int) returns (b: nat)
    requires !Congruent(a, 0)
    ensures Congruent(a * b, 1)
  {
    FieldPrime.FieldIsPrime();
    hide Primes.IsPrime, Primes.Same, Congruent;
    SameIsCongruent(a, 0);
    b := Primes.Inverse(a, P);
    SameIsCongruent(a * b, 1);
  }

  /** A factor that is not zero can be divided out. */
  lemma Cancel(a: int, b: int, c: int)
    requires !Congruent(a, 0) && Congruent(a * b, a * c)
    ensures Congruent(b, c)
  {
    FieldPrime.FieldIsPrime();
    hide Primes.IsPrime, Primes.Same, Congruent;
    SameIsCongruent(a, 0);
    SameIsCongruent(a * b, a * c);
    Primes.Cancel(a, b, c, P);
    SameIsCongruent(b, c);
  }

  lemma NoZeroDivisors(a: int, b: int)
    requires Congruent(a * b, 0)
    ensures Congruent(a, 0) || Congruent(b, 0)
  {
    FieldPrime.FieldIsPrime();
    hide Primes.IsPrime, Primes.Same, Congruent;
    SameIsCongruent(a * b, 0);
    Primes.NoZeroDivisors(a, b, P);
    SameIsCongruent(a, 0);
    SameIsCongruent(b, 0);
  }

  lemma Fermat(a: nat)
    requires !Congruent(a, 0)
    ensures Congruent(Bits.Pow(a, P - 1), 1)
  {
    FieldPrime.FieldIsPrime();
    hide Primes.IsPrime, Primes.Same, Congruent, Bits.Pow;
    SameIsCongruent(a, 0);
    Primes.Fermat(a, P);
    SameIsCongruent(Bits.Pow(a, P - 1), 1);
  }

  /** No residue is a square root of d. */
  lemma NoRootOfD(w: int)
    ensures !Congruent(w * w, D)
  {
    FieldPrime.DIsNoSquare(w);
    hide Primes.Same, Congruent;
    SameIsCongruent(w * w, D);
  }
}
