/** Commutative groups and integer multiples, as far as the verification equation needs them. */
module Group {
  datatype Group<!G> = Group(zero: G, add: (G, G) -> G, neg: G -> G)

  ghost predicate Commutative<G(!new)>(g: Group<G>) {
    && (forall x, y :: g.add(x, y) == g.add(y, x))
    && (forall x, y, z :: g.add(g.add(x, y), z) == g.add(x, g.add(y, z)))
    && (forall x :: g.add(x, g.zero) == x)
    && (forall x :: g.add(x, g.neg(x)) == g.zero)
  }

  /** n x, for any integer n. */
  function Times<G>(g: Group<G>, n: int, x: G): G
    decreases if n < 0 then -n else n
  {
    if n == 0 then g.zero
    else if n > 0 then g.add(Times(g, n - 1, x), x)
    else g.add(Times(g, n + 1, x), g.neg(x))
  }

  lemma Swap<G(!new)>(g: Group<G>, x: G, y: G)
    requires Commutative(g)
    ensures g.add(x, y) == g.add(y, x)
  {
  }

  lemma Associate<G(!new)>(g: Group<G>, x: G, y: G, z: G)
    requires Commutative(g)
    ensures g.add(g.add(x, y), z) == g.add(x, g.add(y, z))
  {
  }

  lemma Zero<G(!new)>(g: Group<G>, x: G)
    requires Commutative(g)
    ensures g.add(x, g.zero) == x && g.add(g.zero, x) == x
  {
    Swap(g, x, g.zero);
  }

  lemma Inverse<G(!new)>(g: Group<G>, x: G)
    requires Commutative(g)
    ensures g.add(x, g.neg(x)) == g.zero && g.add(g.neg(x), x) == g.zero
  {
    Swap(g, x, g.neg(x));
  }

  /** (x + y) + z = (x + z) + y. */
  lemma SwapLast<G(!new)>(g: Group<G>, x: G, y: G, z: G)
    requires Commutative(g)
    ensures g.add(g.add(x, y), z) == g.add(g.add(x, z), y)
  {
    Associate(g, x, y, z);
    Swap(g, y, z);
    Associate(g, x, z, y);
  }

  /** (x + y) + (z + w) = (x + z) + (y + w). */
  lemma Interchange<G(!new)>(g: Group<G>, x: G, y: G, z: G, w: G)
    requires Commutative(g)
    ensures g.add(g.add(x, y), g.add(z, w)) == g.add(g.add(x, z), g.add(y, w))
  {
    hide Commutative;
    Associate(g, g.add(x, y), z, w);
    SwapLast(g, x, y, z);
    Associate(g, g.add(x, z), y, w);
  }

  /** x + y = 0 makes y the inverse of x. */
  lemma OnlyInverse<G(!new)>(g: Group<G>, x: G, y: G)
    requires Commutative(g) && g.add(x, y) == g.zero
    ensures y == g.neg(x)
  {
    hide Commutative;
    Zero(g, y);
    Zero(g, g.neg(x));
    Inverse(g, x);
    Associate(g, g.neg(x), x, y);
  }

  lemma NegSum<G(!new)>(g: Group<G>, x: G, y: G)
    requires Commutative(g)
    ensures g.neg(g.add(x, y)) == g.add(g.neg(x), g.neg(y))
  {
    hide Commutative;
    Interchange(g, x, y, g.neg(x), g.neg(y));
    Inverse(g, x);
    Inverse(g, y);
    Zero(g, g.zero);
    OnlyInverse(g, g.add(x, y), g.add(g.neg(x), g.neg(y)));
  }

  lemma TimesNext<G(!new)>(g: Group<G>, n: int, x: G)
    requires Commutative(g)
    ensures Times(g, n + 1, x) == g.add(Times(g, n, x), x)
  {
    hide Commutative;
    if n < 0 {
      Associate(g, Times(g, n + 1, x), g.neg(x), x);
      Inverse(g, x);
      Zero(g, Times(g, n + 1, x));
    }
  }

  lemma {:induction false} TimesSum<G(!new)>(g: Group<G>, m: int, n: int, x: G)
    requires Commutative(g)
    ensures Times(g, m + n, x) == g.add(Times(g, m, x), Times(g, n, x))
    decreases if n < 0 then -n else n
  {
    hide Commutative;
    if n == 0 {
      Zero(g, Times(g, m, x));
    } else if n > 0 {
      TimesSum(g, m, n - 1, x);
      TimesNext(g, m + n - 1, x);
      Associate(g, Times(g, m, x), Times(g, n - 1, x), x);
      assert m + (n - 1) == m + n - 1;
    } else {
      TimesSum(g, m, n + 1, x);
      TimesNext(g, m + n, x);
      Cancel(g, Times(g, m + n, x), x);
      assert m + (n + 1) == m + n + 1;
      Associate(g, Times(g, m, x), Times(g, n + 1, x), g.neg(x));
    }
  }

  lemma Cancel<G(!new)>(g: Group<G>, y: G, x: G)
    requires Commutative(g)
    ensures g.add(g.add(y, x), g.neg(x)) == y && g.add(g.add(y, g.neg(x)), x) == y
  {
    hide Commutative;
    Associate(g, y, x, g.neg(x));
    Associate(g, y, g.neg(x), x);
    Inverse(g, x);
    Zero(g, y);
  }

  lemma TimesNeg<G(!new)>(g: Group<G>, n: int, x: G)
    requires Commutative(g)
    ensures Times(g, -n, x) == g.neg(Times(g, n, x))
  {
    hide Commutative;
    TimesSum(g, n, -n, x);
    assert n + -n == 0;
    assert Times(g, 0, x) == g.zero;
    OnlyInverse(g, Times(g, n, x), Times(g, -n, x));
  }

  lemma TimesOne<G(!new)>(g: Group<G>, x: G)
    requires Commutative(g)
    ensures Times(g, 1, x) == x && Times(g, 0, x) == g.zero
  {
    hide Commutative;
    assert Times(g, 0, x) == g.zero;
    TimesNext(g, 0, x);
    Zero(g, x);
  }

  function Twice<G>(g: Group<G>, x: G): G {
    g.add(x, x)
  }

  /** 3x, 5x and 7x as the precompute sequence forms them. */
  lemma OddMultiples<G(!new)>(g: Group<G>, x: G)
    requires Commutative(g)
    ensures Twice(g, x) == Times(g, 2, x)
    ensures g.add(Times(g, 2, x), x) == Times(g, 3, x)
    ensures g.add(Times(g, 3, x), Times(g, 2, x)) == Times(g, 5, x)
    ensures g.add(Times(g, 5, x), Times(g, 2, x)) == Times(g, 7, x)
  {
    hide Commutative, Times;
    TimesOne(g, x);
    TimesSum(g, 1, 1, x);
    TimesSum(g, 2, 1, x);
    TimesSum(g, 3, 2, x);
    TimesSum(g, 5, 2, x);
  }

  /** Three doublings multiply by the cofactor 8. */
  lemma Cofactor<G(!new)>(g: Group<G>, x: G)
    requires Commutative(g)
    ensures Twice(g, Twice(g, Twice(g, x))) == Times(g, 8, x)
  {
    hide Commutative, Times;
    TimesOne(g, x);
    TimesSum(g, 1, 1, x);
    TimesSum(g, 2, 2, x);
    TimesSum(g, 4, 4, x);
  }

  // ----- s B - k A -----

  function Joint<G>(g: Group<G>, s: int, b: G, k: int, a: G): G {
    g.add(Times(g, s, b), g.neg(Times(g, k, a)))
  }

  lemma JointZero<G(!new)>(g: Group<G>, b: G, a: G)
    requires Commutative(g)
    ensures Joint(g, 0, b, 0, a) == g.zero
  {
    hide Commutative;
    TimesOne(g, a);
    TimesOne(g, b);
    Zero(g, g.zero);
    OnlyInverse(g, g.zero, g.zero);
  }

  lemma JointDouble<G(!new)>(g: Group<G>, s: int, b: G, k: int, a: G)
    requires Commutative(g)
    ensures Twice(g, Joint(g, s, b, k, a)) == Joint(g, 2 * s, b, 2 * k, a)
  {
    hide Commutative, Times;
    var x, y := Times(g, s, b), Times(g, k, a);
    Interchange(g, x, g.neg(y), x, g.neg(y));
    NegSum(g, y, y);
    TimesSum(g, s, s, b);
    TimesSum(g, k, k, a);
    assert s + s == 2 * s && k + k == 2 * k;
  }

  lemma JointAddA<G(!new)>(g: Group<G>, s: int, b: G, k: int, a: G, d: int)
    requires Commutative(g)
    ensures g.add(Joint(g, s, b, k, a), g.neg(Times(g, d, a))) == Joint(g, s, b, d + k, a)
  {
    hide Commutative, Times;
    Associate(g, Times(g, s, b), g.neg(Times(g, k, a)), g.neg(Times(g, d, a)));
    NegSum(g, Times(g, k, a), Times(g, d, a));
    TimesSum(g, k, d, a);
    assert k + d == d + k;
  }

  lemma JointAddB<G(!new)>(g: Group<G>, s: int, b: G, k: int, a: G, d: int)
    requires Commutative(g)
    ensures g.add(Joint(g, s, b, k, a), Times(g, d, b)) == Joint(g, d + s, b, k, a)
  {
    hide Commutative, Times;
    SwapLast(g, Times(g, s, b), g.neg(Times(g, k, a)), Times(g, d, b));
    TimesSum(g, s, d, b);
    assert s + d == d + s;
  }

  lemma {:induction false} TimesOfZero<G(!new)>(g: Group<G>, n: nat)
    requires Commutative(g)
    ensures Times(g, n, g.zero) == g.zero
  {
    hide Commutative;
    if n > 0 {
      TimesOfZero(g, n - 1);
      Zero(g, g.zero);
    }
  }
}
