/**
 * The classical electrostatic energy of a charge state, the argmin that
 * selects the ground state, and the parameters of the triple-dot system.
 */
module Electrostatics {
  import opened ChargeBasis

  /**
   * The characterising dot variables: chemical potential at zero gate
   * voltage `mu0`, addition energy `eadd`, Coulomb repulsion `w` (one entry
   * per unordered pair of dots) and the virtual gate matrix `alpha`.
   */
  datatype Coupling = Coupling(mu0: seq<real>, eadd: seq<real>, w: seq<real>, alpha: seq<seq<real>>)

  /** The number of unordered pairs of d dots. */
  function PairCount(d: nat): nat
  {
    d * (d - 1) / 2
  }

  /** The dimensions of the dot variables match d dots and g gates. */
  predicate WellShaped(c: Coupling, d: nat, g: nat)
  {
    && |c.mu0| == d
    && |c.eadd| == d
    && |c.w| == PairCount(d)
    && |c.alpha| == d
    && forall k :: 0 <= k < d ==> |c.alpha[k]| == g
  }

  function Dot(a: seq<real>, b: seq<real>): real
    requires |a| == |b|
  {
    if a == [] then 0.0 else a[0] * b[0] + Dot(a[1..], b[1..])
  }

  function Reals(n: seq<int>): seq<real>
  {
    seq(|n|, k requires 0 <= k < |n| => n[k] as real)
  }

  lemma PairCountStep(d: nat)
    requires d >= 1
    ensures PairCount(d) == (d - 1) + PairCount(d - 1)
  {
    assert d * (d - 1) == 2 * (d - 1) + (d - 1) * (d - 2);
  }

  /**
   * [n_i * n_j for (n_i, n_j) in itertools.combinations(n, 2)]: the pairs
   * (0,1), (0,2), ..., (0,d-1), (1,2), ..., in the order of `w`.
   */
  function PairProducts(n: seq<int>): (r: seq<int>)
    ensures |r| == PairCount(|n|)
  {
    if n == [] then []
    else
      PairCountStep(|n|);
      seq(|n| - 1, j requires 0 <= j < |n| - 1 => n[0] * n[j + 1]) + PairProducts(n[1..])
  }

  /** mu0 + alpha . v: the chemical potential of each dot at gate values v */
  function Potentials(c: Coupling, v: seq<real>): seq<real>
    requires |c.alpha| == |c.mu0|
    requires forall k :: 0 <= k < |c.alpha| ==> |c.alpha[k]| == |v|
  {
    seq(|c.mu0|, k requires 0 <= k < |c.mu0| => c.mu0[k] + Dot(c.alpha[k], v))
  }

  /** 1/2 * n * (n + 1), per dot: the addition-energy ladder */
  function Ladder(n: seq<int>): seq<real>
  {
    seq(|n|, k requires 0 <= k < |n| => 0.5 * (n[k] * (n[k] + 1)) as real)
  }

  /**
   * The energy of charge state n at gate values v:
   *   -(mu0 + alpha . v) . n  +  sum_{i<j} w_ij n_i n_j  +  sum_k eadd_k n_k (n_k + 1) / 2
   */
  function Energy(c: Coupling, n: seq<int>, v: seq<real>): real
    requires WellShaped(c, |n|, |v|)
  {
    -Dot(Potentials(c, v), Reals(n)) + Dot(Reals(PairProducts(n)), c.w) + Dot(Ladder(n), c.eadd)
  }

  /** Every state of b has as many entries as there are dots. */
  predicate StatesFit(c: Coupling, b: seq<seq<int>>, v: seq<real>)
  {
    forall i :: 0 <= i < |b| ==> WellShaped(c, |b[i]|, |v|)
  }

  /** The energy of every basis state, in basis order. */
  function Energies(c: Coupling, b: seq<seq<int>>, v: seq<real>): seq<real>
    requires StatesFit(c, b, v)
  {
    seq(|b|, i requires 0 <= i < |b| => Energy(c, b[i], v))
  }

  /** k is the lowest index holding the minimum of es. */
  predicate IsFirstMinimum(es: seq<real>, k: int)
  {
    && 0 <= k < |es|
    && (forall m :: 0 <= m < |es| ==> es[k] <= es[m])
    && (forall m :: 0 <= m < k ==> es[k] < es[m])
  }

  /** np.argmin: the first index of a minimal element. */
  function ArgMin(es: seq<real>): (k: nat)
    requires |es| > 0
    ensures IsFirstMinimum(es, k)
  {
    if |es| == 1 then 0
    else
      var k := ArgMin(es[..|es| - 1]);
      if es[|es| - 1] < es[k] then |es| - 1 else k
  }

  /** The state of lowest energy, ties going to the lowest basis index. */
  function GroundState(c: Coupling, b: seq<seq<int>>, v: seq<real>): (s: seq<int>)
    requires |b| > 0 && StatesFit(c, b, v)
    ensures s in b && |s| == |c.mu0|
  {
    b[ArgMin(Energies(c, b, v))]
  }

  /** The dot variables of the triple-dot system. */
  function TripleDotCoupling(): (c: Coupling)
    ensures WellShaped(c, 3, 3)
  {
    Coupling(
      [-27.0, -20.0, -25.0],
      [54.0, 52.8, 54.0],
      [6.0, 1.0, 5.0],
      [[1.0, 0.25, 0.1],
       [0.25, 1.0, 0.25],
       [0.1, 0.25, 1.0]])
  }

  // ---------------------------------------------------------------------
  // Properties

  /** The first minimum is unique: the argmin is determined by the energies alone. */
  lemma FirstMinimumUnique(es: seq<real>, a: int, b: int)
    requires IsFirstMinimum(es, a) && IsFirstMinimum(es, b)
    ensures a == b
  {
    assert es[a] == es[b];
  }

  /** The position of the pair (i, j), i < j, in combinations order. */
  function PairIndex(d: nat, i: nat, j: nat): int
  {
    i * d - i * (i + 1) / 2 + (j - i - 1)
  }

  lemma PairIndexStep(d: nat, i: nat, j: nat)
    requires 1 <= i < j < d
    ensures PairIndex(d, i, j) == (d - 1) + PairIndex(d - 1, i - 1, j - 1)
  {
    assert i * (i + 1) == (i - 1) * i + 2 * i;
    assert i * d == i * (d - 1) + i;
    assert (i - 1) * (d - 1) == i * (d - 1) - (d - 1);
  }

  /**
   * Entry PairIndex(d, i, j) of the pair products is n_i * n_j: the
   * coupling w[PairIndex(d, i, j)] multiplies exactly the pair (i, j).
   */
  lemma {:induction false} PairProductsAt(n: seq<int>, i: nat, j: nat)
    requires i < j < |n|
    ensures 0 <= PairIndex(|n|, i, j) < PairCount(|n|)
    ensures PairProducts(n)[PairIndex(|n|, i, j)] == n[i] * n[j]
  {
    if i == 0 {
      PairCountStep(|n|);
    } else {
      PairProductsAt(n[1..], i - 1, j - 1);
      PairIndexStep(|n|, i, j);
      PairCountStep(|n|);
    }
  }

  lemma {:induction false} DotZeroRight(a: seq<real>, b: seq<real>)
    requires |a| == |b|
    requires forall k :: 0 <= k < |b| ==> b[k] == 0.0
    ensures Dot(a, b) == 0.0
  {
    if a != [] {
      DotZeroRight(a[1..], b[1..]);
    }
  }

  lemma {:induction false} DotZeroLeft(a: seq<real>, b: seq<real>)
    requires |a| == |b|
    requires forall k :: 0 <= k < |a| ==> a[k] == 0.0
    ensures Dot(a, b) == 0.0
  {
    if a != [] {
      DotZeroLeft(a[1..], b[1..]);
    }
  }

  lemma {:induction false} DotNonnegative(a: seq<real>, b: seq<real>)
    requires |a| == |b|
    requires forall k :: 0 <= k < |a| ==> a[k] >= 0.0 && b[k] >= 0.0
    ensures Dot(a, b) >= 0.0
  {
    if a != [] {
      DotNonnegative(a[1..], b[1..]);
    }
  }

  lemma {:induction false} DotNonpositive(a: seq<real>, b: seq<real>)
    requires |a| == |b|
    requires forall k :: 0 <= k < |a| ==> a[k] <= 0.0 && b[k] >= 0.0
    ensures Dot(a, b) <= 0.0
  {
    if a != [] {
      DotNonpositive(a[1..], b[1..]);
    }
  }

  lemma {:induction false} PairProductsOfZeros(n: seq<int>)
    requires forall k :: 0 <= k < |n| ==> n[k] == 0
    ensures forall k :: 0 <= k < |PairProducts(n)| ==> PairProducts(n)[k] == 0
  {
    if n != [] {
      PairProductsOfZeros(n[1..]);
    }
  }

  lemma {:induction false} PairProductsNonnegative(n: seq<int>)
    requires forall k :: 0 <= k < |n| ==> n[k] >= 0
    ensures forall k :: 0 <= k < |PairProducts(n)| ==> PairProducts(n)[k] >= 0
  {
    if n != [] {
      PairProductsNonnegative(n[1..]);
    }
  }

  /** The empty state has energy 0 at every gate setting. */
  lemma EnergyOfEmptyState(c: Coupling, d: nat, v: seq<real>)
    requires WellShaped(c, d, |v|)
    ensures Energy(c, Zeros(d), v) == 0.0
  {
    var n := Zeros(d);
    DotZeroRight(Potentials(c, v), Reals(n));
    PairProductsOfZeros(n);
    DotZeroLeft(Reals(PairProducts(n)), c.w);
    DotZeroLeft(Ladder(n), c.eadd);
  }

  /**
   * When every dot's chemical potential is at most 0 and the repulsions and
   * addition energies are non-negative, no state has negative energy.
   */
  lemma EnergyNonnegative(c: Coupling, n: seq<int>, v: seq<real>)
    requires WellShaped(c, |n|, |v|)
    requires forall k :: 0 <= k < |n| ==> n[k] >= 0
    requires forall k :: 0 <= k < |n| ==> Potentials(c, v)[k] <= 0.0
    requires forall k :: 0 <= k < |c.w| ==> c.w[k] >= 0.0
    requires forall k :: 0 <= k < |n| ==> c.eadd[k] >= 0.0
    ensures Energy(c, n, v) >= 0.0
  {
    DotNonpositive(Potentials(c, v), Reals(n));
    PairProductsNonnegative(n);
    DotNonnegative(Reals(PairProducts(n)), c.w);
    forall k | 0 <= k < |n|
      ensures Ladder(n)[k] >= 0.0
    {
      assert n[k] * (n[k] + 1) >= 0;
    }
    DotNonnegative(Ladder(n), c.eadd);
  }

  /** At zero gate voltage the potentials are mu0. */
  lemma PotentialsAtZeroGates(c: Coupling, v: seq<real>)
    requires |c.alpha| == |c.mu0|
    requires forall k :: 0 <= k < |c.alpha| ==> |c.alpha[k]| == |v|
    requires forall g :: 0 <= g < |v| ==> v[g] == 0.0
    ensures Potentials(c, v) == c.mu0
  {
    forall k | 0 <= k < |c.mu0|
      ensures Potentials(c, v)[k] == c.mu0[k]
    {
      DotZeroRight(c.alpha[k], v);
    }
  }

  /**
   * The triple dot at gate values (0, 0, 0) is empty in its ground state:
   * every mu0 is negative, so any electron costs energy.
   */
  lemma TripleDotGroundStateAtZeroGates(m: nat)
    ensures StatesFit(TripleDotCoupling(), Basis(3, m), [0.0, 0.0, 0.0])
    ensures |Basis(3, m)| > 0
    ensures GroundState(TripleDotCoupling(), Basis(3, m), [0.0, 0.0, 0.0]) == [0, 0, 0]
  {
    var c, b, v := TripleDotCoupling(), Basis(3, m), [0.0, 0.0, 0.0];
    BasisEnumeratesAllStates(3, m);
    BasisStartsEmpty(3, m);
    assert StatesFit(c, b, v) by {
      forall i | 0 <= i < |b|
        ensures WellShaped(c, |b[i]|, |v|)
      {
        assert b[i] in b;
      }
    }
    PotentialsAtZeroGates(c, v);
    var es := Energies(c, b, v);
    forall i | 0 <= i < |b|
      ensures es[i] >= 0.0
    {
      assert b[i] in b;
      EnergyNonnegative(c, b[i], v);
    }
    EnergyOfEmptyState(c, 3, v);
    assert es[0] == 0.0;
    var k := ArgMin(es);
    assert k == 0;
    assert Zeros(3) == [0, 0, 0];
  }

  // ---------------------------------------------------------------------
  // The energy as the code writes it

  /**
   * The energy as line 93 writes it: the first term is the elementwise
   * product -(mu0 + alpha . v) * n, never summed, so the two scalar terms
   * are broadcast onto it and `energy` ends up a vector with one entry per dot.
   */
  function AsWrittenEnergy(c: Coupling, n: seq<int>, v: seq<real>): (e: seq<real>)
    requires WellShaped(c, |n|, |v|)
    ensures |e| == |n|
  {
    var p := Potentials(c, v);
    var scalars := Dot(Reals(PairProducts(n)), c.w) + Dot(Ladder(n), c.eadd);
    seq(|n|, k requires 0 <= k < |n| => -(p[k] * n[k] as real) + scalars)
  }

  /** A dot product of two three-entry vectors, written out. */
  lemma DotOfThree(a: seq<real>, b: seq<real>)
    requires |a| == |b| == 3
    ensures Dot(a, b) == a[0] * b[0] + a[1] * b[1] + a[2] * b[2]
  {
    assert Dot(a[2..], b[2..]) == a[2] * b[2] + Dot(a[3..], b[3..]);
    assert Dot(a[1..], b[1..]) == a[1] * b[1] + Dot(a[2..], b[2..]);
  }

  /**
   * For the triple dot with one electron on the third dot at zero gate
   * voltage, the code computes the vector [54, 54, 79] and cannot store it
   * in the scalar slot `energies[i]`; the intended energy is 79.
   */
  lemma AsWrittenEnergyIsAVector()
    ensures AsWrittenEnergy(TripleDotCoupling(), [0, 0, 1], [0.0, 0.0, 0.0]) == [54.0, 54.0, 79.0]
    ensures Energy(TripleDotCoupling(), [0, 0, 1], [0.0, 0.0, 0.0]) == 79.0
  {
    var c, n, v := TripleDotCoupling(), [0, 0, 1], [0.0, 0.0, 0.0];
    TripleDotTermsOfThirdDot();
    var e := AsWrittenEnergy(c, n, v);
    assert e[0] == 54.0 && e[1] == 54.0 && e[2] == 79.0;
  }

  /** The three energy terms of the triple dot's state (0, 0, 1) at zero gate voltage. */
  lemma TripleDotTermsOfThirdDot()
    ensures var c, n, v := TripleDotCoupling(), [0, 0, 1], [0.0, 0.0, 0.0];
      && Potentials(c, v) == [-27.0, -20.0, -25.0]
      && Dot(Potentials(c, v), Reals(n)) == -25.0
      && Dot(Reals(PairProducts(n)), c.w) == 0.0
      && Dot(Ladder(n), c.eadd) == 54.0
  {
    var c, n, v := TripleDotCoupling(), [0, 0, 1], [0.0, 0.0, 0.0];
    PotentialsAtZeroGates(c, v);
    assert PairProducts([1]) == [];
    assert PairProducts([0, 1]) == [0];
    assert PairProducts(n) == [0, 0, 0];
    assert Reals(PairProducts(n)) == [0.0, 0.0, 0.0];
    assert Reals(n) == [0.0, 0.0, 1.0];
    assert Ladder(n) == [0.0, 0.0, 1.0];
    DotOfThree(Reals(PairProducts(n)), c.w);
    DotOfThree(Ladder(n), c.eadd);
    DotOfThree(Potentials(c, v), Reals(n));
  }
}
