/**
 * The charge-transition and delocalisation measures that `findtransitions`
 * computes on a grid of occupations `occs[i, j, k]` (grid point (i, j),
 * dot k).
 */
module Transitions {

  function Abs(x: real): real
  {
    if x < 0.0 then -x else x
  }

  function Min(a: real, b: real): real
  {
    if a <= b then a else b
  }

  /** sum over the first K dots of |occs[i, j, k] - occs[p, q, k]| */
  function L1Upto(occs: array3<real>, i: nat, j: nat, p: nat, q: nat, K: nat): real
    reads occs
    requires i < occs.Length0 && p < occs.Length0
    requires j < occs.Length1 && q < occs.Length1
    requires K <= occs.Length2
  {
    if K == 0 then 0.0
    else L1Upto(occs, i, j, p, q, K - 1) + Abs(occs[i, j, K - 1] - occs[p, q, K - 1])
  }

  /** np.sum(np.absolute(occs[i, j] - occs[p, q])): the total occupancy change */
  function L1(occs: array3<real>, i: nat, j: nat, p: nat, q: nat): real
    reads occs
    requires i < occs.Length0 && p < occs.Length0
    requires j < occs.Length1 && q < occs.Length1
  {
    L1Upto(occs, i, j, p, q, occs.Length2)
  }

  /** (i, j) is off the one-cell border, so its four diagonal neighbours exist. */
  predicate Interior(occs: array3<real>, i: int, j: int)
  {
    1 <= i < occs.Length0 - 1 && 1 <= j < occs.Length1 - 1
  }

  /** The summed occupancy change towards the four diagonal neighbours. */
  function TransitionAt(occs: array3<real>, i: int, j: int): real
    reads occs
    requires Interior(occs, i, j)
  {
    L1(occs, i, j, i - 1, j - 1) + L1(occs, i, j, i - 1, j + 1)
      + L1(occs, i, j, i + 1, j - 1) + L1(occs, i, j, i + 1, j + 1)
  }

  /** x % 1 on a float: Python keeps the remainder in [0, 1). */
  function Frac(x: real): real
  {
    x - x.Floor as real
  }

  /** The delocalisation of occupancy x: the code adds the same term three times. */
  function Delocalization(x: real): (r: real)
    ensures 0.0 <= r <= 1.5
  {
    var d := Min(Frac(x), Abs(1.0 - Frac(x)));
    d + d + d
  }

  /** Interior points of the grid need the occupancy of dot 0. */
  predicate HasDotZero(occs: array3<real>)
  {
    occs.Length0 < 3 || occs.Length1 < 3 || occs.Length2 >= 1
  }

  /**
   * t and dl are the transition and delocalisation maps of occs: same
   * first two dimensions, the measures on interior points, 0 on the border.
   */
  ghost predicate TransitionMaps(occs: array3<real>, t: array2<real>, dl: array2<real>)
    reads occs, t, dl
    requires HasDotZero(occs)
  {
    && t.Length0 == occs.Length0 && t.Length1 == occs.Length1
    && dl.Length0 == occs.Length0 && dl.Length1 == occs.Length1
    && (forall i, j :: 0 <= i < t.Length0 && 0 <= j < t.Length1 ==>
          t[i, j] == if Interior(occs, i, j) then TransitionAt(occs, i, j) else 0.0)
    && (forall i, j :: 0 <= i < dl.Length0 && 0 <= j < dl.Length1 ==>
          dl[i, j] == if Interior(occs, i, j) then Delocalization(occs[i, j, 0]) else 0.0)
  }

  // ---------------------------------------------------------------------
  // Properties

  /** The occupancy change is never negative, and is 0 exactly when the two cells agree on every dot. */
  lemma {:induction false} L1UptoZeroIff(occs: array3<real>, i: nat, j: nat, p: nat, q: nat, K: nat)
    requires i < occs.Length0 && p < occs.Length0
    requires j < occs.Length1 && q < occs.Length1
    requires K <= occs.Length2
    ensures L1Upto(occs, i, j, p, q, K) >= 0.0
    ensures L1Upto(occs, i, j, p, q, K) == 0.0 <==> forall k :: 0 <= k < K ==> occs[i, j, k] == occs[p, q, k]
  {
    if K > 0 {
      L1UptoZeroIff(occs, i, j, p, q, K - 1);
    }
  }

  /** Interior transition values are non-negative. */
  lemma TransitionNonnegative(occs: array3<real>, i: int, j: int)
    requires Interior(occs, i, j)
    ensures TransitionAt(occs, i, j) >= 0.0
  {
    L1UptoZeroIff(occs, i, j, i - 1, j - 1, occs.Length2);
    L1UptoZeroIff(occs, i, j, i - 1, j + 1, occs.Length2);
    L1UptoZeroIff(occs, i, j, i + 1, j - 1, occs.Length2);
    L1UptoZeroIff(occs, i, j, i + 1, j + 1, occs.Length2);
  }

  /** A cell shows no transition exactly when it equals its four diagonal neighbours. */
  lemma TransitionZeroIff(occs: array3<real>, i: int, j: int)
    requires Interior(occs, i, j)
    ensures TransitionAt(occs, i, j) == 0.0 <==>
      forall k :: 0 <= k < occs.Length2 ==>
        && occs[i, j, k] == occs[i - 1, j - 1, k] && occs[i, j, k] == occs[i - 1, j + 1, k]
        && occs[i, j, k] == occs[i + 1, j - 1, k] && occs[i, j, k] == occs[i + 1, j + 1, k]
  {
    L1UptoZeroIff(occs, i, j, i - 1, j - 1, occs.Length2);
    L1UptoZeroIff(occs, i, j, i - 1, j + 1, occs.Length2);
    L1UptoZeroIff(occs, i, j, i + 1, j - 1, occs.Length2);
    L1UptoZeroIff(occs, i, j, i + 1, j + 1, occs.Length2);
  }

  /** A grid whose cells all hold the same occupation has no transitions. */
  lemma UniformGridHasNoTransitions(occs: array3<real>, i: int, j: int)
    requires forall a, b, k :: 0 <= a < occs.Length0 && 0 <= b < occs.Length1 && 0 <= k < occs.Length2 ==>
      occs[a, b, k] == occs[0, 0, k]
    requires Interior(occs, i, j)
    ensures TransitionAt(occs, i, j) == 0.0
  {
    TransitionZeroIff(occs, i, j);
  }

  /**
   * The delocalisation is three times the distance of x to the nearest
   * integer, so it lies in [0, 1.5].
   */
  lemma DelocalizationIsDistanceToInteger(x: real)
    ensures Delocalization(x) == 3.0 * Min(x - x.Floor as real, (x.Floor + 1) as real - x)
    ensures 0.0 <= Delocalization(x) <= 1.5
  {
  }

  /** Integer occupancies, which every charge state has, are not delocalised. */
  lemma DelocalizationOfInteger(n: int)
    ensures Delocalization(n as real) == 0.0
  {
    assert (n as real).Floor == n;
  }
}
