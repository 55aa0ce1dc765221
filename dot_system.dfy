/**
 * The classical quantum-dot system: an object holding the dot variables
 * and the charge-state basis, whose methods compute energies and ground
 * states and sweep them over a two-dimensional grid of gate values.
 */
module DotSystem {
  import opened Combinatorics
  import opened ChargeBasis
  import opened Electrostatics
  import opened Transitions

  function RealZeros(d: nat): seq<real>
  {
    seq(d, _ => 0.0)
  }

  function ZeroMatrix(d: nat, g: nat): seq<seq<real>>
  {
    seq(d, _ => RealZeros(g))
  }

  /** paramvalues2D[:, i, j]: the gate values at grid point (i, j) */
  function GateVector(grid: array3<real>, i: nat, j: nat): (v: seq<real>)
    reads grid
    requires i < grid.Length1 && j < grid.Length2
  {
    seq(grid.Length0, g requires 0 <= g < grid.Length0 reads grid => grid[g, i, j])
  }

  /** Every state of a basis of d dots fits dot variables shaped for d dots and g gates. */
  lemma BasisFits(c: Coupling, d: nat, m: nat, v: seq<real>)
    requires WellShaped(c, d, |v|)
    ensures |Basis(d, m)| > 0 && StatesFit(c, Basis(d, m), v)
  {
    BasisEnumeratesAllStates(d, m);
    BasisStartsEmpty(d, m);
    forall i | 0 <= i < |Basis(d, m)|
      ensures WellShaped(c, |Basis(d, m)[i]|, |v|)
    {
      assert Basis(d, m)[i] in Basis(d, m);
    }
  }

  class ClassicalDotSystem {
    const name: string
    const ndots: nat
    const ngates: nat
    const maxelectrons: nat

    // set by MakeBasis; empty until then
    var basis: seq<seq<int>>
    var nbasis: seq<int>
    var Nt: nat

    // the characterising dot variables
    var mu0: seq<real>
    var Eadd: seq<real>
    var W: seq<real>
    var alpha: seq<seq<real>>

    // set by SimulateHoneycomb; null until then
    var hcgs: array3?<real>
    var honeycomb: array2?<real>
    var deloc: array2?<real>

    function Params(): Coupling
      reads this`mu0, this`Eadd, this`W, this`alpha
    {
      Coupling(mu0, Eadd, W, alpha)
    }

    ghost predicate ParamsValid()
      reads this`mu0, this`Eadd, this`W, this`alpha
    {
      WellShaped(Params(), ndots, ngates)
    }

    ghost predicate BasisBuilt()
      reads this`basis, this`nbasis, this`Nt
      ensures BasisBuilt() ==> |basis| > 0 && forall i :: 0 <= i < |basis| ==> IsState(basis[i], ndots, maxelectrons)
    {
      BasisEnumeratesAllStates(ndots, maxelectrons);
      BasisStartsEmpty(ndots, maxelectrons);
      && basis == Basis(ndots, maxelectrons)
      && nbasis == Totals(basis)
      && Nt == |basis|
    }

    /**
     * A system of `ndots` dots and `ngates` gates with all dot variables
     * zero and no basis yet.
     */
    constructor (name: string, ndots: nat, ngates: nat, maxelectrons: nat)
      ensures this.name == name && this.ndots == ndots && this.ngates == ngates
      ensures this.maxelectrons == maxelectrons
      ensures basis == [] && nbasis == [] && Nt == 0
      ensures mu0 == RealZeros(ndots) && Eadd == RealZeros(ndots)
      ensures W == RealZeros(PairCount(ndots)) && alpha == ZeroMatrix(ndots, ngates)
      ensures ParamsValid()
      ensures hcgs == null && honeycomb == null && deloc == null
    {
      this.name := name;
      this.ndots := ndots;
      this.ngates := ngates;
      this.maxelectrons := maxelectrons;
      basis, nbasis, Nt := [], [], 0;
      mu0 := RealZeros(ndots);
      Eadd := RealZeros(ndots);
      W := RealZeros(PairCount(ndots));
      alpha := ZeroMatrix(ndots, ngates);
      hcgs, honeycomb, deloc := null, null, null;
    }

    /** The triple dot: three dots, three gates, its basis built and its dot variables set. */
    constructor TripleDot(name: string, maxelectrons: nat)
      ensures this.name == name && ndots == 3 && ngates == 3 && this.maxelectrons == maxelectrons
      ensures BasisBuilt() && Params() == TripleDotCoupling() && ParamsValid()
      ensures hcgs == null && honeycomb == null && deloc == null
    {
      this.name := name;
      ndots, ngates := 3, 3;
      this.maxelectrons := maxelectrons;
      basis, nbasis, Nt := [], [], 0;
      mu0, Eadd := RealZeros(3), RealZeros(3);
      W, alpha := RealZeros(PairCount(3)), ZeroMatrix(3, 3);
      hcgs, honeycomb, deloc := null, null, null;
      new;
      MakeBasis();
      var c := TripleDotCoupling();
      mu0, Eadd, W, alpha := c.mu0, c.eadd, c.w, c.alpha;
    }

    /**
     * makebasis: every occupation of the dots with at most `maxelectrons`
     * electrons each, stably sorted by total occupancy.
     */
    method MakeBasis()
      modifies this`basis, this`nbasis, this`Nt
      ensures BasisBuilt()
      ensures Nt == Pow(maxelectrons + 1, ndots)
      ensures forall s :: s in basis <==> IsState(s, ndots, maxelectrons)
      ensures forall i :: 0 <= i < Nt ==> nbasis[i] == Total(basis[i])
      ensures forall i, j :: 0 <= i < j < Nt ==> nbasis[i] <= nbasis[j] && basis[i] != basis[j]
      ensures forall i, j :: 0 <= i < j < Nt && nbasis[i] == nbasis[j] ==> LexLess(basis[i], basis[j])
      ensures basis[0] == Zeros(ndots)
    {
      var states := Product(ndots, maxelectrons);
      basis := SortByTotal(states);
      nbasis := Totals(basis);
      Nt := |nbasis|;
      BasisEnumeratesAllStates(ndots, maxelectrons);
      BasisOrdered(ndots, maxelectrons);
      BasisStartsEmpty(ndots, maxelectrons);
    }

    /**
     * calculate_energies: the energy of every basis state at the given gate
     * values; None stands for the ValueError the gate-coupling product
     * raises when the gate vector does not have one value per gate.
     */
    method CalculateEnergies(gatevalues: seq<real>) returns (energies: Option<seq<real>>)
      requires BasisBuilt() && ParamsValid()
      ensures energies.None? <==> |gatevalues| != ngates
      ensures energies.Some? ==> StatesFit(Params(), basis, gatevalues)
      ensures energies.Some? ==> |energies.value| == Nt
      ensures energies.Some? ==> forall i :: 0 <= i < Nt ==>
        energies.value[i] == Energy(Params(), basis[i], gatevalues)
    {
      if |gatevalues| != ngates {
        return None;
      }
      BasisFits(Params(), ndots, maxelectrons, gatevalues);
      var e := new real[Nt](_ => 0.0);
      for i := 0 to Nt
        invariant forall k :: 0 <= k < i ==> e[k] == Energy(Params(), basis[k], gatevalues)
      {
        var n := basis[i];
        var energy := 0.0;
        energy := energy - Dot(Potentials(Params(), gatevalues), Reals(n));
        energy := energy + Dot(Reals(PairProducts(n)), W);
        energy := energy + Dot(Ladder(n), Eadd);
        e[i] := energy;
      }
      energies := Some(e[..]);
    }

    /**
     * calculate_ground_state: the basis state of least energy at the given
     * gate values, the first one in basis order when several tie; None when
     * the gate vector has the wrong length.
     */
    method CalculateGroundState(gatevalues: seq<real>) returns (state: Option<seq<int>>)
      requires BasisBuilt() && ParamsValid()
      ensures state.None? <==> |gatevalues| != ngates
      ensures state.Some? ==> Nt > 0 && StatesFit(Params(), basis, gatevalues)
      ensures state.Some? ==> exists k :: IsFirstMinimum(Energies(Params(), basis, gatevalues), k) && state.value == basis[k]
      ensures state.Some? ==> state.value == GroundState(Params(), basis, gatevalues)
    {
      var energies := CalculateEnergies(gatevalues);
      if energies.None? {
        return None;
      }
      assert energies.value == Energies(Params(), basis, gatevalues);
      var k := ArgMin(energies.value);
      state := Some(basis[k]);
    }

    /** The ground state at grid point (i, j). */
    ghost function GroundCell(grid: array3<real>, i: nat, j: nat): (s: seq<int>)
      reads this`basis, this`nbasis, this`Nt, this`mu0, this`Eadd, this`W, this`alpha, grid
      requires BasisBuilt() && ParamsValid()
      requires grid.Length0 == ngates && i < grid.Length1 && j < grid.Length2
      ensures |s| == ndots
    {
      BasisFits(Params(), ndots, maxelectrons, GateVector(grid, i, j));
      GroundState(Params(), basis, GateVector(grid, i, j))
    }

    /**
     * The result of a sweep over `grid`: hcgs holds the ground state of
     * every grid point, honeycomb and deloc its transition and
     * delocalisation maps.
     */
    ghost predicate SweepResult(grid: array3<real>)
      reads this`basis, this`nbasis, this`Nt, this`mu0, this`Eadd, this`W, this`alpha
      reads this`hcgs, this`honeycomb, this`deloc, grid, hcgs, honeycomb, deloc
      requires BasisBuilt() && ParamsValid() && grid.Length0 == ngates
    {
      && hcgs != null && honeycomb != null && deloc != null
      && hcgs.Length0 == grid.Length1 && hcgs.Length1 == grid.Length2 && hcgs.Length2 == ndots
      && (forall i, j :: 0 <= i < hcgs.Length0 && 0 <= j < hcgs.Length1 ==>
            Stored(hcgs, i, j, GroundCell(grid, i, j)))
      && HasDotZero(hcgs)
      && TransitionMaps(hcgs, honeycomb, deloc)
    }

    /**
     * simulate_honeycomb: when the grid's first dimension is the number of
     * gates, the ground state of every grid point is stored in hcgs and the
     * transition maps in honeycomb and deloc; otherwise nothing changes.
     */
    method SimulateHoneycomb(paramvalues2D: array3<real>)
      requires paramvalues2D.Length0 != ngates ||
        (BasisBuilt() && ParamsValid() && (ndots >= 1 || paramvalues2D.Length1 < 3 || paramvalues2D.Length2 < 3))
      modifies this`hcgs, this`honeycomb, this`deloc
      ensures paramvalues2D.Length0 != ngates ==>
        hcgs == old(hcgs) && honeycomb == old(honeycomb) && deloc == old(deloc)
      ensures paramvalues2D.Length0 == ngates ==>
        && SweepResult(paramvalues2D)
        && fresh(hcgs) && fresh(honeycomb) && fresh(deloc)
        && forall i, j :: 0 <= i < deloc.Length0 && 0 <= j < deloc.Length1 ==> deloc[i, j] == 0.0
    {
      var nparams := paramvalues2D.Length0;
      if nparams != ngates {
        return;
      }
      var h := Sweep(paramvalues2D);
      var transitions, delocalizations := FindTransitions(h);
      hcgs, honeycomb, deloc := h, transitions, delocalizations;
      SweepNotDelocalized(paramvalues2D);
    }

    /** Every ground state is a whole number of electrons, so a sweep's delocalisation map is 0. */
    lemma SweepNotDelocalized(grid: array3<real>)
      requires BasisBuilt() && ParamsValid() && grid.Length0 == ngates
      requires SweepResult(grid)
      ensures forall i, j :: 0 <= i < deloc.Length0 && 0 <= j < deloc.Length1 ==> deloc[i, j] == 0.0
    {
      forall i, j | 0 <= i < deloc.Length0 && 0 <= j < deloc.Length1 && Interior(hcgs, i, j)
        ensures deloc[i, j] == 0.0
      {
        assert Stored(hcgs, i, j, GroundCell(grid, i, j));
        DelocalizationOfInteger(GroundCell(grid, i, j)[0]);
      }
    }

    /** Cell (i, j) of h holds the occupations of state s. */
    static ghost predicate Stored(h: array3<real>, i: nat, j: nat, s: seq<int>)
      reads h
      requires i < h.Length0 && j < h.Length1 && |s| == h.Length2
    {
      forall k :: 0 <= k < h.Length2 ==> h[i, j, k] == s[k] as real
    }

    /** The nested i/j loop of simulate_honeycomb, filling a fresh hcgs. */
    method Sweep(grid: array3<real>) returns (h: array3<real>)
      requires BasisBuilt() && ParamsValid() && grid.Length0 == ngates
      ensures fresh(h)
      ensures h.Length0 == grid.Length1 && h.Length1 == grid.Length2 && h.Length2 == ndots
      ensures forall i, j :: 0 <= i < grid.Length1 && 0 <= j < grid.Length2 ==>
        Stored(h, i, j, GroundCell(grid, i, j))
    {
      var npointsx, npointsy := grid.Length1, grid.Length2;
      h := new real[npointsx, npointsy, ndots];
      for i := 0 to npointsx
        invariant forall a, b :: 0 <= a < i && 0 <= b < npointsy ==> Stored(h, a, b, GroundCell(grid, a, b))
      {
        SweepRow(grid, h, i);
      }
    }

    /** The inner j loop of the sweep: row i of h gets the ground states of row i of the grid. */
    method SweepRow(grid: array3<real>, h: array3<real>, i: nat)
      requires BasisBuilt() && ParamsValid() && grid.Length0 == ngates && i < grid.Length1
      requires h.Length0 == grid.Length1 && h.Length1 == grid.Length2 && h.Length2 == ndots && h != grid
      modifies h
      ensures forall b :: 0 <= b < h.Length1 ==> Stored(h, i, b, GroundCell(grid, i, b))
      ensures forall a, b, k :: 0 <= a < h.Length0 && 0 <= b < h.Length1 && 0 <= k < h.Length2 && a != i ==>
        h[a, b, k] == old(h[a, b, k])
    {
      for j := 0 to h.Length1
        invariant forall b :: 0 <= b < j ==> Stored(h, i, b, GroundCell(grid, i, b))
        invariant forall a, b, k :: 0 <= a < h.Length0 && 0 <= b < h.Length1 && 0 <= k < h.Length2 && a != i ==>
          h[a, b, k] == old(h[a, b, k])
      {
        var state := CalculateGroundState(GateVector(grid, i, j));
        SetCell(h, i, j, state.value);
      }
    }

    /** hcgs[i, j] = state: one row assignment of a float array. */
    static method SetCell(h: array3<real>, i: nat, j: nat, state: seq<int>)
      requires i < h.Length0 && j < h.Length1 && |state| == h.Length2
      modifies h
      ensures Stored(h, i, j, state)
      ensures forall a, b, k :: 0 <= a < h.Length0 && 0 <= b < h.Length1 && 0 <= k < h.Length2 && (a != i || b != j) ==>
        h[a, b, k] == old(h[a, b, k])
    {
      for k := 0 to h.Length2
        invariant forall k' :: 0 <= k' < k ==> h[i, j, k'] == state[k'] as real
        invariant forall a, b, k' :: 0 <= a < h.Length0 && 0 <= b < h.Length1 && 0 <= k' < h.Length2 && (a != i || b != j) ==>
          h[a, b, k'] == old(h[a, b, k'])
      {
        h[i, j, k] := state[k] as real;
      }
    }

    /**
     * findtransitions: the transition map (occupancy change towards the
     * four diagonal neighbours) and the delocalisation map of a grid of
     * occupations, both zero on the border.
     */
    method FindTransitions(occs: array3<real>) returns (transitions: array2<real>, delocalizations: array2<real>)
      requires HasDotZero(occs)
      ensures fresh(transitions) && fresh(delocalizations)
      ensures TransitionMaps(occs, transitions, delocalizations)
    {
      var n0, n1 := occs.Length0, occs.Length1;
      transitions := new real[n0, n1]((_, _) => 0.0);
      delocalizations := new real[n0, n1]((_, _) => 0.0);
      var i := 1;
      while i < n0 - 1
        invariant 1 <= i && (n0 >= 2 ==> i <= n0 - 1)
        invariant forall a, b :: 0 <= a < n0 && 0 <= b < n1 ==>
          transitions[a, b] == if Interior(occs, a, b) && a < i then TransitionAt(occs, a, b) else 0.0
        invariant forall a, b :: 0 <= a < n0 && 0 <= b < n1 ==>
          delocalizations[a, b] == if Interior(occs, a, b) && a < i then Delocalization(occs[a, b, 0]) else 0.0
      {
        var j := 1;
        while j < n1 - 1
          invariant 1 <= j && (n1 >= 2 ==> j <= n1 - 1)
          invariant forall a, b :: 0 <= a < n0 && 0 <= b < n1 ==>
            transitions[a, b] == if Interior(occs, a, b) && Visited(a, b, i, j) then TransitionAt(occs, a, b) else 0.0
          invariant forall a, b :: 0 <= a < n0 && 0 <= b < n1 ==>
            delocalizations[a, b] ==
              if Interior(occs, a, b) && Visited(a, b, i, j) then Delocalization(occs[a, b, 0]) else 0.0
        {
          MeasureCell(occs, transitions, delocalizations, i, j);
          j := j + 1;
        }
        i := i + 1;
      }
    }

    /** One pass of the inner loop of findtransitions: the two measures at interior point (i, j). */
    static method MeasureCell(occs: array3<real>, transitions: array2<real>, delocalizations: array2<real>, i: int, j: int)
      requires Interior(occs, i, j) && occs.Length2 >= 1 && transitions != delocalizations
      requires transitions.Length0 == delocalizations.Length0 == occs.Length0
      requires transitions.Length1 == delocalizations.Length1 == occs.Length1
      modifies transitions, delocalizations
      ensures transitions[i, j] == TransitionAt(occs, i, j)
      ensures delocalizations[i, j] == Delocalization(occs[i, j, 0])
      ensures forall a, b :: 0 <= a < transitions.Length0 && 0 <= b < transitions.Length1 && (a != i || b != j) ==>
        transitions[a, b] == old(transitions[a, b]) && delocalizations[a, b] == old(delocalizations[a, b])
    {
      var diff1 := L1(occs, i, j, i - 1, j - 1);
      var diff2 := L1(occs, i, j, i - 1, j + 1);
      var diff3 := L1(occs, i, j, i + 1, j - 1);
      var diff4 := L1(occs, i, j, i + 1, j + 1);
      transitions[i, j] := diff1 + diff2 + diff3 + diff4;
      assert transitions[i, j] == TransitionAt(occs, i, j);
      var x := occs[i, j, 0];
      delocalizations[i, j] := Min(Frac(x), Abs(1.0 - Frac(x))) + Min(Frac(x), Abs(1.0 - Frac(x)))
        + Min(Frac(x), Abs(1.0 - Frac(x)));
      assert delocalizations[i, j] == Delocalization(occs[i, j, 0]);
    }
  }

  /** Row-major progress of a double loop: (a, b) comes before (i, j). */
  predicate Visited(a: int, b: int, i: int, j: int)
  {
    a < i || (a == i && b < j)
  }

  /** The triple dot's ground state at gate values (0, 0, 0) is the empty state. */
  method TripleDotEmptyAtZeroGates(maxelectrons: nat) returns (state: seq<int>)
    ensures state == [0, 0, 0]
  {
    var dots := new ClassicalDotSystem.TripleDot("tripledot", maxelectrons);
    var result := dots.CalculateGroundState([0.0, 0.0, 0.0]);
    state := result.value;
    TripleDotGroundStateAtZeroGates(maxelectrons);
  }

  // ---------------------------------------------------------------------
  // The length of the Coulomb-repulsion vector

  /** The length the constructor gives W as written: ncr(2, ndots). */
  function AsWrittenCouplingCount(ndots: nat): Option<int>
  {
    Ncr(2, ndots)
  }

  /**
   * ncr(2, ndots) fails for three dots (so the triple dot cannot be
   * constructed) and gives two couplings for a single dot, which has no pair.
   */
  lemma AsWrittenCouplingCountIsWrong()
    ensures AsWrittenCouplingCount(3) == None
    ensures AsWrittenCouplingCount(1) == Some(2) && PairCount(1) == 0
  {
  }

  /**
   * The length the model gives W is ndots*(ndots-1)/2, the number of
   * unordered dot pairs and of the pair products the energy pairs with W;
   * from two dots on it is the intended ncr(ndots, 2).
   */
  lemma PairCountIsNcr(n: seq<int>)
    requires |n| >= 2
    ensures Ncr(|n|, 2) == Some(PairCount(|n|))
    ensures |PairProducts(n)| == PairCount(|n|)
  {
    NcrTwo(|n|);
  }

  /**
   * Below two dots ncr(ndots, 2) still fails, while the model gives W no
   * entries: there is no pair to couple.
   */
  lemma PairCountBelowTwoDots(ndots: nat)
    requires ndots < 2
    ensures Ncr(ndots, 2) == None
    ensures PairCount(ndots) == 0 && RealZeros(PairCount(ndots)) == []
  {
  }
}
