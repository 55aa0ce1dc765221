# Classical quantum-dot simulator

This project models the classical dot-system simulator of the quantum
transport toolkit. Three modules carry it:

- `Combinatorics` holds the binomial helper `ncr`.
- `ChargeBasis` builds the basis of charge states. Every occupation of
  `ndots` dots with 0 to `maxelectrons` electrons each is listed in
  `itertools.product` order, then stably sorted by total occupancy.
- `Electrostatics` holds the electrostatic energy of a state at given gate
  values, and the ground state: the first basis state of least energy.

`Transitions` models the transition and delocalisation maps. `DotSystem` models the
`ClassicalDotSystem` object itself, with the `TripleDot` preset as its
named constructor. That object holds the basis and the dot variables
(`mu0`, `Eadd`, `W`, `alpha`). Its `SimulateHoneycomb` method sweeps a
grid of gate values and stores the ground state of every grid point (`hcgs`) and
its transition maps (`honeycomb`, `deloc`).

`Tools` models two helpers of the general tools module:

- `diffImage` takes first differences of an image along x, along y, along
  y negated, or the sum of both.
- `flatten` concatenates a list of lists.

Numbers are exact: occupations in the basis are `int`, energies and gate values are
`real`, and the swept ground states in `hcgs` are stored as `real`, as the
float array of the simulator stores them. The numpy arrays that the simulator fills in place (`hcgs`,
`honeycomb`, `deloc`) are Dafny arrays that the methods allocate and fill.
Array values that are only ever replaced as a whole are sequences.

Four defects in `qtt/simulation/classicaldotsystem.py` are modelled as
evidently intended:

- Line 77 sizes `W` with `ncr(2, ndots)`. The model gives `W` ndots(ndots-1)/2 entries, one per dot pair, which is `ncr(ndots, 2)` for two or more dots; see Findings.
- Line 78 passes the two dimensions of `alpha` to `np.zeros` as two
  arguments, not as a shape tuple. The model builds an `ndots` by `ngates` zero matrix.
- Line 93 never sums the elementwise product of the potentials with the
  state. The model sums it; see Findings.
- Line 102 calls `self.basis(...)`. The model indexes the basis at the argmin.

Lines 159-160 assign the triple-dot values to the fields through `exec`
on generated statement strings. The model assigns the fields directly.

## Model

| member | source | states |
|---|---|---|
| Combinatorics.Ncr | qtt/simulation/classicaldotsystem.py:26-32 | ncr succeeds exactly when 0 <= r <= n. Outside that range min(r, n - r) is negative, and reducing an empty range raises. |
| Combinatorics.NcrIsBinomial | qtt/simulation/classicaldotsystem.py:26-32 | On its whole domain, ncr(n, r) is the binomial coefficient C(n, r), which is defined independently by Pascal's rule. This covers both the floor division and the min(r, n - r) shortcut. |
| Combinatorics.NcrEdgesAndSymmetry | qtt/simulation/classicaldotsystem.py:28-29 | ncr(n, 0) = ncr(n, n) = 1 and ncr(n, r) = ncr(n, n - r). |
| Combinatorics.NcrTwo | qtt/simulation/classicaldotsystem.py:26-32 | ncr(d, 2) = d (d - 1) / 2, the number of dot pairs. |
| Combinatorics.FallingProductIsFactorialTimesBinomial | qtt/simulation/classicaldotsystem.py:30-32 | The numerator n (n-1) ... (n-r+1) is r! times C(n, r), so the floor division is exact. |
| ChargeBasis.Product | qtt/simulation/classicaldotsystem.py:82 | itertools.product(range(maxelectrons + 1), repeat=ndots) as a list: each state extends a state of one dot fewer at the front, in lexicographic order. |
| ChargeBasis.SortByTotal | qtt/simulation/classicaldotsystem.py:83 | A stable insertion sort by total occupancy, standing in for Python's stable `sorted(..., key=sum)`. |
| ChargeBasis.Basis | qtt/simulation/classicaldotsystem.py:82-84 | The basis: the product sorted by total. |
| ChargeBasis.Totals | qtt/simulation/classicaldotsystem.py:85 | nbasis: the total occupancy of every basis state, in basis order. |
| ChargeBasis.ProductLength | qtt/simulation/classicaldotsystem.py:82 | The product has (maxelectrons + 1)^ndots entries. |
| ChargeBasis.ProductStates | qtt/simulation/classicaldotsystem.py:82 | Every entry of the product is a state: ndots occupations, each in 0..maxelectrons. |
| ChargeBasis.ProductComplete | qtt/simulation/classicaldotsystem.py:82 | Every state appears in the product. |
| ChargeBasis.ProductLexIncreasing | qtt/simulation/classicaldotsystem.py:82 | The product is strictly increasing in lexicographic order, the order itertools.product yields. |
| ChargeBasis.SortPermutes | qtt/simulation/classicaldotsystem.py:83 | Sorting by total is a permutation (same multiset). |
| ChargeBasis.SortOrdered | qtt/simulation/classicaldotsystem.py:83 | A lexicographically increasing input comes out ordered by total, with ties kept in input order, as a stable sort keeps them. |
| ChargeBasis.BasisEnumeratesAllStates | qtt/simulation/classicaldotsystem.py:80-86 | The basis holds exactly the states, (maxelectrons + 1)^ndots of them. |
| ChargeBasis.BasisOrdered | qtt/simulation/classicaldotsystem.py:80-86 | Totals never decrease along the basis, states are distinct, and equal totals appear in lexicographic order. |
| ChargeBasis.BasisStartsEmpty | qtt/simulation/classicaldotsystem.py:80-86 | The first basis state is the empty state. |
| ChargeBasis.TotalNonnegative | qtt/simulation/classicaldotsystem.py:85 | A total occupancy is non-negative, and it is 0 only for the empty state. |
| Electrostatics.Potentials | qtt/simulation/classicaldotsystem.py:93 | The dot potentials mu0 + alpha . gates, one per dot. |
| Electrostatics.PairProducts | qtt/simulation/classicaldotsystem.py:94 | The products of the occupations over itertools.combinations(state, 2); there are ndots(ndots-1)/2 of them. |
| Electrostatics.Energy | qtt/simulation/classicaldotsystem.py:93-95 | The energy of one state: minus the potentials dotted with the state, plus the pair products dotted with W, plus the ladder n(n+1)/2 dotted with Eadd. |
| Electrostatics.GroundState | qtt/simulation/classicaldotsystem.py:101-102 | The basis state at the argmin of the energies; it is a member of the basis with one entry per dot. |
| Electrostatics.PairProductsAt | qtt/simulation/classicaldotsystem.py:94 | The products over itertools.combinations(state, 2) are in lexicographic pair order. The pair (i, j) sits at index i*d - i(i+1)/2 + (j-i-1), which is below d(d-1)/2. |
| Electrostatics.ArgMin | qtt/simulation/classicaldotsystem.py:101-102 | np.argmin returns the first index of a least energy. |
| Electrostatics.FirstMinimumUnique | qtt/simulation/classicaldotsystem.py:101-102 | There is only one first minimum, so the ground state is determined. |
| Electrostatics.EnergyOfEmptyState | qtt/simulation/classicaldotsystem.py:88-97 | The empty state has energy 0 at every gate setting. |
| Electrostatics.EnergyNonnegative | qtt/simulation/classicaldotsystem.py:88-97 | No state has negative energy when the potentials are at most 0 and the repulsions and addition energies are non-negative. |
| Electrostatics.PotentialsAtZeroGates | qtt/simulation/classicaldotsystem.py:93 | At zero gate values, the potential mu0 + alpha . gates is mu0. |
| Electrostatics.TripleDotCoupling | qtt/simulation/classicaldotsystem.py:151-157 | The triple-dot values are shaped for three dots and three gates. W has one entry per dot pair. |
| Electrostatics.TripleDotGroundStateAtZeroGates | qtt/simulation/classicaldotsystem.py:144-160 | For the triple dot at zero gate voltage, the ground state is the empty state, for every maxelectrons. |
| Electrostatics.AsWrittenEnergy | qtt/simulation/classicaldotsystem.py:91-96 | As written, the energy of a state is a vector with one entry per dot. |
| Electrostatics.AsWrittenEnergyIsAVector | qtt/simulation/classicaldotsystem.py:93 | For the triple dot, state (0, 0, 1) at zero gates: the as-written energy is the vector (54, 54, 79), while the summed energy is 79. |
| Transitions.TransitionAt | qtt/simulation/classicaldotsystem.py:134-138 | The transition value at an interior point: the summed absolute occupancy differences towards its four diagonal neighbours. |
| Transitions.Delocalization | qtt/simulation/classicaldotsystem.py:139-140 | The delocalisation of an occupancy x: min(x % 1, abs(1 - x % 1)) added three times; it lies in [0, 1.5]. |
| Transitions.L1UptoZeroIff | qtt/simulation/classicaldotsystem.py:134-137 | The summed absolute occupancy change between two cells is non-negative. It is zero exactly when the cells agree on every dot. |
| Transitions.TransitionNonnegative | qtt/simulation/classicaldotsystem.py:138 | Transition values are non-negative. |
| Transitions.TransitionZeroIff | qtt/simulation/classicaldotsystem.py:134-138 | A point shows no transition exactly when its four diagonal neighbours hold the same state. |
| Transitions.UniformGridHasNoTransitions | qtt/simulation/classicaldotsystem.py:129-141 | A grid holding one state everywhere has no transitions. |
| Transitions.DelocalizationIsDistanceToInteger | qtt/simulation/classicaldotsystem.py:139-140 | The delocalisation is three times the distance of dot 0's occupancy to the nearest integer, so it lies in [0, 1.5]. |
| Transitions.DelocalizationOfInteger | qtt/simulation/classicaldotsystem.py:139-140 | Integer occupancies have delocalisation 0. |
| DotSystem.ClassicalDotSystem.constructor | qtt/simulation/classicaldotsystem.py:62-78 | Stores the name and sizes. The basis is empty and the sweep results are unset. mu0 and Eadd are ndots zeros, W is ndots(ndots-1)/2 zeros (one per dot pair) and alpha is an ndots by ngates zero matrix. |
| DotSystem.ClassicalDotSystem.TripleDot | qtt/simulation/classicaldotsystem.py:144-160 | Three dots and three gates. The basis is built and the dot variables hold the triple-dot values. |
| DotSystem.ClassicalDotSystem.MakeBasis | qtt/simulation/classicaldotsystem.py:80-86 | basis is every state, sorted by total with lexicographic ties, starting with the empty state. nbasis holds the totals and Nt the count (maxelectrons + 1)^ndots. |
| DotSystem.ClassicalDotSystem.CalculateEnergies | qtt/simulation/classicaldotsystem.py:88-97 | A gate vector without one value per gate fails (the ValueError of the alpha-gate product). Otherwise one energy per basis state. Each is -(mu0 + alpha . gates) . n + (pair products) . W + (n(n+1)/2) . Eadd. |
| DotSystem.ClassicalDotSystem.CalculateGroundState | qtt/simulation/classicaldotsystem.py:99-102 | Fails exactly when the gate vector has the wrong length. Otherwise returns the basis state at the first index of least energy. |
| DotSystem.ClassicalDotSystem.SimulateHoneycomb | qtt/simulation/classicaldotsystem.py:104-127 | With a wrong number of gate rows, nothing changes. Otherwise hcgs holds every grid point's ground state, honeycomb and deloc hold its transition maps, and deloc is 0 everywhere. |
| DotSystem.ClassicalDotSystem.Sweep | qtt/simulation/classicaldotsystem.py:117-123 | Returns a fresh npointsx by npointsy by ndots array whose cell (i, j) holds the ground state at gate values paramvalues2D[:, i, j]. |
| DotSystem.ClassicalDotSystem.SweepRow | qtt/simulation/classicaldotsystem.py:122-123 | Row i of hcgs gets the ground state of every grid point in row i of the grid. Every other row keeps its entries. |
| DotSystem.ClassicalDotSystem.SweepNotDelocalized | qtt/simulation/classicaldotsystem.py:123-124 | After a sweep, the delocalisation map is 0 everywhere, because every stored occupation is a whole number of electrons. |
| DotSystem.ClassicalDotSystem.SetCell | qtt/simulation/classicaldotsystem.py:123 | Stores a state in one cell and leaves every other cell as it was. |
| DotSystem.ClassicalDotSystem.FindTransitions | qtt/simulation/classicaldotsystem.py:129-141 | The transition and delocalisation maps have the grid's shape, hold the measures at interior points and are 0 on the border. |
| DotSystem.ClassicalDotSystem.MeasureCell | qtt/simulation/classicaldotsystem.py:134-140 | At interior point (i, j), writes the summed occupancy change towards the four diagonal neighbours and the delocalisation of dot 0. No other entry changes. |
| DotSystem.TripleDotEmptyAtZeroGates | qtt/simulation/classicaldotsystem.py:144-160 | A triple dot built and queried at gates (0, 0, 0) answers the empty state. |
| DotSystem.AsWrittenCouplingCount | qtt/simulation/classicaldotsystem.py:77 | The length W gets as written, ncr(2, ndots). |
| DotSystem.AsWrittenCouplingCountIsWrong | qtt/simulation/classicaldotsystem.py:77 | ncr(2, 3) fails, so the triple dot cannot be constructed. ncr(2, 1) = 2, although one dot has no pair. |
| DotSystem.PairCountIsNcr | qtt/simulation/classicaldotsystem.py:77 | From two dots on, ncr(ndots, 2) is the number of dot pairs ndots(ndots-1)/2, which is the length of the pair-product vector paired with W. |
| DotSystem.PairCountBelowTwoDots | qtt/simulation/classicaldotsystem.py:77 | Below two dots ncr(ndots, 2) fails, while the model's W has no entries. |
| Tools.DiffRow | qtt/tools.py:104 | np.diff of one row: entry k is r[k+1] - r[k], one entry fewer than the row. |
| Tools.DiffX | qtt/tools.py:104 | np.diff(im, n=1, axis=1): DiffRow applied to every row. |
| Tools.DiffY | qtt/tools.py:108 | np.diff(im, n=1, axis=0): row i is row i+1 minus row i, one row fewer. |
| Tools.DiffImage | qtt/tools.py:96-119 | The result is again a rectangular image for every dy and size. |
| Tools.DiffImageAlongX | qtt/tools.py:103-106 | dy 0 or "x": entry (i, k) is im[i][k+1] - im[i][k]. The width shrinks by one. With "same" and at least two columns it is kept by repeating the last column. |
| Tools.DiffImageAlongY | qtt/tools.py:107-110 | dy 1 or "y": row i is row i+1 minus row i. The height shrinks by one. With "same" and at least two rows it is kept by repeating the last row. |
| Tools.DiffImageReversedY | qtt/tools.py:111-114 | dy -1 is the negation of dy 1, with or without "same". |
| Tools.DiffImageBoth | qtt/tools.py:115-118 | dy 2: entry (i, k) is the x difference plus the y difference. There is one row and one column fewer, and size is ignored. |
| Tools.DiffImageOtherwise | qtt/tools.py:96-119 | Any other dy returns the image unchanged. |
| Tools.DiffAlongXIntegrates | qtt/tools.py:103-106 | Summing the x differences of a row from its first entry recovers each entry. |
| Tools.DiffAlongYIntegrates | qtt/tools.py:107-110 | Summing the y differences of a column from its first entry recovers each entry. |
| Tools.Flatten | qtt/tools.py:701-706 | `list(chain(*lst))`: the inner lists concatenated in order. |
| Tools.FlattenAppend | qtt/tools.py:701-706 | flatten distributes over concatenation of the outer list. |
| Tools.FlattenContents | qtt/tools.py:701-706 | The result holds exactly the elements of the inner lists. Its length is the sum of their lengths. |
| Tools.FlattenExample | qtt/tools.py:701-705 | [[1, 2], [3, 4], [10]] flattens to [1, 2, 3, 4, 10]. |

## Left out

- Progress printing (`tprint`, `static_var`), the `verbose` output and the timing in `simulate_honeycomb` are left out. They are console output and clock reads.
- The `usediag` and `multiprocess` flags of `simulate_honeycomb` are left out, because its body never reads them.
- The message printed for a wrong number of gate rows is not modelled; only the early return is.
- IEEE floating point is not modelled. Energies, gate values and occupancies are exact reals, so rounding and ties caused by rounding are out of scope.
- `ndots`, `ngates` and `maxelectrons` are natural numbers, so negative sizes are not modelled. Numpy would reject some of them and accept others.
- The `exec` field assignment of the triple-dot constructor is modelled as direct assignment.
- The `**kwargs` of both constructors are not modelled, except that `maxelectrons` is passed through to `TripleDot`.
- The `varnames` attribute is not modelled. It is only read by the `exec` loop.
- DotSystem.ClassicalDotSystem.SimulateHoneycomb: a grid with the wrong number of gate rows is accepted for any system and returns early. When the grid matches the number of gates, it requires a built basis and shaped dot variables, and at least one dot when the grid has an interior point. With zero dots `findtransitions` then indexes dot 0 of an empty state and raises; that error path is not modelled. A matching grid with no points on a system whose basis was never built returns normally in the source, because `calculate_ground_state` is never called; the model excludes that call too.
- DotSystem.ClassicalDotSystem.FindTransitions: it requires that every cell holds an occupation for dot 0 when the grid has an interior point. With zero dots, the index of dot 0 in `findtransitions` raises an IndexError; that error path is not modelled.
- DotSystem.ClassicalDotSystem.CalculateEnergies: it requires that the basis has been built and that mu0, Eadd, W and alpha have the shapes the constructor gives them. As written, calling it before `makebasis` fails on `None`, and misshaped dot variables are not modelled: some raise in numpy (a `W` or `Eadd` of the wrong length, in the `np.dot` calls at lines 94-95) and others broadcast silently (a one-entry `mu0`, a one-row `alpha`, at line 93). A gate vector of the wrong length is modelled: the result is None, standing for the ValueError of `np.dot`.
- DotSystem.ClassicalDotSystem.CalculateGroundState: it requires that the basis has been built and the dot variables are shaped, as `calculate_energies` does; calling it before `makebasis` fails on `None` and that is not modelled. A gate vector of the wrong length is modelled as the None result.
- DotSystem.ClassicalDotSystem.constructor: `W` gets ndots(ndots-1)/2 zeros. That is the intended `ncr(ndots, 2)` from two dots on, but below two dots `ncr(ndots, 2)` itself still fails; the model deliberately gives an empty `W` there instead of a failing construction.
- Default arguments are not modelled: `name='dotsystem'`, `ndots=3`, `ngates=3` and `maxelectrons=3` of the base constructor, `name='tripledot'` of `TripleDot`, and its `maxelectrons`, which defaults to 3 through `**kwargs`. Every argument is passed explicitly in the model.
- Tools.DiffImage: `dy` is an integer or a string. A boolean or float `dy` that compares equal to 0, 1, -1 or 2 is not modelled.
- Tools.DiffImage: an image with no rows has no width in this model. Numpy keeps a column count for shape (0, w), so a zero-row result is `[]` here.
- Tools.DiffImage: entries are reals. Integer images, and the dtypes numpy would pick for them, are not modelled.
- The remaining functions of the tools module are not part of this model: plotting, GUI, Office export, file I/O and image filters. `setup.py` is not part of it either.

## Findings

| source | as written | input that shows it | evidently intended | confidence | as-written member | corrected member |
|---|---|---|---|---|---|---|
| qtt/simulation/classicaldotsystem.py:77 | `W` gets `ncr(2, ndots)` entries | ndots = 3: ncr(2, 3) reduces over an empty range and raises, so `TripleDot()` cannot be built. ndots = 1 gives 2 couplings for a single dot. | `ncr(ndots, 2)`: one repulsion per dot pair, which is ndots(ndots-1)/2 for two or more dots | not executed | DotSystem.AsWrittenCouplingCountIsWrong | DotSystem.PairCountIsNcr |
| qtt/simulation/classicaldotsystem.py:93 | The potential term `-(mu0 + alpha . g) * n` is an elementwise product and is never summed, so the energy is a vector | Triple dot, state (0, 0, 1), gates (0, 0, 0): the energy is (54, 54, 79) instead of 79 | The dot product `-(mu0 + alpha . g) . n`, giving one scalar energy per state | not executed | Electrostatics.AsWrittenEnergyIsAVector | DotSystem.ClassicalDotSystem.CalculateEnergies |
