# iS3D2 core, modelled in Dafny

iS3D2 samples hadrons from a hydrodynamic freeze-out surface. It computes
Cooper-Frye spectra, draws particles with delta-f corrections, and analyses
the resulting particle lists. This project models the deterministic
decisions inside that code and proves what they promise:

- **HistogramEvent** (`histogram_event.dfy`): the event-histogram script.
  - It sorts rows of a particle list into pion, kaon and proton buckets of
    index-aligned pT / y / phi lists.
  - It keeps each bucket's midrapidity pT values (|y| < 0.5).
  - It fixes the 16 literal pT bin edges.
  - The double behaviour of the numpy float64 column values is kept:
    division by zero gives an infinity or NaN, `math.log` raises outside
    its domain, and comparisons with NaN are false. `sqrt`, `ln` and `atan` are parameters, constrained only by
    `SqrtLaw` and `LnLaw`.
- **EmissionFunction** (`emission_function.dfy`): the emission-function
  array's setup.
  - The feqmod breakdown tests (`is_linear_pion0_density_negative`,
    `does_feqmod_breakdown`, `compute_detA`).
  - The dimension / df_mode validation of the constructor.
  - The chosen-particle 0/1 table and sampling table, and the optional
    bubble sort of the sampling table by mass.
  - The flattened `iS3D` spectra index.
  - The bin midpoints of the sampled histograms.
- **ParticleSampler** (`particle_sampler.dfy`): the sampler's per-cell and
  per-momentum decisions.
  - The df_mode dispatch of the mean and maximum particle numbers, with
    the fall-back on feqmod breakdown.
  - The PTB bulk-pressure regulation.
  - The viscous weight w_visc and the flux weight w_flux, and the
    acceptance test.
  - The uniform rapidity map.
- **FamodSampler** (`famod_sampler.dfy`): the PTM famod sampler (df_mode 5).
  - The longitudinal / transverse pressure split.
  - The anisotropic-variable reconstruction state machine (previous-success
    flag, one retry from equilibrium, `reconstruction_fail` and
    `plpt_negative` counters) over a run of cells.
  - The transformation matrices A, C and B = C . A, with B forced to the
    identity on breakdown.
- Supporting modules: `Wrappers` (Option / Result), `Floats` (doubles with
  infinities and NaN), `Matrices` (3x3 determinant and product) and
  `RealFacts` (small real-arithmetic facts).

Calls to code outside the core become parameters:
- random numbers;
- the Gauss-Laguerre thermal integrals;
- the delta-f coefficients;
- the anisotropic root finder `find_anisotropic_variables`, passed as a
  function from an initial guess to a solution or none;
- `compute_famod_coefficient`.

A program exit (`exit(-1)`) is a `Failure` value.

The analysis script skips data twice. Its bucketing loop starts at table
row 1, and its midrapidity loops (`range(1, len(pT))` at
scripts/histogram_event.py:60) start at bucket index 1. So a lone pion at
row 1 with px = 1, py = pz = 0 and E = 1 is entry 0 of the pion bucket, is
never read by the midrapidity loop, and the midrapidity pion list stays
empty. `HistogramEvent.SinglePionScenario` proves this.

## Model

| member | source | states |
|---|---|---|
| HistogramEvent.SpeciesOf | scripts/histogram_event.py:40-51 | an id gets a bucket exactly when it is 211, 321 or 2212, and the bucket's species carries that id |
| HistogramEvent.TransverseMomentumIsRoot | scripts/histogram_event.py:41 | with a lawful sqrt, pT is non-negative and squares to px^2 + py^2 |
| HistogramEvent.RapidityDomain | scripts/histogram_event.py:42 | the rapidity raises exactly when (E + pz) / (E - pz) is not positive, is +inf at E == pz > 0, NaN at E == pz == 0, and finite inside the light cone |
| HistogramEvent.AzimuthalAngleCases | scripts/histogram_event.py:43 | phi is atan(py / px) for px != 0, plus or minus pi/2 on the py axis, and NaN exactly at px == py == 0 |
| HistogramEvent.RapidityIsOdd | scripts/histogram_event.py:42 | inside the light cone y(E, -pz) == -y(E, pz) |
| HistogramEvent.SpeciesRows | scripts/histogram_event.py:39-51 | the rows of one species are strictly increasing, lie in 1 .. n-1, carry the species' id, and include every such row |
| HistogramEvent.AppendDescribes | scripts/histogram_event.py:41-43 | appending a row's pT, y and phi together keeps the three lists index-aligned and in table order |
| HistogramEvent.BucketsUpTo | scripts/histogram_event.py:39-51 | the loop completes exactly when every tracked row derives; each bucket then holds, in order, the kinematics of exactly its species' rows |
| HistogramEvent.SortIntoBuckets | scripts/histogram_event.py:39-51 | the whole bucketing loop: succeeds exactly when every tracked row from row 1 on has a defined rapidity, and every bucket describes its species' rows |
| HistogramEvent.RowsAreDisjointAndSkipRowZero | scripts/histogram_event.py:39-51 | a bucketed row is never row 0, carries its species' id, and is in no other bucket |
| HistogramEvent.SpeciesRowsExact | scripts/histogram_event.py:39-51 | row i is bucketed under a species exactly when 1 <= i and its id is the species' code |
| HistogramEvent.KeptIndices | scripts/histogram_event.py:60-62 | the kept bucket indices are strictly increasing, lie in 1 .. n-1, pass the cut, and include every index that passes it |
| HistogramEvent.MidrapidityUpTo | scripts/histogram_event.py:60-62 | after bucket indices 1 .. n-1 the list holds the pT values at exactly the kept indices, in order |
| HistogramEvent.Midrapidity | scripts/histogram_event.py:59-70 | a midrapidity loop picks the pT values at the indices whose rapidity passes the cut |
| HistogramEvent.MidrapidityIsSubsequence | scripts/histogram_event.py:60-62 | the midrapidity list is an order-preserving subsequence of the bucket's pT list without its entry 0 |
| HistogramEvent.MidrapidityExact | scripts/histogram_event.py:59-62 | bucket index i is kept exactly when 1 <= i and abs(y[i]) < ymax |
| HistogramEvent.BucketPtIsTransverseMomentum | scripts/histogram_event.py:41 | every pT in a bucket is sqrt(px^2 + py^2) of the row it came from |
| HistogramEvent.BucketPtIsRoot | scripts/histogram_event.py:41 | with a lawful sqrt, every bucket pT is non-negative and squares to px^2 + py^2 of its row |
| HistogramEvent.SinglePionScenario | scripts/histogram_event.py:39-62 | a lone pion at row 1 with pT = 1 and y = 0 is bucketed, yet the midrapidity list is empty |
| HistogramEvent.PtBinEdgesAscending | scripts/histogram_event.py:79-80 | the pT bin edges are 16 values strictly ascending from 0 to 3.7 |
| EmissionFunction.LinearPion0DensityThreshold | src/cpp/emissionfunction.cpp:74-85 | the linearised pion0 density is negative exactly when bulkPi (neq + J20 F / T^2) lies below (betabulk > 0) or above (betabulk < 0) -neq betabulk |
| EmissionFunction.NoBulkNoNegativeDensity | src/cpp/emissionfunction.cpp:74-85 | without bulk pressure the density is negative exactly when neq is |
| EmissionFunction.FeqmodBreaksDown | src/cpp/emissionfunction.cpp:87-131 | no breakdown outside modes 3 and 4; mode 4 breaks down iff detA <= detA_min or z < 0; mode 3 iff detA <= detA_min or the linear pion0 density is negative, at the averaged T, F, betabulk in fast mode |
| EmissionFunction.FastBreakdownIgnoresLocalCoefficients | src/cpp/emissionfunction.cpp:89-97 | in fast mode the verdict does not depend on the cell's own T, F and betabulk |
| EmissionFunction.ComputeDetA | src/cpp/emissionfunction.cpp:55-70 | the shortcut formula is the determinant of the symmetric matrix A = (1 + bulk_mod) I + shear_mod pi |
| EmissionFunction.DetAWithoutShear | src/cpp/emissionfunction.cpp:55-70 | without shear stress detA == (1 + bulk_mod)^3 |
| EmissionFunction.DfCorrectionOf | src/cpp/emissionfunction.cpp:183-209 | a df_mode names a correction exactly when it is 1 .. 5, and the correction's number is that mode |
| EmissionFunction.DfModeRoundTrip | src/cpp/emissionfunction.cpp:183-209 | every correction is selected by its own df_mode number |
| EmissionFunction.Configure | src/cpp/emissionfunction.cpp:166-209 | succeeds iff dimension is 2 or 3 and df_mode is 1 .. 5, a bad dimension is reported first, dimension 2 sets the y table length to 1 and dimension 3 the eta table length |
| EmissionFunction.FirstIndexFrom | src/cpp/emissionfunction.cpp:368-375 | the search with break returns the first matching index at or after `from`, and none exactly when no later entry matches |
| EmissionFunction.FirstIndex | src/cpp/emissionfunction.cpp:368-375 | the first PDG index with a given MC id, and none exactly when the id is absent |
| EmissionFunction.ChosenParticlesFlags | src/cpp/emissionfunction.cpp:361-376 | flag n is 1 exactly when n is the first PDG index carrying some chosen MC id, and 0 otherwise |
| EmissionFunction.CountPresent | src/cpp/emissionfunction.cpp:378-394 | the number of chosen ids found is at most the number chosen, and equals it exactly when every chosen id is present |
| EmissionFunction.FirstIndices | src/cpp/emissionfunction.cpp:378-394 | the chosen-order table has one entry per chosen id present in the PDG list |
| EmissionFunction.FirstIndicesAreFirsts | src/cpp/emissionfunction.cpp:378-394 | every entry of the chosen-order table is the first PDG index of a chosen id, and every such first index appears in it |
| EmissionFunction.ChosenParticlesSamplingTable | src/cpp/emissionfunction.cpp:378-394 | the loop builds exactly the chosen-order table of first indices: one entry per chosen id present, each a first PDG index of a chosen id; when all are present, entry m is the first PDG index of the m-th chosen id |
| EmissionFunction.Swap | src/cpp/emissionfunction.cpp:403-409 | exchanges entries n and n + 1, leaves the rest, and keeps the multiset of entries |
| EmissionFunction.CompareSwap | src/cpp/emissionfunction.cpp:403-409 | a compare-and-swap keeps the entries as a multiset and touches only positions n and n + 1 |
| EmissionFunction.CompareSwapStep | src/cpp/emissionfunction.cpp:401-410 | a compare-and-swap carries the heaviest entry of the prefix one step along and keeps later entries no lighter |
| EmissionFunction.BubblePass | src/cpp/emissionfunction.cpp:401-410 | one pass is a permutation that moves a heaviest prefix entry to position `last` and leaves later entries untouched |
| EmissionFunction.GroupParticlesByMass | src/cpp/emissionfunction.cpp:396-412 | with group_particles == 1 the table becomes a permutation of itself with non-decreasing masses; otherwise it is unchanged |
| EmissionFunction.NewEmissionFunctionArray | src/cpp/emissionfunction.cpp:136-412 | the constructor fails exactly on a bad dimension or df_mode; otherwise the spectra shape and the 0/1 table are as above, and the sampling table is the chosen-order table of first indices (entry m belongs to the m-th chosen id when all are present), or with grouping a permutation of it with non-decreasing masses |
| EmissionFunction.SpectraIndexInBounds | src/cpp/emissionfunction.cpp:322 | every index of the box addresses a slot of the npart * LpT * Lphi * Ly array |
| EmissionFunction.SpectraIndexRoundTrip | src/cpp/emissionfunction.cpp:453 | division and remainder recover (ipart, ipT, iphip, iy) from the flattened index |
| EmissionFunction.SpectraIndexInjective | src/cpp/emissionfunction.cpp:453 | two different points of the box never share a flattened index |
| EmissionFunction.BinMidpoints | src/cpp/emissionfunction.cpp:779 | there is one midpoint per bin |
| EmissionFunction.MidpointInside | src/cpp/emissionfunction.cpp:779 | with a positive width, midpoint i lies strictly inside (lo, lo + bins * width) |
| EmissionFunction.MidpointsOrdered | src/cpp/emissionfunction.cpp:752 | with a positive width, a later midpoint is larger |
| EmissionFunction.MidpointsAscend | src/cpp/emissionfunction.cpp:805 | with a positive width, the midpoints strictly ascend |
| EmissionFunction.MidpointsInsideRange | src/cpp/emissionfunction.cpp:949-955 | with width (hi - lo) / bins every midpoint lies strictly inside (lo, hi) |
| EmissionFunction.RapidityMidpointsInsideCut | src/cpp/emissionfunction.cpp:713 | for Y_BINS > 0 and Y_CUT > 0 every rapidity midpoint lies strictly inside (-Y_CUT, Y_CUT) |
| ParticleSampler.UniformRapidity | src/cpp/ParticleSampler.cpp:32-38 | for r in [0, 1) the rapidity lies in [-y_max, y_max) |
| ParticleSampler.UniformRapidityInverse | src/cpp/ParticleSampler.cpp:32-38 | the random number is recovered from the rapidity it produced |
| ParticleSampler.UniformRapidityIncreasing | src/cpp/ParticleSampler.cpp:32-38 | a larger random number gives a larger rapidity |
| ParticleSampler.EstimateMeanParticleNumber | src/cpp/ParticleSampler.cpp:75-119 | defined exactly for modes 1 .. 5, any other mode aborts; modes 1, 2, 3 and 5 give the linearised number; mode 4 gives ds_time * z * neq, or ds_time * (1 + delta z) * neq on breakdown |
| ParticleSampler.EstimateLinearModesAgree | src/cpp/ParticleSampler.cpp:79-109 | modes 1, 2, 3 and 5 give the same estimate, independent of z, delta z and the breakdown flag |
| ParticleSampler.EstimateAtEquilibrium | src/cpp/ParticleSampler.cpp:75-119 | without bulk pressure, diffusion flux or feqmod rescaling every mode estimates ds_time * neq |
| ParticleSampler.FastMaxParticleNumber | src/cpp/ParticleSampler.cpp:122-161 | defined exactly for modes 1 .. 4; 2 neq for modes 1 and 2 and on feqmod breakdown; otherwise neq + bulkPi * bulk density for mode 3 and z * neq for mode 4 |
| ParticleSampler.FastMaxFallsBackToLinear | src/cpp/ParticleSampler.cpp:136-147 | on breakdown modes 3 and 4 give exactly the Chapman-Enskog ceiling |
| ParticleSampler.EstimateIsVolumeTimesFastMax | src/cpp/ParticleSampler.cpp:75-161 | without breakdown or diffusion flux, the feqmod estimate is ds_time times the feqmod ceiling |
| ParticleSampler.MaxParticleNumber | src/cpp/ParticleSampler.cpp:164-239 | defined exactly for modes 1 .. 4, any other mode aborts |
| ParticleSampler.MaxAgreesWithFastMax | src/cpp/ParticleSampler.cpp:164-239 | the exact maximum is the fast maximum fed the same equilibrium density (at zero chemical potential for mode 4) and, for mode 3 without breakdown, the bulk density; T and betabulk are constrained only in that case |
| ParticleSampler.RegulateBulkPi | src/cpp/ParticleSampler.cpp:548-559 | modes other than 4 keep bulkPi; for mode 4 with P > 0 and a positive ratio cap the result satisfies -P < bulkPi and bulkPi / P < cap; values already in range are kept; P == 0 gives 0 |
| ParticleSampler.RegulateBulkPiIdempotent | src/cpp/ParticleSampler.cpp:776-777 | regulating a regulated bulkPi changes nothing |
| ParticleSampler.RegulateCorrection | src/cpp/ParticleSampler.cpp:969 | the clamp lies in [-1, 1], keeps values in range and sends values outside to the nearer end |
| ParticleSampler.CorrectionWeight | src/cpp/ParticleSampler.cpp:969-971 | the weight (1 + df_reg) / 2 lies in [0, 1] |
| ParticleSampler.CorrectionWeightExtremes | src/cpp/ParticleSampler.cpp:969-971 | the weight is 1 exactly when the correction is at least 1, 0 exactly when at most -1, and 1/2 without correction |
| ParticleSampler.ViscousWeight | src/cpp/ParticleSampler.cpp:944-1056 | defined exactly for modes 1 .. 4, always in [0, 1], and 1 for modes 3 and 4 without breakdown |
| ParticleSampler.ViscousWeightPtmFallsBack | src/cpp/ParticleSampler.cpp:1003-1005 | a PTM feqmod breakdown weighs exactly like Chapman-Enskog |
| ParticleSampler.FluxWeight | src/cpp/ParticleSampler.cpp:972 | for E ds_max > 0 the weight is finite, non-negative, zero exactly for an inward flux, and at most 1 when the flux is at most E ds_max; for E ds_max == 0 it is NaN exactly for an inward flux |
| ParticleSampler.InwardMomentumRejected | src/cpp/ParticleSampler.cpp:1061 | a momentum with p . dsigma <= 0 is never kept |
| ParticleSampler.FullWeightAccepted | src/cpp/ParticleSampler.cpp:1061 | with w_visc = 1 and a flux of at least E ds_max every u in [0, 1) keeps the momentum |
| ParticleSampler.FluxWeightAtLeastOne | src/cpp/ParticleSampler.cpp:1549-1551 | a flux of at least E ds_max gives a flux weight of at least 1, so the famod sampler keeps it |
| FamodSampler.PressuresAverageToIsotropic | src/cpp/ParticleSampler.cpp:1302-1303 | (pl + 2 pt) / 3 is the isotropic pressure P + bulkPi and pl - pt is 3 pi_zz / 2 |
| FamodSampler.InitialState | src/cpp/ParticleSampler.cpp:1167-1172 | the run starts with no previous success and both counters zero |
| FamodSampler.ReconstructCell | src/cpp/ParticleSampler.cpp:1333-1399 | a negative pl or pt skips the cell and bumps only plpt_negative; otherwise the first guess is the previous solution or equilibrium, the equilibrium retry happens exactly after a previous success whose guess failed, breakdown means every attempt failed and bumps reconstruction_fail and clears the flag, and a success is the root finder's answer and becomes the next guess |
| FamodSampler.ReconstructCellCounts | src/cpp/ParticleSampler.cpp:1333-1399 | a cell adds one to the counters exactly when it breaks down |
| FamodSampler.ReconstructCells | src/cpp/ParticleSampler.cpp:1178-1399 | the cell loop reconstructs exactly the cells with u . dsigma > 0, the first from the state it is given; a run with no such cell leaves the state unchanged |
| FamodSampler.OutwardCells | src/cpp/ParticleSampler.cpp:1200-1203 | the kept cells are exactly the cells that pass the u . dsigma test: every kept cell passes, every passing cell is kept, and a run where all pass is kept whole |
| FamodSampler.SkippedCellsChangeNothing | src/cpp/ParticleSampler.cpp:1178-1399 | a run over all cells ends in the same state and reconstructs the same outcomes as the run over the cells with u . dsigma > 0 alone |
| FamodSampler.ReconstructCellsCounts | src/cpp/ParticleSampler.cpp:1167-1399 | over any run the counters grow by exactly the number of reconstructed cells that broke down; cells skipped for u . dsigma <= 0 count nowhere |
| FamodSampler.FromInitialStateCounts | src/cpp/ParticleSampler.cpp:1167-1399 | from the initial state, reconstruction_fail + plpt_negative equals the number of breakdowns of the run |
| FamodSampler.ResidualShearOf | src/cpp/ParticleSampler.cpp:1305-1320 | piperp is traceless, all components vanish without shear corrections, and with them the off-diagonal shear is copied and piTxx - piTyy = pixx - piyy |
| FamodSampler.FamodDeformation | src/cpp/ParticleSampler.cpp:1437-1447 | the entry-by-entry B is symmetric |
| FamodSampler.FamodDeformationIsProduct | src/cpp/ParticleSampler.cpp:1413-1447 | the entry-by-entry B equals the product C . A of the residual and leading deformations |
| FamodSampler.FamodColumns | src/cpp/ParticleSampler.cpp:1421-1447 | every entry of B is the matching entry of C scaled by aT (first two columns) or aL (third column) |
| FamodSampler.FamodTransform | src/cpp/ParticleSampler.cpp:1413-1461 | breakdown iff reconstruction broke down or detB <= detB_min; B is then the identity, otherwise the famod deformation; B is symmetric; C is the residual deformation |
| FamodSampler.FamodDeformationDet | src/cpp/ParticleSampler.cpp:1421-1449 | det B == det C * aT * aT * aL |
| FamodSampler.FamodDetA | src/cpp/ParticleSampler.cpp:1413-1417 | detA is the determinant of A = diag(aT, aT, aL) |
| FamodSampler.FamodDetB | src/cpp/ParticleSampler.cpp:1437-1449 | detB = detC . detA is the determinant of B, and so of the B used whenever famod does not break down |
| FamodSampler.ResidualDeformationWithoutShear | src/cpp/ParticleSampler.cpp:1421-1433 | without residual shear C is the identity |
| FamodSampler.FamodDetCWithoutShear | src/cpp/ParticleSampler.cpp:1421-1433 | without residual shear detC == 1 |
| FamodSampler.FamodCell | src/cpp/ParticleSampler.cpp:1302-1461 | the reconstruction runs on the cell's pl and pt; B is reset to the identity exactly when pl < 0, pt < 0, every reconstruction attempt failed, or detB <= detB_min; otherwise B is the famod deformation of the reconstructed variables with their coefficients; a failed reconstruction leaves the equilibrium variables |
| FamodSampler.FamodCellSamplesProduct | src/cpp/ParticleSampler.cpp:1413-1461 | whenever the famod sampler keeps its deformation, reconstruction succeeded, B is C . A of the reconstructed variables, and det B exceeds detB_min |

## Left out

- Plotting, CSV loading and the dead read of the pT node file in the analysis script, all file writers, `printf` diagnostics, timing, memory management and OpenMP sections: I/O only.
- Random sampling: the random numbers are parameters (`UniformRapidity`'s r, the `u` of `Accepts`). The momentum samplers `sample_momentum` and `rescale_momentum`, and the Poisson and discrete draws, are not modelled: they are rejection loops over library generators.
- `rescale_momentum_famod` and the famod momentum loop after B is set are not modelled: they are floating-point kinematics. B is modelled as a symmetric matrix. The sampler reads only its upper triangle and does not reset Byx, Bzx or Bzy on breakdown, which `SymmetricFromUpper` makes irrelevant.
- GaussThermal, `evaluate_df_coefficients`, `find_anisotropic_variables`, `compute_famod_coefficient` and the Milne-basis / shear / diffusion boosts are outside the core. Their results are inputs: the `Pion0Densities`, `ThermalIntegrals` and `BulkCoefficients` records, the `solve` function and the `coefficients` function.
- Floating-point rounding. All quantities are exact reals, and no accuracy claim is made. Only the non-finite results the programs' behaviour depends on are modelled (division by zero, `math.log` domain errors, NaN comparisons).
- Signed zero: `Floats.Quotient` treats every zero divisor as +0.0. A `px` of -0.0 read from the CSV would flip the sign of the infinite `py / px`, and so of `atan(py / px)` on the py axis; that case is not modelled.
- The flux u . dsigma of a famod cell is an input (`Cell.uDotSigma`), because u^tau comes from a square root of the flow velocity.
- sqrt, ln and atan are uninterpreted parameters. The proofs use only the non-negative-root law of sqrt and ln(1/q) == -ln(q).
- EmissionFunction.LinearPion0Density, FeqmodBreaksDown, ParticleSampler.BulkDensity, MaxParticleNumber and FamodSampler.FamodTransform require their divisors (T, betabulk, aT + aL) to be non-zero. The C++ would produce an infinity or NaN there. FamodCell states the aT + aL requirement through `ScalesNonDegenerate`, which says that the root finder never returns aT + aL == 0; equilibrium always has aT + aL == 2.
- ParticleSampler.MaxParticleNumber: the contract states the dispatch and abort cases; its values are stated through MaxAgreesWithFastMax. The "particle number is negative" diagnostic only prints and is not modelled.
- ParticleSampler.ViscousWeight: only the weight's range and the modes without correction are stated. The delta-f corrections themselves (`df_shear`, `df_bulk`, `df_diff`) are inputs, because they come from the sampled momentum.
- EmissionFunction.SpectraIndexInBounds: table lengths and the spectra size are unbounded naturals. The C++ sizes the spectra array with an `int` product of the four lengths (src/cpp/emissionfunction.cpp:322) but indexes it with a `long` (:453), so a product above 2^31 - 1 overflows the allocation size; the in-bounds property is stated for the exact product only.
- EmissionFunction.GroupParticlesByMass: the order of equal-mass entries after sorting is not stated. The strict `>` comparison keeps them in their original order, but only the permutation and the mass order are proved.
- EmissionFunction.ChosenParticlesSamplingTable: when a chosen id is missing from the PDG list, the C++ leaves the tail of the table uninitialised. The model's table is shorter and holds only the entries written, so the uninitialised entries (and their later use) are not modelled.
- FamodSampler.FamodCell: the cap of `Nparticles` at 320 and the effective chemical potential `upsilonB` only feed the root finder and the coefficients, which are inputs, so they are not modelled. The previous-solution variables are uninitialised before the first success; `InitialState` takes an arbitrary placeholder, never read while the success flag is false.
- FamodSampler.FamodTransform: the "B is the identity exactly when famod breaks down" property is stated one way (breakdown forces the identity). Without breakdown B is the famod deformation, which can coincide with the identity.
- The famod breakdown test uses detB_min = DETA_MIN, a run parameter, so `detBMin` is a parameter.
- src/cpp/iS3D.cpp is not part of this model: it only reads files and drives the classes.
