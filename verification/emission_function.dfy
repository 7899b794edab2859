/**
  Setup and bookkeeping of the emission-function array: the feqmod
  breakdown tests, validation of the run parameters, the chosen-particle
  tables (with the optional grouping of particles by mass), the flattened
  index of the smooth spectra and the midpoints of the sampled histograms.

  The Gauss-Laguerre thermal integrals the breakdown test needs are taken
  as functions of the temperature (`Pion0Densities`).
 */
module EmissionFunction {
  import opened Wrappers
  import opened Matrices

  // ---------------------------------------------------------------------
  // Breakdown of the modified equilibrium distribution
  // ---------------------------------------------------------------------

  /** The linearised pion0 density neq + bulkPi (neq + J20 F / T^2) / betabulk. */
  function LinearPion0Density(t: real, neq: real, j20: real, bulkPi: real, f: real, betabulk: real): real
    requires t != 0.0 && betabulk != 0.0
  {
    neq + bulkPi * (neq + j20 * f / t / t) / betabulk
  }

  /** Whether the linearised pion0 density is negative. */
  predicate LinearPion0DensityNegative(t: real, neq: real, j20: real, bulkPi: real, f: real, betabulk: real)
    requires t != 0.0 && betabulk != 0.0
  {
    LinearPion0Density(t, neq, j20, bulkPi, f, betabulk) < 0.0
  }

  /**
    The test as a threshold on the bulk pressure, with betabulk cleared:
    with c = neq + J20 F / T^2 the density is negative exactly when
    bulkPi c < -neq betabulk for betabulk > 0, and bulkPi c > -neq betabulk
    for betabulk < 0.
   */
  lemma LinearPion0DensityThreshold(t: real, neq: real, j20: real, bulkPi: real, f: real, betabulk: real)
    requires t != 0.0 && betabulk != 0.0
    ensures LinearPion0DensityNegative(t, neq, j20, bulkPi, f, betabulk)
        <==> if 0.0 < betabulk then bulkPi * (neq + j20 * f / t / t) < -neq * betabulk
             else bulkPi * (neq + j20 * f / t / t) > -neq * betabulk
  {
    var c := neq + j20 * f / t / t;
    var n := LinearPion0Density(t, neq, j20, bulkPi, f, betabulk);
    assert n * betabulk == neq * betabulk + bulkPi * c;
    if 0.0 < betabulk {
      if n < 0.0 {
        assert n * betabulk < 0.0 * betabulk;
      } else {
        assert n * betabulk >= 0.0 * betabulk;
      }
    } else {
      if n < 0.0 {
        assert n * betabulk > 0.0 * betabulk;
      } else {
        assert n * betabulk <= 0.0 * betabulk;
      }
    }
  }

  /** A product of positive numbers is positive. */
  lemma PositiveProduct(x: real, y: real)
    requires 0.0 < x && 0.0 < y
    ensures 0.0 < x * y
  {
    assert 0.0 * y < x * y;
  }

  /** Without bulk pressure the linearised density is the equilibrium density. */
  lemma NoBulkNoNegativeDensity(t: real, neq: real, j20: real, f: real, betabulk: real)
    requires t != 0.0 && betabulk != 0.0
    ensures LinearPion0DensityNegative(t, neq, j20, 0.0, f, betabulk) <==> neq < 0.0
  {
  }

  /** The Gauss-Laguerre equilibrium density and J20 moment of the neutral pion at a temperature. */
  datatype Pion0Densities = Pion0Densities(neq: real -> real, j20: real -> real)

  /**
    Whether the modified equilibrium distribution breaks down: never for
    df_mode outside {3, 4}; for mode 4 when detA <= detA_min or z < 0; for
    mode 3 when detA <= detA_min or the linearised pion0 density is
    negative, evaluated at the averaged T, F and betabulk in fast mode.
   */
  function FeqmodBreaksDown(
    t: real, f: real, bulkPi: real, betabulk: real, detA: real, detAMin: real, z: real,
    pion0: Pion0Densities, dfMode: int, fast: bool, tAvg: real, fAvg: real, betabulkAvg: real): (r: bool)
    requires dfMode == 3 ==> (if fast then tAvg != 0.0 && betabulkAvg != 0.0 else t != 0.0 && betabulk != 0.0)
    ensures dfMode != 3 && dfMode != 4 ==> !r
    ensures dfMode == 4 ==> (r <==> detA <= detAMin || z < 0.0)
    ensures dfMode == 3 && !fast ==>
      (r <==> detA <= detAMin || LinearPion0DensityNegative(t, pion0.neq(t), pion0.j20(t), bulkPi, f, betabulk))
    ensures dfMode == 3 && fast ==>
      (r <==> detA <= detAMin || LinearPion0DensityNegative(tAvg, pion0.neq(tAvg), pion0.j20(tAvg), bulkPi, fAvg, betabulkAvg))
  {
    if dfMode == 3 then
      var (tt, ff, bb) := if fast then (tAvg, fAvg, betabulkAvg) else (t, f, betabulk);
      var negative := LinearPion0DensityNegative(tt, pion0.neq(tt), pion0.j20(tt), bulkPi, ff, bb);
      detA <= detAMin || negative
    else if dfMode == 4 then
      detA <= detAMin || z < 0.0
    else
      false
  }

  /** In fast mode the cell's own T, F and betabulk play no part in the verdict. */
  lemma FastBreakdownIgnoresLocalCoefficients(
    t1: real, f1: real, betabulk1: real, t2: real, f2: real, betabulk2: real,
    bulkPi: real, detA: real, detAMin: real, z: real, pion0: Pion0Densities, dfMode: int,
    tAvg: real, fAvg: real, betabulkAvg: real)
    requires dfMode == 3 ==> tAvg != 0.0 && betabulkAvg != 0.0
    ensures FeqmodBreaksDown(t1, f1, bulkPi, betabulk1, detA, detAMin, z, pion0, dfMode, true, tAvg, fAvg, betabulkAvg)
         == FeqmodBreaksDown(t2, f2, bulkPi, betabulk2, detA, detAMin, z, pion0, dfMode, true, tAvg, fAvg, betabulkAvg)
  {
  }

  /** Shear stress in the local rest frame (the six independent components). */
  datatype ShearLRF = ShearLRF(xx: real, xy: real, xz: real, yy: real, yz: real, zz: real)

  /** A_ij = (1 + bulk_mod) delta_ij + shear_mod pi_ij. */
  function DeformationA(pi: ShearLRF, shearMod: real, bulkMod: real): Mat3
  {
    Mat3(
      1.0 + pi.xx * shearMod + bulkMod, pi.xy * shearMod, pi.xz * shearMod,
      pi.xy * shearMod, 1.0 + pi.yy * shearMod + bulkMod, pi.yz * shearMod,
      pi.xz * shearMod, pi.yz * shearMod, 1.0 + pi.zz * shearMod + bulkMod)
  }

  /** detA by the symmetric-matrix shortcut: it is the determinant of A, which is symmetric. */
  function ComputeDetA(pi: ShearLRF, shearMod: real, bulkMod: real): (d: real)
    ensures Symmetric(DeformationA(pi, shearMod, bulkMod))
    ensures d == Det(DeformationA(pi, shearMod, bulkMod))
  {
    var axx := 1.0 + pi.xx * shearMod + bulkMod;
    var axy := pi.xy * shearMod;
    var axz := pi.xz * shearMod;
    var ayy := 1.0 + pi.yy * shearMod + bulkMod;
    var ayz := pi.yz * shearMod;
    var azz := 1.0 + pi.zz * shearMod + bulkMod;
    axx * (ayy * azz - ayz * ayz) - axy * (axy * azz - ayz * axz) + axz * (axy * ayz - ayy * axz)
  }

  /** Without shear stress A is isotropic and detA == (1 + bulk_mod)^3. */
  lemma DetAWithoutShear(shearMod: real, bulkMod: real)
    ensures ComputeDetA(ShearLRF(0.0, 0.0, 0.0, 0.0, 0.0, 0.0), shearMod, bulkMod)
         == (1.0 + bulkMod) * (1.0 + bulkMod) * (1.0 + bulkMod)
  {
  }

  // ---------------------------------------------------------------------
  // Run parameters
  // ---------------------------------------------------------------------

  /** Why the constructor exits. */
  datatype ConfigError = BadDimension | BadDfMode

  /** The five delta-f corrections selected by df_mode 1 .. 5. */
  datatype DfCorrection =
    | Grad14Moment             // 1
    | ChapmanEnskog            // 2
    | ModifiedEquilibriumPTM   // 3
    | ModifiedEquilibriumPTB   // 4
    | ModifiedAnisotropicPTM   // 5

  /** The df_mode number of a correction. */
  function DfModeNumber(c: DfCorrection): int
  {
    match c
    case Grad14Moment => 1
    case ChapmanEnskog => 2
    case ModifiedEquilibriumPTM => 3
    case ModifiedEquilibriumPTB => 4
    case ModifiedAnisotropicPTM => 5
  }

  /** The correction selected by a df_mode, if it names one. */
  function DfCorrectionOf(dfMode: int): (r: Option<DfCorrection>)
    ensures r.Some? <==> 1 <= dfMode <= 5
    ensures r.Some? ==> DfModeNumber(r.value) == dfMode
  {
    if dfMode == 1 then Some(Grad14Moment)
    else if dfMode == 2 then Some(ChapmanEnskog)
    else if dfMode == 3 then Some(ModifiedEquilibriumPTM)
    else if dfMode == 4 then Some(ModifiedEquilibriumPTB)
    else if dfMode == 5 then Some(ModifiedAnisotropicPTM)
    else None
  }

  /** Each correction is selected by its own number. */
  lemma DfModeRoundTrip(c: DfCorrection)
    ensures DfCorrectionOf(DfModeNumber(c)) == Some(c)
  {
  }

  /** Row counts of the pT, phi_p, y and eta tables. */
  datatype TableLengths = TableLengths(pT: nat, phi: nat, y: nat, eta: nat)

  /** The validated run setup. */
  datatype Setup = Setup(dimension: int, correction: DfCorrection, lengths: TableLengths)

  /**
    The constructor's parameter checks: the dimension must be 2 (boost
    invariant, y table collapsed to one row) or 3 (eta table collapsed to
    one row), then df_mode must be 1 .. 5. A bad dimension is reported
    first.
   */
  function Configure(dimension: int, dfMode: int, tables: TableLengths): (r: Result<Setup, ConfigError>)
    ensures r.Success? <==> (dimension == 2 || dimension == 3) && 1 <= dfMode <= 5
    ensures r == Failure(BadDimension) <==> dimension != 2 && dimension != 3
    ensures r == Failure(BadDfMode) <==> (dimension == 2 || dimension == 3) && !(1 <= dfMode <= 5)
    ensures r.Success? ==> r.value.dimension == dimension && DfModeNumber(r.value.correction) == dfMode
    ensures r.Success? && dimension == 2 ==> r.value.lengths == tables.(y := 1)
    ensures r.Success? && dimension == 3 ==> r.value.lengths == tables.(eta := 1)
  {
    if dimension != 2 && dimension != 3 then Failure(BadDimension)
    else
      var lengths := if dimension == 2 then tables.(y := 1) else tables.(eta := 1);
      match DfCorrectionOf(dfMode)
      case None => Failure(BadDfMode)
      case Some(c) => Success(Setup(dimension, c, lengths))
  }

  // ---------------------------------------------------------------------
  // Chosen-particle tables
  // ---------------------------------------------------------------------

  /** The first index at or after `from` holding `id`, if any. */
  function {:induction false} FirstIndexFrom(ids: seq<int>, id: int, from: nat): (r: Option<nat>)
    requires from <= |ids|
    decreases |ids| - from
    ensures r.Some? ==> from <= r.value < |ids| && ids[r.value] == id
    ensures r.Some? ==> forall k :: from <= k < r.value ==> ids[k] != id
    ensures r.None? <==> forall k :: from <= k < |ids| ==> ids[k] != id
  {
    if from == |ids| then None
    else if ids[from] == id then Some(from)
    else FirstIndexFrom(ids, id, from + 1)
  }

  /** The first PDG index whose MC id is `id` (the search that breaks at the first match). */
  function FirstIndex(ids: seq<int>, id: int): (r: Option<nat>)
    ensures r.Some? ==> r.value < |ids| && ids[r.value] == id && forall k :: 0 <= k < r.value ==> ids[k] != id
    ensures r.None? <==> id !in ids
  {
    FirstIndexFrom(ids, id, 0)
  }

  /** Index n is the first PDG entry carrying one of the chosen MC ids. */
  predicate IsFirstOfChosen(ids: seq<int>, chosen: seq<int>, n: int)
  {
    0 <= n < |ids| && ids[n] in chosen && forall k :: 0 <= k < n ==> ids[k] != ids[n]
  }

  /** Extending the chosen list by one id adds exactly that id's first index. */
  lemma IsFirstOfChosenExtend(ids: seq<int>, chosen: seq<int>, m: nat, n: int)
    requires m < |chosen|
    ensures IsFirstOfChosen(ids, chosen[..m + 1], n)
        <==> IsFirstOfChosen(ids, chosen[..m], n) || FirstIndex(ids, chosen[m]) == Some(n)
  {
    assert chosen[..m + 1] == chosen[..m] + [chosen[m]];
    if FirstIndex(ids, chosen[m]) == Some(n) {
      assert ids[n] in chosen[..m + 1];
    }
    if IsFirstOfChosen(ids, chosen[..m + 1], n) && !IsFirstOfChosen(ids, chosen[..m], n) {
      assert ids[n] == chosen[m];
      var r := FirstIndex(ids, chosen[m]);
      assert r.Some?;
      assert r.value == n;
    }
  }

  /**
    chosen_particles_01_table: entry n is 1 exactly when n is the first PDG
    index carrying one of the chosen MC ids, and 0 otherwise.
   */
  method ChosenParticlesFlags(ids: seq<int>, chosen: seq<int>) returns (flags: seq<int>)
    ensures |flags| == |ids|
    ensures forall n :: 0 <= n < |ids| ==> flags[n] == (if IsFirstOfChosen(ids, chosen, n) then 1 else 0)
  {
    flags := seq(|ids|, _ => 0);
    var m := 0;
    while m < |chosen|
      invariant 0 <= m <= |chosen|
      invariant |flags| == |ids|
      invariant forall n :: 0 <= n < |ids| ==> flags[n] == (if IsFirstOfChosen(ids, chosen[..m], n) then 1 else 0)
    {
      var found := FirstIndex(ids, chosen[m]);
      if found.Some? {
        flags := flags[found.value := 1];
      }
      forall n | 0 <= n < |ids|
        ensures flags[n] == (if IsFirstOfChosen(ids, chosen[..m + 1], n) then 1 else 0)
      {
        IsFirstOfChosenExtend(ids, chosen, m, n);
      }
      m := m + 1;
    }
    assert chosen[..m] == chosen;
  }

  /** How many of the chosen MC ids occur in the PDG list. */
  function {:induction false} CountPresent(ids: seq<int>, chosen: seq<int>): (c: nat)
    ensures c <= |chosen|
    ensures c == |chosen| <==> forall m :: 0 <= m < |chosen| ==> chosen[m] in ids
  {
    if |chosen| == 0 then 0
    else
      var last := chosen[|chosen| - 1];
      var before := CountPresent(ids, chosen[..|chosen| - 1]);
      assert forall m :: 0 <= m < |chosen| - 1 ==> chosen[..|chosen| - 1][m] == chosen[m];
      before + (if last in ids then 1 else 0)
  }

  /** Counting one more chosen id adds one exactly when that id is present. */
  lemma CountPresentStep(ids: seq<int>, chosen: seq<int>, m: nat)
    requires m < |chosen|
    ensures CountPresent(ids, chosen[..m + 1]) == CountPresent(ids, chosen[..m]) + (if chosen[m] in ids then 1 else 0)
  {
    assert chosen[..m + 1][..m] == chosen[..m];
  }

  /**
    The sampling table in chosen order: the first PDG index of each chosen
    MC id that has one, skipping the ids that have none.
   */
  function {:induction false} FirstIndices(ids: seq<int>, chosen: seq<int>): (t: seq<nat>)
    ensures |t| == CountPresent(ids, chosen)
  {
    if |chosen| == 0 then []
    else
      var found := FirstIndex(ids, chosen[|chosen| - 1]);
      FirstIndices(ids, chosen[..|chosen| - 1]) + (if found.Some? then [found.value] else [])
  }

  /** The chosen-order table holds first indices of chosen ids, and every one of them. */
  lemma {:induction false} FirstIndicesAreFirsts(ids: seq<int>, chosen: seq<int>)
    ensures forall j :: 0 <= j < |FirstIndices(ids, chosen)| ==> IsFirstOfChosen(ids, chosen, FirstIndices(ids, chosen)[j])
    ensures forall n :: IsFirstOfChosen(ids, chosen, n) ==> n in FirstIndices(ids, chosen)
  {
    if |chosen| > 0 {
      var m := |chosen| - 1;
      FirstIndicesAreFirsts(ids, chosen[..m]);
      assert chosen[..m + 1] == chosen;
      forall n
        ensures IsFirstOfChosen(ids, chosen, n) <==> IsFirstOfChosen(ids, chosen[..m], n) || FirstIndex(ids, chosen[m]) == Some(n)
      {
        IsFirstOfChosenExtend(ids, chosen, m, n);
      }
    }
  }

  /**
    chosen_particles_sampling_table: for each chosen MC id in order, the
    first PDG index carrying it; ids missing from the PDG list add no entry.
    When every chosen id is present, entry m belongs to the m-th chosen id.
   */
  method ChosenParticlesSamplingTable(ids: seq<int>, chosen: seq<int>) returns (table: seq<nat>)
    ensures table == FirstIndices(ids, chosen)
    ensures |table| == CountPresent(ids, chosen)
    ensures forall j :: 0 <= j < |table| ==> IsFirstOfChosen(ids, chosen, table[j])
    ensures (forall m :: 0 <= m < |chosen| ==> chosen[m] in ids) ==>
      forall m :: 0 <= m < |chosen| ==>
        table[m] < |ids| && ids[table[m]] == chosen[m] && forall k :: 0 <= k < table[m] ==> ids[k] != chosen[m]
  {
    table := [];
    var m := 0;
    while m < |chosen|
      invariant 0 <= m <= |chosen|
      invariant SamplingTableSoFar(ids, chosen, m, table)
    {
      SamplingTableStep(ids, chosen, m, table);
      var found := FirstIndex(ids, chosen[m]);
      if found.Some? {
        table := table + [found.value];
      }
      m := m + 1;
    }
    SamplingTableDone(ids, chosen, table);
  }

  /** Once every chosen id is processed, the table built so far is the whole table. */
  lemma SamplingTableDone(ids: seq<int>, chosen: seq<int>, table: seq<nat>)
    requires SamplingTableSoFar(ids, chosen, |chosen|, table)
    ensures table == FirstIndices(ids, chosen)
    ensures |table| == CountPresent(ids, chosen)
    ensures forall j :: 0 <= j < |table| ==> IsFirstOfChosen(ids, chosen, table[j])
    ensures (forall m :: 0 <= m < |chosen| ==> chosen[m] in ids) ==>
      |table| == |chosen| && forall m :: 0 <= m < |chosen| ==> FirstIndex(ids, chosen[m]) == Some(table[m])
  {
    assert chosen[..|chosen|] == chosen;
  }

  /** The sampling table built from the first m chosen ids. */
  predicate SamplingTableSoFar(ids: seq<int>, chosen: seq<int>, m: nat, table: seq<nat>)
    requires m <= |chosen|
  {
    && table == FirstIndices(ids, chosen[..m])
    && |table| == CountPresent(ids, chosen[..m])
    && (forall j :: 0 <= j < |table| ==> IsFirstOfChosen(ids, chosen[..m], table[j]))
    && ((forall i :: 0 <= i < m ==> chosen[i] in ids) ==>
          |table| == m && forall i :: 0 <= i < m ==> FirstIndex(ids, chosen[i]) == Some(table[i]))
  }

  /** Appending the next chosen id's first index, if any, keeps the table built so far. */
  lemma SamplingTableStep(ids: seq<int>, chosen: seq<int>, m: nat, table: seq<nat>)
    requires m < |chosen| && SamplingTableSoFar(ids, chosen, m, table)
    ensures var found := FirstIndex(ids, chosen[m]);
      SamplingTableSoFar(ids, chosen, m + 1, if found.Some? then table + [found.value] else table)
  {
    CountPresentStep(ids, chosen, m);
    var found := FirstIndex(ids, chosen[m]);
    var next := if found.Some? then table + [found.value] else table;
    assert chosen[..m + 1][..m] == chosen[..m];
    forall j | 0 <= j < |next|
      ensures IsFirstOfChosen(ids, chosen[..m + 1], next[j])
    {
      IsFirstOfChosenExtend(ids, chosen, m, next[j]);
    }
  }

  /** The masses of the table's particles never decrease along the table. */
  predicate MassOrdered(table: seq<nat>, mass: seq<real>)
    requires Indexes(table, mass)
  {
    forall i, j :: 0 <= i < j < |table| ==> mass[table[i]] <= mass[table[j]]
  }

  /** Exchanges entries n and n + 1. */
  function Swap(t: seq<nat>, n: nat): (u: seq<nat>)
    requires n + 1 < |t|
    ensures |u| == |t| && u[n] == t[n + 1] && u[n + 1] == t[n]
    ensures forall j :: 0 <= j < |t| && j != n && j != n + 1 ==> u[j] == t[j]
    ensures multiset(u) == multiset(t)
  {
    var u := t[..n] + [t[n + 1], t[n]] + t[n + 2..];
    assert t == t[..n] + [t[n], t[n + 1]] + t[n + 2..];
    u
  }

  /** Every entry indexes the mass table. */
  predicate Indexes(t: seq<nat>, mass: seq<real>)
  {
    forall j :: 0 <= j < |t| ==> t[j] < |mass|
  }

  /** No entry at or before `last` is heavier than an entry after it. */
  predicate PrefixNoHeavier(t: seq<nat>, mass: seq<real>, last: nat)
    requires Indexes(t, mass)
  {
    forall i, j :: 0 <= i <= last < j < |t| ==> mass[t[i]] <= mass[t[j]]
  }

  /** Entry n is a heaviest among entries 0 .. n. */
  predicate HeaviestAt(t: seq<nat>, mass: seq<real>, n: nat)
    requires Indexes(t, mass) && n < |t|
  {
    forall i :: 0 <= i <= n ==> mass[t[i]] <= mass[t[n]]
  }

  /** One compare-and-swap of the bubble sort at positions n and n + 1. */
  function CompareSwap(t: seq<nat>, mass: seq<real>, n: nat): (u: seq<nat>)
    requires Indexes(t, mass) && n + 1 < |t|
    ensures |u| == |t| && multiset(u) == multiset(t) && Indexes(u, mass)
    ensures forall j :: 0 <= j < |t| && j != n && j != n + 1 ==> u[j] == t[j]
  {
    if mass[t[n]] > mass[t[n + 1]] then Swap(t, n) else t
  }

  /** A compare-and-swap moves the heaviest entry along and keeps later entries at least as heavy. */
  lemma CompareSwapStep(t: seq<nat>, mass: seq<real>, last: nat, n: nat)
    requires Indexes(t, mass) && n < last < |t|
    requires PrefixNoHeavier(t, mass, last) && HeaviestAt(t, mass, n)
    ensures PrefixNoHeavier(CompareSwap(t, mass, n), mass, last)
    ensures HeaviestAt(CompareSwap(t, mass, n), mass, n + 1)
  {
    var u := CompareSwap(t, mass, n);
    forall i, j | 0 <= i <= last < j < |u|
      ensures mass[u[i]] <= mass[u[j]]
    {
      assert u[j] == t[j];
      if i == n {
        assert u[i] == t[n] || u[i] == t[n + 1];
      } else if i == n + 1 {
        assert u[i] == t[n] || u[i] == t[n + 1];
      } else {
        assert u[i] == t[i];
      }
    }
  }

  /**
    One pass of the bubble sort over positions 0 .. last: adjacent entries
    out of mass order are swapped, which carries a heaviest entry of the
    prefix to position `last`. Entries after `last` are untouched, and
    everything in the prefix stays no heavier than them.
   */
  method BubblePass(s: seq<nat>, mass: seq<real>, last: nat) returns (t: seq<nat>)
    requires last < |s| && Indexes(s, mass)
    requires PrefixNoHeavier(s, mass, last)
    ensures |t| == |s| && multiset(t) == multiset(s) && Indexes(t, mass)
    ensures forall j :: last < j < |s| ==> t[j] == s[j]
    ensures PrefixNoHeavier(t, mass, last)
    ensures HeaviestAt(t, mass, last)
  {
    t := s;
    var n := 0;
    while n < last
      invariant 0 <= n <= last
      invariant |t| == |s| && multiset(t) == multiset(s) && Indexes(t, mass)
      invariant forall j :: last < j < |s| ==> t[j] == s[j]
      invariant PrefixNoHeavier(t, mass, last)
      invariant HeaviestAt(t, mass, n)
    {
      CompareSwapStep(t, mass, last, n);
      t := CompareSwap(t, mass, n);
      n := n + 1;
    }
  }

  /**
    With group_particles == 1 the sampling table is bubble-sorted by mass:
    the result holds the same entries, with non-decreasing masses. Any other
    setting leaves the table as it is.
   */
  method GroupParticlesByMass(table: seq<nat>, mass: seq<real>, groupParticles: int) returns (sorted: seq<nat>)
    requires Indexes(table, mass)
    ensures groupParticles != 1 ==> sorted == table
    ensures |sorted| == |table| && multiset(sorted) == multiset(table)
    ensures Indexes(sorted, mass)
    ensures groupParticles == 1 ==> MassOrdered(sorted, mass)
  {
    sorted := table;
    if groupParticles != 1 {
      return;
    }
    var count := |sorted|;
    var m := 0;
    while m < count
      invariant 0 <= m <= count == |sorted|
      invariant multiset(sorted) == multiset(table) && Indexes(sorted, mass)
      // the last m entries are in place: in order, and no lighter than anything before them
      invariant forall i, j :: count - m <= i < j < count ==> mass[sorted[i]] <= mass[sorted[j]]
      invariant m < count ==> PrefixNoHeavier(sorted, mass, count - m - 1)
    {
      sorted := BubblePass(sorted, mass, count - m - 1);
      m := m + 1;
    }
  }

  // ---------------------------------------------------------------------
  // The constructor
  // ---------------------------------------------------------------------

  /** One PDG entry: its MC id and mass. */
  datatype PdgEntry = PdgEntry(mcid: int, mass: real)

  function McIds(pdg: seq<PdgEntry>): (ids: seq<int>)
    ensures |ids| == |pdg| && forall n :: 0 <= n < |pdg| ==> ids[n] == pdg[n].mcid
  {
    seq(|pdg|, n requires 0 <= n < |pdg| => pdg[n].mcid)
  }

  function Masses(pdg: seq<PdgEntry>): (masses: seq<real>)
    ensures |masses| == |pdg| && forall n :: 0 <= n < |pdg| ==> masses[n] == pdg[n].mass
  {
    seq(|pdg|, n requires 0 <= n < |pdg| => pdg[n].mass)
  }

  /** What the constructor leaves behind that the model follows. */
  datatype EmissionArray = EmissionArray(
    setup: Setup,
    chosenFlags: seq<int>,
    samplingTable: seq<nat>,
    spectra: SpectraShape)

  /**
    EmissionFunctionArray's constructor: validate dimension and df_mode,
    allocate the smooth spectra for every chosen particle, and build the
    0/1 table and the (optionally mass-grouped) sampling table.
   */
  method NewEmissionFunctionArray(
    dimension: int, dfMode: int, groupParticles: int, tables: TableLengths,
    pdg: seq<PdgEntry>, chosen: seq<int>) returns (r: Result<EmissionArray, ConfigError>)
    ensures r.Success? <==> (dimension == 2 || dimension == 3) && 1 <= dfMode <= 5
    ensures r.Failure? ==> r.error == (if dimension != 2 && dimension != 3 then BadDimension else BadDfMode)
    ensures r.Success? ==> r.value.setup == Configure(dimension, dfMode, tables).value
    ensures r.Success? ==>
      r.value.spectra == SpectraShape(|chosen|, r.value.setup.lengths.pT, r.value.setup.lengths.phi, r.value.setup.lengths.y)
    ensures r.Success? ==>
      && |r.value.chosenFlags| == |pdg|
      && forall n :: 0 <= n < |pdg| ==>
           r.value.chosenFlags[n] == (if IsFirstOfChosen(McIds(pdg), chosen, n) then 1 else 0)
    ensures r.Success? ==>
      && |r.value.samplingTable| == CountPresent(McIds(pdg), chosen)
      && forall j :: 0 <= j < |r.value.samplingTable| ==> IsFirstOfChosen(McIds(pdg), chosen, r.value.samplingTable[j])
    // the table holds the chosen-order first indices, rearranged only by the mass grouping
    ensures r.Success? ==> multiset(r.value.samplingTable) == multiset(FirstIndices(McIds(pdg), chosen))
    ensures r.Success? && groupParticles != 1 ==> r.value.samplingTable == FirstIndices(McIds(pdg), chosen)
    ensures r.Success? && groupParticles != 1 && (forall m :: 0 <= m < |chosen| ==> chosen[m] in McIds(pdg)) ==>
      forall m :: 0 <= m < |chosen| ==> FirstIndex(McIds(pdg), chosen[m]) == Some(r.value.samplingTable[m])
    ensures r.Success? && groupParticles == 1 ==>
      && (forall j :: 0 <= j < |r.value.samplingTable| ==> r.value.samplingTable[j] < |pdg|)
      && MassOrdered(r.value.samplingTable, Masses(pdg))
  {
    var setup := Configure(dimension, dfMode, tables);
    if setup.Failure? {
      return Failure(setup.error);
    }
    var lengths := setup.value.lengths;
    var ids := McIds(pdg);
    var flags := ChosenParticlesFlags(ids, chosen);
    var table := ChosenParticlesSamplingTable(ids, chosen);
    var sorted := GroupParticlesByMass(table, Masses(pdg), groupParticles);
    forall j | 0 <= j < |sorted|
      ensures IsFirstOfChosen(ids, chosen, sorted[j])
    {
      assert sorted[j] in multiset(table);
    }
    r := Success(EmissionArray(setup.value, flags, sorted, SpectraShape(|chosen|, lengths.pT, lengths.phi, lengths.y)));
  }

  // ---------------------------------------------------------------------
  // Flattened spectra index
  // ---------------------------------------------------------------------

  /** The extents of the smooth spectra: chosen particles x pT x phi_p x y. */
  datatype SpectraShape = SpectraShape(particles: nat, pT: nat, phi: nat, y: nat)

  /** The number of doubles allocated for dN_pTdpTdphidy. */
  function SpectraSize(s: SpectraShape): nat
  {
    s.particles * s.pT * s.phi * s.y
  }

  predicate InBox(s: SpectraShape, ipart: nat, ipT: nat, iphip: nat, iy: nat)
  {
    ipart < s.particles && ipT < s.pT && iphip < s.phi && iy < s.y
  }

  /** iS3D = iy + Ly (iphip + Lphi (ipT + LpT ipart)). */
  function SpectraIndex(s: SpectraShape, ipart: nat, ipT: nat, iphip: nat, iy: nat): nat
  {
    iy + s.y * (iphip + s.phi * (ipT + s.pT * ipart))
  }

  /** a + L b stays below L M when a < L and b < M. */
  lemma MixedRadixBound(a: nat, l: nat, b: nat, m: nat)
    requires a < l && b < m
    ensures a + l * b < l * m
  {
    assert l * b <= l * (m - 1) by {
      assert l * (m - 1) - l * b == l * (m - 1 - b);
    }
    assert l * (m - 1) == l * m - l;
  }

  /** Every index of the box addresses a slot of the allocated array. */
  lemma SpectraIndexInBounds(s: SpectraShape, ipart: nat, ipT: nat, iphip: nat, iy: nat)
    requires InBox(s, ipart, ipT, iphip, iy)
    ensures SpectraIndex(s, ipart, ipT, iphip, iy) < SpectraSize(s)
  {
    MixedRadixBound(ipT, s.pT, ipart, s.particles);
    var inner := ipT + s.pT * ipart;
    MixedRadixBound(iphip, s.phi, inner, s.pT * s.particles);
    var middle := iphip + s.phi * inner;
    MixedRadixBound(iy, s.y, middle, s.phi * (s.pT * s.particles));
    assert s.y * (s.phi * (s.pT * s.particles)) == s.particles * s.pT * s.phi * s.y;
  }

  /** Division and remainder undo a + L b when a < L. */
  lemma DivModOfMixedRadix(a: nat, l: nat, b: nat)
    requires a < l
    ensures (a + l * b) / l == b && (a + l * b) % l == a
  {
    var x := a + l * b;
    var q := x / l;
    var r := x % l;
    assert x == l * q + r;
    assert l * (b - q) == r - a;
    MultipleBelowDivisor(l, b - q, r - a);
  }

  /** The only multiple of l strictly between -l and l is zero. */
  lemma MultipleBelowDivisor(l: int, d: int, e: int)
    requires 0 < l && l * d == e && -l < e < l
    ensures d == 0
  {
  }

  /** Recovers (ipart, ipT, iphip, iy) from a flattened index. */
  function SpectraCoordinates(s: SpectraShape, k: nat): (nat, nat, nat, nat)
    requires 0 < s.pT && 0 < s.phi && 0 < s.y
  {
    var rest := Quot(k, s.y);
    var rest2 := Quot(rest, s.phi);
    (Quot(rest2, s.pT), Rem(rest2, s.pT), Rem(rest, s.phi), Rem(k, s.y))
  }

  /** k / d for a positive divisor, a natural number. */
  function Quot(k: nat, d: nat): nat
    requires 0 < d
  {
    k / d
  }

  /** k % d for a positive divisor, a natural number. */
  function Rem(k: nat, d: nat): nat
    requires 0 < d
  {
    k % d
  }

  /** Decoding the flattened index gives back the four indices. */
  lemma SpectraIndexRoundTrip(s: SpectraShape, ipart: nat, ipT: nat, iphip: nat, iy: nat)
    requires InBox(s, ipart, ipT, iphip, iy)
    ensures SpectraCoordinates(s, SpectraIndex(s, ipart, ipT, iphip, iy)) == (ipart, ipT, iphip, iy)
  {
    var inner := ipT + s.pT * ipart;
    var middle := iphip + s.phi * inner;
    DivModOfMixedRadix(iy, s.y, middle);
    DivModOfMixedRadix(iphip, s.phi, inner);
    DivModOfMixedRadix(ipT, s.pT, ipart);
  }

  /** Hence two different points of the box never share a slot. */
  lemma SpectraIndexInjective(s: SpectraShape, p1: nat, t1: nat, f1: nat, y1: nat, p2: nat, t2: nat, f2: nat, y2: nat)
    requires InBox(s, p1, t1, f1, y1) && InBox(s, p2, t2, f2, y2)
    requires SpectraIndex(s, p1, t1, f1, y1) == SpectraIndex(s, p2, t2, f2, y2)
    ensures p1 == p2 && t1 == t2 && f1 == f2 && y1 == y2
  {
    SpectraIndexRoundTrip(s, p1, t1, f1, y1);
    SpectraIndexRoundTrip(s, p2, t2, f2, y2);
  }

  // ---------------------------------------------------------------------
  // Sampled-histogram bin midpoints
  // ---------------------------------------------------------------------

  /** The centre of bin i in units of the bin width: i + 1/2. */
  function BinCentre(i: nat): real
  {
    (i as real) + 0.5
  }

  /** lo + width (i + 1/2) for i = 0 .. bins-1. */
  function BinMidpoints(lo: real, width: real, bins: nat): (mids: seq<real>)
    ensures |mids| == bins
  {
    seq(bins, i requires 0 <= i < bins => lo + width * BinCentre(i))
  }

  /** Every entry lies strictly between lo and hi. */
  predicate StrictlyInside(xs: seq<real>, lo: real, hi: real)
  {
    forall i :: 0 <= i < |xs| ==> lo < xs[i] < hi
  }

  /** With a positive width, midpoint i lies strictly inside (lo, lo + bins width). */
  lemma MidpointInside(lo: real, width: real, bins: nat, i: nat)
    requires 0.0 < width && i < bins
    ensures lo < BinMidpoints(lo, width, bins)[i] < lo + width * (bins as real)
  {
    assert BinMidpoints(lo, width, bins)[i] == lo + width * BinCentre(i);
    assert 0.0 < BinCentre(i) < bins as real;
    assert 0.0 < width * BinCentre(i) < width * (bins as real);
  }

  /** With a positive width, a later midpoint is larger. */
  lemma MidpointsOrdered(lo: real, width: real, bins: nat, i: nat, j: nat)
    requires 0.0 < width && i < j < bins
    ensures BinMidpoints(lo, width, bins)[i] < BinMidpoints(lo, width, bins)[j]
  {
    assert BinCentre(i) < BinCentre(j);
    assert width * BinCentre(i) < width * BinCentre(j);
  }

  /** With a positive width the midpoints ascend. */
  lemma MidpointsAscend(lo: real, width: real, bins: nat)
    requires 0.0 < width
    ensures forall i, j :: 0 <= i < j < bins ==> BinMidpoints(lo, width, bins)[i] < BinMidpoints(lo, width, bins)[j]
  {
    forall i: nat, j: nat | i < j < bins
      ensures BinMidpoints(lo, width, bins)[i] < BinMidpoints(lo, width, bins)[j]
    {
      MidpointsOrdered(lo, width, bins, i, j);
    }
  }

  /**
    With width (hi - lo) / bins every midpoint lies strictly inside (lo, hi):
    the pT, tau and r histograms, phi_p on (0, 2 pi), y on (-y_cut, y_cut).
   */
  lemma MidpointsInsideRange(lo: real, hi: real, bins: nat)
    requires lo < hi && 0 < bins
    ensures StrictlyInside(BinMidpoints(lo, (hi - lo) / (bins as real), bins), lo, hi)
  {
    var width := (hi - lo) / (bins as real);
    assert width * (bins as real) == hi - lo;
    forall i | 0 <= i < bins
      ensures lo < BinMidpoints(lo, width, bins)[i] < hi
    {
      MidpointInside(lo, width, bins, i);
    }
  }

  /** For Y_BINS > 0 and Y_CUT > 0 the rapidity midpoints -Y_CUT + Y_WIDTH (iy + 1/2) lie in (-Y_CUT, Y_CUT). */
  lemma RapidityMidpointsInsideCut(yCut: real, yBins: nat)
    requires 0.0 < yCut && 0 < yBins
    ensures StrictlyInside(BinMidpoints(-yCut, 2.0 * yCut / (yBins as real), yBins), -yCut, yCut)
  {
    assert 2.0 * yCut / (yBins as real) == (yCut - -yCut) / (yBins as real);
    MidpointsInsideRange(-yCut, yCut, yBins);
  }
}
