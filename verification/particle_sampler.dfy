/**
  Deterministic decisions of the particle sampler: how many particles a
  freeze-out cell is expected to emit and the ceiling used to draw them,
  the regulation of the bulk pressure for the PTB feqmod distribution,
  the viscous and flux weights of the rejection step, and the map from a
  uniform random number to a rapidity.

  The random numbers arrive as parameters. The GaussThermal integrals
  and the delta-f coefficients are computed elsewhere and also arrive as
  parameters. A df_mode the sampler does not support stops the program;
  here that is a `Failure`.
 */
module ParticleSampler {
  import opened Wrappers
  import opened Floats
  import EmissionFunction
  import opened RealFacts

  /** The sampler was asked for a df_mode it does not implement. */
  datatype SamplerError = BadDfMode(dfMode: int)

  // ---------------------------------------------------------------------
  // Uniform rapidity
  // ---------------------------------------------------------------------

  /** Stretches [0, 1) onto [-1, 1). */
  function Centred(r: real): real
  {
    2.0 * r - 1.0
  }

  /** A rapidity drawn uniformly from [-yMax, yMax) by the number r in [0, 1). */
  function UniformRapidity(r: real, yMax: real): (y: real)
    ensures 0.0 <= r < 1.0 && 0.0 < yMax ==> -yMax <= y < yMax
  {
    ScaleUnitInterval(yMax, Centred(r));
    yMax * Centred(r)
  }

  /** The random number can be read back off the rapidity it produced. */
  lemma UniformRapidityInverse(r: real, yMax: real)
    requires yMax != 0.0
    ensures (UniformRapidity(r, yMax) / yMax + 1.0) / 2.0 == r
  {
    assert UniformRapidity(r, yMax) == yMax * Centred(r);
    CancelFactor(yMax, Centred(r));
    assert UniformRapidity(r, yMax) / yMax == Centred(r);
  }

  /** A larger random number gives a larger rapidity, so no two numbers share one. */
  lemma UniformRapidityIncreasing(r1: real, r2: real, yMax: real)
    requires 0.0 < yMax && r1 < r2
    ensures UniformRapidity(r1, yMax) < UniformRapidity(r2, yMax)
  {
    ScaleKeepsOrder(yMax, Centred(r1), Centred(r2));
  }

  // ---------------------------------------------------------------------
  // Mean and maximum particle numbers
  // ---------------------------------------------------------------------

  /** Particle densities of one species in one cell: equilibrium, bulk and diffusion parts. */
  datatype CellDensities = CellDensities(equilibrium: real, bulk: real, diffusion: real)

  /** The linearised (Chapman-Enskog type) particle number of a cell. */
  function LinearParticleNumber(n: CellDensities, dsTime: real, dsSpace: real, bulkPi: real, vdsigma: real): real
  {
    dsTime * (n.equilibrium + bulkPi * n.bulk) - dsSpace * vdsigma * n.diffusion
  }

  /**
    The mean number of particles a cell emits. Modes 1, 2, 3 and 5 use the
    linearised density; mode 4 (PTB feqmod) scales the equilibrium density
    by z, or by 1 + delta z when feqmod breaks down.
   */
  function EstimateMeanParticleNumber(
    n: CellDensities, dsTime: real, dsSpace: real, bulkPi: real, vdsigma: real,
    z: real, deltaZ: real, breaksDown: bool, dfMode: int): (r: Result<real, SamplerError>)
    ensures r.Success? <==> 1 <= dfMode <= 5
    ensures r.Failure? ==> r.error == BadDfMode(dfMode)
    ensures r.Success? && dfMode != 4 ==> r.value == LinearParticleNumber(n, dsTime, dsSpace, bulkPi, vdsigma)
    ensures dfMode == 4 && !breaksDown ==> r == Success(dsTime * z * n.equilibrium)
    ensures dfMode == 4 && breaksDown ==> r == Success(dsTime * (1.0 + deltaZ) * n.equilibrium)
  {
    if dfMode == 1 || dfMode == 2 || dfMode == 3 || dfMode == 5 then
      Success(LinearParticleNumber(n, dsTime, dsSpace, bulkPi, vdsigma))
    else if dfMode == 4 then
      if breaksDown then Success(dsTime * (1.0 + deltaZ) * n.equilibrium)
      else Success(dsTime * z * n.equilibrium)
    else
      Failure(BadDfMode(dfMode))
  }

  /**
    Modes 1, 2, 3 and 5 estimate the same number, and none of them looks
    at z, delta z or the breakdown flag.
   */
  lemma EstimateLinearModesAgree(
    n: CellDensities, dsTime: real, dsSpace: real, bulkPi: real, vdsigma: real,
    z1: real, dz1: real, b1: bool, m1: int, z2: real, dz2: real, b2: bool, m2: int)
    requires m1 in {1, 2, 3, 5} && m2 in {1, 2, 3, 5}
    ensures EstimateMeanParticleNumber(n, dsTime, dsSpace, bulkPi, vdsigma, z1, dz1, b1, m1)
         == EstimateMeanParticleNumber(n, dsTime, dsSpace, bulkPi, vdsigma, z2, dz2, b2, m2)
  {
  }

  /**
    In a cell without bulk pressure, diffusion or feqmod rescaling
    (z == 1, delta z == 0) every supported mode estimates the equilibrium
    number dsTime * neq.
   */
  lemma EstimateAtEquilibrium(n: CellDensities, dsTime: real, dsSpace: real, breaksDown: bool, dfMode: int)
    requires 1 <= dfMode <= 5
    ensures EstimateMeanParticleNumber(n, dsTime, dsSpace, 0.0, 0.0, 1.0, 0.0, breaksDown, dfMode).value
         == dsTime * n.equilibrium
  {
    if dfMode == 4 {
      Associate(dsTime, 1.0, n.equilibrium);
    } else {
      ZeroFactor(0.0, n.bulk);
      ZeroFactor(0.0, n.diffusion);
      Associate(dsSpace, 0.0, n.diffusion);
    }
  }

  /**
    The ceiling on the particle density used to draw the particle type. The
    linear modes use twice the equilibrium density; the feqmod modes use
    their own density unless feqmod breaks down, when they fall back to
    the linear ceiling.
   */
  function FastMaxParticleNumber(
    equilibrium: real, bulkDensity: real, bulkPi: real, z: real,
    breaksDown: bool, dfMode: int): (r: Result<real, SamplerError>)
    ensures r.Success? <==> 1 <= dfMode <= 4
    ensures r.Failure? ==> r.error == BadDfMode(dfMode)
    ensures r.Success? && (dfMode <= 2 || breaksDown) ==> r.value == 2.0 * equilibrium
    ensures dfMode == 3 && !breaksDown ==> r == Success(equilibrium + bulkPi * bulkDensity)
    ensures dfMode == 4 && !breaksDown ==> r == Success(z * equilibrium)
  {
    if dfMode == 1 || dfMode == 2 then Success(2.0 * equilibrium)
    else if dfMode == 3 then
      if breaksDown then Success(2.0 * equilibrium)
      else Success(equilibrium + bulkPi * bulkDensity)
    else if dfMode == 4 then
      if breaksDown then Success(2.0 * equilibrium)
      else Success(z * equilibrium)
    else Failure(BadDfMode(dfMode))
  }

  /** On feqmod breakdown modes 3 and 4 give exactly the Chapman-Enskog ceiling. */
  lemma FastMaxFallsBackToLinear(equilibrium: real, bulkDensity: real, bulkPi: real, z: real, dfMode: int)
    requires dfMode == 3 || dfMode == 4
    ensures FastMaxParticleNumber(equilibrium, bulkDensity, bulkPi, z, true, dfMode)
         == FastMaxParticleNumber(equilibrium, bulkDensity, bulkPi, z, false, 2)
  {
  }

  /**
    The feqmod modes without breakdown ceiling a cell at the density whose
    time-like volume integral is the mean particle number: the estimate of
    a cell without diffusion flux is dsTime times the ceiling.
   */
  lemma EstimateIsVolumeTimesFastMax(
    n: CellDensities, dsTime: real, dsSpace: real, bulkPi: real, z: real, deltaZ: real, dfMode: int)
    requires dfMode == 3 || dfMode == 4
    ensures EstimateMeanParticleNumber(n, dsTime, dsSpace, bulkPi, 0.0, z, deltaZ, false, dfMode).value
         == dsTime * FastMaxParticleNumber(n.equilibrium, n.bulk, bulkPi, z, false, dfMode).value
  {
    if dfMode == 4 {
      Associate(dsTime, z, n.equilibrium);
    } else {
      ZeroFactor(0.0, n.diffusion);
      Associate(dsSpace, 0.0, n.diffusion);
    }
  }

  /**
    The momentum-integrated thermal densities of one species, as the
    GaussThermal quadrature returns them with their prefactors applied:
    n_eq, J10 and J20 at the cell's chemical potential, and n_eq at zero
    chemical potential (the PTB feqmod distribution ignores it).
   */
  datatype ThermalIntegrals = ThermalIntegrals(neq: real, j10: real, j20: real, neqNeutral: real)

  /** The delta-f coefficients the maximum particle number needs. */
  datatype BulkCoefficients = BulkCoefficients(g: real, f: real, betabulk: real, z: real)

  /** The bulk-viscous density (n_eq + b J10 G + J20 F / T^2) / betabulk; J10 counts only with baryons. */
  function BulkDensity(ints: ThermalIntegrals, baryon: real, t: real, df: BulkCoefficients, includeBaryon: bool): real
    requires t != 0.0 && df.betabulk != 0.0
  {
    var j10 := if includeBaryon then ints.j10 else 0.0;
    (ints.neq + baryon * j10 * df.g + ints.j20 * df.f / t / t) / df.betabulk
  }

  /** The maximum particle density of one species, from the thermal integrals. */
  function MaxParticleNumber(
    ints: ThermalIntegrals, baryon: real, t: real, bulkPi: real, df: BulkCoefficients,
    breaksDown: bool, dfMode: int, includeBaryon: bool): (r: Result<real, SamplerError>)
    requires dfMode == 3 && !breaksDown ==> t != 0.0 && df.betabulk != 0.0
    ensures r.Success? <==> 1 <= dfMode <= 4
    ensures r.Failure? ==> r.error == BadDfMode(dfMode)
  {
    if dfMode == 1 || dfMode == 2 || ((dfMode == 3 || dfMode == 4) && breaksDown) then
      Success(2.0 * ints.neq)
    else if dfMode == 3 then
      Success(ints.neq + bulkPi * BulkDensity(ints, baryon, t, df, includeBaryon))
    else if dfMode == 4 then
      Success(df.z * ints.neqNeutral)
    else
      Failure(BadDfMode(dfMode))
  }

  /**
    The exact maximum is the fast maximum fed with the same densities: the
    equilibrium density (at zero chemical potential for PTB feqmod) and,
    where PTM feqmod needs it, the bulk density. Only that case divides by
    T and betabulk; every other mode is covered whatever their values.
   */
  lemma MaxAgreesWithFastMax(
    ints: ThermalIntegrals, baryon: real, t: real, bulkPi: real, df: BulkCoefficients,
    breaksDown: bool, dfMode: int, includeBaryon: bool)
    requires dfMode == 3 && !breaksDown ==> t != 0.0 && df.betabulk != 0.0
    requires 1 <= dfMode <= 4
    ensures MaxParticleNumber(ints, baryon, t, bulkPi, df, breaksDown, dfMode, includeBaryon).value
         == FastMaxParticleNumber(
              if dfMode == 4 && !breaksDown then ints.neqNeutral else ints.neq,
              if dfMode == 3 && !breaksDown then BulkDensity(ints, baryon, t, df, includeBaryon) else 0.0,
              bulkPi, df.z, breaksDown, dfMode).value
  {
  }

  // ---------------------------------------------------------------------
  // Bulk pressure regulation
  // ---------------------------------------------------------------------

  /** The margin kept inside the PTB feqmod interpolation range: 1e-5. */
  const RegulationMargin: real := 0.00001

  /**
    For PTB feqmod (mode 4) the bulk pressure is pulled back inside
    -P < bulkPi and bulkPi / P < bulkPi_over_Peq_max; other modes keep it.
    The ratio is taken in floating point, so P == 0 is not an error.
   */
  function RegulateBulkPi(dfMode: int, bulkPi: real, p: real, ratioMax: real): (r: real)
    ensures dfMode != 4 ==> r == bulkPi
    ensures dfMode == 4 && 0.0 < p && 0.0 < ratioMax ==> -p < r && r / p < ratioMax
    ensures dfMode == 4 && 0.0 < p && -p < bulkPi && bulkPi / p < ratioMax ==> r == bulkPi
    ensures dfMode == 4 && p == 0.0 ==> r == 0.0
  {
    CancelFactor(p, -(1.0 - RegulationMargin));
    CancelFactor(p, ratioMax - RegulationMargin);
    ZeroFactor(p, ratioMax - RegulationMargin);
    ScaleAboveMinusOne(p, ratioMax - RegulationMargin);
    if dfMode != 4 then bulkPi
    else if bulkPi <= -p then -(1.0 - RegulationMargin) * p
    else if AtLeast(Quotient(bulkPi, p), ratioMax) then p * (ratioMax - RegulationMargin)
    else bulkPi
  }

  /** Regulating twice changes nothing more than regulating once. */
  lemma RegulateBulkPiIdempotent(bulkPi: real, p: real, ratioMax: real)
    requires 0.0 < p && 0.0 < ratioMax
    ensures RegulateBulkPi(4, RegulateBulkPi(4, bulkPi, p, ratioMax), p, ratioMax)
         == RegulateBulkPi(4, bulkPi, p, ratioMax)
  {
  }

  // ---------------------------------------------------------------------
  // Rejection weights
  // ---------------------------------------------------------------------

  /** max(-1, min(1, x)): the regulated relative delta-f correction. */
  function RegulateCorrection(x: real): (r: real)
    ensures -1.0 <= r <= 1.0
    ensures -1.0 <= x <= 1.0 ==> r == x
    ensures x < -1.0 ==> r == -1.0
    ensures 1.0 < x ==> r == 1.0
  {
    if 1.0 < x then 1.0 else if x < -1.0 then -1.0 else x
  }

  /** The weight (1 + df_reg) / 2 of a linear correction. */
  function CorrectionWeight(x: real): (w: real)
    ensures 0.0 <= w <= 1.0
  {
    (1.0 + RegulateCorrection(x)) / 2.0
  }

  /** The weight is 1 exactly when the correction is at least +1, 0 exactly when at most -1, 1/2 when there is none. */
  lemma CorrectionWeightExtremes(x: real)
    ensures CorrectionWeight(x) == 1.0 <==> 1.0 <= x
    ensures CorrectionWeight(x) == 0.0 <==> x <= -1.0
    ensures CorrectionWeight(0.0) == 0.5
  {
  }

  /**
    The relative delta-f corrections a momentum may carry: the 14-moment
    one, the Chapman-Enskog one, and the linear one PTB feqmod uses when it
    breaks down (its feqbar already folded in).
   */
  datatype Corrections = Corrections(moment14: real, chapmanEnskog: real, ptbLinear: real)

  /**
    The viscous weight of a sampled momentum. The linear modes weigh by
    their correction; PTM feqmod weighs by 1, or falls back to
    Chapman-Enskog when it breaks down; PTB feqmod weighs by 1, or by its
    own linear correction when it breaks down.
   */
  function ViscousWeight(dfMode: int, breaksDown: bool, c: Corrections): (r: Result<real, SamplerError>)
    ensures r.Success? <==> 1 <= dfMode <= 4
    ensures r.Failure? ==> r.error == BadDfMode(dfMode)
    ensures r.Success? ==> 0.0 <= r.value <= 1.0
    ensures (dfMode == 3 || dfMode == 4) && !breaksDown ==> r == Success(1.0)
  {
    if dfMode == 1 then Success(CorrectionWeight(c.moment14))
    else if dfMode == 2 then Success(CorrectionWeight(c.chapmanEnskog))
    else if dfMode == 3 then
      if breaksDown then Success(CorrectionWeight(c.chapmanEnskog)) else Success(1.0)
    else if dfMode == 4 then
      if breaksDown then Success(CorrectionWeight(c.ptbLinear)) else Success(1.0)
    else Failure(BadDfMode(dfMode))
  }

  /** A PTM feqmod breakdown samples exactly like Chapman-Enskog. */
  lemma ViscousWeightPtmFallsBack(c: Corrections)
    ensures ViscousWeight(3, true, c) == ViscousWeight(2, false, c)
  {
  }

  /** A local-rest-frame momentum (E, px, py, pz). */
  datatype Momentum = Momentum(e: real, px: real, py: real, pz: real)

  /** A surface element's covariant components and the largest of their magnitudes. */
  datatype SurfaceElement = SurfaceElement(dst: real, dsx: real, dsy: real, dsz: real, dsMax: real)

  /** The flux p . dsigma through the surface element. */
  function Flux(p: Momentum, ds: SurfaceElement): real
  {
    p.e * ds.dst - p.px * ds.dsx - p.py * ds.dsy - p.pz * ds.dsz
  }

  /** max(0, x). */
  function PositivePart(x: real): real
  {
    if 0.0 < x then x else 0.0
  }

  /**
    The flux weight max(0, p . dsigma) / (E ds_max), a double: a zero
    denominator gives +inf or NaN rather than stopping.
   */
  function FluxWeight(p: Momentum, ds: SurfaceElement): (w: Num)
    ensures 0.0 < p.e * ds.dsMax ==> w.Finite? && 0.0 <= w.value
    ensures 0.0 < p.e * ds.dsMax ==> (w.value == 0.0 <==> Flux(p, ds) <= 0.0)
    ensures 0.0 < p.e * ds.dsMax && Flux(p, ds) <= p.e * ds.dsMax ==> w.value <= 1.0
    ensures p.e * ds.dsMax == 0.0 ==> (w == NaN <==> Flux(p, ds) <= 0.0)
  {
    QuotientFacts(PositivePart(Flux(p, ds)), p.e * ds.dsMax);
    Quotient(PositivePart(Flux(p, ds)), p.e * ds.dsMax)
  }

  /** A sampled momentum is kept when the uniform number u lies below the weight. */
  predicate Accepts(u: real, weight: Num)
  {
    Exceeds(weight, u)
  }

  /** The weight the linear and PTB feqmod samplers test: w_flux * w_visc. */
  function AcceptanceWeight(p: Momentum, ds: SurfaceElement, wVisc: real): Num
  {
    Scale(FluxWeight(p, ds), wVisc)
  }

  /** A momentum flowing into the surface (p . dsigma <= 0) is never emitted. */
  lemma InwardMomentumRejected(p: Momentum, ds: SurfaceElement, wVisc: real, u: real)
    requires 0.0 < p.e * ds.dsMax && 0.0 <= u && 0.0 <= wVisc
    requires Flux(p, ds) <= 0.0
    ensures !Accepts(u, AcceptanceWeight(p, ds, wVisc))
    ensures !Accepts(u, FluxWeight(p, ds))
  {
    ZeroFactor(FluxWeight(p, ds).value, wVisc);
  }

  /** With full weight and an outward flux of at least E ds_max, every u in [0, 1) accepts. */
  lemma FullWeightAccepted(p: Momentum, ds: SurfaceElement, u: real)
    requires 0.0 < p.e * ds.dsMax && p.e * ds.dsMax <= Flux(p, ds)
    requires 0.0 <= u < 1.0
    ensures Accepts(u, AcceptanceWeight(p, ds, 1.0))
  {
    FluxWeightAtLeastOne(p, ds);
  }

  /** An outward flux of at least E ds_max gives a flux weight of at least 1. */
  lemma FluxWeightAtLeastOne(p: Momentum, ds: SurfaceElement)
    requires 0.0 < p.e * ds.dsMax && p.e * ds.dsMax <= Flux(p, ds)
    ensures FluxWeight(p, ds).Finite? && 1.0 <= FluxWeight(p, ds).value
  {
    QuotientFacts(PositivePart(Flux(p, ds)), p.e * ds.dsMax);
  }
}
