/**
  The per-cell setup of the PTM famod sampler (df_mode 5): reconstructing
  the anisotropic variables (lambda, aT, aL) from the longitudinal and
  transverse pressures, with a retry and failure bookkeeping carried from
  cell to cell, and the momentum transformation matrix B = C . A, which
  falls back to the identity (equilibrium sampling) when the anisotropic
  distribution breaks down.

  The root finder and the famod coefficients are computed elsewhere: the
  root finder is a function from an initial guess to a solution or none,
  and the coefficients are parameters.
 */
module FamodSampler {
  import opened Wrappers
  import opened Matrices
  import opened RealFacts
  import EmissionFunction

  // ---------------------------------------------------------------------
  // Pressures
  // ---------------------------------------------------------------------

  /** pl = P + bulkPi + pi_zz. */
  function LongitudinalPressure(p: real, bulkPi: real, pizz: real): real
  {
    p + bulkPi + pizz
  }

  /** pt = P + bulkPi - pi_zz / 2. */
  function TransversePressure(p: real, bulkPi: real, pizz: real): real
  {
    p + bulkPi - pizz / 2.0
  }

  /** The split keeps the isotropic pressure: (pl + 2 pt) / 3 == P + bulkPi. */
  lemma PressuresAverageToIsotropic(p: real, bulkPi: real, pizz: real)
    ensures (LongitudinalPressure(p, bulkPi, pizz) + 2.0 * TransversePressure(p, bulkPi, pizz)) / 3.0 == p + bulkPi
    ensures LongitudinalPressure(p, bulkPi, pizz) - TransversePressure(p, bulkPi, pizz) == 3.0 * pizz / 2.0
  {
  }

  // ---------------------------------------------------------------------
  // Reconstruction of the anisotropic variables
  // ---------------------------------------------------------------------

  /** The anisotropic variables: effective temperature and transverse and longitudinal momentum scales. */
  datatype AnisoVariables = AnisoVariables(lambda: real, aT: real, aL: real)

  /** The default guess, which is also the result when reconstruction is skipped or fails: (T, 1, 1). */
  function Equilibrium(t: real): AnisoVariables
  {
    AnisoVariables(t, 1.0, 1.0)
  }

  /**
    What the sampler carries from one cell to the next: the last solution
    (meaningful only while `previousSuccess` holds), whether the last
    reconstruction succeeded, and the two failure counters.
   */
  datatype ReconstructionState = ReconstructionState(
    previous: AnisoVariables,
    previousSuccess: bool,
    reconstructionFail: nat,
    plptNegative: nat)

  /** Before the first cell: no success yet and both counters zero; `previous` is not yet set. */
  function InitialState(unset: AnisoVariables): (st: ReconstructionState)
    ensures !st.previousSuccess && st.reconstructionFail == 0 && st.plptNegative == 0
  {
    ReconstructionState(unset, false, 0, 0)
  }

  /**
    What one cell leaves behind: the new state, the anisotropic variables
    the famod coefficients are computed from, whether the anisotropic
    distribution breaks down, and the initial guesses handed to the root
    finder, in order.
   */
  datatype CellOutcome = CellOutcome(
    state: ReconstructionState,
    variables: AnisoVariables,
    breaksDown: bool,
    guesses: seq<AnisoVariables>)

  /** The guess the first attempt starts from: the last solution after a success, else equilibrium. */
  function FirstGuess(st: ReconstructionState, t: real): AnisoVariables
  {
    if st.previousSuccess then st.previous else Equilibrium(t)
  }

  /** Every initial guess in the list made the root finder fail. */
  predicate AllFailed(solve: AnisoVariables -> Option<AnisoVariables>, guesses: seq<AnisoVariables>)
  {
    forall i :: 0 <= i < |guesses| ==> solve(guesses[i]).None?
  }

  /**
    One cell of the reconstruction. A negative pl or pt skips it and counts
    in plpt_negative. Otherwise the root finder starts from FirstGuess; if
    that fails after a previous success it is tried once more from
    equilibrium. A final failure counts in reconstruction_fail and clears
    the success flag; a success is remembered as the next first guess.
   */
  function ReconstructCell(
    st: ReconstructionState, t: real, pl: real, pt: real,
    solve: AnisoVariables -> Option<AnisoVariables>): (o: CellOutcome)
    // a negative pressure: skipped, counted, nothing else changes
    ensures pl < 0.0 || pt < 0.0 ==>
      o.breaksDown && o.guesses == [] && o.variables == Equilibrium(t)
      && o.state == st.(plptNegative := st.plptNegative + 1)
    // the attempts: the first guess, then equilibrium exactly when a previous success failed to carry over
    ensures !(pl < 0.0 || pt < 0.0) ==> 1 <= |o.guesses| <= 2 && o.guesses[0] == FirstGuess(st, t)
    ensures |o.guesses| == 2 <==>
      !(pl < 0.0 || pt < 0.0) && st.previousSuccess && solve(st.previous).None?
    ensures |o.guesses| == 2 ==> o.guesses[1] == Equilibrium(t)
    // breakdown of the reconstruction means every attempt failed
    ensures !(pl < 0.0 || pt < 0.0) ==> (o.breaksDown <==> AllFailed(solve, o.guesses))
    ensures !(pl < 0.0 || pt < 0.0) && o.breaksDown ==>
      o.variables == Equilibrium(t)
      && o.state == st.(previousSuccess := false, reconstructionFail := st.reconstructionFail + 1)
    // a success is the root finder's answer to the last guess, and is remembered
    ensures !o.breaksDown ==>
      solve(o.guesses[|o.guesses| - 1]) == Some(o.variables)
      && o.state == st.(previous := o.variables, previousSuccess := true)
  {
    if pl < 0.0 || pt < 0.0 then
      CellOutcome(st.(plptNegative := st.plptNegative + 1), Equilibrium(t), true, [])
    else
      var first := FirstGuess(st, t);
      match solve(first)
      case Some(x) =>
        CellOutcome(st.(previous := x, previousSuccess := true), x, false, [first])
      case None =>
        if st.previousSuccess then
          match solve(Equilibrium(t))
          case Some(x) =>
            CellOutcome(st.(previous := x, previousSuccess := true), x, false, [first, Equilibrium(t)])
          case None =>
            CellOutcome(
              st.(previousSuccess := false, reconstructionFail := st.reconstructionFail + 1),
              Equilibrium(t), true, [first, Equilibrium(t)])
        else
          CellOutcome(
            st.(previousSuccess := false, reconstructionFail := st.reconstructionFail + 1),
            Equilibrium(t), true, [first])
  }

  /** Each cell adds one to exactly one counter when it breaks down, and to none otherwise. */
  lemma ReconstructCellCounts(
    st: ReconstructionState, t: real, pl: real, pt: real, solve: AnisoVariables -> Option<AnisoVariables>)
    ensures var o := ReconstructCell(st, t, pl, pt, solve);
      o.state.reconstructionFail + o.state.plptNegative
        == st.reconstructionFail + st.plptNegative + (if o.breaksDown then 1 else 0)
  {
  }

  /**
    A freeze-out cell as the reconstruction sees it: the flux u . dsigma of
    the fluid through it, T, pl, pt and its root finder.
   */
  datatype Cell = Cell(uDotSigma: real, t: real, pl: real, pt: real, solve: AnisoVariables -> Option<AnisoVariables>)

  /** Only cells the fluid flows out of (u . dsigma > 0) are reconstructed; the rest are skipped outright. */
  predicate Outward(c: Cell)
  {
    0.0 < c.uDotSigma
  }

  /** The outcome of an outward cell reconstructed from the state st. */
  function CellStep(st: ReconstructionState, c: Cell): CellOutcome
  {
    ReconstructCell(st, c.t, c.pl, c.pt, c.solve)
  }

  /**
    The final state and, per cell, the outcome of its reconstruction, or
    none for a skipped cell.
   */
  datatype RunResult = RunResult(final: ReconstructionState, outcomes: seq<Option<CellOutcome>>)

  /**
    The reconstruction over a sequence of cells, in order. An outward cell
    starts from the state the last reconstructed cell left; a skipped cell
    leaves that state alone.
   */
  function ReconstructCells(st: ReconstructionState, cells: seq<Cell>): (r: RunResult)
    ensures |r.outcomes| == |cells|
    ensures forall i :: 0 <= i < |cells| ==> (r.outcomes[i].Some? <==> Outward(cells[i]))
    ensures |cells| > 0 && Outward(cells[0]) ==> r.outcomes[0] == Some(CellStep(st, cells[0]))
    ensures (forall i :: 0 <= i < |cells| ==> !Outward(cells[i])) ==> r.final == st
    decreases |cells|
  {
    if |cells| == 0 then RunResult(st, [])
    else if !Outward(cells[0]) then
      var rest := ReconstructCells(st, cells[1..]);
      RunResult(rest.final, [None] + rest.outcomes)
    else
      var o := CellStep(st, cells[0]);
      var rest := ReconstructCells(o.state, cells[1..]);
      RunResult(rest.final, [Some(o)] + rest.outcomes)
  }

  /** The outward cells, in order. */
  function {:induction false} OutwardCells(cells: seq<Cell>): (out: seq<Cell>)
    ensures forall i :: 0 <= i < |out| ==> Outward(out[i])
    ensures |out| <= |cells|
    ensures forall c :: c in out <==> c in cells && Outward(c)
    ensures (forall i :: 0 <= i < |cells| ==> Outward(cells[i])) ==> out == cells
  {
    if |cells| == 0 then []
    else if Outward(cells[0]) then [cells[0]] + OutwardCells(cells[1..])
    else OutwardCells(cells[1..])
  }

  /** The outcomes of the reconstructed cells, in order, without the skipped ones. */
  function Present(outcomes: seq<Option<CellOutcome>>): seq<CellOutcome>
  {
    if |outcomes| == 0 then []
    else if outcomes[0].Some? then [outcomes[0].value] + Present(outcomes[1..])
    else Present(outcomes[1..])
  }

  /**
    Skipping is transparent: the run over all cells ends in the same state,
    and reconstructs the same outcomes, as the run over the outward cells
    alone.
   */
  lemma {:induction false} SkippedCellsChangeNothing(st: ReconstructionState, cells: seq<Cell>)
    ensures ReconstructCells(st, cells).final == ReconstructCells(st, OutwardCells(cells)).final
    ensures Present(ReconstructCells(st, cells).outcomes) == Present(ReconstructCells(st, OutwardCells(cells)).outcomes)
    decreases |cells|
  {
    if |cells| > 0 {
      var r := ReconstructCells(st, cells);
      var out := OutwardCells(cells);
      if Outward(cells[0]) {
        var o := CellStep(st, cells[0]);
        SkippedCellsChangeNothing(o.state, cells[1..]);
        assert out[1..] == OutwardCells(cells[1..]);
        assert r.outcomes[1..] == ReconstructCells(o.state, cells[1..]).outcomes;
        assert ReconstructCells(st, out).outcomes[1..] == ReconstructCells(o.state, out[1..]).outcomes;
      } else {
        SkippedCellsChangeNothing(st, cells[1..]);
        assert r.outcomes[1..] == ReconstructCells(st, cells[1..]).outcomes;
      }
    }
  }

  /** The number of reconstructed cells whose anisotropic distribution broke down. */
  function CountBreakdowns(outcomes: seq<Option<CellOutcome>>): (n: nat)
    ensures n <= |outcomes|
  {
    if |outcomes| == 0 then 0
    else (if outcomes[0].Some? && outcomes[0].value.breaksDown then 1 else 0) + CountBreakdowns(outcomes[1..])
  }

  /**
    Over any run, the two counters grow by exactly the number of cells whose
    reconstruction was skipped for negative pressure or failed; cells skipped
    for an inward flux count nowhere.
   */
  lemma {:induction false} ReconstructCellsCounts(st: ReconstructionState, cells: seq<Cell>)
    ensures var r := ReconstructCells(st, cells);
      r.final.reconstructionFail + r.final.plptNegative
        == st.reconstructionFail + st.plptNegative + CountBreakdowns(r.outcomes)
    decreases |cells|
  {
    if |cells| > 0 {
      var r := ReconstructCells(st, cells);
      if Outward(cells[0]) {
        var o := CellStep(st, cells[0]);
        ReconstructCellCounts(st, cells[0].t, cells[0].pl, cells[0].pt, cells[0].solve);
        ReconstructCellsCounts(o.state, cells[1..]);
        assert r.outcomes[1..] == ReconstructCells(o.state, cells[1..]).outcomes;
      } else {
        ReconstructCellsCounts(st, cells[1..]);
        assert r.outcomes[1..] == ReconstructCells(st, cells[1..]).outcomes;
      }
    }
  }

  /** Starting from the initial state, the counters add up to the breakdowns of the run. */
  lemma FromInitialStateCounts(unset: AnisoVariables, cells: seq<Cell>)
    ensures var r := ReconstructCells(InitialState(unset), cells);
      r.final.reconstructionFail + r.final.plptNegative == CountBreakdowns(r.outcomes)
  {
    ReconstructCellsCounts(InitialState(unset), cells);
  }

  // ---------------------------------------------------------------------
  // Momentum transformation
  // ---------------------------------------------------------------------

  /** The residual shear piperp^{xx, xy, yy} and the shear-diffusion components W_perp^{zx, zy}. */
  datatype ResidualShear = ResidualShear(piTxx: real, piTxy: real, piTyy: real, wTzx: real, wTzy: real)

  /** The residual shear of a shear tensor, or none when shear corrections are off. */
  function ResidualShearOf(pi: EmissionFunction.ShearLRF, includeShear: bool): (r: ResidualShear)
    ensures r.piTyy == -r.piTxx
    ensures !includeShear ==> r == ResidualShear(0.0, 0.0, 0.0, 0.0, 0.0)
    ensures includeShear ==> r.piTxy == pi.xy && r.wTzx == pi.xz && r.wTzy == pi.yz
    ensures includeShear ==> r.piTxx - r.piTyy == pi.xx - pi.yy
  {
    if includeShear then
      var txx := (pi.xx - pi.yy) / 2.0;
      ResidualShear(txx, pi.xy, -txx, pi.xz, pi.yz)
    else
      ResidualShear(0.0, 0.0, 0.0, 0.0, 0.0)
  }

  /** A symmetric matrix from its upper triangle, the only entries the sampler reads. */
  function SymmetricFromUpper(xx: real, xy: real, xz: real, yy: real, yz: real, zz: real): (m: Mat3)
    ensures Symmetric(m)
  {
    Mat3(xx, xy, xz, xy, yy, yz, xz, yz, zz)
  }

  /** The leading-order deformation A = diag(aT, aT, aL). */
  function LeadingDeformation(v: AnisoVariables): Mat3
  {
    Diag(v.aT, v.aT, v.aL)
  }

  /** A shear-diffusion entry: the coefficient times W_perp times s, over q = aT + aL. */
  function DiffusionShare(diffCoeff: real, w: real, s: real, q: real): real
    requires q != 0.0
  {
    diffCoeff * w * s / q
  }

  /** The residual deformation C, built from the residual shear with coefficients 1/(2 betapiperp) and 1/betaWperp. */
  function ResidualDeformation(v: AnisoVariables, r: ResidualShear, shearCoeff: real, diffCoeff: real): Mat3
    requires v.aT + v.aL != 0.0
  {
    var cxy := shearCoeff * r.piTxy;
    Mat3(
      1.0 + shearCoeff * r.piTxx, cxy, DiffusionShare(diffCoeff, r.wTzx, v.aT, v.aT + v.aL),
      cxy, 1.0 + shearCoeff * r.piTyy, DiffusionShare(diffCoeff, r.wTzy, v.aT, v.aT + v.aL),
      DiffusionShare(diffCoeff, r.wTzx, v.aL, v.aT + v.aL), DiffusionShare(diffCoeff, r.wTzy, v.aL, v.aT + v.aL), 1.0)
  }

  /**
    The famod deformation B, written entry by entry from its upper
    triangle as the sampler writes it: the product C . A is what it means.
   */
  function FamodDeformation(v: AnisoVariables, r: ResidualShear, shearCoeff: real, diffCoeff: real): (b: Mat3)
    requires v.aT + v.aL != 0.0
    ensures Symmetric(b)
  {
    SymmetricFromUpper(
      v.aT + v.aT * shearCoeff * r.piTxx, v.aT * shearCoeff * r.piTxy, DiffusionShare(diffCoeff, r.wTzx, v.aT * v.aL, v.aT + v.aL),
      v.aT + v.aT * shearCoeff * r.piTyy, DiffusionShare(diffCoeff, r.wTzy, v.aT * v.aL, v.aT + v.aL),
      v.aL)
  }

  /** B = C . A: the entry-by-entry B is the product of the residual and leading deformations. */
  lemma FamodDeformationIsProduct(v: AnisoVariables, r: ResidualShear, shearCoeff: real, diffCoeff: real)
    requires v.aT + v.aL != 0.0
    ensures FamodDeformation(v, r, shearCoeff, diffCoeff)
         == Mul(ResidualDeformation(v, r, shearCoeff, diffCoeff), LeadingDeformation(v))
  {
    FamodColumns(v, r, shearCoeff, diffCoeff);
    forall c: Mat3, b: Mat3, aT: real, aL: real | ColumnsScaled(c, b, aT, aL)
      ensures Mul(c, Diag(aT, aT, aL)) == b
    {
      ScaledColumns(c, b, aT, aL);
    }
  }

  /** The columns of b are those of c scaled by aT, aT and aL. */
  predicate ColumnsScaled(c: Mat3, b: Mat3, aT: real, aL: real)
  {
    && c.xx * aT == b.xx && c.xy * aT == b.xy && c.xz * aL == b.xz
    && c.yx * aT == b.yx && c.yy * aT == b.yy && c.yz * aL == b.yz
    && c.zx * aT == b.zx && c.zy * aT == b.zy && c.zz * aL == b.zz
  }

  /** B's columns are C's scaled by aT, aT and aL. */
  lemma FamodColumns(v: AnisoVariables, r: ResidualShear, shearCoeff: real, diffCoeff: real)
    requires v.aT + v.aL != 0.0
    ensures ColumnsScaled(ResidualDeformation(v, r, shearCoeff, diffCoeff), FamodDeformation(v, r, shearCoeff, diffCoeff), v.aT, v.aL)
  {
    XDiffusionEntries(v, r, shearCoeff, diffCoeff);
    YDiffusionEntries(v, r, shearCoeff, diffCoeff);
    ShearEntries(v, r, shearCoeff, diffCoeff);
  }

  /** A matrix whose columns are those of c scaled by aT, aT and aL is c . diag(aT, aT, aL). */
  lemma ScaledColumns(c: Mat3, b: Mat3, aT: real, aL: real)
    requires ColumnsScaled(c, b, aT, aL)
    ensures Mul(c, Diag(aT, aT, aL)) == b
  {
    MulDiag(c, aT, aT, aL);
  }

  /** The xz and zx entries of B are those of C scaled by aL and aT. */
  lemma XDiffusionEntries(v: AnisoVariables, r: ResidualShear, shearCoeff: real, diffCoeff: real)
    requires v.aT + v.aL != 0.0
    ensures ResidualDeformation(v, r, shearCoeff, diffCoeff).xz * v.aL == FamodDeformation(v, r, shearCoeff, diffCoeff).xz
    ensures ResidualDeformation(v, r, shearCoeff, diffCoeff).zx * v.aT == FamodDeformation(v, r, shearCoeff, diffCoeff).zx
  {
    ShareScales(diffCoeff, r.wTzx, v.aT, v.aL, v.aT + v.aL);
  }

  /** The yz and zy entries of B are those of C scaled by aL and aT. */
  lemma YDiffusionEntries(v: AnisoVariables, r: ResidualShear, shearCoeff: real, diffCoeff: real)
    requires v.aT + v.aL != 0.0
    ensures ResidualDeformation(v, r, shearCoeff, diffCoeff).yz * v.aL == FamodDeformation(v, r, shearCoeff, diffCoeff).yz
    ensures ResidualDeformation(v, r, shearCoeff, diffCoeff).zy * v.aT == FamodDeformation(v, r, shearCoeff, diffCoeff).zy
  {
    ShareScales(diffCoeff, r.wTzy, v.aT, v.aL, v.aT + v.aL);
  }

  /** The transverse block and the zz entry of B are those of C scaled by aT and aL. */
  lemma ShearEntries(v: AnisoVariables, r: ResidualShear, shearCoeff: real, diffCoeff: real)
    requires v.aT + v.aL != 0.0
    ensures ResidualDeformation(v, r, shearCoeff, diffCoeff).xx * v.aT == FamodDeformation(v, r, shearCoeff, diffCoeff).xx
    ensures ResidualDeformation(v, r, shearCoeff, diffCoeff).yy * v.aT == FamodDeformation(v, r, shearCoeff, diffCoeff).yy
    ensures ResidualDeformation(v, r, shearCoeff, diffCoeff).xy * v.aT == FamodDeformation(v, r, shearCoeff, diffCoeff).xy
    ensures ResidualDeformation(v, r, shearCoeff, diffCoeff).yx * v.aT == FamodDeformation(v, r, shearCoeff, diffCoeff).yx
    ensures ResidualDeformation(v, r, shearCoeff, diffCoeff).zz * v.aL == FamodDeformation(v, r, shearCoeff, diffCoeff).zz
  {
    DistributeOne(v.aT, shearCoeff, r.piTxx);
    DistributeOne(v.aT, shearCoeff, r.piTyy);
    Commute3(v.aT, shearCoeff, r.piTxy);
  }

  /** (1 + s p) a == a + a s p. */
  lemma DistributeOne(a: real, s: real, p: real)
    ensures (1.0 + s * p) * a == a + a * s * p
  {
  }

  /** s p a == a s p. */
  lemma Commute3(a: real, s: real, p: real)
    ensures s * p * a == a * s * p
  {
  }

  /** Scaling a diffusion entry d w s / q by another factor multiplies it into s. */
  lemma ShareScales(d: real, w: real, x: real, y: real, q: real)
    requires q != 0.0
    ensures DiffusionShare(d, w, x, q) * y == DiffusionShare(d, w, x * y, q)
    ensures DiffusionShare(d, w, y, q) * x == DiffusionShare(d, w, x * y, q)
  {
    assert y * x == x * y;
  }

  /** The matrices of one cell and whether famod sampling is abandoned for equilibrium. */
  datatype Transform = Transform(detA: real, c: Mat3, detC: real, b: Mat3, detB: real, breaksDown: bool)

  /**
    The famod momentum transformation of a cell: detB = detC . detA, and
    the distribution breaks down when reconstruction already did or when
    detB <= detB_min, B then being the identity.
   */
  function FamodTransform(
    v: AnisoVariables, r: ResidualShear, shearCoeff: real, diffCoeff: real,
    detBMin: real, reconstructionBreaks: bool): (m: Transform)
    requires v.aT + v.aL != 0.0
    ensures m.breaksDown <==> reconstructionBreaks || m.detB <= detBMin
    ensures m.breaksDown ==> m.b == Identity
    ensures !m.breaksDown ==> m.b == FamodDeformation(v, r, shearCoeff, diffCoeff)
    ensures Symmetric(m.b)
    ensures m.c == ResidualDeformation(v, r, shearCoeff, diffCoeff)
  {
    var detA := v.aT * v.aT * v.aL;
    var c := ResidualDeformation(v, r, shearCoeff, diffCoeff);
    var detC := Det(c);
    var detB := detC * detA;
    var breaks := reconstructionBreaks || detB <= detBMin;
    Transform(detA, c, detC, if breaks then Identity else FamodDeformation(v, r, shearCoeff, diffCoeff), detB, breaks)
  }

  /** det B = det C . det A, for B written entry by entry. */
  lemma FamodDeformationDet(v: AnisoVariables, r: ResidualShear, shearCoeff: real, diffCoeff: real)
    requires v.aT + v.aL != 0.0
    ensures Det(FamodDeformation(v, r, shearCoeff, diffCoeff))
         == Det(ResidualDeformation(v, r, shearCoeff, diffCoeff)) * (v.aT * v.aT * v.aL)
  {
    // both facts are instantiated on the very terms of the goal, so that no product needs rewriting
    forall w: AnisoVariables, s: ResidualShear, sc: real, dc: real | w.aT + w.aL != 0.0
      ensures FamodDeformation(w, s, sc, dc) == Mul(ResidualDeformation(w, s, sc, dc), LeadingDeformation(w))
    {
      FamodDeformationIsProduct(w, s, sc, dc);
    }
    forall c: Mat3, a: real, d: real
      ensures Det(Mul(c, Diag(a, a, d))) == Det(c) * (a * a * d)
    {
      DetTimesDiag(c, a, a, d);
    }
  }

  /** detA is the determinant of the leading deformation A. */
  lemma FamodDetA(
    v: AnisoVariables, r: ResidualShear, shearCoeff: real, diffCoeff: real,
    detBMin: real, reconstructionBreaks: bool)
    requires v.aT + v.aL != 0.0
    ensures FamodTransform(v, r, shearCoeff, diffCoeff, detBMin, reconstructionBreaks).detA == Det(LeadingDeformation(v))
  {
    forall a: real, d: real
      ensures Det(Diag(a, a, d)) == a * a * d
    {
      DetDiag(a, a, d);
    }
  }

  /**
    detB = detC . detA is the determinant of the entry-by-entry B, so of the
    B the sampler uses wherever famod does not break down.
   */
  lemma FamodDetB(
    v: AnisoVariables, r: ResidualShear, shearCoeff: real, diffCoeff: real,
    detBMin: real, reconstructionBreaks: bool)
    requires v.aT + v.aL != 0.0
    ensures FamodTransform(v, r, shearCoeff, diffCoeff, detBMin, reconstructionBreaks).detB
         == Det(FamodDeformation(v, r, shearCoeff, diffCoeff))
    ensures var m := FamodTransform(v, r, shearCoeff, diffCoeff, detBMin, reconstructionBreaks);
      !m.breaksDown ==> m.detB == Det(m.b)
  {
    forall w: AnisoVariables, s: ResidualShear, sc: real, dc: real | w.aT + w.aL != 0.0
      ensures Det(FamodDeformation(w, s, sc, dc)) == Det(ResidualDeformation(w, s, sc, dc)) * (w.aT * w.aT * w.aL)
    {
      FamodDeformationDet(w, s, sc, dc);
    }
  }

  /** Without residual shear C is the identity. */
  lemma ResidualDeformationWithoutShear(v: AnisoVariables, shearCoeff: real, diffCoeff: real)
    requires v.aT + v.aL != 0.0
    ensures ResidualDeformation(v, ResidualShear(0.0, 0.0, 0.0, 0.0, 0.0), shearCoeff, diffCoeff) == Identity
  {
    ZeroFactor(0.0, shearCoeff);
    ZeroFactor(0.0, diffCoeff);
    ZeroFactor(0.0, v.aT);
    ZeroFactor(0.0, v.aL);
  }

  /** Without residual shear detC is 1, so detB is detA and only the momentum scales can break famod. */
  lemma FamodDetCWithoutShear(v: AnisoVariables, shearCoeff: real, diffCoeff: real)
    requires v.aT + v.aL != 0.0
    ensures Det(ResidualDeformation(v, ResidualShear(0.0, 0.0, 0.0, 0.0, 0.0), shearCoeff, diffCoeff)) == 1.0
  {
    ResidualDeformationWithoutShear(v, shearCoeff, diffCoeff);
    DetIdentity();
  }

  // ---------------------------------------------------------------------
  // One cell end to end
  // ---------------------------------------------------------------------

  /** The root finder never returns momentum scales that make aT + aL vanish. */
  ghost predicate ScalesNonDegenerate(solve: AnisoVariables -> Option<AnisoVariables>)
  {
    forall g :: solve(g).Some? ==> solve(g).value.aT + solve(g).value.aL != 0.0
  }

  /** Everything the famod sampler decides for one cell before drawing particles. */
  datatype CellSetup = CellSetup(outcome: CellOutcome, transform: Transform)

  /**
    Reconstruction followed by the transformation, with the famod
    coefficients computed from the reconstructed variables.
   */
  function FamodCell(
    st: ReconstructionState, t: real, p: real, bulkPi: real, pi: EmissionFunction.ShearLRF,
    includeShear: bool, solve: AnisoVariables -> Option<AnisoVariables>,
    coefficients: AnisoVariables -> (real, real), detBMin: real): (s: CellSetup)
    requires ScalesNonDegenerate(solve)
    // the reconstruction runs on the cell's own pressures
    ensures s.outcome == ReconstructCell(st, t, LongitudinalPressure(p, bulkPi, pi.zz), TransversePressure(p, bulkPi, pi.zz), solve)
    ensures s.outcome.variables.aT + s.outcome.variables.aL != 0.0
    // B falls back to the identity exactly on a failed reconstruction or a small detB
    ensures s.transform.breaksDown ==> s.transform.b == Identity
    ensures s.outcome.breaksDown ==> s.outcome.variables == Equilibrium(t)
    ensures s.transform.breaksDown <==>
      LongitudinalPressure(p, bulkPi, pi.zz) < 0.0 || TransversePressure(p, bulkPi, pi.zz) < 0.0
      || AllFailed(solve, s.outcome.guesses) || s.transform.detB <= detBMin
    // otherwise B is the famod deformation of the reconstructed variables, with their coefficients
    ensures !s.transform.breaksDown ==>
      s.transform.b == FamodDeformation(
        s.outcome.variables, ResidualShearOf(pi, includeShear),
        coefficients(s.outcome.variables).0, coefficients(s.outcome.variables).1)
  {
    var o := ReconstructCell(st, t, LongitudinalPressure(p, bulkPi, pi.zz), TransversePressure(p, bulkPi, pi.zz), solve);
    assert o.variables.aT + o.variables.aL != 0.0 by {
      if !o.breaksDown {
        assert solve(o.guesses[|o.guesses| - 1]) == Some(o.variables);
      }
    }
    var coeffs := coefficients(o.variables);
    var m := FamodTransform(o.variables, ResidualShearOf(pi, includeShear), coeffs.0, coeffs.1, detBMin, o.breaksDown);
    CellSetup(o, m)
  }

  /**
    Whenever the famod sampler keeps its deformation, B is the product C . A
    of the reconstructed variables and its determinant exceeds detB_min.
   */
  lemma FamodCellSamplesProduct(
    st: ReconstructionState, t: real, p: real, bulkPi: real, pi: EmissionFunction.ShearLRF,
    includeShear: bool, solve: AnisoVariables -> Option<AnisoVariables>,
    coefficients: AnisoVariables -> (real, real), detBMin: real)
    requires ScalesNonDegenerate(solve)
    ensures var s := FamodCell(st, t, p, bulkPi, pi, includeShear, solve, coefficients, detBMin);
      var v := s.outcome.variables;
      !s.transform.breaksDown ==>
        !s.outcome.breaksDown
        && s.transform.b == Mul(
             ResidualDeformation(v, ResidualShearOf(pi, includeShear), coefficients(v).0, coefficients(v).1),
             LeadingDeformation(v))
        && detBMin < Det(s.transform.b)
  {
    var s := FamodCell(st, t, p, bulkPi, pi, includeShear, solve, coefficients, detBMin);
    var v := s.outcome.variables;
    if !s.transform.breaksDown {
      var r := ResidualShearOf(pi, includeShear);
      FamodDeformationIsProduct(v, r, coefficients(v).0, coefficients(v).1);
      FamodDetB(v, r, coefficients(v).0, coefficients(v).1, detBMin, s.outcome.breaksDown);
    }
  }
}
