/**
  The event-histogram analysis script: it sorts the rows of a particle list
  into pion, kaon and proton buckets of index-aligned pT / y / phi lists,
  keeps the midrapidity pT values of each bucket, and bins them with a
  fixed set of pT edges.

  Both of the script's loops start at index 1: the first row of the table
  and the first entry of every bucket are never looked at. The model keeps
  that behaviour.
 */
module HistogramEvent {
  import opened Wrappers
  import opened Floats

  /** One row of the particle list (columns mcid, tau, x, eta, E, px, py, pz). */
  datatype Particle = Particle(
    mcid: int, tau: real, x: real, eta: real,
    e: real, px: real, py: real, pz: real)

  /** The three species that get a bucket. */
  datatype Species = Pion | Kaon | Proton

  /** The Monte Carlo id of each bucketed species. */
  function Code(s: Species): int
  {
    match s
    case Pion => 211
    case Kaon => 321
    case Proton => 2212
  }

  /** Which bucket, if any, a Monte Carlo id belongs to. */
  function SpeciesOf(mcid: int): (r: Option<Species>)
    ensures r.Some? <==> mcid in {211, 321, 2212}
    ensures r.Some? ==> Code(r.value) == mcid
  {
    if mcid == 211 then Some(Pion)
    else if mcid == 321 then Some(Kaon)
    else if mcid == 2212 then Some(Proton)
    else None
  }

  /** The three quantities derived from one row. */
  datatype Kinematics = Kinematics(pT: real, y: Num, phi: Num)

  /** sqrt(px^2 + py^2). */
  function TransverseMomentum(t: Transcendentals, px: real, py: real): real
  {
    t.sqrt(px * px + py * py)
  }

  /** With a lawful sqrt, pT is the non-negative root of px^2 + py^2. */
  lemma TransverseMomentumIsRoot(t: Transcendentals, px: real, py: real)
    requires SqrtLaw(t.sqrt)
    ensures var pT := TransverseMomentum(t, px, py);
      0.0 <= pT && pT * pT == px * px + py * py
  {
    assert 0.0 <= px * px + py * py;
  }

  /** A quotient is positive exactly when the product of its operands is. */
  lemma QuotientSign(a: real, b: real)
    requires b != 0.0
    ensures 0.0 < a / b <==> 0.0 < a * b
  {
    var q := a / b;
    assert a == q * b;
    assert a * b == q * (b * b);
    assert 0.0 < b * b;
  }

  /** 0.5 * log((E + pz) / (E - pz)), with the script's floating-point behaviour. */
  function Rapidity(t: Transcendentals, e: real, pz: real): Result<Num, MathError>
  {
    match Log(t, Quotient(e + pz, e - pz))
    case Success(l) => Success(Half(l))
    case Failure(err) => Failure(err)
  }

  /**
    When the rapidity raises and what it is otherwise: finite strictly
    inside the light cone, +inf at E == pz > 0, NaN at E == pz == 0; it
    raises when (E + pz) / (E - pz) is not positive.
   */
  lemma RapidityDomain(t: Transcendentals, e: real, pz: real)
    ensures var r := Rapidity(t, e, pz);
      && (e != pz ==> (r.Failure? <==> (e + pz) * (e - pz) <= 0.0))
      && (e == pz ==> (r.Failure? <==> e < 0.0))
      && (e == pz && e > 0.0 ==> r == Success(Infinite(false)))
      && (e == pz == 0.0 ==> r == Success(NaN))
      && (-e < pz < e ==> r.Success? && r.value.Finite?)
  {
    if e != pz {
      QuotientSign(e + pz, e - pz);
    }
  }

  /** atan(py / px): single-argument, so the angle is folded into (-pi/2, pi/2). */
  function AzimuthalAngle(t: Transcendentals, px: real, py: real): Num
  {
    Atan(t, Quotient(py, px))
  }

  /** px == 0 gives plus or minus pi/2 (NaN when py == 0 too); otherwise atan(py / px). */
  lemma AzimuthalAngleCases(t: Transcendentals, px: real, py: real)
    ensures var phi := AzimuthalAngle(t, px, py);
      && (px != 0.0 ==> phi == Finite(t.atan(py / px)))
      && (px == 0.0 && py > 0.0 ==> phi == Finite(t.halfPi))
      && (px == 0.0 && py < 0.0 ==> phi == Finite(-t.halfPi))
      && (phi.NaN? <==> px == 0.0 && py == 0.0)
  {
  }

  /** Rapidity is odd in pz inside the light cone: y(E, -pz) == -y(E, pz). */
  lemma RapidityIsOdd(t: Transcendentals, e: real, pz: real)
    requires LnLaw(t.ln)
    requires -e < pz < e
    ensures Rapidity(t, e, -pz) == Success(Negate(Rapidity(t, e, pz).value))
  {
    var q := (e + pz) / (e - pz);
    var q' := (e + -pz) / (e - -pz);
    assert q * (e - pz) == e + pz;
    assert q' * (e + pz) == e - pz;
    assert q * q' * ((e - pz) * (e + pz)) == (e + pz) * (e - pz);
    assert q * q' == 1.0;
    QuotientSign(e + pz, e - pz);
    QuotientSign(e - pz, e + pz);
    assert 0.0 < q && 0.0 < q';
    assert t.ln(q') == -t.ln(q);
  }

  /** The kinematics of one row; fails exactly when the rapidity's log fails. */
  function DeriveRow(t: Transcendentals, p: Particle): Result<Kinematics, MathError>
  {
    match Rapidity(t, p.e, p.pz)
    case Failure(err) => Failure(err)
    case Success(y) => Success(Kinematics(TransverseMomentum(t, p.px, p.py), y, AzimuthalAngle(t, p.px, p.py)))
  }

  /** Index-aligned pT, y and phi lists of one species. */
  datatype Bucket = Bucket(pT: seq<real>, y: seq<Num>, phi: seq<Num>)
  {
    predicate Aligned()
    {
      |pT| == |y| == |phi|
    }

    function Append(k: Kinematics): Bucket
    {
      Bucket(pT + [k.pT], y + [k.y], phi + [k.phi])
    }
  }

  const EmptyBucket := Bucket([], [], [])

  datatype Buckets = Buckets(pion: Bucket, kaon: Bucket, proton: Bucket)
  {
    function Get(s: Species): Bucket
    {
      match s
      case Pion => pion
      case Kaon => kaon
      case Proton => proton
    }

    /** Appends `k` to the bucket of species `s`, leaving the other two alone. */
    function Add(s: Species, k: Kinematics): Buckets
    {
      match s
      case Pion => this.(pion := pion.Append(k))
      case Kaon => this.(kaon := kaon.Append(k))
      case Proton => this.(proton := proton.Append(k))
    }
  }

  predicate StrictlyIncreasing(s: seq<nat>)
  {
    forall i, j :: 0 <= i < j < |s| ==> s[i] < s[j]
  }

  /**
    The rows of species `s` among rows 1 .. n-1, in table order: the rows
    whose kinematics the script puts into that species' bucket.
   */
  function {:induction false} SpeciesRows(table: seq<Particle>, s: Species, n: nat): (rows: seq<nat>)
    requires n <= |table|
    ensures StrictlyIncreasing(rows)
    ensures forall k :: 0 <= k < |rows| ==> 1 <= rows[k] < n && table[rows[k]].mcid == Code(s)
    ensures forall i :: 1 <= i < n && table[i].mcid == Code(s) ==> i in rows
  {
    if n <= 1 then []
    else
      var before := SpeciesRows(table, s, n - 1);
      if table[n - 1].mcid == Code(s) then
        var rows := before + [n - 1];
        assert forall k :: 0 <= k < |before| ==> rows[k] == before[k];
        assert rows[|before|] == n - 1;
        assert forall i :: 1 <= i < n - 1 && table[i].mcid == Code(s) ==> i in before;
        rows
      else before
  }

  /** `b` holds, in order, exactly the kinematics of `rows`. */
  ghost predicate Describes(b: Bucket, t: Transcendentals, table: seq<Particle>, rows: seq<nat>)
  {
    && b.Aligned()
    && |b.pT| == |rows|
    && forall k :: 0 <= k < |rows| ==>
         rows[k] < |table| && DeriveRow(t, table[rows[k]]) == Success(Kinematics(b.pT[k], b.y[k], b.phi[k]))
  }

  /** Every bucketed row among 1 .. n-1 has defined kinematics. */
  ghost predicate TrackedRowsDerive(t: Transcendentals, table: seq<Particle>, n: nat)
    requires n <= |table|
  {
    forall i :: 1 <= i < n && SpeciesOf(table[i].mcid).Some? ==> DeriveRow(t, table[i]).Success?
  }

  /**
    The state of the bucketing loop after rows 1 .. n-1: each row of a
    tracked species is derived and appended to its bucket; a row whose
    rapidity raises ends the script.
   */
  function {:induction false} BucketsUpTo(t: Transcendentals, table: seq<Particle>, n: nat): (r: Result<Buckets, MathError>)
    requires n <= |table|
    ensures r.Success? <==> TrackedRowsDerive(t, table, n)
    ensures r.Success? ==> forall s :: Describes(r.value.Get(s), t, table, SpeciesRows(table, s, n))
  {
    if n <= 1 then Success(Buckets(EmptyBucket, EmptyBucket, EmptyBucket))
    else
      var i := n - 1;
      match BucketsUpTo(t, table, i)
      case Failure(err) => Failure(err)
      case Success(bs) =>
        match SpeciesOf(table[i].mcid)
        case None => Success(bs)
        case Some(s) =>
          match DeriveRow(t, table[i])
          case Failure(err) => Failure(err)
          case Success(k) =>
            AddDescribes(bs, t, table, n, s, k);
            Success(bs.Add(s, k))
  }

  /** Appending the kinematics of row i to a bucket that describes `rows` describes `rows + [i]`. */
  lemma AppendDescribes(b: Bucket, t: Transcendentals, table: seq<Particle>, rows: seq<nat>, i: nat, k: Kinematics)
    requires Describes(b, t, table, rows)
    requires i < |table| && DeriveRow(t, table[i]) == Success(k)
    ensures Describes(b.Append(k), t, table, rows + [i])
  {
    var b' := b.Append(k);
    var rows' := rows + [i];
    forall j | 0 <= j < |rows'|
      ensures rows'[j] < |table|
      ensures DeriveRow(t, table[rows'[j]]) == Success(Kinematics(b'.pT[j], b'.y[j], b'.phi[j]))
    {
      if j < |rows| {
        assert rows'[j] == rows[j];
        assert b'.pT[j] == b.pT[j] && b'.y[j] == b.y[j] && b'.phi[j] == b.phi[j];
      } else {
        assert rows'[j] == i;
        assert b'.pT[j] == k.pT && b'.y[j] == k.y && b'.phi[j] == k.phi;
      }
    }
  }

  /** One step of the bucketing loop keeps every bucket describing its species' rows. */
  lemma AddDescribes(bs: Buckets, t: Transcendentals, table: seq<Particle>, n: nat, s: Species, k: Kinematics)
    requires 2 <= n <= |table|
    requires forall s' :: Describes(bs.Get(s'), t, table, SpeciesRows(table, s', n - 1))
    requires table[n - 1].mcid == Code(s) && DeriveRow(t, table[n - 1]) == Success(k)
    ensures forall s' :: Describes(bs.Add(s, k).Get(s'), t, table, SpeciesRows(table, s', n))
  {
    forall s' ensures Describes(bs.Add(s, k).Get(s'), t, table, SpeciesRows(table, s', n)) {
      if s' == s {
        assert bs.Add(s, k).Get(s) == bs.Get(s).Append(k);
        assert SpeciesRows(table, s, n) == SpeciesRows(table, s, n - 1) + [n - 1];
        AppendDescribes(bs.Get(s), t, table, SpeciesRows(table, s, n - 1), n - 1, k);
      } else {
        assert Code(s') != Code(s);
        assert bs.Add(s, k).Get(s') == bs.Get(s');
        assert SpeciesRows(table, s', n) == SpeciesRows(table, s', n - 1);
      }
    }
  }

  /** The whole bucketing loop, `for i in range(1, len(E))`. */
  function SortIntoBuckets(t: Transcendentals, table: seq<Particle>): (r: Result<Buckets, MathError>)
    ensures r.Success? <==> forall i :: 1 <= i < |table| && SpeciesOf(table[i].mcid).Some? ==> DeriveRow(t, table[i]).Success?
    ensures r.Success? ==> forall s :: Describes(r.value.Get(s), t, table, SpeciesRows(table, s, |table|))
  {
    BucketsUpTo(t, table, |table|)
  }

  /** The row at index 0 is in no bucket, and no row is in two buckets. */
  lemma RowsAreDisjointAndSkipRowZero(table: seq<Particle>, s1: Species, s2: Species, i: nat)
    requires i in SpeciesRows(table, s1, |table|)
    ensures 1 <= i < |table|
    ensures table[i].mcid == Code(s1)
    ensures s1 != s2 ==> i !in SpeciesRows(table, s2, |table|)
  {
  }

  /** A row is bucketed under species s exactly when it is not row 0 and its id is s's code. */
  lemma SpeciesRowsExact(table: seq<Particle>, s: Species, i: int)
    ensures i in SpeciesRows(table, s, |table|) <==> 1 <= i < |table| && table[i].mcid == Code(s)
  {
  }

  /** The rapidity cut of the script. */
  const YMax: real := 0.5

  /** The bucket indices 1 .. n-1 whose rapidity passes the cut, in order. */
  function {:induction false} KeptIndices(y: seq<Num>, ymax: real, n: nat): (idx: seq<nat>)
    requires n <= |y|
    ensures StrictlyIncreasing(idx)
    ensures forall k :: 0 <= k < |idx| ==> 1 <= idx[k] < n && AbsBelow(y[idx[k]], ymax)
    ensures forall i :: 1 <= i < n && AbsBelow(y[i], ymax) ==> i in idx
  {
    if n <= 1 then []
    else
      var before := KeptIndices(y, ymax, n - 1);
      if AbsBelow(y[n - 1], ymax) then
        var idx := before + [n - 1];
        assert forall k :: 0 <= k < |before| ==> idx[k] == before[k];
        assert idx[|before|] == n - 1;
        assert forall i :: 1 <= i < n - 1 && AbsBelow(y[i], ymax) ==> i in before;
        idx
      else before
  }

  /** The entries of `s` at the positions `idx`. */
  function Pick<T>(s: seq<T>, idx: seq<nat>): (r: seq<T>)
    requires forall k :: 0 <= k < |idx| ==> idx[k] < |s|
    ensures |r| == |idx|
    ensures forall k :: 0 <= k < |idx| ==> r[k] == s[idx[k]]
  {
    seq(|idx|, k requires 0 <= k < |idx| => s[idx[k]])
  }

  /**
    The state of a midrapidity loop after bucket indices 1 .. n-1: the pT
    values whose paired rapidity passes the cut, in bucket order.
   */
  function {:induction false} MidrapidityUpTo(b: Bucket, ymax: real, n: nat): (mid: seq<real>)
    requires n <= |b.pT| <= |b.y|
    ensures mid == Pick(b.pT, KeptIndices(b.y, ymax, n))
  {
    if n <= 1 then []
    else
      var before := MidrapidityUpTo(b, ymax, n - 1);
      if AbsBelow(b.y[n - 1], ymax) then before + [b.pT[n - 1]] else before
  }

  /** One midrapidity loop, `for i in range(1, len(pT))`. */
  function Midrapidity(b: Bucket, ymax: real): (mid: seq<real>)
    requires |b.pT| <= |b.y|
    ensures mid == Pick(b.pT, KeptIndices(b.y, ymax, |b.pT|))
  {
    MidrapidityUpTo(b, ymax, |b.pT|)
  }

  /** `a` is `b` with some entries removed, order kept. */
  ghost predicate IsSubsequence<T>(a: seq<T>, b: seq<T>)
  {
    exists idx: seq<nat> ::
      && |idx| == |a|
      && StrictlyIncreasing(idx)
      && forall k :: 0 <= k < |idx| ==> idx[k] < |b| && a[k] == b[idx[k]]
  }

  /**
    The midrapidity list is an order-preserving subsequence of the bucket's
    pT list that never uses the bucket's entry 0; MidrapidityExact says
    which entries it keeps.
   */
  lemma MidrapidityIsSubsequence(b: Bucket, ymax: real)
    requires |b.pT| <= |b.y| && 1 <= |b.pT|
    ensures IsSubsequence(Midrapidity(b, ymax), b.pT[1..])
  {
    var idx := KeptIndices(b.y, ymax, |b.pT|);
    var mid := Midrapidity(b, ymax);
    var shifted := seq(|idx|, k requires 0 <= k < |idx| => idx[k] - 1);
    assert forall k :: 0 <= k < |shifted| ==> shifted[k] < |b.pT[1..]| && mid[k] == b.pT[1..][shifted[k]];
    assert StrictlyIncreasing(shifted);
  }

  /** Bucket index i >= 1 contributes to the midrapidity list exactly when |y[i]| < ymax. */
  lemma MidrapidityExact(b: Bucket, ymax: real, i: int)
    requires |b.pT| <= |b.y|
    ensures i in KeptIndices(b.y, ymax, |b.pT|) <==> 1 <= i < |b.pT| && AbsBelow(b.y[i], ymax)
  {
  }

  /** Every pT in a bucket is sqrt(px^2 + py^2) of the row it came from. */
  lemma BucketPtIsTransverseMomentum(t: Transcendentals, table: seq<Particle>, s: Species, k: int)
    requires SortIntoBuckets(t, table).Success?
    requires 0 <= k < |SortIntoBuckets(t, table).value.Get(s).pT|
    ensures var row := table[SpeciesRows(table, s, |table|)[k]];
      var pT := SortIntoBuckets(t, table).value.Get(s).pT[k];
      pT == TransverseMomentum(t, row.px, row.py)
  {
    var rows := SpeciesRows(table, s, |table|);
    var b := SortIntoBuckets(t, table).value.Get(s);
    assert Describes(b, t, table, rows);
    var row := table[rows[k]];
    assert DeriveRow(t, row) == Success(Kinematics(b.pT[k], b.y[k], b.phi[k]));
  }

  /** Hence, with a lawful sqrt, every pT of a bucket is non-negative and squares to px^2 + py^2 of its row. */
  lemma BucketPtIsRoot(b: Bucket, t: Transcendentals, table: seq<Particle>, rows: seq<nat>, k: int)
    requires SqrtLaw(t.sqrt)
    requires Describes(b, t, table, rows)
    requires 0 <= k < |rows|
    ensures 0.0 <= b.pT[k] && b.pT[k] * b.pT[k] == table[rows[k]].px * table[rows[k]].px + table[rows[k]].py * table[rows[k]].py
  {
    var row := table[rows[k]];
    assert b.pT[k] == TransverseMomentum(t, row.px, row.py);
    TransverseMomentumIsRoot(t, row.px, row.py);
  }

  /** sqrt(1) == 1 for a lawful sqrt. */
  lemma SqrtOfOne(sqrt: real -> real)
    requires SqrtLaw(sqrt)
    ensures sqrt(1.0) == 1.0
  {
    var r := sqrt(1.0);
    assert 0.0 <= r && r * r == 1.0;
    assert r < 1.0 ==> r * r <= r * 1.0;
    assert r > 1.0 ==> r * r > r * 1.0;
  }

  /** ln(1) == 0 for a lawful ln. */
  lemma LnOfOne(ln: real -> real)
    requires LnLaw(ln)
    ensures ln(1.0) == 0.0
  {
    assert ln(1.0) == -ln(1.0);
  }

  /**
    A table whose only pion (px = 1, py = pz = 0, E = 1) sits at row 1:
    the pion bucket holds pT = 1 and y = 0, yet the midrapidity list is
    empty, because that pion is entry 0 of its bucket.
   */
  lemma SinglePionScenario(t: Transcendentals, first: Particle, pion: Particle)
    requires SqrtLaw(t.sqrt) && LnLaw(t.ln)
    requires pion.mcid == 211 && pion.px == 1.0 && pion.py == 0.0 && pion.pz == 0.0 && pion.e == 1.0
    ensures SortIntoBuckets(t, [first, pion]).Success?
    ensures SortIntoBuckets(t, [first, pion]).value.pion.pT == [1.0]
    ensures SortIntoBuckets(t, [first, pion]).value.pion.y == [Finite(0.0)]
    ensures Midrapidity(SortIntoBuckets(t, [first, pion]).value.pion, YMax) == []
  {
    SqrtOfOne(t.sqrt);
    LnOfOne(t.ln);
    SinglePionAtUnit(t, first, pion);
  }

  /** The scenario above, given sqrt(1) == 1 and ln(1) == 0. */
  lemma SinglePionAtUnit(t: Transcendentals, first: Particle, pion: Particle)
    requires t.sqrt(1.0) == 1.0 && t.ln(1.0) == 0.0
    requires pion.mcid == 211 && pion.px == 1.0 && pion.py == 0.0 && pion.pz == 0.0 && pion.e == 1.0
    ensures SortIntoBuckets(t, [first, pion]).Success?
    ensures SortIntoBuckets(t, [first, pion]).value.pion.pT == [1.0]
    ensures SortIntoBuckets(t, [first, pion]).value.pion.y == [Finite(0.0)]
    ensures Midrapidity(SortIntoBuckets(t, [first, pion]).value.pion, YMax) == []
  {
    var table := [first, pion];
    assert Quotient(1.0, 1.0) == Finite(1.0);
    assert Log(t, Finite(1.0)) == Success(Finite(0.0));
    assert Rapidity(t, 1.0, 0.0) == Success(Finite(0.0));
    assert TransverseMomentum(t, 1.0, 0.0) == 1.0;
    var k := Kinematics(1.0, Finite(0.0), AzimuthalAngle(t, 1.0, 0.0));
    assert DeriveRow(t, pion) == Success(k);
    var empty := Buckets(EmptyBucket, EmptyBucket, EmptyBucket);
    assert BucketsUpTo(t, table, 1) == Success(empty);
    assert SpeciesOf(table[1].mcid) == Some(Pion);
    assert BucketsUpTo(t, table, 2) == Success(empty.Add(Pion, k));
    var b := empty.Add(Pion, k).pion;
    assert b.pT == [1.0] && b.y == [Finite(0.0)];
    assert Midrapidity(b, YMax) == MidrapidityUpTo(b, YMax, 1);
  }

  /** The literal pT bin edges, which replace whatever the edge file held. */
  const PtBinEdges: seq<real> :=
    [0.0, 0.0072, 0.038, 0.094, 0.175, 0.28, 0.42, 0.58, 0.78, 1.01, 1.3, 1.6, 1.97, 2.4, 2.96, 3.7]

  /** Sixteen edges, strictly ascending from 0 to 3.7. */
  lemma PtBinEdgesAscending()
    ensures |PtBinEdges| == 16
    ensures PtBinEdges[0] == 0.0 && PtBinEdges[15] == 3.7
    ensures forall i, j :: 0 <= i < j < |PtBinEdges| ==> PtBinEdges[i] < PtBinEdges[j]
  {
  }
}
