/**
  The quantities that the relaxation driver derives for its OUTCAR report,
  over the reals: the unit conversions between the target pressure (kB), the
  optimiser's internal stress (eV/Å³) and the reported stress (kB), the
  external pressure, the enthalpy and the per-atom values.
 */
module Report {

  /** A symmetric stress tensor by its six independent components. */
  datatype Stress = Stress(xx: real, yy: real, zz: real, xy: real, yz: real, zx: real)

  /** kB·Å³ per eV: the pressure-volume conversion of the enthalpy. */
  const KbarCubicAngstromPerEv: real := 1602.17733

  /** `aim_stress`: the target pressure in kB, in the optimiser's units. */
  function TargetToInternal(pstress: real): (r: real)
    ensures r > 0.0 <==> pstress > 0.0
    ensures r == 0.0 <==> pstress == 0.0
    ensures InternalToReported(-r) == pstress
  {
    1.0 * pstress * 0.01 * 0.6242 / 10.0
  }

  /** One stress component as reported: divided by 0.01·0.6242, then scaled by -10. */
  function InternalToReported(x: real): (r: real)
    ensures r > 0.0 <==> x < 0.0
    ensures r == 0.0 <==> x == 0.0
  {
    x / (0.01 * 0.6242) * -10.0
  }

  function ReportStress(s: Stress): (r: Stress)
    ensures r.xx + r.yy + r.zz == InternalToReported(s.xx + s.yy + s.zz)
  {
    Stress(InternalToReported(s.xx), InternalToReported(s.yy), InternalToReported(s.zz),
           InternalToReported(s.xy), InternalToReported(s.yz), InternalToReported(s.zx))
  }

  /**
    The two conversions are inverse up to the sign flip between the
    optimiser's convention (compression is negative stress) and the report's
    (compression is positive pressure), in both directions.
   */
  lemma ConversionsInverse(p: real, x: real)
    ensures InternalToReported(-TargetToInternal(p)) == p
    ensures -TargetToInternal(InternalToReported(x)) == x
  {
  }

  /** `ext_pressure`: the mean of the diagonal stresses, less the target pressure. */
  function ExternalPressure(s: Stress, pstress: real): (p: real)
    ensures s.xx == s.yy && s.yy == s.zz ==> p == s.xx - pstress
    ensures p == 0.0 <==> s.xx + s.yy + s.zz == 3.0 * pstress
    ensures p < 0.0 <==> s.xx + s.yy + s.zz < 3.0 * pstress
  {
    (s.xx + s.yy + s.zz) / 3.0 - pstress
  }

  /**
    A cell that carries exactly the hydrostatic stress the optimiser aims at
    is reported at zero external pressure, whatever its shear components.
   */
  lemma RelaxedCellHasZeroExternalPressure(pstress: real, xy: real, yz: real, zx: real)
    ensures var aim := -TargetToInternal(pstress);
            ExternalPressure(ReportStress(Stress(aim, aim, aim, xy, yz, zx)), pstress) == 0.0
  {
    ConversionsInverse(pstress, 0.0);
  }

  /** `enthalpy`: energy (eV) plus the pressure-volume term converted to eV. */
  function Enthalpy(energy: real, pstress: real, volume: real): (h: real)
    ensures pstress == 0.0 ==> h == energy
    ensures h > energy <==> pstress * volume > 0.0
    ensures h < energy <==> pstress * volume < 0.0
    ensures (h - energy) * KbarCubicAngstromPerEv == pstress * volume
  {
    energy + pstress * volume / KbarCubicAngstromPerEv
  }

  /** `ene / na`, `enthalpy / na`. */
  function PerAtom(x: real, na: nat): (r: real)
    requires na > 0
    ensures r * (na as real) == x
    ensures x >= 0.0 <==> r >= 0.0
  {
    x / (na as real)
  }

  /** ASE's `get_stress`: Voigt order xx, yy, zz, yz, xz, xy. */
  function AseVoigt(t: Stress): (v: seq<real>)
    ensures |v| == 6
  {
    [t.xx, t.yy, t.zz, t.yz, t.zx, t.xy]
  }

  /**
    The six OUTCAR columns XX YY ZZ XY YZ ZX as the writer fills them: entry
    k of the stress vector goes under column k.
   */
  function ColumnsAsWritten(v: seq<real>): (c: Stress)
    requires |v| == 6
    ensures [c.xx, c.yy, c.zz, c.xy, c.yz, c.zx] == v
  {
    Stress(v[0], v[1], v[2], v[3], v[4], v[5])
  }

  /** Written in index order, a pure xy shear from ASE lands under ZX. */
  lemma ShearColumnsMislabelled()
    ensures var t := Stress(0.0, 0.0, 0.0, 1.0, 0.0, 0.0);
            ColumnsAsWritten(AseVoigt(t)) != t && ColumnsAsWritten(AseVoigt(t)).zx == t.xy
  {
    var t := Stress(0.0, 0.0, 0.0, 1.0, 0.0, 0.0);
    assert ColumnsAsWritten(AseVoigt(t)).xy == 0.0;
  }

  /** The columns in header order XX YY ZZ XY YZ ZX. */
  function HeaderOrder(s: Stress): seq<real> {
    [s.xx, s.yy, s.zz, s.xy, s.yz, s.zx]
  }

  /**
    The stress block as the writer emits it: entry k of ASE's vector,
    converted to kB with the report's sign, under column k.
   */
  function OutcarStressAsWritten(v: seq<real>): (r: Stress)
    requires |v| == 6
    ensures forall k :: 0 <= k < 6 ==> HeaderOrder(r)[k] == InternalToReported(v[k])
  {
    ReportStress(ColumnsAsWritten(v))
  }

  /**
    The written block agrees with the intended one iff the three shear
    components are equal; the diagonal, and so the pressure, always agrees.
   */
  lemma AsWrittenAgreesIffEqualShears(v: seq<real>)
    requires |v| == 6
    ensures OutcarStressAsWritten(v) == OutcarStress(v) <==> v[3] == v[4] == v[5]
    ensures HeaderOrder(OutcarStressAsWritten(v))[..3] == HeaderOrder(OutcarStress(v))[..3]
  {
    var w, c := OutcarStressAsWritten(v), OutcarStress(v);
    assert c == ReportStress(Columns(v));
    if w == c {
      assert InternalToReported(v[3]) == InternalToReported(v[5]);
      assert InternalToReported(v[4]) == InternalToReported(v[3]);
    }
  }

  /** The OUTCAR columns read from ASE's Voigt vector, each under its own heading. */
  function Columns(v: seq<real>): (c: Stress)
    requires |v| == 6
    ensures AseVoigt(c) == v
  {
    Stress(v[0], v[1], v[2], v[5], v[3], v[4])
  }

  lemma ColumnsRoundTrip(t: Stress)
    ensures Columns(AseVoigt(t)) == t
  {
  }

  /**
    The stress block of OUTCAR, from ASE's stress vector in eV/Å³: each
    component converted to kB with the report's sign, under its own heading.
   */
  function OutcarStress(v: seq<real>): (r: Stress)
    requires |v| == 6
    ensures forall t :: AseVoigt(t) == v ==> r == ReportStress(t)
  {
    ReportStress(Columns(v))
  }
}
