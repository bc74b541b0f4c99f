/** Orbital elements and their two halves, the `Orbit` component shared by all
    satellites of an orbit and the per-satellite `Satellite` component (the
    mean anomaly). `from_slice` is written identically in
    simulator/src/core/mod.rs and simulator/src/satellite/mod.rs, and is
    modelled once. `f32` values are modelled as `real`. */
module Elements {
  import opened Wrappers

  /** A `[f32; 6]` array. */
  type Slice6 = s: seq<real> | |s| == 6 witness [0.0, 0.0, 0.0, 0.0, 0.0, 0.0]

  datatype OrbitalElements = OrbitalElements(
    meanMotion: real,
    eccentricity: real,
    inclination: real,
    longitudeOfAscendingNode: real,
    argumentOfPeriapsis: real,
    meanAnomaly: real)

  datatype Orbit = Orbit(
    meanMotion: real,
    eccentricity: real,
    inclination: real,
    longitudeOfAscendingNode: real,
    argumentOfPeriapsis: real)

  datatype Satellite = Satellite(meanAnomaly: real)

  const InvalidEccentricity: string := "Invalid eccentricity"

  /** An elliptic (or circular) orbit. */
  predicate EllipticEccentricity(e: real)
  {
    0.0 <= e < 1.0
  }

  /** The six fields in declaration order, the layout `from_slice` reads. */
  function ToSlice(el: OrbitalElements): Slice6
  {
    [el.meanMotion, el.eccentricity, el.inclination,
     el.longitudeOfAscendingNode, el.argumentOfPeriapsis, el.meanAnomaly]
  }

  /** `OrbitalElements::from_slice`: the six slots become the six fields in
      declaration order, and the record is refused unless `0 <= e < 1`. */
  function FromSlice(data: Slice6): (r: Result<OrbitalElements, string>)
    ensures r.Err? <==> data[1] < 0.0 || data[1] >= 1.0
    ensures r.Err? ==> r.error == InvalidEccentricity
    ensures r.Ok? ==> ToSlice(r.value) == data && EllipticEccentricity(r.value.eccentricity)
  {
    var sate := OrbitalElements(data[0], data[1], data[2], data[3], data[4], data[5]);
    if sate.eccentricity < 0.0 || sate.eccentricity >= 1.0 then
      Err(InvalidEccentricity)
    else
      Ok(sate)
  }

  /** Writing a record out in slot order and reading it back gives it back
      exactly when its eccentricity is elliptic. */
  lemma FromSliceRoundTrip(el: OrbitalElements)
    ensures EllipticEccentricity(el.eccentricity) ==> FromSlice(ToSlice(el)) == Ok(el)
    ensures !EllipticEccentricity(el.eccentricity) ==> FromSlice(ToSlice(el)) == Err(InvalidEccentricity)
  {
  }

  /** Two slices that `from_slice` accepts give equal records only if they are
      equal: no slot is dropped. */
  lemma FromSliceInjective(d1: Slice6, d2: Slice6)
    requires FromSlice(d1).Ok? && FromSlice(d2).Ok?
    requires FromSlice(d1).value == FromSlice(d2).value
    ensures d1 == d2
  {
    assert ToSlice(FromSlice(d1).value) == d1;
  }

  /** `sep_out_mean_anomaly`: the five orbit elements and the mean anomaly. */
  function SepOutMeanAnomaly(el: OrbitalElements): (Orbit, real)
  {
    (Orbit(el.meanMotion, el.eccentricity, el.inclination,
           el.longitudeOfAscendingNode, el.argumentOfPeriapsis),
     el.meanAnomaly)
  }

  /** `from_orbit_n_sate`: the five orbit elements from `orbit`, the mean
      anomaly from `sate`. */
  function FromOrbitAndSatellite(orbit: Orbit, sate: Satellite): OrbitalElements
  {
    OrbitalElements(orbit.meanMotion, orbit.eccentricity, orbit.inclination,
                    orbit.longitudeOfAscendingNode, orbit.argumentOfPeriapsis,
                    sate.meanAnomaly)
  }

  /** Splitting and recombining loses nothing. */
  lemma SplitThenJoin(el: OrbitalElements)
    ensures var (orbit, anomaly) := SepOutMeanAnomaly(el);
      FromOrbitAndSatellite(orbit, Satellite(anomaly)) == el
  {
  }

  /** Recombining and splitting gives back the orbit and the satellite's mean
      anomaly. */
  lemma JoinThenSplit(orbit: Orbit, sate: Satellite)
    ensures SepOutMeanAnomaly(FromOrbitAndSatellite(orbit, sate)) == (orbit, sate.meanAnomaly)
  {
  }

  /** Every satellite of one orbit shares its five elements: the recombined
      records differ at most in the mean anomaly, and equal anomalies give
      equal records. */
  lemma SameOrbitDiffersOnlyInAnomaly(orbit: Orbit, s1: Satellite, s2: Satellite)
    ensures SepOutMeanAnomaly(FromOrbitAndSatellite(orbit, s1)).0 == SepOutMeanAnomaly(FromOrbitAndSatellite(orbit, s2)).0
    ensures FromOrbitAndSatellite(orbit, s1) == FromOrbitAndSatellite(orbit, s2) <==> s1 == s2
  {
  }
}
