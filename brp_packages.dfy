/** `AddSatellite::as_slice` of brp_packages/src/lib.rs: a satellite given by
    apogee and perigee becomes the six-slot array `from_slice` reads. The mean
    motion `sqrt(μ / a³)`, with μ = 398600.4418 km³/s², uses `powf` and `sqrt` on
    floats and is a parameter applied to the semi-major axis
    `a = (apogee + perigee) / 2`. */
module BrpPackages {
  import opened Elements

  datatype AddSatellite = AddSatellite(
    apogee: real,
    perigee: real,
    inclination: real,
    longitudeOfAscendingNode: real,
    argumentOfPeriapsis: real,
    meanAnomaly: real)

  function SemiMajorAxis(s: AddSatellite): real
  {
    (s.apogee + s.perigee) / 2.0
  }

  /** `as_slice`: `[mean_motion, e, inclination, RAAN, argp, mean_anomaly]`
      with `e = (apogee - perigee) / (apogee + perigee)`. */
  function AsSlice(s: AddSatellite, meanMotionOf: real -> real): (r: Slice6)
    requires s.apogee + s.perigee != 0.0
    ensures r[1] * (s.apogee + s.perigee) == s.apogee - s.perigee
    ensures r[2] == s.inclination && r[3] == s.longitudeOfAscendingNode
    ensures r[4] == s.argumentOfPeriapsis && r[5] == s.meanAnomaly
  {
    var e := (s.apogee - s.perigee) / (s.apogee + s.perigee);
    var meanMotion := meanMotionOf(SemiMajorAxis(s));
    [meanMotion, e, s.inclination, s.longitudeOfAscendingNode, s.argumentOfPeriapsis, s.meanAnomaly]
  }

  /** A circular orbit has eccentricity 0. */
  lemma CircularOrbit(s: AddSatellite, meanMotionOf: real -> real)
    requires s.apogee == s.perigee && s.apogee + s.perigee != 0.0
    ensures AsSlice(s, meanMotionOf)[1] == 0.0
  {
    var e := AsSlice(s, meanMotionOf)[1];
    assert e * (s.apogee + s.perigee) == 0.0;
  }

  /** An apogee at least as high as a positive perigee gives an elliptic
      eccentricity, so `from_slice` accepts the array and keeps every slot. */
  lemma EllipticWhenApogeeAbovePerigee(s: AddSatellite, meanMotionOf: real -> real)
    requires s.apogee >= s.perigee > 0.0
    ensures EllipticEccentricity(AsSlice(s, meanMotionOf)[1])
    ensures FromSlice(AsSlice(s, meanMotionOf)).Ok?
    ensures ToSlice(FromSlice(AsSlice(s, meanMotionOf)).value) == AsSlice(s, meanMotionOf)
  {
    var sum := s.apogee + s.perigee;
    var e := AsSlice(s, meanMotionOf)[1];
    assert e * sum == s.apogee - s.perigee;
    assert 0.0 <= s.apogee - s.perigee < sum;
  }

  /** The mean-motion slot depends only on the semi-major axis: the angles
      never affect it, and two satellites with the same apogee + perigee get the
      same mean motion. */
  lemma MeanMotionFromSemiMajorAxis(s1: AddSatellite, s2: AddSatellite, meanMotionOf: real -> real)
    requires s1.apogee + s1.perigee != 0.0
    requires s1.apogee + s1.perigee == s2.apogee + s2.perigee
    ensures AsSlice(s1, meanMotionOf)[0] == AsSlice(s2, meanMotionOf)[0]
    ensures AsSlice(s1, meanMotionOf)[0] == meanMotionOf(SemiMajorAxis(s1))
  {
  }
}
