/** The physical constants of the simulation (class Config): Earth's orbital
    radius and speed, and the two per-body tables, gravitational parameter GM in
    km^3/s^2 and mean radius in km, that the force model reads. */
module Constants {
  import opened RealMath

  /** Earth's orbital radius, one astronomical unit, km. */
  const R_EARTH: real := 149597870.7

  /** The Sun's GM, km^3/s^2; the same literal also fixes Earth's orbital speed. */
  const GM_SUN: real := 1.327e11

  /** The gravitational constant, converted from m^3 to km^3. */
  const G: real := 6.6743e-11 * 1e-9

  /** The ten bodies both tables describe. */
  const BODIES: set<string> :=
    {"sun", "mercury", "venus", "earth", "mars", "jupiter", "saturn", "uranus", "neptune", "pluto"}

  /** Earth's orbital speed, km/s: the speed of a circular orbit of radius
      R_EARTH about the Sun, sqrt(GM_SUN / R_EARTH). */
  function EarthSpeed(sqrt: real -> real): (v: real)
    requires IsSqrt(sqrt)
    ensures 0.0 < v && v * v == GM_SUN / R_EARTH
    ensures 25.0 < v < 35.0
  {
    var v := sqrt(1.327e11 / R_EARTH);
    SquaresOrdered(25.0, v);
    SquaresOrdered(v, 35.0);
    v
  }

  /** dict_GM: every body's gravitational parameter, the Sun and Earth as
      measured values, the others as G times the body's mass in kg. */
  function GravityTable(): (gm: map<string, real>)
    ensures gm.Keys == BODIES
    ensures forall body :: body in gm ==> 0.0 < gm[body]
    ensures 300000.0 < gm["earth"] < 500000.0
  {
    map[
      "sun" := 1.327e11,
      "mercury" := G * 330.2e21,
      "venus" := G * 4868.5e21,
      "earth" := 398600.4354360959,
      "mars" := G * 641.85e21,
      "jupiter" := G * 1.8986e27,
      "saturn" := G * 568460e21,
      "uranus" := G * 86832e21,
      "neptune" := G * 102430e21,
      "pluto" := G * 13.105e21
    ]
  }

  /** dict_planet_radius: every body's mean radius, km, the collision threshold
      of the force model. */
  function RadiusTable(): (radius: map<string, real>)
    ensures radius.Keys == BODIES
    ensures forall body :: body in radius ==> 0.0 < radius[body]
  {
    map[
      "sun" := 696000.0,
      "mercury" := 2439.7,
      "venus" := 6051.8,
      "earth" := 6371.0,
      "mars" := 3390.0,
      "jupiter" := 69911.0,
      "saturn" := 58232.0,
      "uranus" := 25362.0,
      "neptune" := 24622.0,
      "pluto" := 1185.0
    ]
  }

  /** The two tables describe the same bodies, so every body that has a GM also
      has a collision radius, and the Sun's GM is the literal the two-body model
      hard-codes. */
  lemma TablesAgree()
    ensures GravityTable().Keys == RadiusTable().Keys
    ensures "sun" in GravityTable() && GravityTable()["sun"] == GM_SUN
    ensures "earth" in RadiusTable() && RadiusTable()["earth"] == 6371.0
  {
  }
}
