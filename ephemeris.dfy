/** Planet positions from the ephemeris: get_planet_coord (the positions of a list
    of bodies at one instant, as a dictionary keyed by body name) and
    get_planet_coord_timeseries (the same positions over a list of instants,
    one x, y and z series per body).

    The ephemeris itself (astropy's get_body_barycentric on the de432s kernel) is
    a parameter: a function from a body name and an instant, in seconds on a
    fixed time scale, to that body's barycentric position in km. */
module Ephemeris {

  /** A barycentric position, km. */
  datatype Position = Position(x: real, y: real, z: real)

  /** The ephemeris lookup, get_body_barycentric(body, Time(instant)). */
  type Lookup = (string, real) -> Position

  /** One entry of the coordinate dictionary, {"x": .., "y": .., "z": ..}. */
  datatype Coord = Coord(x: real, y: real, z: real)

  /** The three series of one body, {"x": [..], "y": [..], "z": [..]}. */
  datatype Track = Track(x: seq<real>, y: seq<real>, z: seq<real>)

  /** The dictionary entry built from a position. The program fills the "z" slot
      with the position's x coordinate, not its z coordinate. */
  function Entry(pos: Position): (c: Coord)
    ensures c.x == pos.x && c.y == pos.y
    ensures c.z == pos.x
  {
    Coord(pos.x, pos.y, pos.x)
  }

  /** The distinct names of a list. */
  function Names(planets: seq<string>): set<string>
  {
    set p | p in planets
  }

  /** What get_planet_coord returns: one entry per distinct name, holding that
      body's position at instant t (z replaced by x). */
  function CoordsAt(eph: Lookup, t: real, planets: seq<string>): (coords: map<string, Coord>)
    ensures coords.Keys == Names(planets)
    ensures forall p :: p in coords ==>
              coords[p].x == eph(p, t).x && coords[p].y == eph(p, t).y && coords[p].z == coords[p].x
  {
    map p | p in planets :: Entry(eph(p, t))
  }

  /** get_planet_coord: fill the dictionary body by body in list order; a
      repeated name overwrites its entry with the same position. */
  method GetPlanetCoord(eph: Lookup, t: real, planets: seq<string>) returns (coords: map<string, Coord>)
    ensures coords == CoordsAt(eph, t, planets)
  {
    coords := map[];
    var i := 0;
    while i < |planets|
      invariant 0 <= i <= |planets|
      invariant coords == CoordsAt(eph, t, planets[..i])
    {
      var pos := eph(planets[i], t);
      coords := coords[planets[i] := Coord(pos.x, pos.y, pos.x)];
      assert planets[..i + 1] == planets[..i] + [planets[i]];
      i := i + 1;
    }
    assert planets[..i] == planets;
  }

  /** The number of times p occurs in s. */
  function Count(p: string, s: seq<string>): (n: nat)
    ensures n <= |s|
    ensures n == 0 <==> p !in s
  {
    if |s| == 0 then 0
    else Count(p, s[..|s| - 1]) + (if s[|s| - 1] == p then 1 else 0)
  }

  /** n copies of c. */
  function Repeat(n: nat, c: Coord): (r: seq<Coord>)
    ensures |r| == n
    ensures forall i :: 0 <= i < n ==> r[i] == c
  {
    if n == 0 then [] else Repeat(n - 1, c) + [c]
  }

  /** The entries get_planet_coord_timeseries appends for body p when p occurs
      n times in the list: for every instant in order, n copies of p's entry at
      that instant. */
  function Samples(eph: Lookup, ts: seq<real>, p: string, n: nat): seq<Coord>
  {
    if |ts| == 0 then []
    else Samples(eph, ts[..|ts| - 1], p, n) + Repeat(n, Entry(eph(p, ts[|ts| - 1])))
  }

  /** The three series of a list of entries. */
  function TrackOf(s: seq<Coord>): (tr: Track)
    ensures |tr.x| == |tr.y| == |tr.z| == |s|
    ensures forall i :: 0 <= i < |s| ==> tr.x[i] == s[i].x && tr.y[i] == s[i].y && tr.z[i] == s[i].z
  {
    Track(seq(|s|, i requires 0 <= i < |s| => s[i].x),
          seq(|s|, i requires 0 <= i < |s| => s[i].y),
          seq(|s|, i requires 0 <= i < |s| => s[i].z))
  }

  /** One entry appended to each of the three series. */
  function Append(tr: Track, c: Coord): Track
  {
    Track(tr.x + [c.x], tr.y + [c.y], tr.z + [c.z])
  }

  /** What get_planet_coord_timeseries returns: one track per distinct name, its
      entries in the order of the instants, each instant contributing one entry
      per occurrence of the name in the list. */
  function CoordTimeseries(eph: Lookup, ts: seq<real>, planets: seq<string>): (r: map<string, Track>)
    ensures r.Keys == Names(planets)
    ensures |ts| == 0 ==> forall p :: p in r ==> r[p] == Track([], [], [])
  {
    map p | p in planets :: TrackOf(Samples(eph, ts, p, Count(p, planets)))
  }

  /** get_planet_coord_timeseries: initialise an empty track per name, then for
      every instant query get_planet_coord and append each listed body's entry,
      once per occurrence of its name; finally convert every list into an array,
      which leaves lengths and values as they are. */
  method GetPlanetCoordTimeseries(eph: Lookup, ts: seq<real>, planets: seq<string>)
    returns (tracks: map<string, Track>)
    ensures tracks == CoordTimeseries(eph, ts, planets)
  {
    tracks := map[];
    var i := 0;
    while i < |planets|
      invariant 0 <= i <= |planets|
      invariant tracks.Keys == Names(planets[..i])
      invariant forall q :: q in tracks ==> tracks[q] == Track([], [], [])
    {
      tracks := tracks[planets[i] := Track([], [], [])];
      assert planets[..i + 1] == planets[..i] + [planets[i]];
      i := i + 1;
    }
    assert planets[..i] == planets;

    var k := 0;
    while k < |ts|
      invariant 0 <= k <= |ts|
      invariant Filled(eph, ts, k, planets, tracks)
    {
      var coords := GetPlanetCoord(eph, ts[k], planets);
      InstantAppended(eph, ts, k, planets, coords, tracks);
      tracks := AppendInstant(planets, coords, tracks);
      k := k + 1;
    }
    assert ts[..k] == ts;

    // The conversion loop turns each list into an array: the same values in the
    // same order.
    var m := 0;
    ghost var converted := tracks;
    while m < |planets|
      invariant 0 <= m <= |planets|
      invariant tracks == converted
    {
      var p := planets[m];
      tracks := tracks[p := Track(tracks[p].x, tracks[p].y, tracks[p].z)];
      m := m + 1;
    }
  }

  /** The body of the loop over instants: append the entries of instant ts[k],
      read from get_planet_coord's dictionary `coords`, to the tracks of every
      listed body, once per occurrence. */
  method AppendInstant(planets: seq<string>, coords: map<string, Coord>, tracks: map<string, Track>)
    returns (r: map<string, Track>)
    requires Listed(planets, tracks, coords)
    ensures r == AppendEach(tracks, coords, planets)
  {
    r := tracks;
    var j := 0;
    while j < |planets|
      invariant 0 <= j <= |planets|
      invariant r.Keys == tracks.Keys
      invariant r == AppendEach(tracks, coords, planets[..j])
    {
      r := r[planets[j] := Append(r[planets[j]], coords[planets[j]])];
      assert planets[..j + 1][..j] == planets[..j];
      j := j + 1;
    }
    assert planets[..j] == planets;
  }

  /** Appending the entries of instant k to the tracks of the first k instants
      gives the tracks of the first k + 1 instants. */
  lemma InstantAppended(eph: Lookup, ts: seq<real>, k: int, planets: seq<string>,
                        coords: map<string, Coord>, tracks: map<string, Track>)
    requires 0 <= k < |ts|
    requires coords == CoordsAt(eph, ts[k], planets)
    requires Filled(eph, ts, k, planets, tracks)
    ensures Listed(planets, tracks, coords)
    ensures Filled(eph, ts, k + 1, planets, AppendEach(tracks, coords, planets))
  {
    assert Listed(planets, tracks, coords);
    var r := AppendEach(tracks, coords, planets);
    forall q | q in r
      ensures r[q] == TrackOf(Samples(eph, ts[..k + 1], q, Count(q, planets)))
    {
      KeyAppended(eph, ts, k, planets, coords, tracks, q);
    }
  }

  /** InstantAppended for the track of one name q. */
  lemma KeyAppended(eph: Lookup, ts: seq<real>, k: int, planets: seq<string>,
                    coords: map<string, Coord>, tracks: map<string, Track>, q: string)
    requires 0 <= k < |ts|
    requires Listed(planets, tracks, coords) && q in tracks && q in coords
    requires tracks[q] == TrackOf(Samples(eph, ts[..k], q, Count(q, planets)))
    requires coords[q] == Entry(eph(q, ts[k]))
    ensures AppendEach(tracks, coords, planets)[q] == TrackOf(Samples(eph, ts[..k + 1], q, Count(q, planets)))
  {
    var n := Count(q, planets);
    AppendEachAt(tracks, coords, planets, q);
    CopiesOfEntries(Samples(eph, ts[..k], q, n), Entry(eph(q, ts[k])), n);
    assert ts[..k + 1][..k] == ts[..k];
  }

  /** Every listed name has a track and an entry. */
  predicate Listed(names: seq<string>, tracks: map<string, Track>, coords: map<string, Coord>)
  {
    forall p :: p in names ==> p in tracks && p in coords
  }

  /** The tracks after appending, for each name of the list in order, that
      name's entry of coords to its track. */
  function AppendEach(tracks: map<string, Track>, coords: map<string, Coord>, names: seq<string>): (r: map<string, Track>)
    requires Listed(names, tracks, coords)
    ensures r.Keys == tracks.Keys
  {
    if |names| == 0 then tracks
    else
      var front := names[..|names| - 1];
      var p := names[|names| - 1];
      assert Listed(front, tracks, coords);
      var r := AppendEach(tracks, coords, front);
      r[p := Append(r[p], coords[p])]
  }

  /** The track of q after AppendEach: q's entry appended once per occurrence
      of q in the list. */
  lemma {:induction false} AppendEachAt(tracks: map<string, Track>, coords: map<string, Coord>,
                                        names: seq<string>, q: string)
    requires Listed(names, tracks, coords) && q in tracks && q in coords
    ensures AppendEach(tracks, coords, names)[q] == AppendCopies(tracks[q], coords[q], Count(q, names))
  {
    if |names| > 0 {
      var front := names[..|names| - 1];
      assert Listed(front, tracks, coords);
      AppendEachAt(tracks, coords, front, q);
    }
  }

  /** c appended m times to each of the three series. */
  function AppendCopies(tr: Track, c: Coord, m: nat): Track
  {
    if m == 0 then tr else Append(AppendCopies(tr, c, m - 1), c)
  }

  /** Appending m copies of an entry to the series of s gives the series of s
      followed by m copies of that entry. */
  lemma {:induction false} CopiesOfEntries(s: seq<Coord>, c: Coord, m: nat)
    ensures AppendCopies(TrackOf(s), c, m) == TrackOf(s + Repeat(m, c))
  {
    if m == 0 {
      assert s + Repeat(0, c) == s;
    } else {
      CopiesOfEntries(s, c, m - 1);
      RepeatStep(s, m - 1, c);
    }
  }

  /** The tracks after the first k instants: one per distinct name, each
      holding the entries of those instants. */
  ghost predicate Filled(eph: Lookup, ts: seq<real>, k: int, planets: seq<string>, tracks: map<string, Track>)
    requires 0 <= k <= |ts|
  {
    && tracks.Keys == Names(planets)
    && forall q :: q in tracks ==> tracks[q] == TrackOf(Samples(eph, ts[..k], q, Count(q, planets)))
  }

  lemma RepeatStep(s: seq<Coord>, m: nat, c: Coord)
    ensures TrackOf(s + Repeat(m + 1, c)) == Append(TrackOf(s + Repeat(m, c)), c)
  {
    assert s + Repeat(m + 1, c) == (s + Repeat(m, c)) + [c];
    AppendIsTrackOfSnoc(s + Repeat(m, c), c);
  }

  /** Appending an entry to the three series is appending it to the entries. */
  lemma AppendIsTrackOfSnoc(s: seq<Coord>, c: Coord)
    ensures TrackOf(s + [c]) == Append(TrackOf(s), c)
  {
    var lhs, rhs := TrackOf(s + [c]), Append(TrackOf(s), c);
    assert lhs.x == rhs.x && lhs.y == rhs.y && lhs.z == rhs.z;
  }

  /** A body listed n times gets n entries per instant. */
  lemma {:induction false} SamplesLength(eph: Lookup, ts: seq<real>, p: string, n: nat)
    ensures |Samples(eph, ts, p, n)| == |ts| * n
  {
    if |ts| > 0 {
      SamplesLength(eph, ts[..|ts| - 1], p, n);
      assert |ts| * n == (|ts| - 1) * n + n;
    }
  }

  /** Block k of a body's entries, the n entries for the k-th instant, are that
      body's entry at ts[k]: the series keep the order of the instants. */
  lemma {:induction false} SamplesBlock(eph: Lookup, ts: seq<real>, p: string, n: nat, k: int)
    requires 0 <= k < |ts|
    ensures k * n + n <= |ts| * n == |Samples(eph, ts, p, n)|
    ensures Samples(eph, ts, p, n)[k * n .. k * n + n] == Repeat(n, Entry(eph(p, ts[k])))
  {
    var prefix := ts[..|ts| - 1];
    var front := Samples(eph, prefix, p, n);
    var s := Samples(eph, ts, p, n);
    SamplesLength(eph, prefix, p, n);
    BlockAfter(|ts| - 1, n);
    assert s == front + Repeat(n, Entry(eph(p, ts[|ts| - 1])));
    if k < |ts| - 1 {
      SamplesBlock(eph, prefix, p, n, k);
      BlockBefore(k, |ts| - 1, n);
      assert prefix[k] == ts[k];
      assert s[k * n .. k * n + n] == front[k * n .. k * n + n];
    }
  }

  /** Block a of width n ends where block a + 1 starts. */
  lemma BlockAfter(a: int, n: int)
    ensures a * n + n == (a + 1) * n
  {
  }

  /** Block k of width n ends no later than block m starts, for k < m. */
  lemma {:induction false} BlockBefore(k: int, m: int, n: nat)
    requires k < m
    ensures k * n + n <= m * n
    decreases m - k
  {
    BlockAfter(k, n);
    if k + 1 < m {
      BlockBefore(k + 1, m, n);
    }
  }

  /** For a name listed once, entry k of every series is the coordinate
      get_planet_coord gives for that body at the k-th instant. */
  lemma SeriesEntryIsLookup(eph: Lookup, ts: seq<real>, planets: seq<string>, p: string, k: int)
    requires Count(p, planets) == 1
    requires 0 <= k < |ts|
    ensures p in CoordTimeseries(eph, ts, planets) && p in CoordsAt(eph, ts[k], planets)
    ensures |CoordTimeseries(eph, ts, planets)[p].x| == |ts|
    ensures CoordTimeseries(eph, ts, planets)[p].x[k] == CoordsAt(eph, ts[k], planets)[p].x
    ensures CoordTimeseries(eph, ts, planets)[p].y[k] == CoordsAt(eph, ts[k], planets)[p].y
    ensures CoordTimeseries(eph, ts, planets)[p].z[k] == CoordsAt(eph, ts[k], planets)[p].z
  {
    SamplesBlock(eph, ts, p, 1, k);
    var s := Samples(eph, ts, p, 1);
    assert s[k] == s[k * 1 .. k * 1 + 1][0];
  }

  /** A name listed twice gets two identical entries per instant, so its series
      are twice as long as the list of instants. */
  lemma DuplicateDoubles(eph: Lookup, ts: seq<real>, planets: seq<string>, p: string, k: int)
    requires Count(p, planets) == 2
    requires 0 <= k < |ts|
    ensures p in CoordTimeseries(eph, ts, planets)
    ensures |CoordTimeseries(eph, ts, planets)[p].x| == 2 * |ts|
    ensures CoordTimeseries(eph, ts, planets)[p].x[2 * k] == eph(p, ts[k]).x
    ensures CoordTimeseries(eph, ts, planets)[p].x[2 * k + 1] == eph(p, ts[k]).x
  {
    SamplesBlock(eph, ts, p, 2, k);
    var s := Samples(eph, ts, p, 2);
    assert s[k * 2] == s[k * 2 .. k * 2 + 2][0];
    assert s[k * 2 + 1] == s[k * 2 .. k * 2 + 2][1];
  }

  /** Every series of every body has z equal to x. */
  lemma TimeseriesZIsX(eph: Lookup, ts: seq<real>, planets: seq<string>, p: string)
    requires p in planets
    ensures p in CoordTimeseries(eph, ts, planets)
    ensures CoordTimeseries(eph, ts, planets)[p].z == CoordTimeseries(eph, ts, planets)[p].x
  {
    var tr := CoordTimeseries(eph, ts, planets)[p];
    var s := Samples(eph, ts, p, Count(p, planets));
    SamplesZIsX(eph, ts, p, Count(p, planets));
    assert forall i :: 0 <= i < |s| ==> tr.z[i] == s[i].z == s[i].x == tr.x[i];
  }

  lemma {:induction false} SamplesZIsX(eph: Lookup, ts: seq<real>, p: string, n: nat)
    ensures forall i :: 0 <= i < |Samples(eph, ts, p, n)| ==>
              Samples(eph, ts, p, n)[i].z == Samples(eph, ts, p, n)[i].x
  {
    if |ts| > 0 {
      SamplesZIsX(eph, ts[..|ts| - 1], p, n);
    }
  }
}
