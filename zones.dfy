/** Zones and the point-to-zone matcher of the ingredient detector.
    A zone is an ingredient name together with the hand position captured
    for it during setup; a point matches a zone when it lies strictly inside
    the cube of half-width Tolerance centred on that position. */
module Zones {

  datatype Option<+T> = None | Some(value: T)

  /** A hand position (the source's single-precision Vector3, taken exactly). */
  datatype Point = Point(x: real, y: real, z: real)

  /** One registry entry: the ingredient label and the captured centre. */
  datatype Zone = Zone(name: string, center: Point)

  /** The half-width of every box, the same on all three axes and for every zone. */
  const Tolerance: real := 200.0

  /** Open interval test on one axis. */
  predicate Within(c: real, v: real) {
    c - Tolerance < v && v < c + Tolerance
  }

  /** The matcher's box test: strictly inside on X, Y and Z. */
  predicate InBox(center: Point, p: Point) {
    Within(center.x, p.x) && Within(center.y, p.y) && Within(center.z, p.z)
  }

  function Abs(r: real): real {
    if r < 0.0 then -r else r
  }

  function Max(a: real, b: real): real {
    if a < b then b else a
  }

  /** Chebyshev (maximum-coordinate) distance: an independent description of the box. */
  function Chebyshev(c: Point, p: Point): real {
    Max(Abs(p.x - c.x), Max(Abs(p.y - c.y), Abs(p.z - c.z)))
  }

  /** The set of labels that occur in a sequence of zones. */
  function Labels(zs: seq<Zone>): set<string> {
    set z | z in zs :: z.name
  }

  /** No label occurs twice: the key uniqueness a dictionary guarantees. */
  predicate DistinctLabels(zs: seq<Zone>) {
    forall i, j :: 0 <= i < j < |zs| ==> zs[i].name != zs[j].name
  }

  /** The first zone, in enumeration (insertion) order, whose box contains p;
      None stands for the default pair with a null key. */
  function FirstMatch(zs: seq<Zone>, p: Point): (r: Option<Zone>)
    ensures r.None? <==> forall i :: 0 <= i < |zs| ==> !InBox(zs[i].center, p)
    ensures r.Some? ==> exists i :: 0 <= i < |zs| && zs[i] == r.value && InBox(zs[i].center, p)
                          && forall j :: 0 <= j < i ==> !InBox(zs[j].center, p)
  {
    if zs == [] then None
    else if InBox(zs[0].center, p) then Some(zs[0])
    else
      var r := FirstMatch(zs[1..], p);
      assert r.Some? ==> exists i :: 0 <= i < |zs[1..]| && zs[1..][i] == r.value && InBox(zs[1..][i].center, p)
                          && forall j :: 0 <= j < i ==> !InBox(zs[1..][j].center, p);
      assert r.Some? ==> exists i :: 1 <= i < |zs| && zs[i] == r.value && InBox(zs[i].center, p)
                          && forall j :: 0 <= j < i ==> !InBox(zs[j].center, p);
      r
  }

  /** Every zone whose box contains p, in enumeration order (a reference
      definition for FirstMatch). */
  function Matching(zs: seq<Zone>, p: Point): seq<Zone> {
    if zs == [] then []
    else if InBox(zs[0].center, p) then [zs[0]] + Matching(zs[1..], p)
    else Matching(zs[1..], p)
  }

  /** What the detector reports for a matcher result: the key, unless it is
      null (no match) or empty. */
  function Reported(m: Option<Zone>): (r: Option<string>)
    ensures r.Some? <==> m.Some? && m.value.name != ""
    ensures r.Some? ==> r.value == m.value.name
  {
    match m
    case None => None
    case Some(z) => if z.name == "" then None else Some(z.name)
  }

  /** The box is the open Chebyshev ball of radius Tolerance around the centre. */
  lemma InBoxIffChebyshev(c: Point, p: Point)
    ensures InBox(c, p) <==> Chebyshev(c, p) < Tolerance
  {
  }

  /** A point on a face of the box (some coordinate at centre +/- Tolerance) does not match. */
  lemma FaceExcluded(c: Point, p: Point)
    requires p.x == c.x + Tolerance || p.x == c.x - Tolerance
          || p.y == c.y + Tolerance || p.y == c.y - Tolerance
          || p.z == c.z + Tolerance || p.z == c.z - Tolerance
    ensures !InBox(c, p)
  {
  }

  /** The captured position itself always lies in its own zone. */
  lemma CentreInBox(c: Point)
    ensures InBox(c, c)
  {
  }

  /** FirstMatch is the head of the list of all matching zones. */
  lemma {:induction false} FirstMatchIsHeadOfMatching(zs: seq<Zone>, p: Point)
    ensures FirstMatch(zs, p) == if Matching(zs, p) == [] then None else Some(Matching(zs, p)[0])
  {
    if zs != [] && !InBox(zs[0].center, p) {
      FirstMatchIsHeadOfMatching(zs[1..], p);
    }
  }

  /** Zones added later never shadow a match among the earlier ones: the
      registry is searched in insertion order. */
  lemma {:induction false} FirstMatchAppend(a: seq<Zone>, b: seq<Zone>, p: Point)
    ensures FirstMatch(a + b, p) == if FirstMatch(a, p).Some? then FirstMatch(a, p) else FirstMatch(b, p)
  {
    if a == [] {
      assert a + b == b;
    } else {
      assert (a + b)[0] == a[0];
      assert (a + b)[1..] == a[1..] + b;
      if !InBox(a[0].center, p) {
        FirstMatchAppend(a[1..], b, p);
      }
    }
  }

  /** The matcher picks the earliest-inserted matching zone, not the nearest:
      at (150, 0, 0) both boxes match, the second centre is closer, and the
      first zone is returned. */
  lemma FirstMatchIsNotNearest()
    ensures var lettuce := Zone("Lettuce", Point(0.0, 0.0, 0.0));
            var tomato := Zone("Tomato", Point(180.0, 0.0, 0.0));
            var p := Point(150.0, 0.0, 0.0);
            && InBox(tomato.center, p)
            && Chebyshev(tomato.center, p) < Chebyshev(lettuce.center, p)
            && FirstMatch([lettuce, tomato], p) == Some(lettuce)
  {
  }
}
