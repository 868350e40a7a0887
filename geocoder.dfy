/**
 * Resolving a coordinate to the country and the state whose boundary
 * polygons contain it. The geometry engine is left abstract: a polygon is any
 * value of the type parameter `G`, and the engine's "polygon contains point"
 * test is a function supplied with the boundary collections.
 */
module Geocoder {
  import opened Wrappers
  import opened JsonValue

  /** A planar point; `x` is the longitude and `y` the latitude, the axis order of `Point(lon, lat)`. */
  datatype Point = Point(x: real, y: real)

  /** One row of a boundary collection: a polygon and its name attribute. */
  datatype Region<G> = Region(name: string, shape: G)

  /**
   * The two boundary collections, loaded once and never changed, in their
   * row order, together with the engine's containment test.
   */
  datatype BoundaryIndex<!G> = BoundaryIndex(
    countries: seq<Region<G>>,
    states: seq<Region<G>>,
    contains: (G, Point) -> bool)

  /** The country and the state of a coordinate; `None` where no polygon of that tier contains it. */
  datatype Location = Location(country: Option<string>, state: Option<string>)

  /**
   * The number the point constructor makes of one coordinate argument, as
   * Python's `float()` does: a number is itself and a boolean is 1.0 or 0.0;
   * `None`, a list, a dict (and, in this model, a string) cannot be converted.
   */
  function Coordinate(j: Json): (c: Option<real>)
    ensures j.JNull? ==> c.None?
    ensures j.JNum? ==> c == Some(j.n)
  {
    match j
    case JNum(n) => Some(n)
    case JBool(b) => Some(if b then 1.0 else 0.0)
    case _ => None
  }

  /** `Point(lon, lat)`: longitude first; `None` where the constructor raises. */
  function MakePoint(lon: Json, lat: Json): (p: Option<Point>)
    ensures p.Some? <==> Coordinate(lon).Some? && Coordinate(lat).Some?
    ensures p.Some? ==> p.value.x == Coordinate(lon).value && p.value.y == Coordinate(lat).value
    ensures lon.JNull? || lat.JNull? ==> p.None?
  {
    match (Coordinate(lon), Coordinate(lat))
    case (Some(x), Some(y)) => Some(Point(x, y))
    case _ => None
  }

  /** The rows of `regions` whose polygon contains `p`, in row order. */
  function Matching<G>(regions: seq<Region<G>>, contains: (G, Point) -> bool, p: Point): (m: seq<Region<G>>)
    ensures |m| <= |regions|
    ensures forall k :: 0 <= k < |m| ==> m[k] in regions && contains(m[k].shape, p)
  {
    if regions == [] then []
    else (if contains(regions[0].shape, p) then [regions[0]] else []) + Matching(regions[1..], contains, p)
  }

  /** Every row whose polygon contains `p` is among the matching rows. */
  lemma {:induction false} MatchingComplete<G>(regions: seq<Region<G>>, contains: (G, Point) -> bool, p: Point)
    ensures forall k :: 0 <= k < |regions| && contains(regions[k].shape, p) ==> regions[k] in Matching(regions, contains, p)
  {
    if regions != [] {
      MatchingComplete(regions[1..], contains, p);
      forall k | 0 < k < |regions|
        ensures regions[k] == regions[1..][k - 1]
      {
      }
    }
  }

  /** Filtering keeps row order: the matches of `a + b` are those of `a` followed by those of `b`. */
  lemma {:induction false} MatchingAppend<G>(a: seq<Region<G>>, b: seq<Region<G>>, contains: (G, Point) -> bool, p: Point)
    ensures Matching(a + b, contains, p) == Matching(a, contains, p) + Matching(b, contains, p)
  {
    if a == [] {
      assert a + b == b;
    } else {
      assert (a + b)[0] == a[0];
      assert (a + b)[1..] == a[1..] + b;
      MatchingAppend(a[1..], b, contains, p);
    }
  }

  /** The name in the first of the matching rows, or `None` when there is none. */
  function RegionName<G>(regions: seq<Region<G>>, contains: (G, Point) -> bool, p: Point): Option<string>
  {
    var rows := Matching(regions, contains, p);
    if rows == [] then None else Some(rows[0].name)
  }

  /** Row `i` is the first row whose polygon contains `p`. */
  ghost predicate IsFirstMatch<G>(regions: seq<Region<G>>, contains: (G, Point) -> bool, p: Point, i: int)
  {
    && 0 <= i < |regions|
    && contains(regions[i].shape, p)
    && forall j :: 0 <= j < i ==> !contains(regions[j].shape, p)
  }

  /**
   * The region name is `None` exactly when no polygon contains the point, and
   * otherwise the name of the first row, in collection order, that does.
   */
  lemma {:induction false} RegionNameIsFirstMatch<G>(regions: seq<Region<G>>, contains: (G, Point) -> bool, p: Point)
    ensures RegionName(regions, contains, p).None? <==> forall i :: 0 <= i < |regions| ==> !contains(regions[i].shape, p)
    ensures forall i :: IsFirstMatch(regions, contains, p, i) ==> RegionName(regions, contains, p) == Some(regions[i].name)
  {
    if regions != [] {
      var rest := regions[1..];
      RegionNameIsFirstMatch(rest, contains, p);
      if contains(regions[0].shape, p) {
        assert Matching(regions, contains, p)[0] == regions[0];
        forall i | IsFirstMatch(regions, contains, p, i)
          ensures i == 0
        {
        }
      } else {
        assert Matching(regions, contains, p) == Matching(rest, contains, p);
        forall i | 0 < i < |regions|
          ensures regions[i] == rest[i - 1]
        {
        }
        forall i | IsFirstMatch(regions, contains, p, i)
          ensures IsFirstMatch(rest, contains, p, i - 1)
        {
          assert i != 0;
          forall j | 0 <= j < i - 1
            ensures !contains(rest[j].shape, p)
          {
            assert rest[j] == regions[j + 1];
          }
        }
      }
    }
  }

  /** Some polygon contains the point, so there is a first one. */
  lemma {:induction false} FirstMatchExists<G>(regions: seq<Region<G>>, contains: (G, Point) -> bool, p: Point, k: int)
    returns (i: int)
    requires 0 <= k < |regions| && contains(regions[k].shape, p)
    ensures IsFirstMatch(regions, contains, p, i) && i <= k
  {
    i := k;
    while exists j :: 0 <= j < i && contains(regions[j].shape, p)
      invariant 0 <= i <= k && contains(regions[i].shape, p)
      decreases i
    {
      var j :| 0 <= j < i && contains(regions[j].shape, p);
      i := j;
    }
  }

  /** A point inside exactly one polygon of a tier gets that polygon's name. */
  lemma UniqueContainingRegion<G>(regions: seq<Region<G>>, contains: (G, Point) -> bool, p: Point, i: int)
    requires 0 <= i < |regions| && contains(regions[i].shape, p)
    requires forall j :: 0 <= j < |regions| && j != i ==> !contains(regions[j].shape, p)
    ensures RegionName(regions, contains, p) == Some(regions[i].name)
  {
    RegionNameIsFirstMatch(regions, contains, p);
    assert IsFirstMatch(regions, contains, p, i);
  }

  /**
   * The country and the state of a point, each worked out on its own tier:
   * `None` exactly when no polygon of the tier contains the point, and
   * otherwise the name of the first one that does.
   */
  function Locate<G>(index: BoundaryIndex<G>, p: Point): (loc: Location)
    ensures loc.country.None? <==> forall i :: 0 <= i < |index.countries| ==> !index.contains(index.countries[i].shape, p)
    ensures forall i :: IsFirstMatch(index.countries, index.contains, p, i) ==> loc.country == Some(index.countries[i].name)
    ensures loc.state.None? <==> forall i :: 0 <= i < |index.states| ==> !index.contains(index.states[i].shape, p)
    ensures forall i :: IsFirstMatch(index.states, index.contains, p, i) ==> loc.state == Some(index.states[i].name)
  {
    RegionNameIsFirstMatch(index.countries, index.contains, p);
    RegionNameIsFirstMatch(index.states, index.contains, p);
    Location(RegionName(index.countries, index.contains, p), RegionName(index.states, index.contains, p))
  }
}
