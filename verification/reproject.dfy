/** Reprojection of uploaded GeoJSON from the selected coordinate system to WGS84
    (`transformGeoJSON` and `selectCoordSystem`). The projection library is an uninterpreted
    partial function: `proj4(source, target, coords)` either yields the transformed coordinates
    or throws (`None`). */
module Reproject {
  import opened Wrappers
  import opened Json

  /** `proj4(sourceEPSG, targetEPSG, coords)`. */
  type Proj4 = (string, string, Json) -> Option<Json>

  /** The error a walk over malformed coordinates throws (calling `.map` on a non-array). */
  datatype WalkError = TypeError

  const Wgs84: string := "wgs84"
  const Tm3Zone501: string := "tm3-501"
  const Tm3Zone502: string := "tm3-502"
  const TargetEpsg: string := "EPSG:4326"

  /** The systems `selectCoordSystem` accepts. */
  predicate IsKnownSystem(system: string) {
    system == Wgs84 || system == Tm3Zone501 || system == Tm3Zone502
  }

  /** `selectCoordSystem(system)`: a whitelisted name replaces the current one; any other name is
      refused and leaves it unchanged. */
  function SelectCoordSystem(current: string, system: string): (r: string)
    ensures IsKnownSystem(system) ==> r == system
    ensures !IsKnownSystem(system) ==> r == current
    ensures IsKnownSystem(current) ==> IsKnownSystem(r)
  {
    if IsKnownSystem(system) then system else current
  }

  /** The projection the library is asked to invert for a projected system: TM-3 zone 50.1 is
      EPSG:23837, zone 50.2 is EPSG:23838; other systems have none. */
  function SourceEpsg(system: string): (r: Option<string>)
    ensures r.Some? <==> system == Tm3Zone501 || system == Tm3Zone502
  {
    if system == Tm3Zone501 then Some("EPSG:23837")
    else if system == Tm3Zone502 then Some("EPSG:23838")
    else None
  }

  /** `coords[0]` for the values a coordinate walk meets. */
  function First(c: Json): Option<Json> {
    match c
    case JArr(items) => if |items| > 0 then Some(items[0]) else None
    case JObj(fields) => if "0" in fields then Some(fields["0"]) else None
    case _ => None
  }

  /** `typeof coords[0] === 'number'`: the node is a position, handed to the library whole. */
  predicate IsLeaf(c: Json) {
    First(c).Some? && First(c).value.JNum?
  }

  /** The per-position fallback: the library's result, or the original position when it throws. */
  function Fallback(proj: Proj4, src: string, c: Json): Json {
    match proj(src, TargetEpsg, c)
    case Some(d) => d
    case None => c
  }

  /** The outcome of mapping over children: the first error, or all results in order. */
  function Collect(rs: seq<Result<Json, WalkError>>): (r: Result<seq<Json>, WalkError>)
    ensures r.Ok? <==> forall i :: 0 <= i < |rs| ==> rs[i].Ok?
    ensures r.Ok? ==> |r.value| == |rs| && forall i :: 0 <= i < |rs| ==> r.value[i] == rs[i].value
  {
    if rs == [] then Ok([])
    else if rs[0].Err? then Err(rs[0].error)
    else match Collect(rs[1..])
      case Ok(tail) => Ok([rs[0].value] + tail)
      case Err(e) => Err(e)
  }

  /** `transformCoords(coords)`: a position goes through the library with per-position fallback;
      an array is mapped element by element; anything else throws. */
  function TransformCoords(c: Json, src: string, proj: Proj4): Result<Json, WalkError>
    decreases c
  {
    if IsLeaf(c) then Ok(Fallback(proj, src, c))
    else if c.JArr? then
      match Collect(seq(|c.items|, i requires 0 <= i < |c.items| => TransformCoords(c.items[i], src, proj)))
      case Ok(items) => Ok(JArr(items))
      case Err(e) => Err(e)
    else Err(TypeError)
  }

  /** The coordinate trees the walk accepts: a position, or an array of such trees. */
  predicate Walkable(c: Json)
    decreases c
  {
    IsLeaf(c) || (c.JArr? && forall i :: 0 <= i < |c.items| ==> Walkable(c.items[i]))
  }

  /** The walk throws exactly on trees that are not walkable. */
  lemma {:induction false} TransformSucceedsIffWalkable(c: Json, src: string, proj: Proj4)
    ensures TransformCoords(c, src, proj).Ok? <==> Walkable(c)
    decreases c
  {
    if !IsLeaf(c) && c.JArr? {
      var rs := seq(|c.items|, i requires 0 <= i < |c.items| => TransformCoords(c.items[i], src, proj));
      forall i | 0 <= i < |c.items| ensures rs[i].Ok? <==> Walkable(c.items[i]) {
        TransformSucceedsIffWalkable(c.items[i], src, proj);
      }
    }
  }

  /** The node reached by following array indices `path` from `c`. */
  function At(c: Json, path: seq<nat>): Option<Json>
    decreases |path|
  {
    if path == [] then Some(c)
    else if c.JArr? && path[0] < |c.items| then At(c.items[path[0]], path[1..])
    else None
  }

  /** Shape and leaves: along every index path into the input, a position of the input comes out
      as the library's transform of it, or as itself when the library throws; any other node of
      the input is an array and comes out as an array of the same length. */
  lemma {:induction false} TransformAt(c: Json, src: string, proj: Proj4, d: Json, path: seq<nat>)
    requires TransformCoords(c, src, proj) == Ok(d)
    requires At(c, path).Some?
    requires forall k :: 0 <= k < |path| ==> At(c, path[..k]).Some? && !IsLeaf(At(c, path[..k]).value)
    ensures At(d, path).Some?
    ensures IsLeaf(At(c, path).value) ==>
      At(d, path).value == (match proj(src, TargetEpsg, At(c, path).value)
                            case Some(t) => t
                            case None => At(c, path).value)
    ensures !IsLeaf(At(c, path).value) ==>
      At(c, path).value.JArr? && At(d, path).value.JArr?
      && |At(d, path).value.items| == |At(c, path).value.items|
    decreases |path|
  {
    if path == [] {
      if !IsLeaf(c) {
        assert c.JArr?;
      }
    } else {
      assert At(c, path[..0]) == Some(c);
      assert !IsLeaf(c);
      assert c.JArr?;
      var i := path[0];
      var rs := seq(|c.items|, j requires 0 <= j < |c.items| => TransformCoords(c.items[j], src, proj));
      assert Collect(rs).Ok?;
      assert d == JArr(Collect(rs).value);
      assert rs[i] == Ok(d.items[i]);
      forall k | 0 <= k < |path[1..]|
        ensures At(c.items[i], path[1..][..k]).Some? && !IsLeaf(At(c.items[i], path[1..][..k]).value)
      {
        assert path[..k + 1][1..] == path[1..][..k];
        assert At(c, path[..k + 1]) == At(c.items[i], path[1..][..k]);
      }
      TransformAt(c.items[i], src, proj, d.items[i], path[1..]);
    }
  }

  /** When the library throws on every position, the walk returns its input unchanged. */
  lemma {:induction false} FallbackEverywhereIsIdentity(c: Json, src: string, proj: Proj4)
    requires forall s, t, p :: proj(s, t, p).None?
    requires Walkable(c)
    ensures TransformCoords(c, src, proj) == Ok(c)
    decreases c
  {
    if !IsLeaf(c) {
      var rs := seq(|c.items|, j requires 0 <= j < |c.items| => TransformCoords(c.items[j], src, proj));
      forall j | 0 <= j < |c.items| ensures rs[j] == Ok(c.items[j]) {
        FallbackEverywhereIsIdentity(c.items[j], src, proj);
      }
      assert Collect(rs).value == c.items;
    }
  }

  /** One feature of `transformed.features`: when the feature, its `geometry` and the geometry's
      `coordinates` are all truthy, the coordinates are replaced by their walk; otherwise the
      feature is left alone. */
  function TransformFeature(f: Json, src: string, proj: Proj4): Result<Json, WalkError> {
    if Truthy(f) && Present(Get(f, "geometry")) && Present(Get(Get(f, "geometry").value, "coordinates")) then
      var g := Get(f, "geometry").value;
      match TransformCoords(g.fields["coordinates"], src, proj)
      case Ok(c) => Ok(JObj(f.fields["geometry" := JObj(g.fields["coordinates" := c])]))
      case Err(e) => Err(e)
    else Ok(f)
  }

  /** `f'` is `f` with at most the member `geometry.coordinates` replaced. */
  predicate SameExceptCoordinates(f: Json, f': Json) {
    f' == f
    || (f.JObj? && f'.JObj? && f'.fields.Keys == f.fields.Keys && "geometry" in f.fields
        && (forall k :: k in f.fields && k != "geometry" ==> f'.fields[k] == f.fields[k])
        && var g := f.fields["geometry"]; var g' := f'.fields["geometry"];
        g.JObj? && g'.JObj? && g'.fields.Keys == g.fields.Keys && "coordinates" in g.fields
        && forall k :: k in g.fields && k != "coordinates" ==> g'.fields[k] == g.fields[k])
  }

  /** `transformGeoJSON(geojson)` under the current coordinate system: the identity for WGS84,
      for a missing library and for an unknown system; otherwise the features of the collection
      (or the object itself, taken as a single feature) have their coordinates walked. */
  function TransformGeoJson(system: string, geojson: Json, proj4: Option<Proj4>): Result<Json, WalkError> {
    if system == Wgs84 then Ok(geojson)
    else if proj4.None? then Ok(geojson)
    else match SourceEpsg(system)
      case None => Ok(geojson)
      case Some(src) =>
        if geojson.JNull? then Err(TypeError)
        else if IsFeatureCollection(geojson) then
          match Get(geojson, "features")
          case Some(JArr(fs)) =>
            (match Collect(seq(|fs|, i requires 0 <= i < |fs| => TransformFeature(fs[i], src, proj4.value)))
             case Ok(fs') => Ok(JObj(geojson.fields["features" := JArr(fs')]))
             case Err(e) => Err(e))
          case _ => Err(TypeError)
        else TransformFeature(geojson, src, proj4.value)
  }

  /** The identity cases: WGS84, no projection library, or a system other than the two TM-3
      zones returns the very input. */
  lemma IdentityCases(system: string, geojson: Json, proj4: Option<Proj4>)
    requires system == Wgs84 || proj4.None? || (system != Tm3Zone501 && system != Tm3Zone502)
    ensures TransformGeoJson(system, geojson, proj4) == Ok(geojson)
  {
  }

  /** A projected collection keeps its members and its number of features, and each feature
      differs from its input at most in `geometry.coordinates`; the positions are walked with the
      EPSG code of the selected zone. */
  lemma CollectionPreserved(system: string, geojson: Json, proj: Proj4, out: Json)
    requires system == Tm3Zone501 || system == Tm3Zone502
    requires IsFeatureCollection(geojson)
    requires TransformGeoJson(system, geojson, Some(proj)) == Ok(out)
    ensures out.JObj? && out.fields.Keys == geojson.fields.Keys
    ensures forall k :: k in geojson.fields && k != "features" ==> out.fields[k] == geojson.fields[k]
    ensures Get(geojson, "features").Some? && Get(geojson, "features").value.JArr?
    ensures var fs := Get(geojson, "features").value.items;
      Get(out, "features").Some? && Get(out, "features").value.JArr?
      && |Get(out, "features").value.items| == |fs|
      && forall i :: 0 <= i < |fs| ==>
           SameExceptCoordinates(fs[i], Get(out, "features").value.items[i])
           && Get(out, "features").value.items[i]
              == TransformFeature(fs[i], if system == Tm3Zone501 then "EPSG:23837" else "EPSG:23838", proj).value
  {
    var src := SourceEpsg(system).value;
    assert Get(geojson, "features").Some? && Get(geojson, "features").value.JArr?;
    var fs := Get(geojson, "features").value.items;
    var rs := seq(|fs|, i requires 0 <= i < |fs| => TransformFeature(fs[i], src, proj));
    var fs' := Collect(rs).value;
    forall i | 0 <= i < |fs| ensures SameExceptCoordinates(fs[i], fs'[i]) {
      assert rs[i] == Ok(fs'[i]);
    }
  }
}
