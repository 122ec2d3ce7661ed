/** The upload controller: the synchronous checks `handleFile` makes before it starts reading
    (busy guard, size limit, empty file, extension), the format-specific readers run after the
    file has been read, the acceptance test on their result, and the hand-over to the layer
    registry. The file reader, the shapefile decoder, `JSON.parse`, `proj4` and Leaflet are
    passed in as an environment of outcomes. */
module Ingest {
  import opened Wrappers
  import opened Json
  import opened Text
  import Dxf
  import DxfPairs
  import Reproject
  import Adapters
  import opened Registry

  /** A file picked or dropped by the user. */
  datatype File = File(name: string, size: nat)

  /** The readers, chosen by extension. */
  datatype Kind = Shapefile | DxfDrawing | GeoJson

  /** The size limit, 10 MB. */
  const MaxFileSize: nat := 10 * 1024 * 1024

  /** `name.toLowerCase().split('.').pop()`: the text after the last dot of the lower-cased name,
      or the whole lower-cased name when it has no dot. */
  function ExtensionOf(name: string): (ext: string)
    ensures '.' !in ext
    ensures |ext| <= |name| && Lower(name)[|name| - |ext|..] == ext
    ensures |ext| < |name| ==> name[|name| - |ext| - 1] == '.'
  {
    var parts := Split(Lower(name), '.');
    LastSuffix(parts, '.');
    LowerKeepsDots(name);
    Last(parts)
  }

  /** Lower-casing neither makes nor removes a dot. */
  lemma LowerKeepsDots(s: string)
    ensures forall k :: 0 <= k < |s| ==> (Lower(s)[k] == '.' <==> s[k] == '.')
  {
    forall k | 0 <= k < |s| ensures Lower(s)[k] == '.' <==> s[k] == '.' {
      assert Lower(s)[k] == LowerChar(s[k]);
    }
  }

  /** A joined list ends with its last part, and when there are several parts that last part is
      preceded by the separator. */
  lemma {:induction false} LastSuffix(parts: seq<string>, sep: char)
    requires |parts| >= 1
    ensures var j := Join(parts, sep);
      |Last(parts)| <= |j| && j[|j| - |Last(parts)|..] == Last(parts)
      && (|parts| > 1 ==> |Last(parts)| < |j| && j[|j| - |Last(parts)| - 1] == sep)
    decreases |parts|
  {
    if |parts| > 1 {
      var rest := parts[1..];
      LastSuffix(rest, sep);
      var j, j' := Join(parts, sep), Join(rest, sep);
      var head := parts[0] + [sep];
      assert j == head + j';
      assert Last(parts) == Last(rest);
      var l := Last(rest);
      assert j[|j| - |l|..] == j'[|j'| - |l|..];
      if |rest| == 1 {
        assert j' == l;
        assert j[|j| - |l| - 1] == head[|head| - 1];
      } else {
        assert j[|j| - |l| - 1] == j'[|j'| - |l| - 1];
      }
    }
  }

  /** The accepted extensions `zip`, `dxf`, `geojson` and `json`, and the reader each selects. */
  function KindOf(ext: string): (k: Option<Kind>)
    ensures k == Some(Shapefile) <==> ext == "zip"
    ensures k == Some(DxfDrawing) <==> ext == "dxf"
    ensures k == Some(GeoJson) <==> ext == "geojson" || ext == "json"
  {
    if ext == "zip" then Some(Shapefile)
    else if ext == "dxf" then Some(DxfDrawing)
    else if ext == "geojson" || ext == "json" then Some(GeoJson)
    else None
  }

  /** The upload manager's state: the selected coordinate system, the layer registry and the
      `isProcessing` flag. */
  datatype Controller = Controller(coordSystem: string, registry: Registry, busy: bool)

  /** Why a file is refused before reading. */
  datatype Rejection = Busy | TooLarge | EmptyFile | Unsupported

  /** A file that passed the checks, with the reader its extension selects. */
  datatype Job = Job(file: File, kind: Kind)

  /** What the synchronous part of `handleFile` does with its argument. */
  datatype StartOutcome = Ignored | Rejected(reason: Rejection) | Dispatched(job: Job)

  datatype Started = Started(outcome: StartOutcome, controller: Controller)

  /** The synchronous part of `handleFile`: no file is ignored; a file arriving while another is
      processed is refused without touching the state; then the size limit, the empty file and
      the extension are checked in that order, each refusal leaving the flag cleared; a file that
      passes sets the flag and is handed to its reader. */
  function Start(c: Controller, file: Option<File>): (s: Started)
    ensures file.None? ==> s == Started(Ignored, c)
    ensures file.Some? && c.busy ==> s == Started(Rejected(Busy), c)
    ensures file.Some? && !c.busy ==>
      s.controller.coordSystem == c.coordSystem && s.controller.registry == c.registry
      && (s.outcome == Rejected(TooLarge) <==> file.value.size > MaxFileSize)
      && (s.outcome == Rejected(EmptyFile) <==> file.value.size == 0)
      && (s.outcome == Rejected(Unsupported) <==>
            0 < file.value.size <= MaxFileSize && KindOf(ExtensionOf(file.value.name)).None?)
      && (s.outcome.Dispatched? <==>
            0 < file.value.size <= MaxFileSize && KindOf(ExtensionOf(file.value.name)).Some?)
      && (s.outcome.Dispatched? ==>
            s.outcome.job == Job(file.value, KindOf(ExtensionOf(file.value.name)).value))
      && (s.controller.busy <==> s.outcome.Dispatched?)
  {
    match file
    case None => Started(Ignored, c)
    case Some(f) =>
      if c.busy then Started(Rejected(Busy), c)
      else if f.size > MaxFileSize then Started(Rejected(TooLarge), c.(busy := false))
      else if f.size == 0 then Started(Rejected(EmptyFile), c.(busy := false))
      else match KindOf(ExtensionOf(f.name))
        case None => Started(Rejected(Unsupported), c.(busy := false))
        case Some(k) => Started(Dispatched(Job(f, k)), c.(busy := true))
  }

  /** Which DXF reader `parseDXF` runs: `simpleDXFParser` as the program has it, or the
      (group code, value) pair reader it evidently intends. */
  datatype DxfReader = AsWritten | Corrected

  /** The DXF reader chosen, on a text. */
  function ParseDxf(reader: DxfReader, text: string, num: Dxf.Numerics): (r: Result<seq<Dxf.Feature>, Dxf.ParseError>)
    ensures reader == AsWritten ==> r == Dxf.SimpleDxfParser(text, num)
    ensures reader == Corrected ==> r == DxfPairs.Parse(text, num)
    ensures r.Ok? ==> |r.value| >= 1
  {
    match reader
    case AsWritten => Dxf.SimpleDxfParser(text, num)
    case Corrected => DxfPairs.Parse(text, num)
  }

  /** The outcomes of everything outside the pipeline for one job: the file reader's text
      (`None` when it reports an error), `JSON.parse`, whether the shapefile library is loaded
      and what it decodes (`None` when it throws), `parseFloat`/`parseInt`, the projection
      library, and how drawing the layer goes; and which DXF reader runs (`AsWritten` is the
      program as it stands). */
  datatype Env = Env(
    dxfReader: DxfReader,
    read: Option<string>,
    jsonParse: string -> Option<Json>,
    shpLoaded: bool,
    shpDecode: Option<Json>,
    num: Dxf.Numerics,
    proj4: Option<Reproject.Proj4>,
    render: Render)

  /** Why a dispatched job produced no layer: the shapefile library is missing, the file could
      not be read, a reader threw, the result holds no feature, or drawing threw. */
  datatype Failure = LibraryMissing | ReadFailed | ReaderFailed(kind: Kind) | NoGeometry | DrawFailed

  /** How a call of `handleFile` ends: with a new layer, with an error after dispatch, refused
      before reading, or doing nothing because no file was given. */
  datatype Outcome = Uploaded | Failed(failure: Failure) | Refused(reason: Rejection) | NoFile

  datatype Completed = Completed(outcome: Outcome, controller: Controller)

  /** A point as a GeoJSON position `[x, y]`. */
  function PointJson(p: Dxf.Point): Json {
    JArr([JNum(p.x), JNum(p.y)])
  }

  function PositionsJson(ps: seq<Dxf.Point>): (j: Json)
    ensures j.JArr? && |j.items| == |ps|
  {
    JArr(seq(|ps|, i requires 0 <= i < |ps| => PointJson(ps[i])))
  }

  /** The `coordinates` of a DXF geometry: the positions of a LineString, or one array of
      positions per ring of a Polygon. */
  function CoordinatesJson(g: Dxf.Geometry): Json {
    match g
    case LineString(ps) => PositionsJson(ps)
    case Polygon(rings) => JArr(seq(|rings|, i requires 0 <= i < |rings| => PositionsJson(rings[i])))
  }

  /** A DXF feature as the reader builds it: `type`, `properties.layer` and `geometry`. */
  function FeatureJson(f: Dxf.Feature): Json {
    var kind := if f.geometry.LineString? then "LineString" else "Polygon";
    JObj(map["type" := JStr("Feature"),
             "properties" := JObj(map["layer" := JStr(f.layer)]),
             "geometry" := JObj(map["type" := JStr(kind), "coordinates" := CoordinatesJson(f.geometry)])])
  }

  /** The FeatureCollection the DXF reader returns. */
  function CollectionJson(fs: seq<Dxf.Feature>): (j: Json)
    ensures IsFeatureCollection(j)
    ensures Get(j, "features").Some? && Get(j, "features").value.JArr?
    ensures |Get(j, "features").value.items| == |fs|
  {
    JObj(map["type" := FeatureCollectionType,
             "features" := JArr(seq(|fs|, i requires 0 <= i < |fs| => FeatureJson(fs[i])))])
  }

  /** The reprojection step every reader ends with. */
  function Transform(system: string, geo: Json, env: Env): Result<Json, Reproject.WalkError> {
    Reproject.TransformGeoJson(system, geo, env.proj4)
  }

  /** Reprojecting a FeatureCollection whose `features` is an array, when it does not throw,
      gives a collection of as many features, each changed at most in its coordinates. */
  lemma TransformKeepsCollection(system: string, geo: Json, env: Env)
    requires IsFeatureCollection(geo) && Get(geo, "features").Some? && Get(geo, "features").value.JArr?
    requires Transform(system, geo, env).Ok?
    ensures var out := Transform(system, geo, env).value;
      var fs := Get(geo, "features").value.items;
      out.JObj? && IsFeatureCollection(out) && Get(out, "features").Some? && Get(out, "features").value.JArr?
      && |Get(out, "features").value.items| == |fs|
      && forall i :: 0 <= i < |fs| ==> Reproject.SameExceptCoordinates(fs[i], Get(out, "features").value.items[i])
  {
    var out := Transform(system, geo, env).value;
    if system == Reproject.Wgs84 || env.proj4.None? || Reproject.SourceEpsg(system).None? {
      Reproject.IdentityCases(system, geo, env.proj4);
    } else {
      Reproject.CollectionPreserved(system, geo, env.proj4.value, out);
      assert out.fields["type"] == geo.fields["type"];
    }
  }

  /** The collection the shapefile reader builds from decoded layers. */
  function LayersCollection(layers: seq<Json>): Json
    requires Adapters.AllLayerObjects(layers)
  {
    JObj(map["type" := FeatureCollectionType, "features" := JArr(Adapters.Concat(Adapters.FeatureLists(layers)))])
  }

  /** What the shapefile reader makes of a decoded array of layers: flattening fails iff a layer
      is `null`; decoder layers give the collection of their features in layer order, which the
      identity cases return as it is and which, reprojected, holds `FeatureTotal` features. */
  lemma LayersCollected(system: string, decoded: Json, env: Env)
    ensures decoded.JArr? ==>
      (Adapters.ShapefileCollection(decoded).Err? <==> exists i :: 0 <= i < |decoded.items| && decoded.items[i].JNull?)
    ensures decoded.JArr? && Adapters.AllLayerObjects(decoded.items) ==>
      var geo := LayersCollection(decoded.items);
      Adapters.ShapefileCollection(decoded) == Ok(geo)
      && (system == Reproject.Wgs84 || env.proj4.None? ==> Transform(system, geo, env) == Ok(geo))
      && (Transform(system, geo, env).Ok? ==>
            IsFeatureCollection(Transform(system, geo, env).value)
            && FeatureCount(Transform(system, geo, env).value) == Some(Adapters.FeatureTotal(decoded.items)))
  {
    if decoded.JArr? {
      var layers := decoded.items;
      Adapters.FlattenFailsIffNullLayer(layers);
      if Adapters.AllLayerObjects(layers) {
        Adapters.FlattenDecoderLayers(layers);
        var geo := LayersCollection(layers);
        assert Get(geo, "features") == Some(JArr(Adapters.Concat(Adapters.FeatureLists(layers))));
        if system == Reproject.Wgs84 || env.proj4.None? {
          Reproject.IdentityCases(system, geo, env.proj4);
        }
        if Transform(system, geo, env).Ok? {
          TransformKeepsCollection(system, geo, env);
        }
      }
    }
  }

  /** `parseShapefile`: the library check comes before reading; a read failure is reported as
      such, and a decoder that throws, a `null` layer or a coordinate walk that throws as a
      shapefile reader failure. Otherwise the result is the reprojected collection: for an
      array of decoder layers, one holding all their features. */
  function ReadShapefile(system: string, env: Env): (r: Result<Json, Failure>)
    ensures !env.shpLoaded ==> r == Err(LibraryMissing)
    ensures env.shpLoaded && env.read.None? ==> r == Err(ReadFailed)
    ensures env.shpLoaded && env.read.Some? ==>
      (r.Err? ==> r == Err(ReaderFailed(Shapefile)))
      && (env.shpDecode.None? ==> r.Err?)
      && (env.shpDecode.Some? ==>
            (r.Ok? <==> Adapters.ShapefileCollection(env.shpDecode.value).Ok?
                        && Transform(system, Adapters.ShapefileCollection(env.shpDecode.value).value, env).Ok?)
            && (r.Ok? ==>
                  r.value == Transform(system, Adapters.ShapefileCollection(env.shpDecode.value).value, env).value))
    ensures env.shpLoaded && env.read.Some? && env.shpDecode.Some? && env.shpDecode.value.JArr? ==>
      var layers := env.shpDecode.value.items;
      ((exists i :: 0 <= i < |layers| && layers[i].JNull?) ==> r == Err(ReaderFailed(Shapefile)))
      && (Adapters.AllLayerObjects(layers) && r.Ok? ==>
            IsFeatureCollection(r.value) && FeatureCount(r.value) == Some(Adapters.FeatureTotal(layers)))
      && (Adapters.AllLayerObjects(layers) && (system == Reproject.Wgs84 || env.proj4.None?) ==>
            r == Ok(LayersCollection(layers)))
  {
    if !env.shpLoaded then Err(LibraryMissing)
    else if env.read.None? then Err(ReadFailed)
    else match env.shpDecode
      case None => Err(ReaderFailed(Shapefile))
      case Some(decoded) =>
        LayersCollected(system, decoded, env);
        match Adapters.ShapefileCollection(decoded)
        case Err(_) => Err(ReaderFailed(Shapefile))
        case Ok(geo) =>
          match Transform(system, geo, env)
          case Err(_) => Err(ReaderFailed(Shapefile))
          case Ok(out) => Ok(out)
  }

  /** The positions the DXF reader writes are leaves of the coordinate walk. */
  lemma PositionsWalkable(ps: seq<Dxf.Point>)
    ensures Reproject.Walkable(PositionsJson(ps))
  {
    var j := PositionsJson(ps);
    forall i | 0 <= i < |j.items| ensures Reproject.Walkable(j.items[i]) {
      assert j.items[i] == PointJson(ps[i]);
      assert Reproject.IsLeaf(PointJson(ps[i]));
    }
  }

  /** The coordinates of every DXF geometry are accepted by the coordinate walk. */
  lemma CoordinatesWalkable(g: Dxf.Geometry)
    ensures Reproject.Walkable(CoordinatesJson(g))
  {
    match g
    case LineString(ps) => PositionsWalkable(ps);
    case Polygon(rings) =>
      var j := CoordinatesJson(g);
      forall i | 0 <= i < |rings| ensures Reproject.Walkable(j.items[i]) {
        assert j.items[i] == PositionsJson(rings[i]);
        PositionsWalkable(rings[i]);
      }
  }

  /** `geo` is the reprojected DXF collection of `fs`: a FeatureCollection with one feature per
      parsed feature, in order, each as the reader builds it up to its coordinates. */
  predicate HoldsDxfFeatures(geo: Json, fs: seq<Dxf.Feature>) {
    geo.JObj? && IsFeatureCollection(geo)
    && Get(geo, "features").Some? && Get(geo, "features").value.JArr?
    && |Get(geo, "features").value.items| == |fs|
    && forall i :: 0 <= i < |fs| ==>
         Reproject.SameExceptCoordinates(FeatureJson(fs[i]), Get(geo, "features").value.items[i])
  }

  /** The DXF collection reprojects without error under every coordinate system, into a
      collection holding the parsed features; the identity cases return it unchanged. */
  lemma DxfTransformed(system: string, fs: seq<Dxf.Feature>, env: Env)
    ensures Transform(system, CollectionJson(fs), env).Ok?
    ensures HoldsDxfFeatures(Transform(system, CollectionJson(fs), env).value, fs)
    ensures system == Reproject.Wgs84 || env.proj4.None? ==>
      Transform(system, CollectionJson(fs), env) == Ok(CollectionJson(fs))
  {
    var geo := CollectionJson(fs);
    var items := Get(geo, "features").value.items;
    assert Get(geo, "features") == Some(JArr(items));
    assert forall i :: 0 <= i < |fs| ==> items[i] == FeatureJson(fs[i]);
    if system == Reproject.Wgs84 || env.proj4.None? || Reproject.SourceEpsg(system).None? {
      Reproject.IdentityCases(system, geo, env.proj4);
    } else {
      var src := Reproject.SourceEpsg(system).value;
      var proj := env.proj4.value;
      var rs := seq(|items|, i requires 0 <= i < |items| => Reproject.TransformFeature(items[i], src, proj));
      forall i | 0 <= i < |items| ensures rs[i].Ok? {
        var g := Get(items[i], "geometry").value;
        assert g.fields["coordinates"] == CoordinatesJson(fs[i].geometry);
        CoordinatesWalkable(fs[i].geometry);
        Reproject.TransformSucceedsIffWalkable(CoordinatesJson(fs[i].geometry), src, proj);
      }
      assert Reproject.Collect(rs).Ok?;
    }
    TransformKeepsCollection(system, geo, env);
  }

  /** `parseDXF`: the text is read, parsed by the DXF reader and reprojected. A read failure and
      a parse failure are reported; a parsed drawing always reprojects, and the result is the
      reprojection of the collection of the parsed features, which holds those features and is
      the collection itself in the identity cases. */
  function ReadDxf(system: string, env: Env): (r: Result<Json, Failure>)
    ensures env.read.None? ==> r == Err(ReadFailed)
    ensures env.read.Some? && ParseDxf(env.dxfReader, env.read.value, env.num).Err? ==>
      r == Err(ReaderFailed(DxfDrawing))
    ensures env.read.Some? && ParseDxf(env.dxfReader, env.read.value, env.num).Ok? ==>
      var fs := ParseDxf(env.dxfReader, env.read.value, env.num).value;
      r.Ok? && Transform(system, CollectionJson(fs), env).Ok?
      && r.value == Transform(system, CollectionJson(fs), env).value && HoldsDxfFeatures(r.value, fs)
      && (system == Reproject.Wgs84 || env.proj4.None? ==> r.value == CollectionJson(fs))
  {
    match env.read
    case None => Err(ReadFailed)
    case Some(text) =>
      match ParseDxf(env.dxfReader, text, env.num)
      case Err(_) => Err(ReaderFailed(DxfDrawing))
      case Ok(fs) =>
        // the walk cannot throw on the positions the reader writes
        DxfTransformed(system, fs, env);
        Ok(Transform(system, CollectionJson(fs), env).value)
  }

  /** `parseGeoJSON`: the text must parse, pass the structural checks and reproject; once the
      file has been read, every failure is a GeoJSON reader failure, and a success is the
      reprojection of the parsed value. Under WGS84 that is the parsed value itself. */
  function ReadGeoJson(system: string, env: Env): (r: Result<Json, Failure>)
    ensures env.read.None? ==> r == Err(ReadFailed)
    ensures r.Err? ==> r.error in {ReadFailed, ReaderFailed(GeoJson)}
    ensures env.read.Some? ==>
      (r.Err? ==> r == Err(ReaderFailed(GeoJson)))
      && (env.jsonParse(env.read.value).None? ==> r.Err?)
    ensures env.read.Some? && env.jsonParse(env.read.value).Some? ==>
      var g := env.jsonParse(env.read.value).value;
      (r.Ok? <==> Adapters.CheckGeoJson(g).Ok? && Transform(system, g, env).Ok?)
      && (r.Ok? ==> r.value == Transform(system, g, env).value)
    ensures system == Reproject.Wgs84 && env.read.Some? && env.jsonParse(env.read.value).Some? ==>
      var g := env.jsonParse(env.read.value).value;
      (r.Ok? <==> Adapters.CheckGeoJson(g).Ok?) && (r.Ok? ==> r.value == g)
  {
    match env.read
    case None => Err(ReadFailed)
    case Some(text) =>
      match env.jsonParse(text)
      case None => Err(ReaderFailed(GeoJson))
      case Some(g) =>
        match Adapters.CheckGeoJson(g)
        case Err(_) => Err(ReaderFailed(GeoJson))
        case Ok(checked) =>
          match Transform(system, checked, env)
          case Err(_) => Err(ReaderFailed(GeoJson))
          case Ok(out) => Ok(out)
  }

  /** The reader a job runs. */
  function Read(kind: Kind, system: string, env: Env): Result<Json, Failure> {
    match kind
    case Shapefile => ReadShapefile(system, env)
    case DxfDrawing => ReadDxf(system, env)
    case GeoJson => ReadGeoJson(system, env)
  }

  /** `geoJSON && geoJSON.features && geoJSON.features.length > 0`. */
  predicate HasFeatures(geo: Json) {
    Truthy(geo) && Present(Get(geo, "features"))
    && Length(Get(geo, "features")).Some? && Length(Get(geo, "features")).value > 0
  }

  /** The asynchronous part of `handleFile` for a dispatched job: run the reader, accept a
      result holding at least one feature, and add it to the registry under the file's own
      name. The flag is cleared on every path. A failure leaves the registry as it was, except
      that a drawing which throws has already moved the layer counter on. */
  function Complete(c: Controller, job: Job, env: Env): (d: Completed)
    ensures !d.controller.busy
    ensures d.controller.coordSystem == c.coordSystem
    ensures d.outcome == Uploaded <==>
      Read(job.kind, c.coordSystem, env).Ok? && HasFeatures(Read(job.kind, c.coordSystem, env).value)
      && env.render == Rendered
    ensures d.outcome == Uploaded ==>
      d.controller.registry == Add(c.registry, Read(job.kind, c.coordSystem, env).value, job.file.name, env.render)
      && |d.controller.registry.entries| == |c.registry.entries| + 1
    ensures d.outcome != Uploaded ==> d.outcome.Failed? && d.controller.registry.entries == c.registry.entries
    ensures d.outcome != Uploaded ==>
      d.controller.registry == c.registry
      || (d.outcome == Failed(DrawFailed) && env.render == RenderThrows
          && Read(job.kind, c.coordSystem, env).Ok?
          && d.controller.registry == Add(c.registry, Read(job.kind, c.coordSystem, env).value, job.file.name, env.render))
  {
    match Read(job.kind, c.coordSystem, env)
    case Err(f) => Completed(Failed(f), c.(busy := false))
    case Ok(geo) =>
      if !HasFeatures(geo) then Completed(Failed(NoGeometry), c.(busy := false))
      else
        var reg := Add(c.registry, geo, job.file.name, env.render);
        if env.render == Rendered then Completed(Uploaded, Controller(c.coordSystem, reg, false))
        else Completed(Failed(DrawFailed), Controller(c.coordSystem, reg, false))
  }

  /** `handleFile` run to completion without another call in between. */
  function HandleFile(c: Controller, file: Option<File>, env: Env): (d: Completed)
    ensures file.None? ==> d == Completed(NoFile, c)
    ensures file.Some? && c.busy ==> d == Completed(Refused(Busy), c)
    ensures d.outcome.Refused? ==> d.controller.registry == c.registry
  {
    var s := Start(c, file);
    match s.outcome
    case Dispatched(job) => Complete(s.controller, job, env)
    case Ignored => Completed(NoFile, s.controller)
    case Rejected(why) => Completed(Refused(why), s.controller)
  }

  /** From an idle controller, a file becomes a layer exactly when it is within the size limit,
      not empty, has an accepted extension, its reader yields a value with at least one feature,
      and drawing succeeds; the new layer is visible, carries the file's name and is appended
      last. The controller is idle again afterwards whatever happens, and a file that does not
      become a layer leaves the registry as it was, apart from the counter a throwing drawing
      moves on. */
  lemma UploadIff(c: Controller, f: File, env: Env)
    requires !c.busy
    ensures var d := HandleFile(c, Some(f), env);
      !d.controller.busy
      && (d.outcome == Uploaded <==>
            0 < f.size <= MaxFileSize && KindOf(ExtensionOf(f.name)).Some?
            && Read(KindOf(ExtensionOf(f.name)).value, c.coordSystem, env).Ok?
            && HasFeatures(Read(KindOf(ExtensionOf(f.name)).value, c.coordSystem, env).value)
            && env.render == Rendered)
      && (d.outcome == Uploaded ==>
            var es := d.controller.registry.entries;
            |es| == |c.registry.entries| + 1 && es[..|es| - 1] == c.registry.entries
            && es[|es| - 1].name == f.name && es[|es| - 1].visible
            && es[|es| - 1].serial == c.registry.counter + 1)
      && (d.outcome != Uploaded ==> d.controller.registry.entries == c.registry.entries)
      && (d.outcome != Uploaded ==>
            d.controller.registry == c.registry
            || (d.outcome == Failed(DrawFailed) && env.render == RenderThrows
                && KindOf(ExtensionOf(f.name)).Some?
                && Read(KindOf(ExtensionOf(f.name)).value, c.coordSystem, env).Ok?
                && d.controller.registry
                   == Add(c.registry, Read(KindOf(ExtensionOf(f.name)).value, c.coordSystem, env).value, f.name, env.render)))
  {
    var s := Start(c, Some(f));
    if s.outcome.Dispatched? {
      var geo := Read(s.outcome.job.kind, c.coordSystem, env);
      if geo.Ok? && HasFeatures(geo.value) && env.render == Rendered {
        assert !CountThrows(geo.value);
      }
    }
  }

  /** A file handed in while another is being read is refused and leaves the controller, and so
      the job in flight and its eventual result, exactly as they were. */
  lemma SecondFileRefused(c: Controller, first: File, second: File, env: Env)
    requires Start(c, Some(first)).outcome.Dispatched?
    ensures var mid := Start(c, Some(first)).controller;
      Start(mid, Some(second)) == Started(Rejected(Busy), mid)
      && Complete(Start(mid, Some(second)).controller, Start(c, Some(first)).outcome.job, env)
         == Complete(mid, Start(c, Some(first)).outcome.job, env)
  {
  }

  /** Every path through `handleFile` keeps the registry's invariant. */
  lemma HandleFileValid(c: Controller, file: Option<File>, env: Env)
    requires Valid(c.registry)
    ensures Valid(HandleFile(c, file, env).controller.registry)
  {
    var s := Start(c, file);
    if s.outcome.Dispatched? {
      var geo := Read(s.outcome.job.kind, c.coordSystem, env);
      if geo.Ok? && HasFeatures(geo.value) {
        AddValid(c.registry, geo.value, s.outcome.job.file.name, env.render);
      }
    }
  }

  /** Under every coordinate system and with either DXF reader, a DXF drawing from which the
      reader recovers features becomes one new layer whose feature count is the number of
      recovered features and which holds them; one with none is refused by the reader. */
  lemma DxfUpload(c: Controller, f: File, env: Env)
    requires !c.busy
    requires 0 < f.size <= MaxFileSize && ExtensionOf(f.name) == "dxf"
    requires env.read.Some? && env.render == Rendered
    ensures var d := HandleFile(c, Some(f), env);
      match ParseDxf(env.dxfReader, env.read.value, env.num)
      case Ok(fs) =>
        var es := d.controller.registry.entries;
        d.outcome == Uploaded && |es| == |c.registry.entries| + 1
        && es[|es| - 1].featureCount == Some(|fs|) && HoldsDxfFeatures(es[|es| - 1].data, fs)
      case Err(_) => d.outcome == Failed(ReaderFailed(DxfDrawing))
  {
    DxfDispatched(c, f, env);
    var p := ParseDxf(env.dxfReader, env.read.value, env.num);
    if p.Ok? {
      var geo := ReadDxf(c.coordSystem, env).value;
      HoldsDxfCounts(geo, p.value);
      var reg := Add(Start(c, Some(f)).controller.registry, geo, f.name, env.render);
      assert reg.entries[|reg.entries| - 1].featureCount == FeatureCount(geo);
    }
  }

  /** The closed square of `DxfPairs.SquareExample` uploaded as a `.dxf` file: the program's
      reader finds no geometry in it, so the upload fails and the controller is left as it was;
      the corrected reader turns it into a new layer of one feature. */
  lemma SquareUpload(c: Controller, f: File, env: Env)
    requires !c.busy && 0 < f.size <= MaxFileSize && ExtensionOf(f.name) == "dxf"
    requires env.read.Some? && Dxf.Lines(env.read.value) == DxfPairs.SquareExample
    requires env.num == DxfPairs.Decimal && env.render == Rendered
    ensures env.dxfReader == AsWritten ==>
      HandleFile(c, Some(f), env) == Completed(Failed(ReaderFailed(DxfDrawing)), c)
    ensures env.dxfReader == Corrected ==>
      var d := HandleFile(c, Some(f), env);
      d.outcome == Uploaded && d.controller.registry.entries[|d.controller.registry.entries| - 1].featureCount == Some(1)
  {
    var text := env.read.value;
    DxfDispatched(c, f, env);
    if env.dxfReader == AsWritten {
      DxfPairs.StrideAsWritten();
      assert ParseDxf(AsWritten, text, env.num) == Err(Dxf.NoValidGeometry);
      assert ReadDxf(c.coordSystem, env) == Err(ReaderFailed(DxfDrawing));
    } else {
      DxfPairs.StrideCorrected();
      assert |ParseDxf(Corrected, text, env.num).value| == 1;
      DxfUpload(c, f, env);
    }
  }

  /** A collection holding at least one parsed DXF feature counts as holding features, one per
      parsed feature. */
  lemma HoldsDxfCounts(geo: Json, fs: seq<Dxf.Feature>)
    requires HoldsDxfFeatures(geo, fs) && |fs| >= 1
    ensures HasFeatures(geo) && FeatureCount(geo) == Some(|fs|)
  {
    var items := Get(geo, "features").value.items;
    assert Get(geo, "features") == Some(JArr(items));
  }

  /** An idle controller dispatches a `.dxf` file within the limits to the DXF reader. */
  lemma DxfDispatched(c: Controller, f: File, env: Env)
    requires !c.busy && 0 < f.size <= MaxFileSize && ExtensionOf(f.name) == "dxf"
    ensures Start(c, Some(f)).outcome == Dispatched(Job(f, DxfDrawing))
    ensures HandleFile(c, Some(f), env) == Complete(Start(c, Some(f)).controller, Job(f, DxfDrawing), env)
  {
  }

  /** Under every coordinate system, a GeoJSON file holding a single Feature (no `features`
      member) passes the reader's checks but produces no layer: the upload ends with no
      geometry, or with a reader failure when walking its coordinates throws. */
  lemma SingleFeatureRefused(c: Controller, f: File, env: Env, g: Json)
    requires !c.busy
    requires 0 < f.size <= MaxFileSize && KindOf(ExtensionOf(f.name)) == Some(GeoJson)
    requires env.read.Some? && env.jsonParse(env.read.value) == Some(g)
    requires g.JObj? && Get(g, "type") == Some(JStr("Feature")) && "features" !in g.fields
    ensures var d := HandleFile(c, Some(f), env);
      d.controller.registry.entries == c.registry.entries
      && (Transform(c.coordSystem, g, env).Ok? ==> d.outcome == Failed(NoGeometry))
      && (Transform(c.coordSystem, g, env).Err? ==> d.outcome == Failed(ReaderFailed(GeoJson)))
  {
    assert Adapters.CheckGeoJson(g) == Ok(g);
    var t := Transform(c.coordSystem, g, env);
    if t.Ok? {
      assert Read(GeoJson, c.coordSystem, env) == Ok(t.value);
      if c.coordSystem == Reproject.Wgs84 || env.proj4.None? || Reproject.SourceEpsg(c.coordSystem).None? {
        Reproject.IdentityCases(c.coordSystem, g, env.proj4);
      } else {
        assert t == Reproject.TransformFeature(g, Reproject.SourceEpsg(c.coordSystem).value, env.proj4.value);
      }
      assert "features" !in t.value.fields;
      assert !HasFeatures(t.value);
    }
  }
}
