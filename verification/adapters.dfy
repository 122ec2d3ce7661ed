/** The pure parts of the shapefile and GeoJSON readers: flattening the decoder's list of layers
    into one collection, and the structural checks on decoded GeoJSON. */
module Adapters {
  import opened Wrappers
  import opened Json

  /** Errors thrown by these steps. */
  datatype AdapterError = TypeError | MissingType | FeaturesNotArray

  /** What `layer => layer.features || []` contributes to `flatMap`: the elements of an array,
      nothing for a falsy or missing `features`, and any other value as one element (`flatMap`
      flattens arrays only). Reading `features` of `null` throws. */
  function LayerContribution(layer: Json): Result<seq<Json>, AdapterError> {
    if layer.JNull? then Err(TypeError)
    else match Get(layer, "features")
      case Some(JArr(items)) => Ok(items)
      case Some(v) => if Truthy(v) then Ok([v]) else Ok([])
      case None => Ok([])
  }

  /** `layers.flatMap(layer => layer.features || [])`. */
  function FlattenLayers(layers: seq<Json>): Result<seq<Json>, AdapterError> {
    if layers == [] then Ok([])
    else match LayerContribution(layers[0])
      case Err(e) => Err(e)
      case Ok(head) =>
        match FlattenLayers(layers[1..])
        case Ok(tail) => Ok(head + tail)
        case Err(e) => Err(e)
  }

  /** Flattening throws exactly when one of the layers is `null`. */
  lemma {:induction false} FlattenFailsIffNullLayer(layers: seq<Json>)
    ensures FlattenLayers(layers).Err? <==> exists i :: 0 <= i < |layers| && layers[i].JNull?
    decreases |layers|
  {
    if layers != [] {
      FlattenFailsIffNullLayer(layers[1..]);
      if exists i :: 0 <= i < |layers[1..]| && layers[1..][i].JNull? {
        var i :| 0 <= i < |layers[1..]| && layers[1..][i].JNull?;
        assert layers[i + 1].JNull?;
      }
      if exists i :: 0 <= i < |layers| && layers[i].JNull? {
        var i :| 0 <= i < |layers| && layers[i].JNull?;
        if i > 0 {
          assert layers[1..][i - 1].JNull?;
        }
      }
    }
  }

  /** A layer as the decoder returns it: an object whose `features` is an array, or absent. */
  predicate IsLayerObject(layer: Json) {
    layer.JObj? && ("features" in layer.fields ==> layer.fields["features"].JArr?)
  }

  /** The features of such a layer (none when `features` is absent). */
  function LayerFeatures(layer: Json): seq<Json>
    requires IsLayerObject(layer)
  {
    if "features" in layer.fields then layer.fields["features"].items else []
  }

  /** Every layer is a decoder layer. */
  predicate AllLayerObjects(layers: seq<Json>) {
    forall i :: 0 <= i < |layers| ==> IsLayerObject(layers[i])
  }

  /** Total number of features over all layers. */
  function FeatureTotal(layers: seq<Json>): nat
    requires AllLayerObjects(layers)
  {
    if layers == [] then 0 else |LayerFeatures(layers[0])| + FeatureTotal(layers[1..])
  }

  /** The concatenation of a list of lists, in order. */
  function Concat(parts: seq<seq<Json>>): seq<Json> {
    if parts == [] then [] else parts[0] + Concat(parts[1..])
  }

  /** The feature lists of the layers, one per layer, in layer order. */
  function FeatureLists(layers: seq<Json>): (parts: seq<seq<Json>>)
    requires AllLayerObjects(layers)
    ensures |parts| == |layers| && forall i :: 0 <= i < |layers| ==> parts[i] == LayerFeatures(layers[i])
  {
    seq(|layers|, i requires 0 <= i < |layers| => LayerFeatures(layers[i]))
  }

  /** For decoder layers, `flatMap` is the concatenation of the layers' feature lists. */
  lemma {:induction false} FlattenIsConcat(layers: seq<Json>)
    requires AllLayerObjects(layers)
    ensures FlattenLayers(layers) == Ok(Concat(FeatureLists(layers)))
    decreases |layers|
  {
    if layers != [] {
      var rest := layers[1..];
      assert AllLayerObjects(rest) by {
        forall k | 0 <= k < |rest| ensures IsLayerObject(rest[k]) {
          assert rest[k] == layers[k + 1];
        }
      }
      FlattenIsConcat(rest);
      assert LayerContribution(layers[0]) == Ok(LayerFeatures(layers[0]));
      assert FeatureLists(layers)[1..] == FeatureLists(rest);
    }
  }

  /** For decoder layers, flattening succeeds and yields the features of the first layer, then
      those of the second, and so on; so a value is in the result iff it is a feature of some
      layer, and the length is the sum of the layers' feature counts. */
  lemma {:induction false} FlattenDecoderLayers(layers: seq<Json>)
    requires AllLayerObjects(layers)
    ensures FlattenLayers(layers).Ok?
    ensures FlattenLayers(layers).value == Concat(FeatureLists(layers))
    ensures |FlattenLayers(layers).value| == FeatureTotal(layers)
    ensures forall x :: x in FlattenLayers(layers).value <==>
      exists i :: 0 <= i < |layers| && x in LayerFeatures(layers[i])
    decreases |layers|
  {
    if layers != [] {
      var rest := layers[1..];
      assert AllLayerObjects(rest) by {
        forall k | 0 <= k < |rest| ensures IsLayerObject(rest[k]) {
          assert rest[k] == layers[k + 1];
        }
      }
      FlattenDecoderLayers(rest);
      FlattenIsConcat(layers);
      var head := LayerFeatures(layers[0]);
      assert LayerContribution(layers[0]) == Ok(head);
      var out := FlattenLayers(layers).value;
      assert out == head + FlattenLayers(rest).value;
      forall x
        ensures x in out <==> exists i :: 0 <= i < |layers| && x in LayerFeatures(layers[i])
      {
        if x in head {
          assert 0 < |layers| && x in LayerFeatures(layers[0]);
        } else if x in FlattenLayers(rest).value {
          var k :| 0 <= k < |rest| && x in LayerFeatures(rest[k]);
          assert rest[k] == layers[k + 1];
        }
        if exists i :: 0 <= i < |layers| && x in LayerFeatures(layers[i]) {
          var i :| 0 <= i < |layers| && x in LayerFeatures(layers[i]);
          if i > 0 {
            assert layers[i] == rest[i - 1];
          }
        }
      }
    }
  }

  /** The shapefile reader's result before reprojection: an array of layers becomes one
      FeatureCollection of all their features; any other decoder output is used as it is. */
  function ShapefileCollection(decoded: Json): (r: Result<Json, AdapterError>)
    ensures decoded.JArr? ==> (r.Ok? <==> FlattenLayers(decoded.items).Ok?)
    ensures decoded.JArr? && r.Ok? ==>
      r.value == JObj(map["type" := FeatureCollectionType, "features" := JArr(FlattenLayers(decoded.items).value)])
    ensures !decoded.JArr? ==> r == Ok(decoded)
  {
    match decoded
    case JArr(layers) =>
      (match FlattenLayers(layers)
       case Ok(all) => Ok(JObj(map["type" := FeatureCollectionType, "features" := JArr(all)]))
       case Err(e) => Err(e))
    case _ => Ok(decoded)
  }

  /** The checks `parseGeoJSON` applies to the decoded value: reading `type` of `null` throws;
      a falsy or missing `type` is refused; a FeatureCollection whose `features` is not an array is
      refused; anything else passes through unchanged. */
  function CheckGeoJson(g: Json): (r: Result<Json, AdapterError>)
    ensures r.Ok? ==> r.value == g
    ensures r.Ok? <==> !g.JNull? && Present(Get(g, "type"))
                       && (IsFeatureCollection(g) ==> Get(g, "features").Some? && Get(g, "features").value.JArr?)
    ensures r == Err(MissingType) <==> !g.JNull? && !Present(Get(g, "type"))
  {
    if g.JNull? then Err(TypeError)
    else if !Present(Get(g, "type")) then Err(MissingType)
    else if IsFeatureCollection(g) && !(Get(g, "features").Some? && Get(g, "features").value.JArr?) then
      Err(FeaturesNotArray)
    else Ok(g)
  }
}
