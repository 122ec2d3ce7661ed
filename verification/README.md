# Peta Interaktif upload pipeline — a Dafny model

This project models the logic at the core of the interactive land map of Sumbawa (Peta Interaktif):

- the **upload manager**, which takes a shapefile archive, DXF drawing or GeoJSON file from the user:
  - it checks the file;
  - it reads the file with the matching reader (including a hand-written DXF parser);
  - it reprojects TM-3 zone 50.1/50.2 coordinates to WGS84;
  - it keeps a registry of the uploaded layers, which can be toggled, deleted and cleared;
- the formatter for land-title numbers (*nomor hak*) and the colour lookup;
- the **bottom drawer** that shows attribute data: opening, minimising, swiping, paging through parcels, and the attribute rows.

Everything is modelled as pure functions over immutable datatypes. The modules follow the program's structure:

| module | file | models |
|---|---|---|
| `Wrappers` | wrappers.dfy | `Option`, `Result` |
| `Json` | json.dfy | decoded JSON values, JavaScript truthiness, property reads |
| `Text` | text.dfy | `split`, `trim`, ASCII case mapping, digit filtering, decimal rendering |
| `Dxf` | dxf.dfy | `simpleDXFParser` exactly as written |
| `DxfPairs` | dxf_pairs.dfy | the DXF parser as evidently intended, plus the counterexamples |
| `Reproject` | reproject.dfy | `selectCoordSystem`, `transformGeoJSON` |
| `Adapters` | adapters.dfy | shapefile layer flattening, the GeoJSON structural checks |
| `Registry` | registry.dfy | `addLayerToMap`, `toggleLayer`, `deleteLayer`, `clearAllLayers` |
| `Ingest` | ingest.dfy | `handleFile` and the three readers |
| `Utils` | utils.dfy | `formatNomorHak`, `getColor` |
| `Drawer` | drawer.dfy | the drawer manager |

Foreign code and the browser become parameters:

- `parseFloat`/`parseInt` are a `Numerics` record of partial functions, where `None` is NaN.
- `proj4` is a partial function on coordinate arrays, where `None` means it threw. Whether the library is loaded is an `Option`.
- The file reader, `JSON.parse` and the shapefile decoder are an `Env` record holding their outcomes.
- Leaflet rendering is a three-way `Render` outcome. The map itself is reduced to the set of layer serials drawn on it.
- `confirm()` is a boolean argument.
- The drawer's page elements are reduced to a `mounted` flag.

Behaviour worth noting, modelled as the code does it:

- A closed polyline of three vertices whose last equals its first yields a ring of length 3. No minimum ring length of 4 is enforced (js/upload.js:308-315).
- `handleFile` checks the size limit before the empty file. The two are exclusive, so the order only decides which check is reached first.
- A GeoJSON file holding a single Feature passes the GeoJSON checks but is refused by `handleFile`, because acceptance needs a non-empty `features` (`Ingest.SingleFeatureRefused`).

The DXF reader the controller runs is a parameter, `Ingest.Env.dxfReader`. `AsWritten` is the program's `simpleDXFParser` (`Dxf.SimpleDxfParser`), and `Corrected` is the reader the findings below evidently intend (`DxfPairs.Parse`). Both share the record semantics `Dxf.Apply`. Every contract of `Ingest` holds for both readers, and `Ingest.SquareUpload` shows an upload on which they part.

## Model

| member | source | states |
|---|---|---|
| Dxf.CloseRing | js/upload.js:308-315 | the ring is the vertex list, plus a copy of the first vertex exactly when the first and last differ; it starts and ends with the first vertex |
| Dxf.Emit | js/upload.js:304-338 | a code-0 record emits at most one feature, and emits one iff the pending entity is LWPOLYLINE with at least 2 vertices; closed with more than 2 vertices gives a one-ring Polygon whose ring is `CloseRing` of the vertex list (at least 3 points, first equal to last); otherwise a LineString of exactly the vertices in order; the layer is the current layer |
| Dxf.Apply | js/upload.js:302-387 | one record: code 0 emits the pending entity and starts the named one; code 8 sets the layer (`Default` for an empty value); code 70 sets the closed bit only inside a polyline; code 10 appends a vertex only when both ordinates parse; inside a LINE, code 10 emits one 2-point LineString iff all four ordinates parse; code 10 outside both entities and any other code change nothing; features are only ever appended |
| Dxf.ParseLines | js/upload.js:392-399 | the parser fails with no-valid-geometry exactly when the loop emitted no feature, and otherwise returns the emitted features |
| Dxf.LayerTracksLastCode8 | js/upload.js:341-343 | the layer in force is the value after the last line `8` seen, or `Default` if that value was empty or there was none |
| Dxf.EmissionAt | js/upload.js:300-387 | each iteration appends at most one feature; it carries the last code-8 layer; it is emitted only on a line `0`, or on a line `10` inside a LINE; away from a line `0` it is a 2-point LineString |
| Dxf.OnlyKnownEntitiesEmit | js/upload.js:304-387 | entities other than LWPOLYLINE and LINE are dropped without output |
| Dxf.AllWellFormed | js/upload.js:304-387 | every emitted feature is a LineString of at least 2 points or a Polygon with one closed ring of at least 3 points, with a non-empty layer |
| Dxf.ParseResult | js/upload.js:291-400 | the DXF text is rejected iff nothing was emitted; otherwise every returned feature is well formed |
| DxfPairs.Pairs | js/upload.js:300-302 | the corrected reading: line 2k is a group code and line 2k+1 its value |
| DxfPairs.ParsePairs | js/upload.js:291-400 | the corrected parser fails exactly when no record emitted a feature |
| DxfPairs.PairEmissionAt | js/upload.js:345-387 | in the corrected parser only group-code lines trigger emission, and a LINE takes its ordinates from the values of its own records |
| DxfPairs.PairsWellFormed | js/upload.js:304-387 | the corrected parser emits only well-formed features |
| DxfPairs.LineOffsetsAsWritten | js/upload.js:363-387 | as written, the LINE (5,6)-(7,8) comes out as (5,20)-(11,21) |
| DxfPairs.LineOffsetsCorrected | js/upload.js:363-387 | the corrected parser yields the segment (5,6)-(7,8) |
| DxfPairs.StrideAsWritten | js/upload.js:300-304 | as written, a closed square whose first X value is `0` yields no geometry at all |
| DxfPairs.StrideCorrected | js/upload.js:300-338 | the corrected parser yields that square as a one-ring Polygon |
| Text.Split | js/upload.js:293 | `split` gives separator-free pieces that join back to the input |
| Text.SplitJoin | js/upload.js:293 | splitting joined separator-free pieces gives the pieces back |
| Text.Trim | js/upload.js:293 | `trim` removes exactly the leading and trailing white space |
| Reproject.SelectCoordSystem | js/upload.js:141-149 | only `wgs84`, `tm3-501` and `tm3-502` are accepted; any other value leaves the selection unchanged, so the selection stays a known system |
| Reproject.SourceEpsg | js/upload.js:443-450 | a source projection exists exactly for the two TM-3 zones `tm3-501` and `tm3-502`; no other system has one |
| Reproject.Collect | js/upload.js:473 | mapping over children succeeds iff every child succeeds, and keeps their order and number |
| Reproject.TransformSucceedsIffWalkable | js/upload.js:463-475 | the coordinate walk throws exactly when it meets a non-array that is not a leaf |
| Reproject.TransformAt | js/upload.js:463-475 | at every path, a leaf becomes the projected position or stays as it was when projection fails, and an inner array keeps its length |
| Reproject.FallbackEverywhereIsIdentity | js/upload.js:465-471 | when every projection fails, the walk returns its input |
| Reproject.IdentityCases | js/upload.js:433-450 | WGS84, a missing projection library and an unknown system return the input unchanged |
| Reproject.CollectionPreserved | js/upload.js:477-488 | a projected FeatureCollection keeps its members and its number of features; each feature changes at most in `geometry.coordinates` |
| Adapters.FlattenFailsIffNullLayer | js/upload.js:239-242 | flattening decoder layers throws iff one layer is `null` |
| Adapters.FlattenDecoderLayers | js/upload.js:239-242 | for decoder layers, flattening succeeds and yields the features of the first layer, then those of the second, and so on (a layer without `features` adds none); so a value is in the result iff it is a feature of some layer, and the length is the sum of the layers' feature counts |
| Adapters.ShapefileCollection | js/upload.js:239-252 | an array of layers becomes one FeatureCollection of the flattened features; any other decoder output passes through |
| Adapters.CheckGeoJson | js/upload.js:410-416 | a value passes unchanged iff it has a truthy `type` and, when it is a FeatureCollection, an array `features`; a missing or falsy `type` is its own error |
| Registry.FeatureCount | js/upload.js:497-499 | the count is the length of `features` for a FeatureCollection and 1 for anything else |
| Registry.Add | js/upload.js:491-545 | a missing map changes nothing; otherwise the counter moves on; on success a visible entry with the new serial, the file name and the count is appended and drawn; a failed render adds nothing |
| Registry.Toggle | js/upload.js:611-633 | an index with no layer changes nothing; otherwise only that layer's visibility flips, and it leaves or rejoins the map |
| Registry.Delete | js/upload.js:635-666 | a bad index or a refused confirmation changes nothing; otherwise exactly that layer leaves the list and the map, and the others keep their order |
| Registry.Clear | js/upload.js:668-684 | an empty registry (which asks nothing) or a refused confirmation changes nothing; otherwise the list empties and the counter is kept |
| Registry.LayerIdInjective | js/upload.js:494-495 | `uploaded-N` identifiers of different counters differ |
| Registry.IdsDistinct | js/upload.js:494-495 | no two layers of a valid registry share an identifier |
| Registry.AddValid | js/upload.js:491-545 | adding keeps the invariant (strictly increasing serials, none beyond the counter, drawn layers are exactly the visible ones), with a fresh identifier |
| Registry.ToggleValid | js/upload.js:611-633 | toggling keeps the invariant |
| Registry.ToggleTwice | js/upload.js:611-633 | toggling the same index twice restores the registry |
| Registry.DeleteValid | js/upload.js:635-666 | deleting keeps the invariant |
| Registry.ClearValid | js/upload.js:668-684 | clearing keeps the invariant and leaves nothing drawn |
| Ingest.ExtensionOf | js/upload.js:187-188 | the extension is a dot-free suffix of the lower-cased name that is preceded by a dot unless it is the whole name, i.e. the text after the last dot |
| Ingest.KindOf | js/upload.js:190-208 | `zip` selects the shapefile reader, `dxf` the DXF reader, `geojson` and `json` the GeoJSON reader, and nothing else is accepted |
| Ingest.Start | js/upload.js:163-196 | no file is ignored; a file arriving while busy is refused with the state untouched; otherwise a file is refused as too large iff over 10 MiB, as empty iff size 0, as unsupported iff the extension is not accepted, and dispatched otherwise; only dispatch leaves the flag set |
| Ingest.ReadShapefile | js/upload.js:226-265 | the library check comes before reading; a read failure is reported as such; a decoder that throws, a `null` layer or a coordinate walk that throws is a shapefile reader failure; the reader succeeds iff decoding, flattening and reprojection all do, and then returns the reprojection of the flattened collection; decoder layers give a collection of `FeatureTotal` features, which under WGS84 or without the projection library is exactly the collection of their features in layer order |
| Ingest.ReadDxf | js/upload.js:268-289 | a read failure, and a parse failure of the DXF reader, are each reported; a parsed drawing always reprojects, and the result is the reprojection of the built collection: a FeatureCollection with one feature per parsed feature in order, each changed at most in its coordinates; under WGS84 or without the projection library it is exactly the built collection |
| Ingest.TransformKeepsCollection | js/upload.js:477-488 | reprojecting a FeatureCollection whose `features` is an array, when it does not throw, gives a collection of as many features, each changed at most in its coordinates |
| Ingest.LayersCollected | js/upload.js:236-252 | decoded layers fail to flatten iff one is `null`; decoder layers give the collection of their features in layer order, unchanged by the identity cases, and after reprojection it holds `FeatureTotal` features |
| Ingest.DxfTransformed | js/upload.js:276 | the collection the DXF reader builds reprojects without error under every system, into a collection holding the parsed features, and the identity cases return it unchanged |
| Ingest.SquareUpload | js/upload.js:268-289 | the closed square of the findings uploaded as a `.dxf` file: the program's reader fails it and leaves the controller as it was; the corrected reader makes it a layer of one feature |
| Ingest.ReadGeoJson | js/upload.js:402-431 | a read failure is reported as such; once read, every failure (the text does not parse, the structural checks refuse it, the coordinate walk throws) is a GeoJSON reader failure; the reader succeeds iff the parsed value passes the checks and reprojects, and returns its reprojection, which under WGS84 is the parsed value itself |
| Ingest.CollectionJson | js/upload.js:396-399 | the DXF result is a FeatureCollection with one feature per parsed feature |
| Ingest.Complete | js/upload.js:198-223 | the flag is cleared on every path; a layer is added iff the reader succeeds with at least one feature and drawing succeeds; a failure leaves the registry (list, counter and map) as it was, except that a drawing that throws has already moved the counter on as `addLayerToMap` does |
| Ingest.HandleFile | js/upload.js:163-224 | no file does nothing; a busy controller refuses without touching anything; a refusal never changes the registry |
| Ingest.UploadIff | js/upload.js:163-224 | from an idle controller, a layer is added iff size, extension, reader, feature count and drawing all succeed; the new layer is last, visible, and carries the file name and the next serial; otherwise the registry is unchanged apart from the counter a throwing drawing moves on; the flag is always cleared |
| Ingest.SecondFileRefused | js/upload.js:167-171 | a second file during an upload is refused and leaves the upload in flight unaffected |
| Ingest.HandleFileValid | js/upload.js:163-224 | every path keeps the registry invariant |
| Ingest.DxfUpload | js/upload.js:198-289 | under every coordinate system and with either DXF reader, a drawing the reader parses becomes one new layer that holds the parsed features and whose count is their number; one it cannot parse fails as a DXF reader failure |
| Ingest.SingleFeatureRefused | js/upload.js:208-214 | under every coordinate system, a GeoJSON single Feature adds no layer: the upload ends with no geometry, or with a reader failure when walking its coordinates throws |
| Utils.FormatNomorHak | js/utils.js:3-12 | a falsy value gives `-`; fewer than 9 digits gives the value itself; otherwise at most 14 digits with dots at positions 8 and 10 and digits elsewhere, whose digits are the first (at most 14) digits of the input |
| Utils.DottedDigits | js/utils.js:6-10 | removing the dots from the layout gives back the first at most 14 digits; 14 or more digits give length 16 |
| Utils.FormatIdempotent | js/utils.js:3-12 | formatting a formatted number changes nothing |
| Utils.FirstTruthy | js/utils.js:62 | a chain of JavaScript or-operators over the keys gives the value of the first key whose value is truthy (every earlier key is missing or falsy); the result is `null` iff no key holds a truthy value |
| Utils.GetColor | js/utils.js:61-63 | `warna`, else `color`, else `COLOR`, whichever is first truthy, else `null` |
| Drawer.Open | js/drawer.js:49-57 | opening shows the drawer maximised and keeps the parcel list; it throws only without page elements |
| Drawer.Close | js/drawer.js:68-76 | closing hides and maximises the drawer and resets the list and index; without a drawer it does nothing |
| Drawer.Minimize | js/drawer.js:95-98 | sets the minimised flag |
| Drawer.Maximize | js/drawer.js:100-103 | clears the minimised flag |
| Drawer.Toggle | js/drawer.js:87-93 | flips the minimised flag and nothing else |
| Drawer.ToggleTwice | js/drawer.js:87-103 | toggling twice restores the drawer |
| Drawer.SwipeDecision | js/drawer.js:33-45 | a swipe changes the drawer iff it goes down more than 50 while open and maximised, or up more than 50 while minimised; it only flips the minimised flag |
| Drawer.Rerender | js/drawer.js:133-134 | re-rendering throws iff the parcel at the index is missing or has no readable `properties`, or the drawer is missing |
| Drawer.Navigate | js/drawer.js:257-270 | an empty list does nothing; otherwise the index moves by at most one and nothing else changes |
| Drawer.NavigateInRange | js/drawer.js:260-266 | an index within the list stays within it; `prev` moves iff not at 0 and `next` iff not at the end; any other direction does nothing |
| Drawer.NavBarMatchesNavigate | js/drawer.js:145-150 | a navigation button is disabled iff pressing it would not move; with at most one parcel the bar is hidden and both directions do nothing |
| Drawer.ShowPersil | js/drawer.js:127-134 | as written: a new non-empty list replaces the current one but keeps the old index, and showing throws iff the parcel at that index cannot be rendered, and otherwise leaves the drawer open and maximised |
| Drawer.StaleIndexAsWritten | js/drawer.js:132-134 | after paging to the third of three parcels, showing a one-parcel list throws |
| Drawer.ShowPersilFixed | js/drawer.js:127-134 | corrected: a new list starts at index 0 |
| Drawer.ShowPersilFixedSucceeds | js/drawer.js:127-150 | corrected: a list whose first parcel renders always opens on it, with the index in range and `prev` disabled |
| Drawer.ClosedDrawerAgrees | js/drawer.js:68-76 | after `close()` the written and corrected versions agree, since closing is the only reset |
| Drawer.Label | js/drawer.js:217 | the label is the key with `_` as space, upper-cased, position by position |
| Drawer.Rows | js/drawer.js:214-217 | every listed row passes the filter and carries its key's label |
| Drawer.RowsAppend | js/drawer.js:214 | rows follow the attributes' enumeration order |
| Drawer.RowsExactly | js/drawer.js:215-217 | an attribute is listed iff its value is not `null` or `''` and its lower-cased key is not `warna` |
| Drawer.NoRowsIff | js/drawer.js:213-239 | the "no detail data" warning appears iff no attribute passes the filter |

## Left out

- Browser plumbing is not modelled: drag and drop, the file dialog, panel toggling, status messages and their timers, the layer-list HTML (`updateLayersList`) and `escapeHTML`.
- `FileReader` and the Promises are not modelled. Their outcomes are inputs (`Ingest.Env`).
- The shapefile decoder `shp` and `JSON.parse` are not modelled. Their results are inputs.
- The projection maths and definitions of `proj4` (js/upload.js:35-44) are not modelled. `proj4` is an abstract partial function.
- Leaflet is not modelled: styling, popups, `fitBounds`, `clearLayers` and highlight layers. A rendering failure and a missing map are outcomes of `Registry.Add`.
- `structuredClone`: the model copies values, so the aliasing between the input and the transformed copy is not represented.
- Registry.Toggle: a Leaflet exception while toggling is not modelled, because it comes from foreign rendering code.
- Registry.Delete: a Leaflet exception while deleting is not modelled, for the same reason.
- Text.Lower and Text.Upper map ASCII letters only. The runtime's full Unicode case mapping is not modelled. The extension test, the `warna` test and the labels only involve ASCII in practice.
- Json.Length: only arrays and strings have a `length`. An object with its own `length` member is not modelled.
- Utils.JsString: number-to-string conversion is a parameter, because the runtime's float formatting is out of scope.
- `formatLuas` is not modelled: it does locale float formatting. So the luas/area/slope value rewriting in the attribute rows (js/drawer.js:220-226) is left out too, and `Drawer.Rows` keeps the raw value.
- `createHutanContent`, `showLoading`, `showError` and the HTML of the drawer are not modelled. They are templating.
- The highlight calls from the drawer into the popup manager are not modelled.
- js/popup.js, js/layers.js, js/map.js, js/controls.js and js/config.js are not part of this model. They are templating, network queries, Web-Mercator maths and constants.
- Dxf.ClosedBit: `flags & 1` is modelled as the parity of the parsed integer. This is exact for integers that are represented exactly as doubles, and larger values are not modelled.
- Dxf numbers are reals. NaN is `None`, and infinities from `parseFloat` are not modelled.
- DxfPairs.SmallDecimal agrees with `parseFloat`/`parseInt` only on the lines of the two counterexamples (numbers of one or two digits, entity names, `EOF`). It is used only there.

## Findings

| source | as written | input that shows it | evidently intended | confidence | as-written member | corrected member |
|---|---|---|---|---|---|---|
| js/upload.js:363-373 | a LINE's Y1, X2, Y2 are read at lines i+2, i+4, i+6, which are the group-code lines `20`, `11`, `21` | `0 LINE 10 5 20 6 11 7 21 8 0 EOF` gives the segment (5,20)-(11,21) | read the values at lines i+3, i+5, i+7, giving (5,6)-(7,8) | not executed | DxfPairs.LineOffsetsAsWritten | DxfPairs.LineOffsetsCorrected |
| js/upload.js:300 | the loop advances one line at a time, so a value line `0`, `8`, `10` or `70` is taken for a group code | a closed LWPOLYLINE square whose first vertex has X = `0` ends after one vertex and yields no geometry | advance by two lines, reading (code, value) pairs | not executed | DxfPairs.StrideAsWritten | DxfPairs.StrideCorrected |
| js/drawer.js:132-134 | a new parcel list keeps the index from earlier paging; only `close()` resets it, and a new click reopens the drawer without closing it (js/map.js:116) | page to parcel 3 of 3, then click a spot with one parcel: `features[2]` is undefined and reading its `properties` throws | start every new list at index 0 (the popup guards this case, js/popup.js:115-118) | not executed | Drawer.StaleIndexAsWritten | Drawer.ShowPersilFixedSucceeds |
