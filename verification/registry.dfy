/** The list of uploaded layers kept by the upload manager: adding a rendered upload, toggling a
    layer's visibility, deleting one layer and clearing them all. The map itself is reduced to the
    set of layers currently drawn on it. */
module Registry {
  import opened Wrappers
  import opened Json
  import opened Text

  /** One uploaded layer. `serial` is the value of the layer counter when it was added; the
      layer's identifier is derived from it. */
  datatype Entry = Entry(serial: nat, name: string, featureCount: Option<nat>, visible: bool, data: Json)

  /** The identifier `'uploaded-' + counter` of the layer with the given serial. */
  function LayerId(serial: nat): string {
    "uploaded-" + NatToDecimal(serial)
  }

  /** The uploaded layers in upload order, the layer counter, and the serials of the layers
      drawn on the map. */
  datatype Registry = Registry(entries: seq<Entry>, counter: nat, onMap: set<nat>)

  /** The state at start-up. */
  const Empty: Registry := Registry([], 0, {})

  /** The serials of the visible entries. */
  function VisibleSerials(entries: seq<Entry>): set<nat> {
    set i | 0 <= i < |entries| && entries[i].visible :: entries[i].serial
  }

  /** The serials of all entries. */
  function Serials(entries: seq<Entry>): set<nat> {
    set i | 0 <= i < |entries| :: entries[i].serial
  }

  /** The registry's invariant: serials increase strictly in list order, every serial was
      handed out by the counter, and exactly the visible layers are drawn on the map. */
  predicate Valid(r: Registry) {
    (forall i, j :: 0 <= i < j < |r.entries| ==> r.entries[i].serial < r.entries[j].serial)
    && (forall i :: 0 <= i < |r.entries| ==> 1 <= r.entries[i].serial <= r.counter)
    && r.onMap == VisibleSerials(r.entries)
  }

  /** How drawing the new layer went: the map was not ready (checked before the counter moves),
      building the Leaflet layer threw (after the counter moved), or it was drawn. */
  datatype Render = MapMissing | RenderThrows | Rendered

  /** Whether reading `geojson.features.length` for a FeatureCollection throws. */
  predicate CountThrows(geo: Json) {
    IsFeatureCollection(geo) && (Get(geo, "features") == None || Get(geo, "features") == Some(JNull))
  }

  /** The feature count shown for an upload: the length of `features` for a FeatureCollection
      (`None` when that value has no length), and 1 for anything else. */
  function FeatureCount(geo: Json): (n: Option<nat>)
    ensures !IsFeatureCollection(geo) ==> n == Some(1)
    ensures IsFeatureCollection(geo) && Get(geo, "features").Some? && Get(geo, "features").value.JArr? ==>
      n == Some(|Get(geo, "features").value.items|)
  {
    if IsFeatureCollection(geo) then Length(Get(geo, "features")) else Some(1)
  }

  /** Whether adding the upload results in a new layer. */
  predicate AddSucceeds(geo: Json, render: Render) {
    render == Rendered && !CountThrows(geo)
  }

  /** `addLayerToMap`: when the map is missing nothing changes; otherwise the counter moves on,
      and when the count and the rendering succeed a visible layer with the new serial is
      appended and drawn. */
  function Add(r: Registry, geo: Json, name: string, render: Render): (r': Registry)
    ensures render == MapMissing ==> r' == r
    ensures render != MapMissing ==> r'.counter == r.counter + 1
    ensures AddSucceeds(geo, render) ==>
      r'.entries == r.entries + [Entry(r.counter + 1, name, FeatureCount(geo), true, geo)]
      && r'.onMap == r.onMap + {r.counter + 1}
    ensures !AddSucceeds(geo, render) ==> r'.entries == r.entries && r'.onMap == r.onMap
  {
    if render == MapMissing then r
    else
      var n := r.counter + 1;
      if CountThrows(geo) || render == RenderThrows then r.(counter := n)
      else Registry(r.entries + [Entry(n, name, FeatureCount(geo), true, geo)], n, r.onMap + {n})
  }

  /** `toggleLayer(index)`: an index with no layer changes nothing; otherwise that layer's
      visibility flips, it is taken off or put back on the map, and nothing else changes. */
  function Toggle(r: Registry, index: int): (r': Registry)
    ensures !(0 <= index < |r.entries|) ==> r' == r
    ensures 0 <= index < |r.entries| ==>
      var e := r.entries[index];
      r'.counter == r.counter
      && r'.entries == r.entries[index := e.(visible := !e.visible)]
      && r'.onMap == (if e.visible then r.onMap - {e.serial} else r.onMap + {e.serial})
  {
    if 0 <= index < |r.entries| then
      var e := r.entries[index];
      if e.visible then
        Registry(r.entries[index := e.(visible := false)], r.counter, r.onMap - {e.serial})
      else
        Registry(r.entries[index := e.(visible := true)], r.counter, r.onMap + {e.serial})
    else r
  }

  /** `deleteLayer(index)`: an index with no layer, or a refused confirmation, changes nothing;
      otherwise that layer leaves the list and the map and the other layers keep their order. */
  function Delete(r: Registry, index: int, confirmed: bool): (r': Registry)
    ensures !(0 <= index < |r.entries|) || !confirmed ==> r' == r
    ensures 0 <= index < |r.entries| && confirmed ==>
      r'.counter == r.counter
      && r'.entries == r.entries[..index] + r.entries[index + 1..]
      && r'.onMap == r.onMap - {r.entries[index].serial}
  {
    if 0 <= index < |r.entries| && confirmed then
      Registry(r.entries[..index] + r.entries[index + 1..], r.counter, r.onMap - {r.entries[index].serial})
    else r
  }

  /** Whether `clearAllLayers` asks for confirmation: only when there is a layer to remove. */
  predicate ClearAsks(r: Registry) {
    r.entries != []
  }

  /** `clearAllLayers`: with no layers, or a refused confirmation, nothing changes; otherwise
      every layer leaves the list and the map, and the counter keeps its value. */
  function Clear(r: Registry, confirmed: bool): (r': Registry)
    ensures !ClearAsks(r) || !confirmed ==> r' == r
    ensures ClearAsks(r) && confirmed ==>
      r'.entries == [] && r'.counter == r.counter && r'.onMap == r.onMap - Serials(r.entries)
  {
    if ClearAsks(r) && confirmed then Registry([], r.counter, r.onMap - Serials(r.entries)) else r
  }

  /** Identifiers of different serials differ. */
  lemma LayerIdInjective(m: nat, n: nat)
    ensures LayerId(m) == LayerId(n) <==> m == n
  {
    if LayerId(m) == LayerId(n) {
      var p := "uploaded-";
      assert NatToDecimal(m) == LayerId(m)[|p|..];
      assert NatToDecimal(n) == LayerId(n)[|p|..];
      DecimalInjective(m, n);
    }
  }

  /** In a valid registry no two layers share an identifier, so the identifier names one layer. */
  lemma IdsDistinct(r: Registry, i: nat, j: nat)
    requires Valid(r)
    requires i < |r.entries| && j < |r.entries| && i != j
    ensures LayerId(r.entries[i].serial) != LayerId(r.entries[j].serial)
  {
    LayerIdInjective(r.entries[i].serial, r.entries[j].serial);
  }

  /** Adding keeps the invariant, and a successful add uses an identifier no existing layer has. */
  lemma AddValid(r: Registry, geo: Json, name: string, render: Render)
    requires Valid(r)
    ensures Valid(Add(r, geo, name, render))
    ensures AddSucceeds(geo, render) ==>
      forall i :: 0 <= i < |r.entries| ==> LayerId(r.entries[i].serial) != LayerId(r.counter + 1)
  {
    var r' := Add(r, geo, name, render);
    if AddSucceeds(geo, render) {
      var n := r.counter + 1;
      var es := r'.entries;
      assert es[|es| - 1].serial == n;
      forall i | 0 <= i < |es| ensures 1 <= es[i].serial <= r'.counter {
        if i < |r.entries| {
          assert es[i] == r.entries[i];
        }
      }
      forall i, j | 0 <= i < j < |es| ensures es[i].serial < es[j].serial {
        assert es[i] == r.entries[i];
        if j < |r.entries| {
          assert es[j] == r.entries[j];
        }
      }
      assert VisibleSerials(es) == VisibleSerials(r.entries) + {n} by {
        forall s | s in VisibleSerials(es) ensures s in VisibleSerials(r.entries) + {n} {
          var i :| 0 <= i < |es| && es[i].visible && es[i].serial == s;
          if i < |r.entries| {
            assert es[i] == r.entries[i];
          }
        }
        forall s | s in VisibleSerials(r.entries) ensures s in VisibleSerials(es) {
          var i :| 0 <= i < |r.entries| && r.entries[i].visible && r.entries[i].serial == s;
          assert es[i] == r.entries[i];
        }
        assert es[|es| - 1].visible;
      }
      forall i | 0 <= i < |r.entries| ensures LayerId(r.entries[i].serial) != LayerId(n) {
        LayerIdInjective(r.entries[i].serial, n);
      }
    }
  }

  /** Toggling keeps the invariant. */
  lemma ToggleValid(r: Registry, index: int)
    requires Valid(r)
    ensures Valid(Toggle(r, index))
  {
    if 0 <= index < |r.entries| {
      var r' := Toggle(r, index);
      var e := r.entries[index];
      var es := r'.entries;
      forall s ensures s in VisibleSerials(es) <==> s in r'.onMap {
        if s in VisibleSerials(es) {
          var i :| 0 <= i < |es| && es[i].visible && es[i].serial == s;
          if i != index {
            assert r.entries[i].serial != e.serial by {
              if i < index {} else {}
            }
          }
        }
        if s in r'.onMap {
          if s == e.serial {
            assert es[index].visible && es[index].serial == s;
          } else {
            var i :| 0 <= i < |r.entries| && r.entries[i].visible && r.entries[i].serial == s;
            assert es[i] == r.entries[i];
          }
        }
      }
    }
  }

  /** Toggling the same layer twice restores the registry. */
  lemma ToggleTwice(r: Registry, index: int)
    requires Valid(r)
    ensures Toggle(Toggle(r, index), index) == r
  {
    if 0 <= index < |r.entries| {
      var e := r.entries[index];
      assert e.serial in r.onMap <==> e.visible;
      assert r.entries[index := e.(visible := !e.visible)][index := e] == r.entries;
    }
  }

  /** Deleting keeps the invariant. */
  lemma DeleteValid(r: Registry, index: int, confirmed: bool)
    requires Valid(r)
    ensures Valid(Delete(r, index, confirmed))
  {
    if 0 <= index < |r.entries| && confirmed {
      var r' := Delete(r, index, confirmed);
      var es := r'.entries;
      forall k | 0 <= k < |es| ensures es[k] == r.entries[Skip(k, index)] {
      }
      forall i, j | 0 <= i < j < |es| ensures es[i].serial < es[j].serial {
        assert es[i] == r.entries[Skip(i, index)] && es[j] == r.entries[Skip(j, index)];
      }
      forall i | 0 <= i < |es| ensures 1 <= es[i].serial <= r'.counter {
        assert es[i] == r.entries[Skip(i, index)];
      }
      DeleteVisible(r, index);
    }
  }

  /** The position in the original list of position `k` after deleting position `index`. */
  function Skip(k: nat, index: nat): nat {
    if k < index then k else k + 1
  }

  /** After deleting position `index`, exactly the other visible layers stay drawn. */
  lemma DeleteVisible(r: Registry, index: nat)
    requires Valid(r)
    requires index < |r.entries|
    ensures VisibleSerials(r.entries[..index] + r.entries[index + 1..]) == r.onMap - {r.entries[index].serial}
  {
    DeleteKeepsVisible(r, index);
    DeleteDropsOnlyIndex(r, index);
  }

  /** Every other visible layer survives the deletion. */
  lemma DeleteKeepsVisible(r: Registry, index: nat)
    requires Valid(r)
    requires index < |r.entries|
    ensures r.onMap - {r.entries[index].serial} <= VisibleSerials(r.entries[..index] + r.entries[index + 1..])
  {
    var es := r.entries[..index] + r.entries[index + 1..];
    forall s | s in r.onMap - {r.entries[index].serial} ensures s in VisibleSerials(es) {
      var i :| 0 <= i < |r.entries| && r.entries[i].visible && r.entries[i].serial == s;
      assert i != index;
      var k := if i < index then i else i - 1;
      assert es[k] == r.entries[i];
    }
  }

  /** The deleted layer's serial is the only one that leaves the visible set. */
  lemma DeleteDropsOnlyIndex(r: Registry, index: nat)
    requires Valid(r)
    requires index < |r.entries|
    ensures VisibleSerials(r.entries[..index] + r.entries[index + 1..]) <= r.onMap - {r.entries[index].serial}
  {
    var es := r.entries[..index] + r.entries[index + 1..];
    var gone := r.entries[index].serial;
    forall s | s in VisibleSerials(es) ensures s in r.onMap - {gone} {
      var k :| 0 <= k < |es| && es[k].visible && es[k].serial == s;
      var i := Skip(k, index);
      assert es[k] == r.entries[i];
      assert s in VisibleSerials(r.entries);
      if i < index {
        assert r.entries[i].serial < gone;
      } else {
        assert gone < r.entries[i].serial;
      }
    }
  }

  /** Clearing keeps the invariant and leaves nothing drawn. */
  lemma ClearValid(r: Registry, confirmed: bool)
    requires Valid(r)
    ensures Valid(Clear(r, confirmed))
    ensures ClearAsks(r) && confirmed ==> Clear(r, confirmed).onMap == {}
  {
    if ClearAsks(r) && confirmed {
      forall s | s in r.onMap ensures s in Serials(r.entries) {
        var i :| 0 <= i < |r.entries| && r.entries[i].visible && r.entries[i].serial == s;
      }
    }
  }
}
