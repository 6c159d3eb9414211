/** Decoding the encoding of any layers gives what those layers mean. */
module TileRoundTrip {

  // What they mean includes the refusals; fields the decoder does not know change nothing.

  import opened Sequences
  import opened Wrappers
  import opened TileWire
  import opened TileGeometry
  import opened TileDecoder
  import opened TileSource
  import opened TileReordering

  // ---- values and features ----

  lemma {:induction false} ValueRoundTrip(v: PropertyValue)
    requires Representable(v)
    ensures DecodeValue(EncodeValue(v)) == if v.Text? && !Utf8(v.text) then Err else Ok(v)
  {
    EncodedValueSpells(v);
    SpeltValue(EncodeValue(v), v);
  }

  /** A zig-zag number reads back as the number it stands for. */
  lemma {:induction false} ZigZagRoundTrip(n: int)
    requires -I64 <= n < I64
    ensures var v := if n >= 0 then 2 * n else -2 * n - 1;
            DecodeValue(EncodeRecords([VarintField(6, v)])) == Ok(Signed(n))
  {
    var r := VarintField(6, if n >= 0 then 2 * n else -2 * n - 1);
    assert AllEncodable([r]);
    RecordsRoundTrip([r]);
    ZigZagBack(n);
    OneScalar(r, Signed(n));
  }

  lemma {:induction false} ZigZagBack(n: int)
    ensures ZigZag(if n >= 0 then 2 * n else -2 * n - 1) == n
  {
  }

  lemma {:induction false} OneScalar(r: Record, v: PropertyValue)
    requires Scalar(r) == Ok([v])
    ensures ValueOf([r]) == Ok(v)
  {
    GatherOne(r, Scalar);
  }

  lemma {:induction false} FeatureRoundTrip(f: FeatureSource, keys: seq<text>, values: seq<PropertyValue>)
    requires AllEncodable(FeatureRecords(f))
    ensures DecodeFeature(EncodeFeature(f), keys, values) ==
            Assemble(f.tags, [f.geometryType], f.geometry, keys, values)
  {
    RecordsRoundTrip(FeatureRecords(f));
    FeatureMeans(f, keys, values);
  }

  // ---- layers and tiles ----

  lemma {:induction false} LayerRoundTrip(l: LayerSource)
    requires LayerFits(l)
    ensures DecodeLayer(EncodeLayer(l)) == LayerMeaning(l)
  {
    EncodedLayerSpells(l);
    ReorderedLayerDecodes(EncodeLayer(l), l);
  }

  /** The round trip: whatever the layers, decoding their encoding gives exactly what they mean, the
      refusals included. */
  lemma {:induction false} TileRoundTrip(layers: seq<LayerSource>)
    requires Fits(layers)
    ensures DecodeTile(EncodeTile(layers)) == TileMeaning(layers)
  {
    EncodingSpells(layers);
    ReorderedTileDecodes(EncodeTile(layers), layers);
  }

  // ---- what well-formed layers decode to ----

  /** Good pairs that name no key twice. */
  ghost predicate TagsGood(tags: seq<Tag>, keys: seq<text>, values: seq<PropertyValue>) {
    && (forall j :: 0 <= j < |tags| ==> TagGood(tags[j], keys, values))
    && (forall i, j :: 0 <= i < j < |tags| ==> keys[tags[i].0] != keys[tags[j].0])
  }

  /** `m` holds the keys the tags name and no other, each with its value. */
  ghost predicate Spells(m: map<text, PropertyValue>, tags: seq<Tag>, keys: seq<text>, values: seq<PropertyValue>)
    requires TagsGood(tags, keys, values)
  {
    && (forall k :: k in m ==> exists j :: 0 <= j < |tags| && keys[tags[j].0] == k)
    && (forall j :: 0 <= j < |tags| ==> keys[tags[j].0] in m && m[keys[tags[j].0]] == values[tags[j].1])
  }

  lemma {:induction false} SpellsNext(m: map<text, PropertyValue>, tags: seq<Tag>, keys: seq<text>,
                                      values: seq<PropertyValue>)
    requires tags != [] && TagsGood(tags[..|tags| - 1], keys, values) && Spells(m, tags[..|tags| - 1], keys, values)
    requires TagGood(tags[|tags| - 1], keys, values) && keys[tags[|tags| - 1].0] !in m
    ensures TagsGood(tags, keys, values)
    ensures Spells(m[keys[tags[|tags| - 1].0] := values[tags[|tags| - 1].1]], tags, keys, values)
  {
    var n := |tags| - 1;
    var before := tags[..n];
    forall j | 0 <= j < n ensures TagGood(tags[j], keys, values) && keys[tags[j].0] in m {
      assert before[j] == tags[j];
    }
    forall i, j | 0 <= i < j < |tags| ensures keys[tags[i].0] != keys[tags[j].0] {
      assert before[i] == tags[i];
      assert j < n ==> before[j] == tags[j];
    }
    var after := m[keys[tags[n].0] := values[tags[n].1]];
    forall k | k in after ensures exists j :: 0 <= j < |tags| && keys[tags[j].0] == k {
      if k in m {
        var j :| 0 <= j < n && keys[before[j].0] == k;
        assert keys[tags[j].0] == k;
      } else {
        assert keys[tags[n].0] == k;
      }
    }
    forall j | 0 <= j < |tags| ensures keys[tags[j].0] in after && after[keys[tags[j].0]] == values[tags[j].1] {
      assert j < n ==> before[j] == tags[j];
    }
  }

  /** A feature's properties are read exactly from good tags, and are what the tags spell. */
  lemma {:induction false} PropertiesExactly(tags: seq<Tag>, keys: seq<text>, values: seq<PropertyValue>)
    ensures Properties(tags, keys, values).Ok? <==> TagsGood(tags, keys, values)
    ensures TagsGood(tags, keys, values) ==> Spells(Properties(tags, keys, values).value, tags, keys, values)
  {
    if tags != [] {
      var n := |tags| - 1;
      PropertiesExactly(tags[..n], keys, values);
      if TagsGood(tags, keys, values) {
        GoodBefore(tags, keys, values);
        assert keys[tags[n].0] !in Properties(tags[..n], keys, values).value;
      }
      if Properties(tags, keys, values).Ok? {
        SpellsNext(Properties(tags[..n], keys, values).value, tags, keys, values);
      }
    }
  }

  lemma {:induction false} GoodBefore(tags: seq<Tag>, keys: seq<text>, values: seq<PropertyValue>)
    requires tags != [] && TagsGood(tags, keys, values)
    ensures TagsGood(tags[..|tags| - 1], keys, values)
  {
    var before := tags[..|tags| - 1];
    assert forall j :: 0 <= j < |before| ==> before[j] == tags[j];
  }

  /** A feature the decoder takes in layer `l`. */
  ghost predicate FeatureGood(f: FeatureSource, l: LayerSource) {
    && |f.tags| % 2 == 0 && TagsGood(Pairs(f.tags), l.keys, l.values)
    && GeometryTypeOf(f.geometryType).Ok?
    && var t := GeometryTypeOf(f.geometryType).value;
    && f.geometry != []
    && (exists parts :: GeometryOf(t, parts) && Print(parts) == f.geometry)
    && (Demanded(l.name).Some? ==> Demanded(l.name).value == t)
  }

  /** What a decoded feature owes its source. */
  ghost predicate Decoded(d: Feature, f: FeatureSource, l: LayerSource) {
    && FeatureGood(f, l)
    && Ok(d.geometryType) == GeometryTypeOf(f.geometryType)
    && Spells(d.properties, Pairs(f.tags), l.keys, l.values)
  }

  lemma {:induction false} FeatureExactly(f: FeatureSource, l: LayerSource)
    ensures FeatureMeaning(f, l).Ok? <==> FeatureGood(f, l)
    ensures FeatureMeaning(f, l).Ok? ==> Decoded(FeatureMeaning(f, l).value, f, l)
  {
    if |f.tags| % 2 == 0 && GeometryTypeOf(f.geometryType).Ok? {
      PropertiesExactly(Pairs(f.tags), l.keys, l.values);
      AcceptsExactlyPrintings(GeometryTypeOf(f.geometryType).value, f.geometry);
    }
  }

  ghost predicate FeaturesGood(features: seq<FeatureSource>, l: LayerSource) {
    forall i :: 0 <= i < |features| ==> FeatureGood(features[i], l)
  }

  ghost predicate FeaturesDecoded(ds: seq<Feature>, features: seq<FeatureSource>, l: LayerSource) {
    |ds| == |features| && forall i :: 0 <= i < |features| ==> Decoded(ds[i], features[i], l)
  }

  ghost predicate LayerGood(l: LayerSource) {
    AllUtf8(l) && FeaturesGood(l.features, l)
  }

  ghost predicate LayerDecoded(d: (text, Layer), l: LayerSource) {
    d.0 == l.name && FeaturesDecoded(d.1.features, l.features, l)
  }

  lemma {:induction false} LayerExactly(l: LayerSource)
    ensures LayerMeaning(l).Ok? <==> LayerGood(l)
    ensures LayerMeaning(l).Ok? ==> LayerDecoded(LayerMeaning(l).value, l)
  {
    TraverseExactly(l.features, FeatureReader(l));
    forall f {
      FeatureExactly(f, l);
    }
  }

  ghost predicate LayersGood(layers: seq<LayerSource>) {
    forall i :: 0 <= i < |layers| ==> LayerGood(layers[i])
  }

  ghost predicate LayersDecoded(named: seq<(text, Layer)>, layers: seq<LayerSource>) {
    |named| == |layers| && forall i :: 0 <= i < |layers| ==> LayerDecoded(named[i], layers[i])
  }

  ghost predicate NamedOnce(named: seq<(text, Layer)>) {
    forall i, j :: 0 <= i < j < |named| ==> named[i].0 != named[j].0
  }

  /** `tile` holds the named layers and no other. */
  ghost predicate Holds(tile: Tile, named: seq<(text, Layer)>) {
    && (forall n :: n in tile ==> exists i :: 0 <= i < |named| && named[i].0 == n)
    && (forall i :: 0 <= i < |named| ==> named[i].0 in tile && tile[named[i].0] == named[i].1)
  }

  ghost predicate HoldsOnce(tile: Tile, named: seq<(text, Layer)>) {
    NamedOnce(named) && Holds(tile, named)
  }

  lemma {:induction false} HoldsNext(tile: Tile, named: seq<(text, Layer)>, last: (text, Layer))
    requires HoldsOnce(tile, named) && last.0 !in tile
    ensures HoldsOnce(tile[last.0 := last.1], named + [last])
  {
    var all := named + [last];
    var grown := tile[last.0 := last.1];
    assert all[|named|].0 == last.0;
    forall k | k in grown && k != last.0 ensures exists i :: 0 <= i < |all| && all[i].0 == k {
      var i :| 0 <= i < |named| && named[i].0 == k;
      assert all[i].0 == k;
    }
    forall i | 0 <= i < |all| ensures all[i].0 in grown && grown[all[i].0] == all[i].1 {
      if i < |named| {
        assert all[i] == named[i];
      }
    }
    forall i, j | 0 <= i < j < |all| ensures all[i].0 != all[j].0 {
      assert all[i] == named[i];
    }
  }

  /** Reading one more layer by name. */
  lemma {:induction false} ByNameUnfolds(named: seq<(text, Layer)>)
    requires named != []
    ensures var before, last := ByName(named[..|named| - 1]), named[|named| - 1];
            ByName(named) == if before.Err? || last.0 in before.value then Err else Ok(before.value[last.0 := last.1])
  {
  }

  lemma {:induction false} ByNameHolds(named: seq<(text, Layer)>)
    requires ByName(named).Ok?
    ensures HoldsOnce(ByName(named).value, named)
    decreases |named|
  {
    if named == [] {
      assert ByName(named).value == map[];
    } else {
      var before, last := named[..|named| - 1], named[|named| - 1];
      ByNameUnfolds(named);
      ByNameHolds(before);
      HoldsNext(ByName(before).value, before, last);
      LastJoined(named);
    }
  }

  lemma {:induction false} NamedOnceRead(named: seq<(text, Layer)>)
    requires NamedOnce(named)
    ensures ByName(named).Ok?
  {
    if named != [] {
      var n := |named| - 1;
      var before := named[..n];
      assert forall i :: 0 <= i < n ==> before[i] == named[i];
      NamedOnceRead(before);
      ByNameHolds(before);
      NotHeld(ByName(before).value, before, named[n].0);
      ByNameUnfolds(named);
    }
  }

  lemma {:induction false} NotHeld(tile: Tile, named: seq<(text, Layer)>, name: text)
    requires Holds(tile, named) && forall i :: 0 <= i < |named| ==> named[i].0 != name
    ensures name !in tile
  {
  }

  ghost predicate NamesDiffer(layers: seq<LayerSource>) {
    forall i, j :: 0 <= i < j < |layers| ==> layers[i].name != layers[j].name
  }

  /** Decoding any spelling of layers succeeds exactly when every layer is good and no two share a name; it
      then gives those layers and no other, feature by feature, properties resolved through the tables. */
  lemma {:induction false} TileDecodesExactly(s: seq<byte>, layers: seq<LayerSource>)
    requires SpellsTile(s, layers)
    ensures DecodeTile(s).Ok? <==> LayersGood(layers) && NamesDiffer(layers)
    ensures DecodeTile(s).Ok? ==>
              exists named :: LayersDecoded(named, layers) && Holds(DecodeTile(s).value, named)
  {
    ReorderedTileDecodes(s, layers);
    TraverseExactly(layers, LayerMeaning);
    forall l {
      LayerExactly(l);
    }
    if LayersGood(layers) {
      var named := Traverse(layers, LayerMeaning).value;
      assert LayersDecoded(named, layers);
      NamedAsLayers(named, layers);
      if NamedOnce(named) {
        NamedOnceRead(named);
      }
      if ByName(named).Ok? {
        ByNameHolds(named);
      }
    }
  }

  lemma {:induction false} NamedAsLayers(named: seq<(text, Layer)>, layers: seq<LayerSource>)
    requires LayersDecoded(named, layers)
    ensures NamedOnce(named) <==> NamesDiffer(layers)
  {
    forall i | 0 <= i < |layers| ensures named[i].0 == layers[i].name {
      assert LayerDecoded(named[i], layers[i]);
    }
  }

  // ---- unknown fields ----

  /** A record of a field a message does not know changes nothing, wherever it stands. */
  lemma {:induction false} UnknownFieldsSkipped(a: seq<Record>, u: Record, b: seq<Record>,
                                               keys: seq<text>, values: seq<PropertyValue>)
    ensures u.field != 3 ==> TileOf(a + [u] + b) == TileOf(a + b)
    ensures u.field !in {1, 2, 3, 4, 15} ==> LayerOf(a + [u] + b) == LayerOf(a + b)
    ensures u.field !in {2, 3, 4} ==> FeatureOf(a + [u] + b, keys, values) == FeatureOf(a + b, keys, values)
    ensures u.field !in {1, 2, 3, 4, 5, 6, 7} ==> ValueOf(a + [u] + b) == ValueOf(a + b)
  {
    if u.field != 3 { GatherSkips(a, u, b, Layers); }
    if u.field !in {1, 2, 3, 4, 15} {
      GatherSkips(a, u, b, Texts(1));
      GatherSkips(a, u, b, Blobs(2));
      GatherSkips(a, u, b, Texts(3));
      GatherSkips(a, u, b, Values(4));
      GatherSkips(a, u, b, Numbers(15));
    }
    if u.field !in {2, 3, 4} {
      GatherSkips(a, u, b, U32s(2));
      GatherSkips(a, u, b, Numbers(3));
      GatherSkips(a, u, b, U32s(4));
    }
    if u.field !in {1, 2, 3, 4, 5, 6, 7} { GatherSkips(a, u, b, Scalar); }
  }
}
