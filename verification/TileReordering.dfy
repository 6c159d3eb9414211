/** A tile decodes to what it means however its fields are ordered, at every depth. */
module TileReordering {

  // Fields with different numbers may come in any order and fields a message does not know may stand anywhere;
  // only the fields of one number keep their order.

  import opened Sequences
  import opened Wrappers
  import opened TileWire
  import opened TileGrammar
  import opened TileGeometry
  import opened TileDecoder
  import opened TileSource

  // ---- the records of some fields ----

  /** The records of these fields, in their order. */
  function OfFields(rs: seq<Record>, ns: set<nat>): seq<Record> {
    if rs == [] then []
    else
      var last := rs[|rs| - 1];
      OfFields(rs[..|rs| - 1], ns) + (if last.field in ns then [last] else [])
  }

  function OfField(rs: seq<Record>, n: nat): seq<Record> {
    OfFields(rs, {n})
  }

  ghost predicate SameFields(rs: seq<Record>, qs: seq<Record>, ns: set<nat>) {
    forall n :: n in ns ==> OfField(rs, n) == OfField(qs, n)
  }

  ghost predicate ReadsOnlyOf<T>(f: Record -> Result<seq<T>>, ns: set<nat>) {
    forall r: Record :: r.field !in ns ==> f(r) == Ok([])
  }

  /** What reads some fields only does not see the others. */
  lemma {:induction false} GatherOfFields<T>(rs: seq<Record>, f: Record -> Result<seq<T>>, ns: set<nat>)
    requires ReadsOnlyOf(f, ns)
    ensures Gather(rs, f) == Gather(OfFields(rs, ns), f)
  {
    if rs != [] {
      var k := |rs| - 1;
      var before, last := OfFields(rs[..k], ns), rs[k];
      GatherOfFields(rs[..k], f, ns);
      if last.field in ns {
        assert (before + [last])[..|before|] == before;
      } else {
        assert OfFields(rs, ns) == before;
        assert Gather(before, f).Ok? ==> Gather(before, f).value + [] == Gather(before, f).value;
      }
    }
  }

  /** What reads one field gathers the same from messages that agree on it. */
  lemma {:induction false} GatherAgrees<T>(rs: seq<Record>, qs: seq<Record>, f: Record -> Result<seq<T>>, n: nat)
    requires ReadsOnlyOf(f, {n}) && OfField(rs, n) == OfField(qs, n)
    ensures Gather(rs, f) == Gather(qs, f)
  {
    GatherOfFields(rs, f, {n});
    GatherOfFields(qs, f, {n});
  }

  lemma {:induction false} LayerOrderIsFree(rs: seq<Record>, qs: seq<Record>)
    requires SameFields(rs, qs, {1, 2, 3, 4, 15})
    ensures LayerOf(rs) == LayerOf(qs)
  {
    GatherAgrees(rs, qs, Texts(1), 1);
    GatherAgrees(rs, qs, Blobs(2), 2);
    GatherAgrees(rs, qs, Texts(3), 3);
    GatherAgrees(rs, qs, Values(4), 4);
    GatherAgrees(rs, qs, Numbers(15), 15);
  }

  lemma {:induction false} FeatureOrderIsFree(rs: seq<Record>, qs: seq<Record>, keys: seq<text>,
                                              values: seq<PropertyValue>)
    requires SameFields(rs, qs, {2, 3, 4})
    ensures FeatureOf(rs, keys, values) == FeatureOf(qs, keys, values)
  {
    GatherAgrees(rs, qs, U32s(2), 2);
    GatherAgrees(rs, qs, Numbers(3), 3);
    GatherAgrees(rs, qs, U32s(4), 4);
  }

  /** Messages that agree on each field they know, taken by itself, mean the same: order between fields is free. */
  lemma {:induction false} FieldOrderIsFree(rs: seq<Record>, qs: seq<Record>, keys: seq<text>,
                                            values: seq<PropertyValue>)
    ensures SameFields(rs, qs, {3}) ==> TileOf(rs) == TileOf(qs)
    ensures SameFields(rs, qs, {1, 2, 3, 4, 15}) ==> LayerOf(rs) == LayerOf(qs)
    ensures SameFields(rs, qs, {2, 3, 4}) ==> FeatureOf(rs, keys, values) == FeatureOf(qs, keys, values)
    ensures OfFields(rs, SCALARS) == OfFields(qs, SCALARS) ==> ValueOf(rs) == ValueOf(qs)
  {
    if SameFields(rs, qs, {3}) {
      GatherAgrees(rs, qs, Layers, 3);
    }
    if SameFields(rs, qs, {1, 2, 3, 4, 15}) {
      LayerOrderIsFree(rs, qs);
    }
    if SameFields(rs, qs, {2, 3, 4}) {
      FeatureOrderIsFree(rs, qs, keys, values);
    }
    GatherOfFields(rs, Scalar, SCALARS);
    GatherOfFields(qs, Scalar, SCALARS);
  }

  const SCALARS: set<nat> := {1, 2, 3, 4, 5, 6, 7}

  // ---- what the parts of a message hold ----

  lemma {:induction false} PackRoundTrip(numbers: seq<u32>)
    ensures Unpack(Pack(numbers)) == Ok(numbers)
  {
    if numbers != [] {
      var head, tail := Varint(numbers[0]), Pack(numbers[1..]);
      VarintRoundTrip(numbers[0], tail);
      assert (head + tail)[|head|..] == tail;
      PackRoundTrip(numbers[1..]);
      assert numbers == [numbers[0]] + numbers[1..];
    }
  }

  lemma {:induction false} FeatureMeans(f: FeatureSource, keys: seq<text>, values: seq<PropertyValue>)
    ensures FeatureOf(FeatureRecords(f), keys, values) == Assemble(f.tags, [f.geometryType], f.geometry, keys, values)
  {
    EncodedFeatureSpelt(f);
    FeatureReadBack(FeatureRecords(f), f, keys, values);
  }

  lemma {:induction false} TextsGathered(n: nat, texts: seq<text>)
    ensures Gather(Blocks(n, texts), Texts(n)) == if forall t :: t in texts ==> Utf8(t) then Ok(texts) else Err
  {
    if texts != [] {
      var k := |texts| - 1;
      assert Blocks(n, texts)[..k] == Blocks(n, texts[..k]);
      TextsGathered(n, texts[..k]);
      assert texts == texts[..k] + [texts[k]];
    }
  }

  predicate ValuesUtf8(values: seq<PropertyValue>) {
    forall v | v in values :: v.Text? ==> Utf8(v.text)
  }

  // ---- every spelling of a tile ----

  /** The one field a value is written in; a signed number in two's complement or in zigzag. */
  ghost predicate ScalarSpelt(r: Record, v: PropertyValue) {
    match v
    case Text(text) => r == Bytes(1, text)
    case Float32(raw) => r == Fixed32(2, raw)
    case Float64(raw) => r == Fixed64(3, raw)
    case Unsigned(n) => r == VarintField(5, n)
    case Boolean(b) => r == VarintField(7, if b then 1 else 0)
    case Signed(n) =>
      && -0x8000_0000_0000_0000 <= n < 0x8000_0000_0000_0000
      && r.VarintField?
      && (|| (r.field == 4 && r.number == if n >= 0 then n else n + 0x1_0000_0000_0000_0000)
          || (r.field == 6 && r.number == if n >= 0 then 2 * n else -2 * n - 1))
  }

  /** Some message that holds the value's field, and otherwise only fields a value does not know. */
  ghost predicate SpellsValue(s: seq<byte>, v: PropertyValue) {
    exists rs, r :: MessageSpelt(s, rs) && OfFields(rs, SCALARS) == [r] && ScalarSpelt(r, v)
  }

  /** One record of a repeated field: its numbers packed, or a single number by itself. */
  ghost predicate ChunkSpelt(r: Record, n: nat, chunk: seq<u32>) {
    || (r.Bytes? && r.field == n && NumbersPacked(r.payload, chunk))
    || (|chunk| == 1 && r == VarintField(n, chunk[0]))
  }

  /** The records of a repeated field hold its numbers, cut up in any way. */
  ghost predicate NumbersSpelt(bs: seq<Record>, n: nat, numbers: seq<u32>)
    decreases |bs|
  {
    if bs == [] then numbers == []
    else exists k :: 0 <= k <= |numbers| && NumbersSpelt(bs[..|bs| - 1], n, numbers[..k])
                     && ChunkSpelt(bs[|bs| - 1], n, numbers[k..])
  }

  ghost predicate FeatureSpelt(rs: seq<Record>, f: FeatureSource) {
    && NumbersSpelt(OfField(rs, 2), 2, f.tags)
    && OfField(rs, 3) == [VarintField(3, f.geometryType)]
    && NumbersSpelt(OfField(rs, 4), 4, f.geometry)
  }

  ghost predicate SpellsFeature(s: seq<byte>, f: FeatureSource) {
    exists rs :: MessageSpelt(s, rs) && FeatureSpelt(rs, f)
  }

  ghost predicate FeaturesSpelt(bs: seq<Record>, features: seq<FeatureSource>) {
    |bs| == |features| && forall i :: 0 <= i < |bs| ==>
      bs[i].Bytes? && bs[i].field == 2 && SpellsFeature(bs[i].payload, features[i])
  }

  ghost predicate ValuesSpelt(bs: seq<Record>, values: seq<PropertyValue>) {
    |bs| == |values| && forall i :: 0 <= i < |bs| ==>
      bs[i].Bytes? && bs[i].field == 4 && SpellsValue(bs[i].payload, values[i])
  }

  /** The records hold the layer's fields, each kind in its order and each message spelt in some way. */
  ghost predicate LayerSpelt(rs: seq<Record>, l: LayerSource) {
    && OfField(rs, 1) == [Bytes(1, l.name)]
    && FeaturesSpelt(OfField(rs, 2), l.features)
    && OfField(rs, 3) == Blocks(3, l.keys)
    && ValuesSpelt(OfField(rs, 4), l.values)
    && (OfField(rs, 15) == [VarintField(15, 1)] || OfField(rs, 15) == [VarintField(15, 2)])
  }

  ghost predicate SpellsLayer(s: seq<byte>, l: LayerSource) {
    exists rs :: MessageSpelt(s, rs) && LayerSpelt(rs, l)
  }

  ghost predicate LayersSpelt(bs: seq<Record>, layers: seq<LayerSource>) {
    |bs| == |layers| && forall i :: 0 <= i < |bs| ==>
      bs[i].Bytes? && bs[i].field == 3 && SpellsLayer(bs[i].payload, layers[i])
  }

  /** The bytes are a tile of these layers, its fields and those of its messages ordered and mixed with unknown
      ones in any way. */
  ghost predicate SpellsTile(s: seq<byte>, layers: seq<LayerSource>) {
    exists rs :: MessageSpelt(s, rs) && LayersSpelt(OfField(rs, 3), layers)
  }

  lemma {:induction false} ScalarMeans(r: Record, v: PropertyValue)
    requires ScalarSpelt(r, v)
    ensures Scalar(r) == if v.Text? && !Utf8(v.text) then Err else Ok([v])
  {
  }

  lemma {:induction false} ValueMeans(rs: seq<Record>, r: Record, v: PropertyValue)
    requires OfFields(rs, SCALARS) == [r] && ScalarSpelt(r, v)
    ensures ValueOf(rs) == if v.Text? && !Utf8(v.text) then Err else Ok(v)
  {
    GatherOfFields(rs, Scalar, SCALARS);
    GatherOne(r, Scalar);
    ScalarMeans(r, v);
  }

  lemma {:induction false} SpeltValue(s: seq<byte>, v: PropertyValue)
    requires SpellsValue(s, v)
    ensures DecodeValue(s) == if v.Text? && !Utf8(v.text) then Err else Ok(v)
  {
    var rs, r :| MessageSpelt(s, rs) && OfFields(rs, SCALARS) == [r] && ScalarSpelt(r, v);
    MessageExactly(s, rs);
    ValueMeans(rs, r, v);
  }

  lemma {:induction false} SpeltFeature(s: seq<byte>, f: FeatureSource, keys: seq<text>, values: seq<PropertyValue>)
    requires SpellsFeature(s, f)
    ensures DecodeFeature(s, keys, values) == Assemble(f.tags, [f.geometryType], f.geometry, keys, values)
  {
    var rs :| MessageSpelt(s, rs) && FeatureSpelt(rs, f);
    MessageExactly(s, rs);
    FeatureReadBack(rs, f, keys, values);
  }

  lemma {:induction false} PackedRead(s: seq<byte>, numbers: seq<u32>)
    requires NumbersPacked(s, numbers)
    ensures Unpack(s) == Ok(numbers)
    decreases |numbers|
  {
    if numbers != [] {
      var k: nat :| NumberAt(s, numbers[0], k) && NumbersPacked(s[k..], numbers[1..]);
      NumberExactly(s, numbers[0], k);
      PackedRead(s[k..], numbers[1..]);
      HeadJoined(numbers);
    }
  }

  lemma {:induction false} PackedFound(s: seq<byte>)
    requires Unpack(s).Ok?
    ensures NumbersPacked(s, Unpack(s).value)
    decreases |s|
  {
    if s != [] {
      var (v, n) := VarintAt(s).value;
      NumberExactly(s, v, n);
      PackedFound(s[n..]);
      Sequences.HeadApart(v, Unpack(s[n..]).value);
    }
  }

  lemma {:induction false} ChunkRead(r: Record, n: nat, chunk: seq<u32>)
    requires ChunkSpelt(r, n, chunk)
    ensures U32s(n)(r) == Ok(chunk)
  {
    if r.Bytes? {
      PackedRead(r.payload, chunk);
    } else {
      assert chunk == [chunk[0]];
    }
  }

  /** However a repeated field is cut up, its numbers are read in their order. */
  lemma {:induction false} NumbersRead(bs: seq<Record>, n: nat, numbers: seq<u32>)
    requires NumbersSpelt(bs, n, numbers)
    ensures Gather(bs, U32s(n)) == Ok(numbers)
    decreases |bs|
  {
    if bs != [] {
      var last := |bs| - 1;
      var k :| 0 <= k <= |numbers| && NumbersSpelt(bs[..last], n, numbers[..k]) &&
        ChunkSpelt(bs[last], n, numbers[k..]);
      NumbersRead(bs[..last], n, numbers[..k]);
      ChunkRead(bs[last], n, numbers[k..]);
      CutJoined(numbers, k);
    }
  }

  lemma {:induction false} FeatureReadBack(rs: seq<Record>, f: FeatureSource, keys: seq<text>,
                                           values: seq<PropertyValue>)
    requires FeatureSpelt(rs, f)
    ensures FeatureOf(rs, keys, values) == Assemble(f.tags, [f.geometryType], f.geometry, keys, values)
  {
    GatherOfFields(rs, U32s(2), {2});
    NumbersRead(OfField(rs, 2), 2, f.tags);
    GatherOfFields(rs, Numbers(3), {3});
    GatherOne(VarintField(3, f.geometryType), Numbers(3));
    GatherOfFields(rs, U32s(4), {4});
    NumbersRead(OfField(rs, 4), 4, f.geometry);
  }

  function Payloads(bs: seq<Record>): seq<seq<byte>>
    requires forall i :: 0 <= i < |bs| ==> bs[i].Bytes?
  {
    seq(|bs|, i requires 0 <= i < |bs| => bs[i].payload)
  }

  lemma {:induction false} PayloadsGathered(n: nat, bs: seq<Record>)
    requires forall i :: 0 <= i < |bs| ==> bs[i].Bytes? && bs[i].field == n
    ensures Gather(bs, Blobs(n)) == Ok(Payloads(bs))
  {
    if bs != [] {
      var k := |bs| - 1;
      PayloadsGathered(n, bs[..k]);
      assert Payloads(bs) == Payloads(bs[..k]) + [bs[k].payload];
    }
  }

  lemma {:induction false} FeatureReads(l: LayerSource, s: seq<byte>, f: FeatureSource)
    requires SpellsFeature(s, f)
    ensures LayerFeature(l.name, s, l.keys, l.values) == FeatureReader(l)(f)
  {
    SpeltFeature(s, f, l.keys, l.values);
  }

  /** Features that each read as some reader says. */
  lemma {:induction false} FeaturesRead(l: LayerSource, blobs: seq<seq<byte>>, features: seq<FeatureSource>,
                                        f: FeatureSource -> Result<Feature>)
    requires |blobs| == |features|
    requires forall i :: 0 <= i < |blobs| ==> LayerFeature(l.name, blobs[i], l.keys, l.values) == f(features[i])
    ensures LayerFeatures(l.name, blobs, l.keys, l.values) == Traverse(features, f)
    decreases |blobs|
  {
    if blobs != [] {
      var k := |blobs| - 1;
      FeaturesRead(l, blobs[..k], features[..k], f);
      assert LayerFeature(l.name, blobs[k], l.keys, l.values) == f(features[k]);
    }
  }

  lemma {:induction false} SpeltFeatures(l: LayerSource, bs: seq<Record>, features: seq<FeatureSource>)
    requires FeaturesSpelt(bs, features)
    ensures LayerFeatures(l.name, Payloads(bs), l.keys, l.values) == Traverse(features, FeatureReader(l))
  {
    forall i | 0 <= i < |bs|
      ensures LayerFeature(l.name, Payloads(bs)[i], l.keys, l.values) == FeatureReader(l)(features[i]) {
      FeatureReads(l, bs[i].payload, features[i]);
    }
    FeaturesRead(l, Payloads(bs), features, FeatureReader(l));
  }

  /** Records that each give one thing or are refused. */
  lemma {:induction false} GatherEach<T>(bs: seq<Record>, f: Record -> Result<seq<T>>, xs: seq<T>, good: T -> bool)
    requires |bs| == |xs| && forall i :: 0 <= i < |bs| ==> f(bs[i]) == if good(xs[i]) then Ok([xs[i]]) else Err
    ensures Gather(bs, f) == if forall i :: 0 <= i < |xs| ==> good(xs[i]) then Ok(xs) else Err
    decreases |bs|
  {
    if bs != [] {
      var k := |bs| - 1;
      GatherEach(bs[..k], f, xs[..k], good);
      LastJoined(xs);
      assert f(bs[k]) == if good(xs[k]) then Ok([xs[k]]) else Err;
    }
  }

  predicate GoodValue(v: PropertyValue) {
    v.Text? ==> Utf8(v.text)
  }

  lemma {:induction false} SpeltBlock(r: Record, v: PropertyValue)
    requires r.Bytes? && r.field == 4 && SpellsValue(r.payload, v)
    ensures Values(4)(r) == if GoodValue(v) then Ok([v]) else Err
  {
    SpeltValue(r.payload, v);
  }

  lemma {:induction false} SpeltValues(bs: seq<Record>, values: seq<PropertyValue>)
    requires ValuesSpelt(bs, values)
    ensures Gather(bs, Values(4)) == if ValuesUtf8(values) then Ok(values) else Err
  {
    forall i | 0 <= i < |bs| ensures Values(4)(bs[i]) == if GoodValue(values[i]) then Ok([values[i]]) else Err {
      SpeltBlock(bs[i], values[i]);
    }
    GatherEach(bs, Values(4), values, GoodValue);
  }

  lemma {:induction false} SpeltRecords(rs: seq<Record>, l: LayerSource)
    requires LayerSpelt(rs, l)
    ensures LayerOf(rs) == LayerMeaning(l)
  {
    GatherOfFields(rs, Texts(1), {1});
    GatherOne(Bytes(1, l.name), Texts(1));
    GatherOfFields(rs, Blobs(2), {2});
    PayloadsGathered(2, OfField(rs, 2));
    GatherOfFields(rs, Texts(3), {3});
    TextsGathered(3, l.keys);
    GatherOfFields(rs, Values(4), {4});
    SpeltValues(OfField(rs, 4), l.values);
    GatherOfFields(rs, Numbers(15), {15});
    GatherOne(OfField(rs, 15)[0], Numbers(15));
    SpeltFeatures(l, OfField(rs, 2), l.features);
  }

  /** Any spelling of a layer decodes to what the layer means. */
  lemma {:induction false} ReorderedLayerDecodes(s: seq<byte>, l: LayerSource)
    requires SpellsLayer(s, l)
    ensures DecodeLayer(s) == LayerMeaning(l)
  {
    var rs :| MessageSpelt(s, rs) && LayerSpelt(rs, l);
    MessageExactly(s, rs);
    SpeltRecords(rs, l);
  }

  lemma {:induction false} SpeltLayers(bs: seq<Record>, layers: seq<LayerSource>)
    requires LayersSpelt(bs, layers)
    ensures Gather(bs, Layers) == Traverse(layers, LayerMeaning)
  {
    if bs != [] {
      var k := |bs| - 1;
      SpeltLayers(bs[..k], layers[..k]);
      ReorderedLayerDecodes(bs[k].payload, layers[k]);
    }
  }

  /** Any spelling of a tile decodes to what its layers mean, the refusals included. */
  lemma {:induction false} ReorderedTileDecodes(s: seq<byte>, layers: seq<LayerSource>)
    requires SpellsTile(s, layers)
    ensures DecodeTile(s) == TileMeaning(layers)
  {
    var rs :| MessageSpelt(s, rs) && LayersSpelt(OfField(rs, 3), layers);
    MessageExactly(s, rs);
    GatherOfFields(rs, Layers, {3});
    SpeltLayers(OfField(rs, 3), layers);
  }

  // ---- the encoder's spelling is one of them ----

  lemma {:induction false} OfFieldsConcat(a: seq<Record>, b: seq<Record>, ns: set<nat>)
    ensures OfFields(a + b, ns) == OfFields(a, ns) + OfFields(b, ns)
  {
    if b == [] {
      assert a + b == a;
    } else {
      var k := |b| - 1;
      assert (a + b)[..|a + b| - 1] == a + b[..k];
      OfFieldsConcat(a, b[..k], ns);
    }
  }

  lemma {:induction false} OfFieldsAll(rs: seq<Record>, ns: set<nat>)
    requires forall i :: 0 <= i < |rs| ==> rs[i].field in ns
    ensures OfFields(rs, ns) == rs
    decreases |rs|
  {
    if rs != [] {
      OfFieldsAll(rs[..|rs| - 1], ns);
      LastJoined(rs);
    }
  }

  lemma {:induction false} OfFieldsNone(rs: seq<Record>, ns: set<nat>)
    requires forall r :: r in rs ==> r.field !in ns
    ensures OfFields(rs, ns) == []
  {
    if rs != [] {
      OfFieldsNone(rs[..|rs| - 1], ns);
    }
  }

  /** The records of a layer that field `n` reads. */
  function LayerPart(l: LayerSource, n: nat): seq<Record>
    requires AllRepresentable(l.values)
  {
    match n
    case 1 => [Bytes(1, l.name)]
    case 2 => Blocks(2, EncodeFeatures(l.features))
    case 3 => Blocks(3, l.keys)
    case 4 => Blocks(4, EncodeValues(l.values))
    case 5 => [VarintField(5, 4096)]
    case 15 => [VarintField(15, 2)]
    case _ => []
  }

  lemma {:induction false} PartField(l: LayerSource, n: nat)
    requires AllRepresentable(l.values)
    ensures forall x :: x in LayerPart(l, n) ==> x.field == n
  {
  }

  lemma {:induction false} OfPart(l: LayerSource, m: nat, n: nat)
    requires AllRepresentable(l.values)
    ensures OfField(LayerPart(l, m), n) == Only(LayerPart(l, n), m, n)
  {
    PartField(l, m);
    if m == n {
      OfFieldsAll(LayerPart(l, m), {n});
    } else {
      OfFieldsNone(LayerPart(l, m), {n});
    }
  }

  lemma {:induction false} SixParts(a: seq<Record>, b: seq<Record>, c: seq<Record>, d: seq<Record>, e: seq<Record>,
                                    v: seq<Record>, ns: set<nat>)
    ensures OfFields(a + b + c + d + (e + v), ns)
            == OfFields(a, ns) + OfFields(b, ns) + OfFields(c, ns) + OfFields(d, ns) +
              (OfFields(e, ns) + OfFields(v, ns))
  {
    OfFieldsConcat(a + b + c + d, e + v, ns);
    OfFieldsConcat(a + b + c, d, ns);
    OfFieldsConcat(a + b, c, ns);
    OfFieldsConcat(a, b, ns);
    OfFieldsConcat(e, v, ns);
  }

  function Only(p: seq<Record>, m: nat, n: nat): seq<Record> {
    if m == n then p else []
  }

  lemma {:induction false} OneOfSix(p: seq<Record>, n: nat)
    requires n in {1, 2, 3, 4, 15}
    ensures Only(p, 1, n) + Only(p, 2, n) + Only(p, 3, n) + Only(p, 4, n) + (Only(p, 5, n) + Only(p, 15, n)) == p
  {
  }

  lemma {:induction false} EncodedParts(l: LayerSource, n: nat)
    requires AllRepresentable(l.values) && n in {1, 2, 3, 4, 15}
    ensures OfField(LayerRecords(l), n) == LayerPart(l, n)
  {
    assert LayerRecords(l)
        == LayerPart(l, 1) + LayerPart(l, 2) + LayerPart(l, 3) + LayerPart(l, 4) + (LayerPart(l, 5) + LayerPart(l, 15));
    SixParts(LayerPart(l, 1), LayerPart(l, 2), LayerPart(l, 3), LayerPart(l, 4), LayerPart(l, 5), LayerPart(l, 15),
      {n});
    OfPart(l, 1, n);
    OfPart(l, 2, n);
    OfPart(l, 3, n);
    OfPart(l, 4, n);
    OfPart(l, 5, n);
    OfPart(l, 15, n);
    OneOfSix(LayerPart(l, n), n);
  }

  lemma {:induction false} ValueRecordSpelt(v: PropertyValue)
    requires Representable(v)
    ensures ScalarSpelt(ValueRecord(v), v) && Encodable(ValueRecord(v)) && ValueRecord(v).field in SCALARS
  {
  }

  lemma {:induction false} ValueSpelt(s: seq<byte>, rs: seq<Record>, r: Record, v: PropertyValue)
    requires MessageSpelt(s, rs) && OfFields(rs, SCALARS) == [r] && ScalarSpelt(r, v)
    ensures SpellsValue(s, v)
  {
  }

  lemma {:induction false} EncodedValueSpells(v: PropertyValue)
    requires Representable(v)
    ensures SpellsValue(EncodeValue(v), v)
  {
    var r := ValueRecord(v);
    ValueRecordSpelt(v);
    OfFieldsAll([r], SCALARS);
    EncodingSpelt([r]);
    ValueSpelt(EncodeValue(v), [r], r, v);
  }

  lemma {:induction false} EncodedFeatureSpells(f: FeatureSource)
    requires AllEncodable(FeatureRecords(f))
    ensures SpellsFeature(EncodeFeature(f), f)
  {
    EncodedFeatureSpelt(f);
    EncodingSpelt(FeatureRecords(f));
  }

  lemma {:induction false} OneChunk(n: nat, numbers: seq<u32>)
    ensures NumbersSpelt([Bytes(n, Pack(numbers))], n, numbers)
  {
    PackRoundTrip(numbers);
    PackedFound(Pack(numbers));
    var bs := [Bytes(n, Pack(numbers))];
    assert bs[..0] == [] && numbers[..0] == [] && numbers[0..] == numbers;
    assert NumbersSpelt(bs[..|bs| - 1], n, numbers[..0]) && ChunkSpelt(bs[|bs| - 1], n, numbers[0..]);
  }

  lemma {:induction false} OfOne(a: Record, n: nat)
    ensures OfField([a], n) == if a.field == n then [a] else []
  {
    if a.field == n {
      OfFieldsAll([a], {n});
    } else {
      OfFieldsNone([a], {n});
    }
  }

  lemma {:induction false} OfThree(a: Record, b: Record, c: Record, n: nat)
    ensures OfField([a, b, c], n) == OfField([a], n) + OfField([b], n) + OfField([c], n)
  {
    OfFieldsConcat([a], [b], {n});
    OfFieldsConcat([a] + [b], [c], {n});
    assert [a] + [b] + [c] == [a, b, c];
  }

  lemma {:induction false} EncodedFeatureSpelt(f: FeatureSource)
    ensures FeatureSpelt(FeatureRecords(f), f)
  {
    var a, b, c := Bytes(2, Pack(f.tags)), VarintField(3, f.geometryType), Bytes(4, Pack(f.geometry));
    forall n | n in {2, 3, 4}
      ensures OfField([a, b, c], n) == if n == 2 then [a] else if n == 3 then [b] else [c]
    {
      OfThree(a, b, c, n);
      OfOne(a, n);
      OfOne(b, n);
      OfOne(c, n);
    }
    OneChunk(2, f.tags);
    OneChunk(4, f.geometry);
  }

  lemma {:induction false} EncodedLayerSpells(l: LayerSource)
    requires LayerFits(l)
    ensures SpellsLayer(EncodeLayer(l), l)
  {
    var rs := LayerRecords(l);
    EncodedParts(l, 1);
    EncodedParts(l, 2);
    EncodedParts(l, 3);
    EncodedParts(l, 4);
    EncodedParts(l, 15);
    forall i | 0 <= i < |l.features| ensures SpellsFeature(EncodeFeature(l.features[i]), l.features[i]) {
      assert l.features[i] in l.features;
      EncodedFeatureSpells(l.features[i]);
    }
    forall i | 0 <= i < |l.values| ensures SpellsValue(EncodeValue(l.values[i]), l.values[i]) {
      EncodedValueSpells(l.values[i]);
    }
    EncodedLayerSpelt(rs, l);
    EncodingSpelt(rs);
  }

  lemma {:induction false} EncodedLayerSpelt(rs: seq<Record>, l: LayerSource)
    requires AllRepresentable(l.values)
    requires forall n :: n in {1, 2, 3, 4, 15} ==> OfField(rs, n) == LayerPart(l, n)
    requires forall i :: 0 <= i < |l.features| ==> SpellsFeature(EncodeFeature(l.features[i]), l.features[i])
    requires forall i :: 0 <= i < |l.values| ==> SpellsValue(EncodeValue(l.values[i]), l.values[i])
    ensures LayerSpelt(rs, l)
  {
  }

  /** What the encoder writes is one spelling, so the round trip is a case of the above. */
  lemma {:induction false} EncodingSpells(layers: seq<LayerSource>)
    requires Fits(layers)
    ensures SpellsTile(EncodeTile(layers), layers)
  {
    var rs := TileRecords(layers);
    OfFieldsAll(rs, {3});
    forall i | 0 <= i < |layers| ensures SpellsLayer(EncodeLayer(layers[i]), layers[i]) {
      EncodedLayerSpells(layers[i]);
    }
    BlocksSpelt(rs, layers);
    EncodingSpelt(rs);
    TileSpelt(EncodeTile(layers), rs, layers);
  }

  lemma {:induction false} BlocksSpelt(bs: seq<Record>, layers: seq<LayerSource>)
    requires Fits(layers) && bs == TileRecords(layers)
    requires forall i :: 0 <= i < |layers| ==> SpellsLayer(EncodeLayer(layers[i]), layers[i])
    ensures LayersSpelt(bs, layers)
  {
  }

  lemma {:induction false} TileSpelt(s: seq<byte>, rs: seq<Record>, layers: seq<LayerSource>)
    requires MessageSpelt(s, rs) && LayersSpelt(OfField(rs, 3), layers)
    ensures SpellsTile(s, layers)
  {
  }
}
