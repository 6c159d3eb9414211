/** What the tests' encoder writes for the layers of a tile, and what those layers mean. */
module TileSource {
  import opened Wrappers
  import opened TileWire
  import opened TileGeometry
  import opened TileDecoder

  datatype FeatureSource = FeatureSource(tags: seq<u32>, geometryType: nat, geometry: seq<u32>)

  datatype LayerSource = LayerSource(name: text, features: seq<FeatureSource>, keys: seq<text>,
                                     values: seq<PropertyValue>)

  // ---- the encoder ----

  function Pack(numbers: seq<u32>): seq<byte> {
    if numbers == [] then [] else Varint(numbers[0]) + Pack(numbers[1..])
  }

  function FeatureRecords(f: FeatureSource): seq<Record> {
    [Bytes(2, Pack(f.tags)), VarintField(3, f.geometryType), Bytes(4, Pack(f.geometry))]
  }

  function EncodeFeature(f: FeatureSource): seq<byte> {
    EncodeRecords(FeatureRecords(f))
  }

  /** The value fits the kind of number the decoder gives it. */
  predicate Representable(v: PropertyValue) {
    match v
    case Text(text) => |text| < U64
    case Signed(n) => -I64 <= n < I64
    case Unsigned(n) => n < U64
    case Boolean(_) => true
    case Float32(raw) => |raw| == 4
    case Float64(raw) => |raw| == 8
  }

  /** Two's complement, back. */
  function CastUnsigned(n: int): nat
    requires -I64 <= n < I64
  {
    if n >= 0 then n else n + U64
  }

  function ValueRecord(v: PropertyValue): Record
    requires Representable(v)
  {
    match v
    case Text(text) => Bytes(1, text)
    case Signed(n) => VarintField(4, CastUnsigned(n))
    case Unsigned(n) => VarintField(5, n)
    case Boolean(b) => VarintField(7, if b then 1 else 0)
    case Float32(raw) => Fixed32(2, raw)
    case Float64(raw) => Fixed64(3, raw)
  }

  function EncodeValue(v: PropertyValue): seq<byte>
    requires Representable(v)
  {
    EncodeRecords([ValueRecord(v)])
  }

  function Blocks(n: nat, blobs: seq<seq<byte>>): seq<Record> {
    seq(|blobs|, i requires 0 <= i < |blobs| => Bytes(n, blobs[i]))
  }

  predicate AllRepresentable(values: seq<PropertyValue>) {
    forall v | v in values :: Representable(v)
  }

  function EncodeFeatures(features: seq<FeatureSource>): seq<seq<byte>> {
    seq(|features|, i requires 0 <= i < |features| => EncodeFeature(features[i]))
  }

  function EncodeValues(values: seq<PropertyValue>): seq<seq<byte>>
    requires AllRepresentable(values)
  {
    seq(|values|, i requires 0 <= i < |values| => EncodeValue(values[i]))
  }

  /** The records of a layer: its extent (field 5) is one the decoder skips, its version is 2. */
  function LayerRecords(l: LayerSource): seq<Record>
    requires AllRepresentable(l.values)
  {
    [Bytes(1, l.name)]
    + Blocks(2, EncodeFeatures(l.features))
    + Blocks(3, l.keys)
    + Blocks(4, EncodeValues(l.values))
    + [VarintField(5, 4096), VarintField(15, 2)]
  }

  function EncodeLayer(l: LayerSource): seq<byte>
    requires AllRepresentable(l.values)
  {
    EncodeRecords(LayerRecords(l))
  }

  function TileRecords(layers: seq<LayerSource>): seq<Record>
    requires forall i :: 0 <= i < |layers| ==> AllRepresentable(layers[i].values)
  {
    seq(|layers|, i requires 0 <= i < |layers| => Bytes(3, EncodeLayer(layers[i])))
  }

  function EncodeTile(layers: seq<LayerSource>): seq<byte>
    requires forall i :: 0 <= i < |layers| ==> AllRepresentable(layers[i].values)
  {
    EncodeRecords(TileRecords(layers))
  }

  predicate LayerFits(l: LayerSource) {
    && AllRepresentable(l.values)
    && AllEncodable(LayerRecords(l))
    && forall f | f in l.features :: AllEncodable(FeatureRecords(f))
  }

  predicate LayersFit(layers: seq<LayerSource>) {
    forall i | 0 <= i < |layers| :: LayerFits(layers[i])
  }

  /** Every length and number of the encoding fits the 64 bits it is written in. */
  predicate Fits(layers: seq<LayerSource>) {
    LayersFit(layers) && AllEncodable(TileRecords(layers))
  }

  // ---- what layers mean ----

  function FeatureMeaning(f: FeatureSource, l: LayerSource): Result<Feature> {
    var feature :- Assemble(f.tags, [f.geometryType], f.geometry, l.keys, l.values);
    if Demanded(l.name).Some? && feature.geometryType != Demanded(l.name).value then Err else Ok(feature)
  }

  /** `f` of each, in order; nothing when it refuses one. */
  function Traverse<A, B>(xs: seq<A>, f: A -> Result<B>): Result<seq<B>> {
    if xs == [] then
      Ok([])
    else
      var before :- Traverse(xs[..|xs| - 1], f);
      var last :- f(xs[|xs| - 1]);
      Ok(before + [last])
  }

  lemma {:induction false} TraverseExactly<A, B>(xs: seq<A>, f: A -> Result<B>)
    ensures Traverse(xs, f).Ok? <==> forall i :: 0 <= i < |xs| ==> f(xs[i]).Ok?
    ensures Traverse(xs, f).Ok? ==>
              && |Traverse(xs, f).value| == |xs|
              && forall i :: 0 <= i < |xs| ==> f(xs[i]) == Ok(Traverse(xs, f).value[i])
  {
    if xs != [] {
      var n := |xs| - 1;
      TraverseExactly(xs[..n], f);
      assert forall i :: 0 <= i < n ==> xs[..n][i] == xs[i];
    }
  }

  function FeatureReader(l: LayerSource): FeatureSource -> Result<Feature> {
    (f: FeatureSource) => FeatureMeaning(f, l)
  }

  predicate AllUtf8(l: LayerSource) {
    && Utf8(l.name)
    && (forall k | k in l.keys :: Utf8(k))
    && (forall v | v in l.values :: v.Text? ==> Utf8(v.text))
  }

  function LayerMeaning(l: LayerSource): Result<(text, Layer)> {
    if !AllUtf8(l) then Err
    else
      var features :- Traverse(l.features, FeatureReader(l));
      Ok((l.name, Layer(features)))
  }

  function TileMeaning(layers: seq<LayerSource>): Result<Tile> {
    var named :- Traverse(layers, LayerMeaning);
    ByName(named)
  }
}
