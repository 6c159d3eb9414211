/** The tests' encoder as it is written, growing one byte buffer; the round trip is about what it writes. */
module TileEncoder {
  import opened Sequences
  import opened TileWire
  import opened TileGeometry
  import opened TileDecoder
  import opened TileSource
  import TileRoundTrip

  lemma {:induction false} EncodeConcat(a: seq<Record>, b: seq<Record>)
    ensures EncodeRecords(a + b) == EncodeRecords(a) + EncodeRecords(b)
    decreases a
  {
    if a == [] {
      assert a + b == b;
    } else {
      EncodeConcat(a[1..], b);
      HeadApart(a, b);
      Assoc(EncodeRecord(a[0]), EncodeRecords(a[1..]), EncodeRecords(b));
    }
  }

  lemma {:induction false} HeadApart(a: seq<Record>, b: seq<Record>)
    requires a != []
    ensures (a + b)[0] == a[0] && (a + b)[1..] == a[1..] + b
  {
  }

  lemma {:induction false} EncodeOne(r: Record)
    ensures EncodeRecords([r]) == EncodeRecord(r)
  {
    assert [r][1..] == [] && EncodeRecords([]) == [];
    assert EncodeRecord(r) + [] == EncodeRecord(r);
  }

  method FieldVarint(number: nat, value: nat) returns (encoded: seq<byte>)
    ensures encoded == EncodeRecord(VarintField(number, value))
  {
    encoded := EncodeVarint(number * 8);
    var more := EncodeVarint(value);
    encoded := encoded + more;
  }

  method FieldBytes(number: nat, value: seq<byte>) returns (encoded: seq<byte>)
    ensures encoded == EncodeRecord(Bytes(number, value))
  {
    encoded := EncodeVarint(number * 8 + 2);
    var length := EncodeVarint(|value|);
    Assoc(encoded, length, value);
    encoded := encoded + length;
    encoded := encoded + value;
  }

  lemma {:induction false} PackLast(numbers: seq<u32>, n: u32)
    ensures Pack(numbers + [n]) == Pack(numbers) + Varint(n)
    decreases numbers
  {
    if numbers == [] {
      assert [n][1..] == [] && Pack([]) == [];
      assert Varint(n) + [] == Varint(n) && [] + Varint(n) == Varint(n);
      assert numbers + [n] == [n];
    } else {
      PackLast(numbers[1..], n);
      assert (numbers + [n])[0] == numbers[0] && (numbers + [n])[1..] == numbers[1..] + [n];
      Assoc(Varint(numbers[0]), Pack(numbers[1..]), Varint(n));
    }
  }

  method PackedU32Field(number: nat, values: seq<u32>) returns (encoded: seq<byte>)
    ensures encoded == EncodeRecord(Bytes(number, Pack(values)))
  {
    var packed: seq<byte> := [];
    for i := 0 to |values|
      invariant packed == Pack(values[..i])
    {
      var more := EncodeVarint(values[i]);
      PackLast(values[..i], values[i]);
      assert values[..i + 1] == values[..i] + [values[i]];
      packed := packed + more;
    }
    assert values[..|values|] == values;
    encoded := FieldBytes(number, packed);
  }

  method FeatureBytes(f: FeatureSource) returns (encoded: seq<byte>)
    ensures encoded == EncodeFeature(f)
  {
    var tags, kind, geometry := Bytes(2, Pack(f.tags)), VarintField(3, f.geometryType), Bytes(4, Pack(f.geometry));
    encoded := PackedU32Field(2, f.tags);
    var more := FieldVarint(3, f.geometryType);
    encoded := encoded + more;
    more := PackedU32Field(4, f.geometry);
    encoded := encoded + more;
    EncodeOne(tags);
    EncodeOne(kind);
    EncodeOne(geometry);
    EncodeConcat([tags], [kind]);
    EncodeConcat([tags] + [kind], [geometry]);
    assert FeatureRecords(f) == [tags] + [kind] + [geometry];
  }

  lemma {:induction false} NextBlock(written: seq<Record>, number: nat, blobs: seq<seq<byte>>, i: nat)
    requires i < |blobs|
    ensures EncodeRecords(written + Blocks(number, blobs[..i + 1]))
            == EncodeRecords(written + Blocks(number, blobs[..i])) + EncodeRecord(Bytes(number, blobs[i]))
  {
    var next := Bytes(number, blobs[i]);
    EncodeOne(next);
    EncodeConcat(written + Blocks(number, blobs[..i]), [next]);
    assert written + Blocks(number, blobs[..i]) + [next] == written + Blocks(number, blobs[..i + 1]);
  }

  /** A buffer grown by one field for each blob. */
  method ExtendBlocks(before: seq<byte>, number: nat, blobs: seq<seq<byte>>, ghost written: seq<Record>)
    returns (encoded: seq<byte>)
    requires before == EncodeRecords(written)
    ensures encoded == EncodeRecords(written + Blocks(number, blobs))
  {
    encoded := before;
    assert written + Blocks(number, blobs[..0]) == written;
    for i := 0 to |blobs|
      invariant encoded == EncodeRecords(written + Blocks(number, blobs[..i]))
    {
      var more := FieldBytes(number, blobs[i]);
      NextBlock(written, number, blobs, i);
      encoded := encoded + more;
    }
    assert blobs[..|blobs|] == blobs;
  }

  function FieldsOfLayer(name: text, features: seq<seq<byte>>, keys: seq<text>, values: seq<seq<byte>>): seq<Record> {
    [Bytes(1, name)] + Blocks(2, features) + Blocks(3, keys) + Blocks(4, values) +
      [VarintField(5, 4096), VarintField(15, 2)]
  }

  method LayerBytes(name: text, features: seq<seq<byte>>, keys: seq<text>, values: seq<seq<byte>>)
    returns (encoded: seq<byte>)
    ensures encoded == EncodeRecords(FieldsOfLayer(name, features, keys, values))
  {
    var n, f, k, v := [Bytes(1, name)], Blocks(2, features), Blocks(3, keys), Blocks(4, values);
    var extent, version := VarintField(5, 4096), VarintField(15, 2);
    encoded := FieldBytes(1, name);
    EncodeOne(Bytes(1, name));
    encoded := ExtendBlocks(encoded, 2, features, n);
    encoded := ExtendBlocks(encoded, 3, keys, n + f);
    encoded := ExtendBlocks(encoded, 4, values, n + f + k);
    var more := FieldVarint(5, 4096);
    encoded := encoded + more;
    more := FieldVarint(15, 2);
    encoded := encoded + more;
    EncodeOne(extent);
    EncodeOne(version);
    EncodeConcat(n + f + k + v, [extent]);
    EncodeConcat(n + f + k + v + [extent], [version]);
    assert FieldsOfLayer(name, features, keys, values) == n + f + k + v + [extent] + [version];
  }

  method TileBytes(layers: seq<seq<byte>>) returns (encoded: seq<byte>)
    ensures encoded == EncodeRecords(Blocks(3, layers))
  {
    assert EncodeRecords([]) == [];
    encoded := ExtendBlocks([], 3, layers, []);
    assert [] + Blocks(3, layers) == Blocks(3, layers);
  }

  method OneLayer(l: LayerSource) returns (encoded: seq<byte>)
    requires AllRepresentable(l.values)
    ensures encoded == EncodeLayer(l)
  {
    var features: seq<seq<byte>> := [];
    for i := 0 to |l.features|
      invariant |features| == i && forall k :: 0 <= k < i ==> features[k] == EncodeFeature(l.features[k])
    {
      var more := FeatureBytes(l.features[i]);
      features := features + [more];
    }
    assert features == EncodeFeatures(l.features);
    encoded := LayerBytes(l.name, features, l.keys, EncodeValues(l.values));
  }

  /** A tile written by the encoder decodes to what its layers mean. */
  method WriteTile(layers: seq<LayerSource>) returns (encoded: seq<byte>)
    requires Fits(layers)
    ensures encoded == EncodeTile(layers) && DecodeTile(encoded) == TileMeaning(layers)
  {
    var parts: seq<seq<byte>> := [];
    for i := 0 to |layers|
      invariant |parts| == i && forall k :: 0 <= k < i ==> parts[k] == EncodeLayer(layers[k])
    {
      var more := OneLayer(layers[i]);
      parts := parts + [more];
    }
    assert Blocks(3, parts) == TileRecords(layers);
    encoded := TileBytes(parts);
    TileRoundTrip.TileRoundTrip(layers);
  }
}
