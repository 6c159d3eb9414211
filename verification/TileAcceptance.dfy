/** The tiles that are accepted: of all byte strings, exactly the spellings of well-formed layers. */
module TileAcceptance {
  import opened Sequences
  import opened Wrappers
  import opened TileWire
  import opened TileGrammar
  import opened TileGeometry
  import opened TileDecoder
  import opened TileSource
  import opened TileReordering
  import opened TileRoundTrip

  // ---- whatever is decoded is a spelling ----

  lemma {:induction false} OfFieldOnly(rs: seq<Record>, ns: set<nat>)
    ensures forall r :: r in OfFields(rs, ns) ==> r.field in ns
  {
    if rs != [] {
      OfFieldOnly(rs[..|rs| - 1], ns);
    }
  }

  lemma {:induction false} BlobsFound(n: nat, bs: seq<Record>)
    requires (forall i :: 0 <= i < |bs| ==> bs[i].field == n) && Gather(bs, Blobs(n)).Ok?
    ensures bs == Blocks(n, Gather(bs, Blobs(n)).value)
  {
    if bs != [] {
      var k := |bs| - 1;
      BlobsFound(n, bs[..k]);
      LastJoined(bs);
    }
  }

  lemma {:induction false} TextsFound(n: nat, bs: seq<Record>)
    requires (forall i :: 0 <= i < |bs| ==> bs[i].field == n) && Gather(bs, Texts(n)).Ok?
    ensures bs == Blocks(n, Gather(bs, Texts(n)).value)
  {
    if bs != [] {
      var k := |bs| - 1;
      TextsFound(n, bs[..k]);
      LastJoined(bs);
    }
  }

  lemma {:induction false} NumbersFound(n: nat, bs: seq<Record>)
    requires (forall i :: 0 <= i < |bs| ==> bs[i].field == n) && Gather(bs, Numbers(n)).Ok?
    ensures |Gather(bs, Numbers(n)).value| == |bs|
    ensures forall i :: 0 <= i < |bs| ==> bs[i] == VarintField(n, Gather(bs, Numbers(n)).value[i])
  {
    if bs != [] {
      var k := |bs| - 1;
      NumbersFound(n, bs[..k]);
      assert forall i :: 0 <= i < k ==> bs[i] == bs[..k][i];
    }
  }

  lemma {:induction false} ChunkFound(r: Record, n: nat)
    requires r.field == n && U32s(n)(r).Ok?
    ensures ChunkSpelt(r, n, U32s(n)(r).value)
  {
    if r.Bytes? {
      PackedFound(r.payload);
    }
  }

  lemma {:induction false} U32sFound(n: nat, bs: seq<Record>)
    requires (forall i :: 0 <= i < |bs| ==> bs[i].field == n) && Gather(bs, U32s(n)).Ok?
    ensures NumbersSpelt(bs, n, Gather(bs, U32s(n)).value)
    decreases |bs|
  {
    if bs != [] {
      var k := |bs| - 1;
      U32sFound(n, bs[..k]);
      ChunkFound(bs[k], n);
      ChunkLast(bs, n, Gather(bs[..k], U32s(n)).value, U32s(n)(bs[k]).value);
    }
  }

  lemma {:induction false} ChunkLast(bs: seq<Record>, n: nat, numbers: seq<u32>, chunk: seq<u32>)
    requires bs != [] && NumbersSpelt(bs[..|bs| - 1], n, numbers) && ChunkSpelt(bs[|bs| - 1], n, chunk)
    ensures NumbersSpelt(bs, n, numbers + chunk)
  {
    CutApart(numbers, chunk);
  }

  /** Numbers read from bytes fit 64 bits. */
  lemma {:induction false} ReadFits(s: seq<byte>, rs: seq<Record>)
    requires MessageSpelt(s, rs)
    ensures forall r :: r in rs && r.VarintField? ==> r.number < U64
    decreases |rs|
  {
    if rs != [] {
      var n: nat :| n <= |s| && RecordSpelt(s[..n], rs[0]) && MessageSpelt(s[n..], rs[1..]);
      ReadFits(s[n..], rs[1..]);
      HeadJoined(rs);
      assert rs[0].VarintField? ==> rs[0].number < U64;
    }
  }

  /** What one scalar record reads as is what it spells. */
  lemma {:induction false} OneScalarFound(r: Record)
    requires r.field in SCALARS && Scalar(r).Ok? && (r.VarintField? ==> r.number < U64)
    ensures |Scalar(r).value| == 1 && ScalarSpelt(r, Scalar(r).value[0])
  {
  }

  lemma {:induction false} OfFieldsFrom(rs: seq<Record>, ns: set<nat>)
    ensures forall r :: r in OfFields(rs, ns) ==> r in rs
  {
    if rs != [] {
      OfFieldsFrom(rs[..|rs| - 1], ns);
    }
  }

  lemma {:induction false} ScalarsFound(bs: seq<Record>)
    requires forall r :: r in bs ==> r.field in SCALARS && (r.VarintField? ==> r.number < U64)
    requires Gather(bs, Scalar).Ok?
    ensures |Gather(bs, Scalar).value| == |bs|
    ensures |bs| == 1 ==> ScalarSpelt(bs[0], Gather(bs, Scalar).value[0])
  {
    if bs != [] {
      var k := |bs| - 1;
      ScalarsFound(bs[..k]);
      OneScalarFound(bs[k]);
      if k == 0 {
        assert bs == [bs[0]];
        GatherOne(bs[0], Scalar);
      }
    }
  }

  lemma {:induction false} ValueFound(s: seq<byte>)
    requires DecodeValue(s).Ok?
    ensures SpellsValue(s, DecodeValue(s).value)
  {
    var rs := Records(s).value;
    MessageExactly(s, rs);
    ReadFits(s, rs);
    var r := ScalarPart(rs);
    ValueSpelt(s, rs, r, DecodeValue(s).value);
  }

  lemma {:induction false} ScalarPart(rs: seq<Record>) returns (r: Record)
    requires ValueOf(rs).Ok? && forall r :: r in rs && r.VarintField? ==> r.number < U64
    ensures OfFields(rs, SCALARS) == [r] && ScalarSpelt(r, ValueOf(rs).value)
  {
    var bs := OfFields(rs, SCALARS);
    GatherOfFields(rs, Scalar, SCALARS);
    OfFieldOnly(rs, SCALARS);
    OfFieldsFrom(rs, SCALARS);
    ScalarsFound(bs);
    r := bs[0];
  }

  lemma {:induction false} FieldOnly(rs: seq<Record>, n: nat)
    ensures forall i :: 0 <= i < |OfField(rs, n)| ==> OfField(rs, n)[i].field == n
  {
    OfFieldOnly(rs, {n});
    forall i | 0 <= i < |OfField(rs, n)| ensures OfField(rs, n)[i].field == n {
      assert OfField(rs, n)[i] in OfField(rs, n);
    }
  }

  lemma {:induction false} FeatureFound(s: seq<byte>, keys: seq<text>, values: seq<PropertyValue>)
    returns (f: FeatureSource)
    requires DecodeFeature(s, keys, values).Ok?
    ensures SpellsFeature(s, f)
  {
    var rs := Records(s).value;
    MessageExactly(s, rs);
    f := FeatureRecordsFound(rs, keys, values);
  }

  lemma {:induction false} FeatureRecordsFound(rs: seq<Record>, keys: seq<text>, values: seq<PropertyValue>)
    returns (f: FeatureSource)
    requires FeatureOf(rs, keys, values).Ok?
    ensures FeatureSpelt(rs, f)
  {
    U32sPart(rs, 2);
    NumberPart(rs, 3);
    U32sPart(rs, 4);
    f := FeatureSource(Gather(rs, U32s(2)).value, Gather(rs, Numbers(3)).value[0], Gather(rs, U32s(4)).value);
  }

  lemma {:induction false} U32sPart(rs: seq<Record>, n: nat)
    requires Gather(rs, U32s(n)).Ok?
    ensures NumbersSpelt(OfField(rs, n), n, Gather(rs, U32s(n)).value)
  {
    GatherOfFields(rs, U32s(n), {n});
    FieldOnly(rs, n);
    U32sFound(n, OfField(rs, n));
  }

  ghost predicate AllSpell(encoded: seq<seq<byte>>, features: seq<FeatureSource>) {
    |features| == |encoded| && forall i :: 0 <= i < |encoded| ==> SpellsFeature(encoded[i], features[i])
  }

  lemma {:induction false} FeaturesFound(name: text, encoded: seq<seq<byte>>, keys: seq<text>,
                                         values: seq<PropertyValue>)
    returns (features: seq<FeatureSource>)
    requires LayerFeatures(name, encoded, keys, values).Ok?
    ensures AllSpell(encoded, features)
    decreases |encoded|
  {
    if encoded == [] {
      features := [];
    } else {
      var k := |encoded| - 1;
      var before := FeaturesFound(name, encoded[..k], keys, values);
      var last := FeatureFound(encoded[k], keys, values);
      FeaturesLast(encoded, before, last);
      features := before + [last];
    }
  }

  lemma {:induction false} FeaturesLast(encoded: seq<seq<byte>>, features: seq<FeatureSource>, f: FeatureSource)
    requires encoded != [] && AllSpell(encoded[..|encoded| - 1], features)
    requires SpellsFeature(encoded[|encoded| - 1], f)
    ensures AllSpell(encoded, features + [f])
  {
    var k := |encoded| - 1;
    forall i | 0 <= i < |encoded| ensures SpellsFeature(encoded[i], (features + [f])[i]) {
      assert i < k ==> encoded[i] == encoded[..k][i];
    }
  }

  lemma {:induction false} ValuesFound(bs: seq<Record>)
    requires (forall i :: 0 <= i < |bs| ==> bs[i].field == 4) && Gather(bs, Values(4)).Ok?
    ensures ValuesSpelt(bs, Gather(bs, Values(4)).value)
    decreases |bs|
  {
    if bs != [] {
      var k := |bs| - 1;
      ValuesFound(bs[..k]);
      ValueFound(bs[k].payload);
      ValuesLast(bs, Gather(bs[..k], Values(4)).value, DecodeValue(bs[k].payload).value);
    }
  }

  lemma {:induction false} ValuesLast(bs: seq<Record>, values: seq<PropertyValue>, v: PropertyValue)
    requires bs != [] && ValuesSpelt(bs[..|bs| - 1], values)
    requires bs[|bs| - 1].Bytes? && bs[|bs| - 1].field == 4 && SpellsValue(bs[|bs| - 1].payload, v)
    ensures ValuesSpelt(bs, values + [v])
  {
    var k := |bs| - 1;
    forall i | 0 <= i < |bs|
      ensures bs[i].Bytes? && bs[i].field == 4 && SpellsValue(bs[i].payload, (values + [v])[i])
    {
      assert i < k ==> bs[i] == bs[..k][i];
    }
  }

  lemma {:induction false} TextsPart(rs: seq<Record>, n: nat)
    requires Gather(rs, Texts(n)).Ok?
    ensures OfField(rs, n) == Blocks(n, Gather(rs, Texts(n)).value)
  {
    GatherOfFields(rs, Texts(n), {n});
    FieldOnly(rs, n);
    TextsFound(n, OfField(rs, n));
  }

  lemma {:induction false} BlobsPart(rs: seq<Record>, n: nat)
    requires Gather(rs, Blobs(n)).Ok?
    ensures OfField(rs, n) == Blocks(n, Gather(rs, Blobs(n)).value)
  {
    GatherOfFields(rs, Blobs(n), {n});
    FieldOnly(rs, n);
    BlobsFound(n, OfField(rs, n));
  }

  lemma {:induction false} ValuesPart(rs: seq<Record>)
    requires Gather(rs, Values(4)).Ok?
    ensures ValuesSpelt(OfField(rs, 4), Gather(rs, Values(4)).value)
  {
    GatherOfFields(rs, Values(4), {4});
    FieldOnly(rs, 4);
    ValuesFound(OfField(rs, 4));
  }

  lemma {:induction false} NumberPart(rs: seq<Record>, n: nat)
    requires Gather(rs, Numbers(n)).Ok? && |Gather(rs, Numbers(n)).value| == 1
    ensures OfField(rs, n) == [VarintField(n, Gather(rs, Numbers(n)).value[0])]
  {
    GatherOfFields(rs, Numbers(n), {n});
    FieldOnly(rs, n);
    NumbersFound(n, OfField(rs, n));
  }

  lemma {:induction false} LayerRecordsFound(rs: seq<Record>) returns (l: LayerSource)
    requires LayerOf(rs).Ok?
    ensures LayerSpelt(rs, l)
  {
    var names, encoded := Gather(rs, Texts(1)).value, Gather(rs, Blobs(2)).value;
    var keys, values := Gather(rs, Texts(3)).value, Gather(rs, Values(4)).value;
    var features := FeaturesFound(names[0], encoded, keys, values);
    l := LayerSource(names[0], features, keys, values);
    TextsPart(rs, 1);
    BlobsPart(rs, 2);
    BlocksFound(OfField(rs, 2), encoded, features);
    TextsPart(rs, 3);
    ValuesPart(rs);
    NumberPart(rs, 15);
    assert OfField(rs, 1) == [Bytes(1, l.name)];
  }

  lemma {:induction false} BlocksFound(bs: seq<Record>, encoded: seq<seq<byte>>, features: seq<FeatureSource>)
    requires bs == Blocks(2, encoded) && AllSpell(encoded, features)
    ensures FeaturesSpelt(bs, features)
  {
  }

  lemma {:induction false} LayerFound(s: seq<byte>) returns (l: LayerSource)
    requires DecodeLayer(s).Ok?
    ensures SpellsLayer(s, l)
  {
    var rs := Records(s).value;
    MessageExactly(s, rs);
    l := LayerRecordsFound(rs);
  }

  lemma {:induction false} LayersFound(bs: seq<Record>) returns (layers: seq<LayerSource>)
    requires (forall i :: 0 <= i < |bs| ==> bs[i].field == 3) && Gather(bs, Layers).Ok?
    ensures LayersSpelt(bs, layers)
    decreases |bs|
  {
    if bs == [] {
      layers := [];
    } else {
      var k := |bs| - 1;
      var before := LayersFound(bs[..k]);
      var last := LayerFound(bs[k].payload);
      LayersLast(bs, before, last);
      layers := before + [last];
    }
  }

  lemma {:induction false} LayersLast(bs: seq<Record>, layers: seq<LayerSource>, l: LayerSource)
    requires bs != [] && LayersSpelt(bs[..|bs| - 1], layers)
    requires bs[|bs| - 1].Bytes? && bs[|bs| - 1].field == 3 && SpellsLayer(bs[|bs| - 1].payload, l)
    ensures LayersSpelt(bs, layers + [l])
  {
    var k := |bs| - 1;
    forall i | 0 <= i < |bs|
      ensures bs[i].Bytes? && bs[i].field == 3 && SpellsLayer(bs[i].payload, (layers + [l])[i])
    {
      assert i < k ==> bs[i] == bs[..k][i];
    }
  }

  /** Whatever is decoded is a spelling of some layers. */
  lemma {:induction false} TileFound(s: seq<byte>) returns (layers: seq<LayerSource>)
    requires DecodeTile(s).Ok?
    ensures SpellsTile(s, layers)
  {
    var rs := Records(s).value;
    MessageExactly(s, rs);
    GatherOfFields(rs, Layers, {3});
    FieldOnly(rs, 3);
    layers := LayersFound(OfField(rs, 3));
    TileSpelt(s, rs, layers);
  }
}
