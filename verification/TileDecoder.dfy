/** Decoding a Mapbox Vector Tile (Specification 2.1, sections 4.1, 4.2 and 4.4). A message is a list of
    records, of which each field gathers its own; strings are their UTF-8 bytes. */
module TileDecoder {
  import opened Wrappers
  import opened TileWire
  import opened TileGeometry

  type text = seq<byte>

  datatype PropertyValue =
    | Text(text: text)
    | Signed(signed: int)
    | Unsigned(unsigned: nat)
    | Boolean(b: bool)
    | Float32(raw: seq<byte>)
    | Float64(raw: seq<byte>)

  datatype Feature = Feature(properties: map<text, PropertyValue>, geometryType: GeometryType)

  datatype Layer = Layer(features: seq<Feature>)

  type Tile = map<text, Layer>

  /** The bytes of an ASCII name. */
  function Ascii(s: string): text {
    seq<byte>(|s|, i requires 0 <= i < |s| => s[i] as int % 128)
  }

  // ---- UTF-8 ----

  predicate Continues(b: byte) { 0x80 <= b < 0xc0 }

  /** The bytes of the character at the head of `s`, zero when there is none (table 3-7 of Unicode 15). */
  function CharacterBytes(s: text): (n: nat)
    ensures n <= |s|
  {
    if |s| >= 1 && s[0] < 0x80 then 1
    else if |s| >= 2 && 0xc2 <= s[0] < 0xe0 && Continues(s[1]) then 2
    else if |s| >= 3 && 0xe0 <= s[0] < 0xf0 && Continues(s[1]) && Continues(s[2])
         && (s[0] == 0xe0 ==> s[1] >= 0xa0) && (s[0] == 0xed ==> s[1] < 0xa0) then 3
    else if |s| >= 4 && 0xf0 <= s[0] < 0xf5 && Continues(s[1]) && Continues(s[2]) && Continues(s[3])
         && (s[0] == 0xf0 ==> s[1] >= 0x90) && (s[0] == 0xf4 ==> s[1] < 0x90) then 4
    else 0
  }

  predicate Utf8(s: text)
    decreases |s|
  {
    s == [] || (CharacterBytes(s) > 0 && Utf8(s[CharacterBytes(s)..]))
  }

  // ---- gathering a field of a message ----

  /** What `f` takes from each record, in order; nothing when it refuses one. */
  function Gather<T>(rs: seq<Record>, f: Record -> Result<seq<T>>): Result<seq<T>> {
    if rs == [] then
      Ok([])
    else
      var before :- Gather(rs[..|rs| - 1], f);
      var last :- f(rs[|rs| - 1]);
      Ok(before + last)
  }

  lemma {:induction false} GatherConcat<T>(a: seq<Record>, b: seq<Record>, f: Record -> Result<seq<T>>)
    ensures Gather(a + b, f) ==
            if Gather(a, f).Ok? && Gather(b, f).Ok? then Ok(Gather(a, f).value + Gather(b, f).value) else Err
  {
    if b == [] {
      assert a + b == a;
      assert Gather(a, f).Ok? ==> Gather(a, f).value + [] == Gather(a, f).value;
    } else {
      var n := |b| - 1;
      GatherConcat(a, b[..n], f);
      assert (a + b)[..|a + b| - 1] == a + b[..n];
      if Gather(a, f).Ok? && Gather(b, f).Ok? {
        var x, y, z := Gather(a, f).value, Gather(b[..n], f).value, f(b[n]).value;
        assert (x + y) + z == x + (y + z);
      }
    }
  }

  lemma {:induction false} GatherOne<T>(r: Record, f: Record -> Result<seq<T>>)
    ensures Gather([r], f) == f(r)
  {
    assert [r][..0] == [];
    assert f(r).Ok? ==> [] + f(r).value == f(r).value;
  }

  /** A record whose field `f` does not read is skipped wherever it stands. */
  lemma {:induction false} GatherSkips<T>(a: seq<Record>, r: Record, b: seq<Record>, f: Record -> Result<seq<T>>)
    requires f(r) == Ok([])
    ensures Gather(a + [r] + b, f) == Gather(a + b, f)
  {
    GatherOne(r, f);
    GatherConcat(a, [r], f);
    GatherConcat(a + [r], b, f);
    GatherConcat(a, b, f);
    assert Gather(a, f).Ok? ==> Gather(a, f).value + [] == Gather(a, f).value;
  }

  /** The payloads of field `n`, each a byte string. */
  function Blobs(n: nat): Record -> Result<seq<text>> {
    (r: Record) => if r.field != n then Ok([]) else if r.Bytes? then Ok([r.payload]) else Err
  }

  /** The payloads of field `n`, each a string. */
  function Texts(n: nat): Record -> Result<seq<text>> {
    (r: Record) => if r.field != n then Ok([]) else if r.Bytes? && Utf8(r.payload) then Ok([r.payload]) else Err
  }

  function Numbers(n: nat): Record -> Result<seq<nat>> {
    (r: Record) => if r.field != n then Ok([]) else if r.VarintField? then Ok([r.number]) else Err
  }

  // ---- Value ----

  const I64 := 0x8000_0000_0000_0000

  /** Two's complement. */
  function CastSigned(v: nat): int {
    if v < I64 then v else v - U64
  }

  function ZigZag(v: nat): int {
    if v % 2 == 0 then v / 2 else -(v / 2) - 1
  }

  function Scalar(r: Record): (scalar: Result<seq<PropertyValue>>)
    ensures scalar.Ok? ==> |scalar.value| <= 1
  {
    match r.field
    case 1 => if r.Bytes? && Utf8(r.payload) then Ok([Text(r.payload)]) else Err
    case 2 => if r.Fixed32? then Ok([Float32(r.raw)]) else Err
    case 3 => if r.Fixed64? then Ok([Float64(r.raw)]) else Err
    case 4 => if r.VarintField? then Ok([Signed(CastSigned(r.number))]) else Err
    case 5 => if r.VarintField? then Ok([Unsigned(r.number)]) else Err
    case 6 => if r.VarintField? then Ok([Signed(ZigZag(r.number))]) else Err
    case 7 => if r.VarintField? && r.number <= 1 then Ok([Boolean(r.number == 1)]) else Err
    case _ => Ok([])
  }

  /** A value is exactly one scalar. */
  function ValueOf(rs: seq<Record>): Result<PropertyValue> {
    var scalars :- Gather(rs, Scalar);
    if |scalars| == 1 then Ok(scalars[0]) else Err
  }

  function DecodeValue(s: seq<byte>): Result<PropertyValue> {
    var rs :- Records(s);
    ValueOf(rs)
  }

  // ---- Feature ----

  function Unpack(s: seq<byte>): Result<seq<u32>>
    decreases |s|
  {
    if s == [] then
      Ok([])
    else
      var (v, n) :- VarintAt(s);
      if v >= 0x1_0000_0000 then Err
      else
        var rest :- Unpack(s[n..]);
        Ok([v] + rest)
  }

  /** The numbers of field `n`, packed or one by one. */
  function U32s(n: nat): Record -> Result<seq<u32>> {
    (r: Record) =>
      if r.field != n then Ok([])
      else if r.VarintField? then (if r.number < 0x1_0000_0000 then Ok([r.number]) else Err)
      else if r.Bytes? then Unpack(r.payload)
      else Err
  }

  function GeometryTypeOf(v: nat): Result<GeometryType> {
    match v
    case 1 => Ok(Point)
    case 2 => Ok(LineString)
    case 3 => Ok(Polygon)
    case _ => Err
  }

  predicate MustBeText(key: text) {
    key == Ascii("pnu") || key == Ascii("official_complex_code")
  }

  type Tag = (u32, u32)

  /** The (key index, value index) pairs of a feature's tags. */
  function Pairs(tags: seq<u32>): seq<Tag>
    requires |tags| % 2 == 0
  {
    seq(|tags| / 2, j requires 0 <= j < |tags| / 2 => (tags[2 * j], tags[2 * j + 1]))
  }

  /** The indexes are in their tables, and a key that demands a text has one. */
  predicate TagGood(tag: Tag, keys: seq<text>, values: seq<PropertyValue>) {
    && tag.0 < |keys|
    && tag.1 < |values|
    && (MustBeText(keys[tag.0]) ==> values[tag.1].Text?)
  }

  /** The properties the pairs spell; each key once. */
  function Properties(tags: seq<Tag>, keys: seq<text>, values: seq<PropertyValue>): Result<map<text, PropertyValue>> {
    if tags == [] then
      Ok(map[])
    else
      var tag := tags[|tags| - 1];
      var before :- Properties(tags[..|tags| - 1], keys, values);
      if !TagGood(tag, keys, values) || keys[tag.0] in before then Err
      else Ok(before[keys[tag.0] := values[tag.1]])
  }

  function Assemble(tags: seq<u32>, types: seq<nat>, geometry: seq<u32>, keys: seq<text>, values: seq<PropertyValue>):
      Result<Feature> {
    if |tags| % 2 != 0 || |types| != 1 then
      Err
    else
      var t :- GeometryTypeOf(types[0]);
      var properties :- Properties(Pairs(tags), keys, values);
      if geometry == [] || Parse(t, geometry).Err? then Err else Ok(Feature(properties, t))
  }

  function FeatureOf(rs: seq<Record>, keys: seq<text>, values: seq<PropertyValue>): Result<Feature> {
    var tags :- Gather(rs, U32s(2));
    var types :- Gather(rs, Numbers(3));
    var geometry :- Gather(rs, U32s(4));
    Assemble(tags, types, geometry, keys, values)
  }

  function DecodeFeature(s: seq<byte>, keys: seq<text>, values: seq<PropertyValue>): Result<Feature> {
    var rs :- Records(s);
    FeatureOf(rs, keys, values)
  }

  // ---- Layer ----

  function Values(n: nat): Record -> Result<seq<PropertyValue>> {
    (r: Record) =>
      if r.field != n then Ok([])
      else if r.Bytes? then (var v :- DecodeValue(r.payload); Ok([v]))
      else Err
  }

  /** The geometry a layer's name demands. */
  function Demanded(name: text): Option<GeometryType> {
    if name == Ascii("parcels") then Some(Polygon)
    else if name == Ascii("parcel_anchor") || name == Ascii("parcel_anchor_aggregate") then Some(Point)
    else None
  }

  function LayerFeature(name: text, s: seq<byte>, keys: seq<text>, values: seq<PropertyValue>): Result<Feature> {
    var feature :- DecodeFeature(s, keys, values);
    if Demanded(name).Some? && feature.geometryType != Demanded(name).value then Err else Ok(feature)
  }

  function LayerFeatures(name: text, encoded: seq<seq<byte>>, keys: seq<text>, values: seq<PropertyValue>):
      Result<seq<Feature>> {
    if encoded == [] then
      Ok([])
    else
      var before :- LayerFeatures(name, encoded[..|encoded| - 1], keys, values);
      var last :- LayerFeature(name, encoded[|encoded| - 1], keys, values);
      Ok(before + [last])
  }

  function LayerOf(rs: seq<Record>): Result<(text, Layer)> {
    var names :- Gather(rs, Texts(1));
    var encoded :- Gather(rs, Blobs(2));
    var keys :- Gather(rs, Texts(3));
    var values :- Gather(rs, Values(4));
    var versions :- Gather(rs, Numbers(15));
    if |names| != 1 || |versions| != 1 || versions[0] !in {1, 2} then
      Err
    else
      var features :- LayerFeatures(names[0], encoded, keys, values);
      Ok((names[0], Layer(features)))
  }

  function DecodeLayer(s: seq<byte>): Result<(text, Layer)> {
    var rs :- Records(s);
    LayerOf(rs)
  }

  // ---- Tile ----

  function Layers(r: Record): Result<seq<(text, Layer)>> {
    if r.field != 3 then Ok([])
    else if r.Bytes? then (var l :- DecodeLayer(r.payload); Ok([l]))
    else Err
  }

  /** Named layers as a map, unless a name is there twice. */
  function ByName(layers: seq<(text, Layer)>): (t: Result<Tile>)
    ensures t.Ok? ==> forall n :: n in t.value <==> exists l :: l in layers && l.0 == n
  {
    if layers == [] then
      Ok(map[])
    else
      var before :- ByName(layers[..|layers| - 1]);
      var (name, layer) := layers[|layers| - 1];
      assert layers == layers[..|layers| - 1] + [(name, layer)];
      if name in before then Err else Ok(before[name := layer])
  }

  function TileOf(rs: seq<Record>): Result<Tile> {
    var layers :- Gather(rs, Layers);
    ByName(layers)
  }

  function DecodeTile(s: seq<byte>): Result<Tile> {
    var rs :- Records(s);
    TileOf(rs)
  }

  // ---- the decoder's loops ----

  lemma {:induction false} GatherNext<T>(done: seq<Record>, r: Record, f: Record -> Result<seq<T>>)
    ensures Gather(done + [r], f) ==
            if Gather(done, f).Ok? && f(r).Ok? then Ok(Gather(done, f).value + f(r).value) else Err
  {
    GatherOne(r, f);
    GatherConcat(done, [r], f);
  }

  function Held<T>(value: Option<T>): seq<T> {
    match value case None => [] case Some(v) => [v]
  }

  /** One more record, for a field that is held once: refused, held, or passed by. */
  lemma {:induction false} HoldNext<T>(done: seq<Record>, r: Record, f: Record -> Result<seq<T>>, value: Option<T>)
    requires Gather(done, f) == Ok(Held(value)) && (f(r).Ok? ==> |f(r).value| <= 1)
    ensures f(r).Err? || (f(r).value != [] && value.Some?) ==> Refuses(done + [r], f)
    ensures f(r) == Ok([]) ==> Gather(done + [r], f) == Ok(Held(value))
    ensures f(r).Ok? && f(r).value != [] && value.None? ==> Gather(done + [r], f) == Ok(Held(Some(f(r).value[0])))
  {
    GatherNext(done, r, f);
    assert Held(value) + [] == Held(value);
    if f(r).Ok? && f(r).value != [] {
      assert [] + f(r).value == [f(r).value[0]];
    }
  }

  /** The records hold a field wrongly, or more than once. */
  ghost predicate Refuses<T>(rs: seq<Record>, f: Record -> Result<seq<T>>) {
    Gather(rs, f).Err? || |Gather(rs, f).value| > 1
  }

  /** What the records read so far rule out stays ruled out in the whole message. */
  lemma {:induction false} RefusedForGood<T>(cursor: Cursor, f: Record -> Result<seq<T>>)
    requires cursor.Reading()
    ensures Records(cursor.bytes).Ok? ==>
              && (Gather(cursor.done, f).Err? ==> Gather(Records(cursor.bytes).value, f).Err?)
              && (Refuses(cursor.done, f) ==> Refuses(Records(cursor.bytes).value, f))
  {
    if Records(cursor.bytes).Ok? {
      GatherConcat(cursor.done, Records(cursor.Rest()).value, f);
    }
  }

  lemma {:induction false} AllRead(cursor: Cursor)
    requires cursor.Reading() && cursor.Rest() == []
    ensures Records(cursor.bytes) == Ok(cursor.done)
  {
    assert cursor.done + [] == cursor.done;
  }

  method ParseValue(s: seq<byte>) returns (r: Result<PropertyValue>)
    ensures r == DecodeValue(s)
  {
    var cursor := new Cursor(s);
    var value: Option<PropertyValue> := None;
    var empty := cursor.IsEmpty();
    while !empty
      invariant fresh(cursor) && cursor.Reading() && (empty <==> cursor.Rest() == [])
      invariant Gather(cursor.done, Scalar) == Ok(Held(value))
      decreases |s| - cursor.position
    {
      ghost var done := cursor.done;
      var record :- cursor.ReadRecord();
      HoldNext(done, record, Scalar, value);
      RefusedForGood(cursor, Scalar);
      var decoded :- Scalar(record);
      if decoded != [] {
        if value.Some? {
          return Err;
        }
        value := Some(decoded[0]);
      }
      empty := cursor.IsEmpty();
    }
    AllRead(cursor);
    r := match value case None => Err case Some(v) => Ok(v);
  }

  function Appended(output: seq<u32>, numbers: Result<seq<u32>>): Result<seq<u32>> {
    var ns :- numbers;
    Ok(output + ns)
  }

  /** These numbers were appended, and the rest of the payload holds the others. */
  ghost predicate Appending(output: seq<u32>, payload: seq<byte>, all: seq<u32>, rest: seq<byte>) {
    Appended(output, Unpack(payload)) == Appended(all, Unpack(rest))
  }

  lemma {:induction false} UnpackNext(output: seq<u32>, payload: seq<byte>, all: seq<u32>, s: seq<byte>, v: u32, n: nat)
    requires Appending(output, payload, all, s) && s != [] && VarintAt(s) == Ok((v, n))
    ensures Appending(output, payload, all + [v], s[n..])
  {
    if Unpack(s[n..]).Ok? {
      assert all + ([v] + Unpack(s[n..]).value) == all + [v] + Unpack(s[n..]).value;
    }
  }

  lemma {:induction false} UnpackRefused(output: seq<u32>, payload: seq<byte>, all: seq<u32>, s: seq<byte>)
    requires Appending(output, payload, all, s)
    requires s != [] && (VarintAt(s).Err? || VarintAt(s).value.0 >= 0x1_0000_0000)
    ensures Appended(output, Unpack(payload)).Err?
  {
  }

  lemma {:induction false} UnpackEnd(output: seq<u32>, payload: seq<byte>, all: seq<u32>, s: seq<byte>)
    requires Appending(output, payload, all, s) && s == []
    ensures Appended(output, Unpack(payload)) == Ok(all)
  {
    assert all + [] == all;
  }

  method ReadU32(packed: Cursor) returns (r: Result<u32>)
    requires packed.Valid() && packed.Rest() != []
    modifies packed`position
    ensures packed.Valid()
    ensures match VarintAt(old(packed.Rest()))
            case Err => r.Err?
            case Ok((v, n)) =>
              if v >= 0x1_0000_0000 then r.Err?
              else r == Ok(v) && packed.Rest() == old(packed.Rest())[n..] && packed.position == old(packed.position) + n
  {
    ghost var rest, start := packed.Rest(), packed.position;
    var number :- packed.ReadVarint();
    assert packed.Rest() == rest[packed.position - start..];
    if number >= 0x1_0000_0000 {
      return Err;
    }
    r := Ok(number);
  }

  method AppendPacked(payload: seq<byte>, output: seq<u32>) returns (r: Result<seq<u32>>)
    ensures r == Appended(output, Unpack(payload))
  {
    var packed := new Cursor(payload);
    var all: seq<u32> := output;
    var empty := packed.IsEmpty();
    while !empty
      invariant fresh(packed) && packed.Valid() && (empty <==> packed.Rest() == [])
      invariant Appending(output, payload, all, packed.Rest())
      decreases |packed.Rest()|
    {
      ghost var start, rest := packed.position, packed.Rest();
      var number := ReadU32(packed);
      if number.Err? {
        UnpackRefused(output, payload, all, rest);
        return Err;
      }
      UnpackNext(output, payload, all, rest, number.value, packed.position - start);
      all := all + [number.value];
      empty := packed.IsEmpty();
    }
    UnpackEnd(output, payload, all, packed.Rest());
    r := Ok(all);
  }

  /** Appends the numbers of one record of a repeated field. */
  method AppendRepeatedU32(record: Record, output: seq<u32>) returns (r: Result<seq<u32>>)
    ensures r == Appended(output, U32s(record.field)(record))
  {
    match record {
      case VarintField(_, number) =>
        if number >= 0x1_0000_0000 {
          return Err;
        }
        r := Ok(output + [number]);
      case Bytes(_, payload) =>
        r := AppendPacked(payload, output);
      case _ => r := Err;
    }
  }

  lemma {:induction false} PropertiesRefused(tags: seq<Tag>, keys: seq<text>, values: seq<PropertyValue>, n: nat)
    requires n <= |tags| && Properties(tags[..n], keys, values).Err?
    ensures Properties(tags, keys, values).Err?
  {
    if n < |tags| {
      assert tags[..|tags| - 1][..n] == tags[..n];
      PropertiesRefused(tags[..|tags| - 1], keys, values, n);
    } else {
      assert tags[..n] == tags;
    }
  }

  method ReadProperties(tags: seq<Tag>, keys: seq<text>, values: seq<PropertyValue>)
    returns (r: Result<map<text, PropertyValue>>)
    ensures r == Properties(tags, keys, values)
  {
    var properties: map<text, PropertyValue> := map[];
    for i := 0 to |tags|
      invariant Properties(tags[..i], keys, values) == Ok(properties)
    {
      assert tags[..i + 1][..i] == tags[..i];
      var tag := tags[i];
      if !TagGood(tag, keys, values) || keys[tag.0] in properties {
        PropertiesRefused(tags, keys, values, i + 1);
        return Err;
      }
      properties := properties[keys[tag.0] := values[tag.1]];
    }
    assert tags[..|tags|] == tags;
    r := Ok(properties);
  }

  datatype FeatureParts = FeatureParts(tags: seq<u32>, geometryType: Option<nat>, geometry: seq<u32>)

  ghost predicate Collected(rs: seq<Record>, parts: FeatureParts) {
    && Gather(rs, U32s(2)) == Ok(parts.tags)
    && Gather(rs, U32s(4)) == Ok(parts.geometry)
    && Gather(rs, Numbers(3)) == Ok(Held(parts.geometryType))
    && (parts.geometryType.Some? ==> GeometryTypeOf(parts.geometryType.value).Ok?)
  }

  /** Records no feature begins with. */
  ghost predicate FeatureDoomed(rs: seq<Record>) {
    || Gather(rs, U32s(2)).Err?
    || Gather(rs, U32s(4)).Err?
    || Refuses(rs, Numbers(3))
    || (|Gather(rs, Numbers(3)).value| == 1 && GeometryTypeOf(Gather(rs, Numbers(3)).value[0]).Err?)
  }

  lemma {:induction false} FeatureDoomedForGood(cursor: Cursor, keys: seq<text>, values: seq<PropertyValue>)
    requires cursor.Reading() && FeatureDoomed(cursor.done)
    ensures DecodeFeature(cursor.bytes, keys, values).Err?
  {
    RefusedForGood(cursor, U32s(2));
    RefusedForGood(cursor, U32s(4));
    RefusedForGood(cursor, Numbers(3));
    if Records(cursor.bytes).Ok? {
      GatherConcat(cursor.done, Records(cursor.Rest()).value, Numbers(3));
    }
  }

  method CollectFeatureField(ghost done: seq<Record>, record: Record, parts: FeatureParts)
    returns (r: Result<FeatureParts>)
    requires Collected(done, parts)
    ensures r.Ok? ==> Collected(done + [record], r.value)
    ensures r.Err? ==> FeatureDoomed(done + [record])
  {
    GatherNext(done, record, U32s(2));
    GatherNext(done, record, U32s(4));
    HoldNext(done, record, Numbers(3), parts.geometryType);
    assert parts.tags + [] == parts.tags && parts.geometry + [] == parts.geometry;
    match record.field {
      case 2 =>
        var tags :- AppendRepeatedU32(record, parts.tags);
        r := Ok(parts.(tags := tags));
      case 3 =>
        if !record.VarintField? || parts.geometryType.Some? || GeometryTypeOf(record.number).Err? {
          return Err;
        }
        r := Ok(parts.(geometryType := Some(record.number)));
      case 4 =>
        var geometry :- AppendRepeatedU32(record, parts.geometry);
        r := Ok(parts.(geometry := geometry));
      case _ =>
        r := Ok(parts);
    }
  }

  method ParseFeature(s: seq<byte>, keys: seq<text>, values: seq<PropertyValue>) returns (r: Result<Feature>)
    ensures r == DecodeFeature(s, keys, values)
  {
    var cursor := new Cursor(s);
    var parts := FeatureParts([], None, []);
    var empty := cursor.IsEmpty();
    while !empty
      invariant fresh(cursor) && cursor.Reading() && (empty <==> cursor.Rest() == [])
      invariant Collected(cursor.done, parts)
      decreases |s| - cursor.position
    {
      ghost var done := cursor.done;
      var record :- cursor.ReadRecord();
      var collected := CollectFeatureField(done, record, parts);
      if collected.Err? {
        FeatureDoomedForGood(cursor, keys, values);
        return Err;
      }
      parts := collected.value;
      empty := cursor.IsEmpty();
    }
    AllRead(cursor);
    if |parts.tags| % 2 != 0 {
      return Err;
    }
    var properties :- ReadProperties(Pairs(parts.tags), keys, values);
    if parts.geometryType.None? || parts.geometry == [] {
      return Err;
    }
    var t := GeometryTypeOf(parts.geometryType.value).value;
    var _ :- ValidateGeometry(t, parts.geometry);
    r := Ok(Feature(properties, t));
  }

  datatype LayerParts = LayerParts(name: Option<text>, encoded: seq<seq<byte>>, keys: seq<text>,
                                   values: seq<PropertyValue>, version: Option<nat>)

  ghost predicate LayerCollected(rs: seq<Record>, parts: LayerParts) {
    && Gather(rs, Texts(1)) == Ok(Held(parts.name))
    && Gather(rs, Blobs(2)) == Ok(parts.encoded)
    && Gather(rs, Texts(3)) == Ok(parts.keys)
    && Gather(rs, Values(4)) == Ok(parts.values)
    && Gather(rs, Numbers(15)) == Ok(Held(parts.version))
  }

  ghost predicate LayerDoomed(rs: seq<Record>) {
    || Refuses(rs, Texts(1))
    || Gather(rs, Blobs(2)).Err?
    || Gather(rs, Texts(3)).Err?
    || Gather(rs, Values(4)).Err?
    || Refuses(rs, Numbers(15))
  }

  lemma {:induction false} LayerDoomedForGood(cursor: Cursor)
    requires cursor.Reading() && LayerDoomed(cursor.done)
    ensures DecodeLayer(cursor.bytes).Err?
  {
    RefusedForGood(cursor, Texts(1));
    RefusedForGood(cursor, Blobs(2));
    RefusedForGood(cursor, Texts(3));
    RefusedForGood(cursor, Values(4));
    RefusedForGood(cursor, Numbers(15));
  }

  /** A record of field `n` leaves what the other fields gathered. */
  lemma {:induction false} OtherFieldsKept(done: seq<Record>, r: Record, parts: LayerParts)
    requires LayerCollected(done, parts)
    ensures r.field != 1 ==> Gather(done + [r], Texts(1)) == Ok(Held(parts.name))
    ensures r.field != 2 ==> Gather(done + [r], Blobs(2)) == Ok(parts.encoded)
    ensures r.field != 3 ==> Gather(done + [r], Texts(3)) == Ok(parts.keys)
    ensures r.field != 4 ==> Gather(done + [r], Values(4)) == Ok(parts.values)
    ensures r.field != 15 ==> Gather(done + [r], Numbers(15)) == Ok(Held(parts.version))
  {
    HoldNext(done, r, Texts(1), parts.name);
    HoldNext(done, r, Numbers(15), parts.version);
    GatherNext(done, r, Blobs(2));
    GatherNext(done, r, Texts(3));
    GatherNext(done, r, Values(4));
    assert parts.encoded + [] == parts.encoded && parts.keys + [] == parts.keys && parts.values + [] == parts.values;
  }

  method CollectLayerField(ghost done: seq<Record>, record: Record, parts: LayerParts) returns (r: Result<LayerParts>)
    requires LayerCollected(done, parts)
    ensures r.Ok? ==> LayerCollected(done + [record], r.value)
    ensures r.Err? ==> LayerDoomed(done + [record])
  {
    OtherFieldsKept(done, record, parts);
    match record.field {
      case 1 =>
        HoldNext(done, record, Texts(1), parts.name);
        if !record.Bytes? || parts.name.Some? || !Utf8(record.payload) {
          return Err;
        }
        r := Ok(parts.(name := Some(record.payload)));
      case 2 =>
        GatherNext(done, record, Blobs(2));
        if !record.Bytes? {
          return Err;
        }
        r := Ok(parts.(encoded := parts.encoded + [record.payload]));
      case 3 =>
        GatherNext(done, record, Texts(3));
        if !record.Bytes? || !Utf8(record.payload) {
          return Err;
        }
        r := Ok(parts.(keys := parts.keys + [record.payload]));
      case 4 =>
        GatherNext(done, record, Values(4));
        if !record.Bytes? {
          return Err;
        }
        var value :- ParseValue(record.payload);
        r := Ok(parts.(values := parts.values + [value]));
      case 15 =>
        HoldNext(done, record, Numbers(15), parts.version);
        if !record.VarintField? || parts.version.Some? {
          return Err;
        }
        r := Ok(parts.(version := Some(record.number)));
      case _ =>
        r := Ok(parts);
    }
  }

  method ParseFeatures(name: text, encoded: seq<seq<byte>>, keys: seq<text>, values: seq<PropertyValue>)
    returns (r: Result<seq<Feature>>)
    ensures r == LayerFeatures(name, encoded, keys, values)
  {
    var features: seq<Feature> := [];
    for i := 0 to |encoded|
      invariant LayerFeatures(name, encoded[..i], keys, values) == Ok(features)
    {
      assert encoded[..i + 1][..i] == encoded[..i];
      var feature := ParseFeature(encoded[i], keys, values);
      if feature.Err? || (Demanded(name).Some? && feature.value.geometryType != Demanded(name).value) {
        FeaturesRefused(name, encoded, keys, values, i + 1);
        return Err;
      }
      features := features + [feature.value];
    }
    assert encoded[..|encoded|] == encoded;
    r := Ok(features);
  }

  lemma {:induction false} FeaturesRefused(name: text, encoded: seq<seq<byte>>, keys: seq<text>,
                                           values: seq<PropertyValue>, n: nat)
    requires n <= |encoded| && LayerFeatures(name, encoded[..n], keys, values).Err?
    ensures LayerFeatures(name, encoded, keys, values).Err?
  {
    if n < |encoded| {
      assert encoded[..|encoded| - 1][..n] == encoded[..n];
      FeaturesRefused(name, encoded[..|encoded| - 1], keys, values, n);
    } else {
      assert encoded[..n] == encoded;
    }
  }

  method ParseLayer(s: seq<byte>) returns (r: Result<(text, Layer)>)
    ensures r == DecodeLayer(s)
  {
    var cursor := new Cursor(s);
    var parts := LayerParts(None, [], [], [], None);
    var empty := cursor.IsEmpty();
    while !empty
      invariant fresh(cursor) && cursor.Reading() && (empty <==> cursor.Rest() == [])
      invariant LayerCollected(cursor.done, parts)
      decreases |s| - cursor.position
    {
      ghost var done := cursor.done;
      var record :- cursor.ReadRecord();
      var collected := CollectLayerField(done, record, parts);
      if collected.Err? {
        LayerDoomedForGood(cursor);
        return Err;
      }
      parts := collected.value;
      empty := cursor.IsEmpty();
    }
    AllRead(cursor);
    if parts.name.None? || parts.version.None? || parts.version.value !in {1, 2} {
      return Err;
    }
    var features :- ParseFeatures(parts.name.value, parts.encoded, parts.keys, parts.values);
    r := Ok((parts.name.value, Layer(features)));
  }

  lemma {:induction false} NamesRefused(a: seq<(text, Layer)>, b: seq<(text, Layer)>)
    requires ByName(a).Err?
    ensures ByName(a + b).Err?
  {
    if b == [] {
      assert a + b == a;
    } else {
      assert (a + b)[..|a + b| - 1] == a + b[..|b| - 1];
      NamesRefused(a, b[..|b| - 1]);
    }
  }

  ghost predicate TileDoomed(rs: seq<Record>) {
    Gather(rs, Layers).Err? || ByName(Gather(rs, Layers).value).Err?
  }

  lemma {:induction false} TileDoomedForGood(cursor: Cursor)
    requires cursor.Reading() && TileDoomed(cursor.done)
    ensures DecodeTile(cursor.bytes).Err?
  {
    if Records(cursor.bytes).Ok? {
      var rest := Records(cursor.Rest()).value;
      GatherConcat(cursor.done, rest, Layers);
      if Gather(cursor.done, Layers).Ok? && Gather(rest, Layers).Ok? {
        NamesRefused(Gather(cursor.done, Layers).value, Gather(rest, Layers).value);
      }
    }
  }

  ghost predicate TileCollected(rs: seq<Record>, layers: Tile) {
    Gather(rs, Layers).Ok? && ByName(Gather(rs, Layers).value) == Ok(layers)
  }

  method CollectLayer(ghost done: seq<Record>, record: Record, layers: Tile) returns (r: Result<Tile>)
    requires TileCollected(done, layers)
    ensures r.Ok? ==> TileCollected(done + [record], r.value)
    ensures r.Err? ==> TileDoomed(done + [record])
  {
    GatherNext(done, record, Layers);
    ghost var named := Gather(done, Layers).value;
    if record.field != 3 {
      assert named + [] == named;
      return Ok(layers);
    }
    if !record.Bytes? {
      return Err;
    }
    var parsed :- ParseLayer(record.payload);
    var (name, layer) := parsed;
    assert (named + [(name, layer)])[..|named|] == named;
    if name in layers {
      return Err;
    }
    r := Ok(layers[name := layer]);
  }

  method ParseTile(s: seq<byte>) returns (r: Result<Tile>)
    ensures r == DecodeTile(s)
  {
    var cursor := new Cursor(s);
    var layers: Tile := map[];
    var empty := cursor.IsEmpty();
    while !empty
      invariant fresh(cursor) && cursor.Reading() && (empty <==> cursor.Rest() == [])
      invariant TileCollected(cursor.done, layers)
      decreases |s| - cursor.position
    {
      ghost var done := cursor.done;
      var record :- cursor.ReadRecord();
      var collected := CollectLayer(done, record, layers);
      if collected.Err? {
        TileDoomedForGood(cursor);
        return Err;
      }
      layers := collected.value;
      empty := cursor.IsEmpty();
    }
    AllRead(cursor);
    r := Ok(layers);
  }
}
