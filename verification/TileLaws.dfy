/** What a tile must hold, with its numbers written out: texts, geometry streams, tags and layer names. */
module TileLaws {
  import opened Sequences
  import opened Wrappers
  import opened TileWire
  import opened TileGeometry
  import opened TileDecoder
  import opened TileSource
  import opened TileReordering
  import opened TileRoundTrip
  import opened TileAcceptance

  // ---- texts ----

  /** A Unicode scalar value. */
  ghost predicate IsScalar(c: nat) {
    c < 0x11_0000 && !(0xd800 <= c < 0xe000)
  }

  ghost function Character(c: nat): seq<byte>
    requires c < 0x11_0000
  {
    if c < 0x80 then [c]
    else if c < 0x800 then [0xc0 + c / 64, 0x80 + c % 64]
    else if c < 0x1_0000 then [0xe0 + c / 4096, 0x80 + c / 64 % 64, 0x80 + c % 64]
    else [0xf0 + c / 262144, 0x80 + c / 4096 % 64, 0x80 + c / 64 % 64, 0x80 + c % 64]
  }

  /** The bytes are characters one after another, each in its only spelling. */
  ghost predicate TextSpelt(s: text, cs: seq<nat>)
    decreases |cs|
  {
    if cs == [] then s == []
    else IsScalar(cs[0]) && Character(cs[0]) <= s && TextSpelt(s[|Character(cs[0])|..], cs[1..])
  }

  ghost predicate IsText8(s: text) {
    exists cs :: TextSpelt(s, cs)
  }

  lemma {:induction false} CharacterReads(c: nat, s: text)
    requires IsScalar(c) && Character(c) <= s
    ensures CharacterBytes(s) == |Character(c)|
  {
    var e := Character(c);
    assert forall i :: 0 <= i < |e| ==> s[i] == e[i];
  }

  /** The six bits of a byte that continues a character. */
  ghost function Six(b: byte): int {
    var n: int := b;
    n - 0x80
  }

  ghost function Lead(b: byte, base: int): int {
    var n: int := b;
    n - base
  }

  /** The scalar value at the head of a text. */
  ghost function Decoded8(s: text): nat
    requires CharacterBytes(s) > 0
  {
    match CharacterBytes(s)
    case 1 => s[0]
    case 2 => Lead(s[0], 0xc0) * 64 + Six(s[1])
    case 3 => Lead(s[0], 0xe0) * 4096 + Six(s[1]) * 64 + Six(s[2])
    case _ => Lead(s[0], 0xf0) * 262144 + Six(s[1]) * 4096 + Six(s[2]) * 64 + Six(s[3])
  }

  lemma {:induction false} CharacterFound(s: text)
    requires CharacterBytes(s) > 0
    ensures IsScalar(Decoded8(s)) && Character(Decoded8(s)) == s[..CharacterBytes(s)]
  {
    var c, n := Decoded8(s), CharacterBytes(s);
    if n == 2 {
      assert c / 64 == Lead(s[0], 0xc0) && c % 64 == Six(s[1]);
    } else if n == 3 {
      var low := Lead(s[0], 0xe0) * 64 + Six(s[1]);
      assert c / 64 == low && c % 64 == Six(s[2]);
      assert c / 4096 == Lead(s[0], 0xe0) && low % 64 == Six(s[1]);
    } else if n == 4 {
      FourApart(Lead(s[0], 0xf0), Six(s[1]), Six(s[2]), Six(s[3]));
    }
  }

  lemma {:induction false} FourApart(a: nat, b: nat, c: nat, d: nat)
    requires b < 64 && c < 64 && d < 64
    ensures var n := a * 262144 + b * 4096 + c * 64 + d;
            n / 262144 == a && n / 4096 % 64 == b && n / 64 % 64 == c && n % 64 == d
  {
    var n := a * 262144 + b * 4096 + c * 64 + d;
    assert n / 64 == a * 4096 + b * 64 + c && n / 4096 == a * 64 + b;
  }

  /** The decoder's test of a text accepts exactly the characters' spellings. */
  lemma {:induction false} Utf8Exactly(s: text)
    ensures Utf8(s) <==> IsText8(s)
  {
    if Utf8(s) {
      var cs := TextFound(s);
    }
    if cs :| TextSpelt(s, cs) {
      TextReads(s, cs);
    }
  }

  lemma {:induction false} TextFound(s: text) returns (cs: seq<nat>)
    requires Utf8(s)
    ensures TextSpelt(s, cs)
    decreases |s|
  {
    if s == [] {
      cs := [];
    } else {
      var n := CharacterBytes(s);
      CharacterFound(s);
      var rest := TextFound(s[n..]);
      cs := [Decoded8(s)] + rest;
      assert cs[1..] == rest;
    }
  }

  lemma {:induction false} TextReads(s: text, cs: seq<nat>)
    requires TextSpelt(s, cs)
    ensures Utf8(s)
    decreases |cs|
  {
    if cs != [] {
      CharacterReads(cs[0], s);
      TextReads(s[|Character(cs[0])|..], cs[1..]);
    }
  }

  // ---- geometry streams ----

  /** `n` pairs of numbers, none of them (0, 0). */
  ghost predicate Moves(g: seq<u32>, n: nat) {
    |g| == 2 * n && forall i :: 0 <= i < n ==> g[2 * i] != 0 || g[2 * i + 1] != 0
  }

  /** One path: move to a start, `n` lines that move, and for a ring its closing. */
  ghost predicate PathSpelt(g: seq<u32>, n: nat, ring: bool) {
    && (if ring then 2 else 1) <= n <= 0x1fff_ffff
    && |g| == 4 + 2 * n + (if ring then 1 else 0)
    && g[0] == 9 && g[3] == 8 * n + 2 && Moves(g[4..4 + 2 * n], n) && (ring ==> g[4 + 2 * n] == 15)
  }

  ghost predicate PathsSpelt(g: seq<u32>, ring: bool)
    decreases |g|
  {
    g == [] || exists k, n: nat :: 0 < k <= |g| && PathSpelt(g[..k], n, ring) && PathsSpelt(g[k..], ring)
  }

  /** The streams of each type number: one move to one or more points, lines, or rings. */
  ghost predicate StreamSpelt(code: nat, g: seq<u32>) {
    && g != []
    && match code
       case 1 => exists n: nat :: 1 <= n <= 0x1fff_ffff && |g| == 1 + 2 * n && g[0] == 8 * n + 1
       case 2 => PathsSpelt(g, false)
       case 3 => PathsSpelt(g, true)
       case _ => false
  }

  ghost predicate TypeNumber(code: nat, t: GeometryType) {
    (code == 1 && t == Point) || (code == 2 && t == LineString) || (code == 3 && t == Polygon)
  }

  lemma {:induction false} MovesExactly(g: seq<u32>, n: nat)
    requires |g| == 2 * n
    ensures Moves(g, n) <==> STILL !in DeltasOf(g)
    decreases n
  {
    if n > 0 {
      var rest := g[2..];
      MovesExactly(rest, n - 1);
      assert DeltasOf(g) == [Delta(g[0], g[1])] + DeltasOf(rest);
      assert forall i :: 1 <= i < n ==> g[2 * i] == rest[2 * (i - 1)] && g[2 * i + 1] == rest[2 * (i - 1) + 1];
      if Moves(g, n) {
        forall i | 0 <= i < n - 1 ensures rest[2 * i] != 0 || rest[2 * i + 1] != 0 {
          assert g[2 * (i + 1)] != 0 || g[2 * (i + 1) + 1] != 0;
        }
        assert g[2 * 0] != 0 || g[2 * 0 + 1] != 0;
      }
      if Moves(rest, n - 1) && Delta(g[0], g[1]) != STILL {
        forall i | 0 <= i < n ensures g[2 * i] != 0 || g[2 * i + 1] != 0 {
          if i > 0 {
            assert rest[2 * (i - 1)] != 0 || rest[2 * (i - 1) + 1] != 0;
          }
        }
      }
    }
  }

  ghost function PartOfType(ring: bool, start: Delta, deltas: seq<Delta>): Part {
    if ring then Ring(start, deltas) else Line(start, deltas)
  }

  /** A path's numbers are the printing of a line or ring. */
  lemma {:induction false} PathPrinted8(g: seq<u32>, n: nat, ring: bool) returns (p: Part)
    requires PathSpelt(g, n, ring)
    ensures PartOf(if ring then Polygon else LineString, p) && PrintPart(p) == g
  {
    var middle := g[4..4 + 2 * n];
    var deltas := DeltasOf(middle);
    MovesExactly(middle, n);
    DeltasPrint(middle);
    p := PartOfType(ring, Delta(g[1], g[2]), deltas);
    assert |deltas| == n;
    var head := [Command(MOVE_TO, 1), g[1], g[2], Command(LINE_TO, n)];
    assert head[0] == 9 && head[3] == 8 * n + 2;
    if ring {
      assert g == head + middle + [15];
    } else {
      assert g == head + middle;
    }
  }

  lemma {:induction false} PrintedPath8(p: Part, ring: bool)
    requires PartOf(if ring then Polygon else LineString, p)
    ensures PathSpelt(PrintPart(p), |p.deltas|, ring)
  {
    var g, n := PrintPart(p), |p.deltas|;
    var middle := PrintDeltas(p.deltas);
    assert g[4..4 + 2 * n] == middle;
    DeltasPrinted(p.deltas);
    MovesExactly(middle, n);
    assert ring ==> g[4 + 2 * n] == Command(CLOSE_PATH, 1) == 15;
  }

  ghost predicate AllParts(parts: seq<Part>, ring: bool) {
    PartsOf(if ring then Polygon else LineString, parts)
  }

  lemma {:induction false} PathsPrinted(g: seq<u32>, ring: bool) returns (parts: seq<Part>)
    requires PathsSpelt(g, ring)
    ensures AllParts(parts, ring) && Print(parts) == g
    decreases |g|
  {
    if g == [] {
      parts := [];
    } else {
      var k, n: nat :| 0 < k <= |g| && PathSpelt(g[..k], n, ring) && PathsSpelt(g[k..], ring);
      var p := PathPrinted8(g[..k], n, ring);
      var rest := PathsPrinted(g[k..], ring);
      parts := [p] + rest;
      assert parts[0] == p && parts[1..] == rest;
      CutJoined(g, k);
    }
  }

  lemma {:induction false} PrintedPaths(parts: seq<Part>, ring: bool)
    requires AllParts(parts, ring)
    ensures PathsSpelt(Print(parts), ring)
    decreases |parts|
  {
    if parts != [] {
      assert parts[0] in parts && forall p :: p in parts[1..] ==> p in parts;
      var g, rest := PrintPart(parts[0]), Print(parts[1..]);
      PrintedPath8(parts[0], ring);
      PrintedPaths(parts[1..], ring);
      CutApart(g, rest);
      assert 0 < |g| <= |g + rest| && PathSpelt((g + rest)[..|g|], |parts[0].deltas|, ring);
    }
  }

  lemma {:induction false} PointPrinted(g: seq<u32>, n: nat) returns (parts: seq<Part>)
    requires 1 <= n <= 0x1fff_ffff && |g| == 1 + 2 * n && g[0] == 8 * n + 1
    ensures GeometryOf(Point, parts) && Print(parts) == g
  {
    var deltas := DeltasOf(g[1..]);
    DeltasPrint(g[1..]);
    parts := [Points(deltas)];
    assert parts[1..] == [] && Print([]) == [];
    assert PrintPart(parts[0]) == [g[0]] + g[1..] == g;
  }

  lemma {:induction false} PrintedPoint(parts: seq<Part>)
    requires GeometryOf(Point, parts)
    ensures StreamSpelt(1, Print(parts))
  {
    assert parts[0] in parts && parts[1..] == [] && Print([]) == [];
    var g, n := Print(parts), |parts[0].deltas|;
    assert g == PrintPart(parts[0]);
    assert 1 <= n <= 0x1fff_ffff && |g| == 1 + 2 * n && g[0] == 8 * n + 1;
  }

  /** The streams a decoded type admits are those of its number, written out. */
  lemma {:induction false} StreamExactly(code: nat, t: GeometryType, g: seq<u32>)
    requires TypeNumber(code, t)
    ensures g != [] && (exists parts :: GeometryOf(t, parts) && Print(parts) == g) <==> StreamSpelt(code, g)
  {
    if parts :| g != [] && GeometryOf(t, parts) && Print(parts) == g {
      if t.Point? {
        PrintedPoint(parts);
      } else {
        PrintedPaths(parts, t.Polygon?);
      }
    }
    if StreamSpelt(code, g) {
      if code == 1 {
        var n: nat :| 1 <= n <= 0x1fff_ffff && |g| == 1 + 2 * n && g[0] == 8 * n + 1;
        var parts := PointPrinted(g, n);
      } else {
        var parts := PathsPrinted(g, code == 3);
        assert GeometryOf(t, parts);
      }
    }
  }

  lemma {:induction false} TypeExactly(code: nat, t: GeometryType)
    ensures GeometryTypeOf(code) == Ok(t) <==> TypeNumber(code, t)
  {
  }

  // ---- tags and names ----

  /** The bytes of `pnu` and of `official_complex_code`: keys whose values must be texts. */
  ghost predicate IdentityKey(key: text) {
    || key == [112, 110, 117]
    || key == [111, 102, 102, 105, 99, 105, 97, 108, 95, 99, 111, 109, 112, 108, 101, 120, 95, 99, 111, 100, 101]
  }

  /** The `j`-th pair of tags names a key and a value there are, and a text where one is due. */
  ghost predicate PairTaken(tags: seq<u32>, j: nat, keys: seq<text>, values: seq<PropertyValue>) {
    && 2 * j + 1 < |tags| && tags[2 * j] < |keys| && tags[2 * j + 1] < |values|
    && (IdentityKey(keys[tags[2 * j]]) ==> values[tags[2 * j + 1]].Text?)
  }

  ghost predicate TagsTaken(tags: seq<u32>, keys: seq<text>, values: seq<PropertyValue>) {
    && |tags| % 2 == 0
    && (forall j :: 0 <= j < |tags| / 2 ==> PairTaken(tags, j, keys, values))
    && (forall i: nat, j: nat :: i < j && PairTaken(tags, i, keys, values) && PairTaken(tags, j, keys, values) ==>
          keys[tags[2 * i]] != keys[tags[2 * j]])
  }

  /** The properties are those the tags pair up and no others. */
  ghost predicate Paired(m: map<text, PropertyValue>, tags: seq<u32>, keys: seq<text>, values: seq<PropertyValue>)
    requires TagsTaken(tags, keys, values)
  {
    && (forall k :: k in m ==> exists j: nat :: PairTaken(tags, j, keys, values) && keys[tags[2 * j]] == k)
    && (forall j: nat :: PairTaken(tags, j, keys, values) ==>
          keys[tags[2 * j]] in m && m[keys[tags[2 * j]]] == values[tags[2 * j + 1]])
  }

  /** The bytes of `parcel_anchor_aggregate`. */
  const AGGREGATE: text :=
    [112, 97, 114, 99, 101, 108, 95, 97, 110, 99, 104, 111, 114, 95, 97, 103, 103, 114, 101, 103, 97, 116, 101]

  /** The bytes of `parcels`, `parcel_anchor` and `parcel_anchor_aggregate`: layers of one type. */
  ghost predicate NameAdmits(name: text, code: nat) {
    && (name == [112, 97, 114, 99, 101, 108, 115] ==> code == 3)
    && (name == [112, 97, 114, 99, 101, 108, 95, 97, 110, 99, 104, 111, 114] ==> code == 1)
    && (name == AGGREGATE ==> code == 1)
  }

  lemma {:induction false} KeysExactly(key: text)
    ensures MustBeText(key) <==> IdentityKey(key)
  {
    assert Ascii("pnu") == [112, 110, 117];
    assert Ascii("official_complex_code")
        == [111, 102, 102, 105, 99, 105, 97, 108, 95, 99, 111, 109, 112, 108, 101, 120, 95, 99, 111, 100, 101];
  }

  lemma {:induction false} NameExactly(name: text, code: nat, t: GeometryType)
    requires TypeNumber(code, t)
    ensures (Demanded(name).Some? ==> Demanded(name).value == t) <==> NameAdmits(name, code)
  {
    assert Ascii("parcels") == [112, 97, 114, 99, 101, 108, 115];
    assert Ascii("parcel_anchor") == [112, 97, 114, 99, 101, 108, 95, 97, 110, 99, 104, 111, 114];
    assert Ascii("parcel_anchor_aggregate") == AGGREGATE;
  }

  lemma {:induction false} PairExactly(tags: seq<u32>, j: nat, keys: seq<text>, values: seq<PropertyValue>)
    requires |tags| % 2 == 0 && j < |tags| / 2
    ensures Pairs(tags)[j] == (tags[2 * j], tags[2 * j + 1])
    ensures TagGood(Pairs(tags)[j], keys, values) <==> PairTaken(tags, j, keys, values)
  {
    if tags[2 * j] < |keys| {
      KeysExactly(keys[tags[2 * j]]);
    }
  }

  lemma {:induction false} TagsExactly(tags: seq<u32>, keys: seq<text>, values: seq<PropertyValue>)
    ensures |tags| % 2 == 0 && TagsGood(Pairs(tags), keys, values) <==> TagsTaken(tags, keys, values)
  {
    if |tags| % 2 == 0 {
      var pairs := Pairs(tags);
      forall j | 0 <= j < |pairs|
        ensures pairs[j] == (tags[2 * j], tags[2 * j + 1])
        ensures TagGood(pairs[j], keys, values) <==> PairTaken(tags, j, keys, values)
      {
        PairExactly(tags, j, keys, values);
      }
      if TagsGood(pairs, keys, values) {
        forall i: nat, j: nat | i < j && PairTaken(tags, i, keys, values) && PairTaken(tags, j, keys, values)
          ensures keys[tags[2 * i]] != keys[tags[2 * j]]
        {
          assert keys[pairs[i].0] != keys[pairs[j].0];
        }
        assert forall j :: 0 <= j < |tags| / 2 ==> TagGood(pairs[j], keys, values);
      }
      if TagsTaken(tags, keys, values) {
        forall j | 0 <= j < |pairs| ensures TagGood(pairs[j], keys, values) {
          assert PairTaken(tags, j, keys, values);
        }
        forall i, j | 0 <= i < j < |pairs| ensures keys[pairs[i].0] != keys[pairs[j].0] {
          assert PairTaken(tags, i, keys, values) && PairTaken(tags, j, keys, values);
        }
      }
    }
  }

  lemma {:induction false} PairedExactly(m: map<text, PropertyValue>, tags: seq<u32>, keys: seq<text>,
                                         values: seq<PropertyValue>)
    requires TagsTaken(tags, keys, values) && TagsGood(Pairs(tags), keys, values)
    requires Spells(m, Pairs(tags), keys, values)
    ensures Paired(m, tags, keys, values)
  {
    var pairs := Pairs(tags);
    forall j | 0 <= j < |pairs| ensures pairs[j] == (tags[2 * j], tags[2 * j + 1]) {
      PairExactly(tags, j, keys, values);
    }
    forall k | k in m ensures exists j: nat :: PairTaken(tags, j, keys, values) && keys[tags[2 * j]] == k {
      var j :| 0 <= j < |pairs| && keys[pairs[j].0] == k;
      assert PairTaken(tags, j, keys, values) && keys[tags[2 * j]] == k;
    }
    forall j: nat | PairTaken(tags, j, keys, values)
      ensures keys[tags[2 * j]] in m && m[keys[tags[2 * j]]] == values[tags[2 * j + 1]]
    {
      assert keys[pairs[j].0] in m;
    }
  }

  // ---- the values and features that are accepted ----

  /** A value is decoded exactly from its spellings, a text only if it is one. */
  lemma {:induction false} ValueAcceptedExactly(s: seq<byte>, v: PropertyValue)
    ensures DecodeValue(s) == Ok(v) <==> SpellsValue(s, v) && (v.Text? ==> IsText8(v.text))
  {
    if v.Text? {
      Utf8Exactly(v.text);
    }
    if DecodeValue(s) == Ok(v) {
      ValueFound(s);
      SpeltValue(s, v);
    }
    if SpellsValue(s, v) {
      SpeltValue(s, v);
    }
  }

  ghost predicate FeatureAccepted(s: seq<byte>, keys: seq<text>, values: seq<PropertyValue>, f: FeatureSource) {
    SpellsFeature(s, f) && TagsTaken(f.tags, keys, values) && StreamSpelt(f.geometryType, f.geometry)
  }

  lemma {:induction false} AssembledExactly(f: FeatureSource, keys: seq<text>, values: seq<PropertyValue>)
    ensures var feature := Assemble(f.tags, [f.geometryType], f.geometry, keys, values);
            && (feature.Ok? <==> TagsTaken(f.tags, keys, values) && StreamSpelt(f.geometryType, f.geometry))
            && (feature.Ok? ==>
                  && TypeNumber(f.geometryType, feature.value.geometryType)
                  && Paired(feature.value.properties, f.tags, keys, values))
  {
    TagsExactly(f.tags, keys, values);
    if |f.tags| % 2 == 0 {
      PropertiesExactly(Pairs(f.tags), keys, values);
      if TagsTaken(f.tags, keys, values) {
        PairedExactly(Properties(Pairs(f.tags), keys, values).value, f.tags, keys, values);
      }
    }
    if GeometryTypeOf(f.geometryType).Ok? {
      var t := GeometryTypeOf(f.geometryType).value;
      TypeExactly(f.geometryType, t);
      StreamExactly(f.geometryType, t, f.geometry);
      AcceptsExactlyPrintings(t, f.geometry);
    }
  }

  /** A feature is decoded exactly from the spellings of good tags and of a stream of its type number; it then is a
      point, a line or a polygon as that number is 1, 2 or 3, with the properties its tags pair up. */
  lemma {:induction false} FeatureAcceptedExactly(s: seq<byte>, keys: seq<text>, values: seq<PropertyValue>)
    ensures DecodeFeature(s, keys, values).Ok? <==> exists f :: FeatureAccepted(s, keys, values, f)
    ensures forall f :: FeatureAccepted(s, keys, values, f) ==>
              && DecodeFeature(s, keys, values).Ok?
              && TypeNumber(f.geometryType, DecodeFeature(s, keys, values).value.geometryType)
              && Paired(DecodeFeature(s, keys, values).value.properties, f.tags, keys, values)
  {
    if DecodeFeature(s, keys, values).Ok? {
      var f := FeatureFound(s, keys, values);
      SpeltFeature(s, f, keys, values);
      AssembledExactly(f, keys, values);
      assert FeatureAccepted(s, keys, values, f);
    }
    forall f | FeatureAccepted(s, keys, values, f)
      ensures && DecodeFeature(s, keys, values).Ok?
              && TypeNumber(f.geometryType, DecodeFeature(s, keys, values).value.geometryType)
              && Paired(DecodeFeature(s, keys, values).value.properties, f.tags, keys, values)
    {
      SpeltFeature(s, f, keys, values);
      AssembledExactly(f, keys, values);
    }
  }

  // ---- the tiles that are accepted, and what they show ----

  ghost predicate FeatureTaken(f: FeatureSource, l: LayerSource) {
    && TagsTaken(f.tags, l.keys, l.values)
    && StreamSpelt(f.geometryType, f.geometry)
    && NameAdmits(l.name, f.geometryType)
  }

  ghost predicate FeatureShown(d: Feature, f: FeatureSource, l: LayerSource) {
    && FeatureTaken(f, l)
    && TypeNumber(f.geometryType, d.geometryType)
    && Paired(d.properties, f.tags, l.keys, l.values)
  }

  lemma {:induction false} FeatureLaw(f: FeatureSource, l: LayerSource)
    ensures FeatureGood(f, l) <==> FeatureTaken(f, l)
  {
    TagsExactly(f.tags, l.keys, l.values);
    if GeometryTypeOf(f.geometryType).Ok? {
      var t := GeometryTypeOf(f.geometryType).value;
      TypeExactly(f.geometryType, t);
      StreamExactly(f.geometryType, t, f.geometry);
      NameExactly(l.name, f.geometryType, t);
    }
  }

  lemma {:induction false} FeatureShows(d: Feature, f: FeatureSource, l: LayerSource)
    requires Decoded(d, f, l)
    ensures FeatureShown(d, f, l)
  {
    FeatureLaw(f, l);
    TagsExactly(f.tags, l.keys, l.values);
    TypeExactly(f.geometryType, d.geometryType);
    PairedExactly(d.properties, f.tags, l.keys, l.values);
  }

  /** Every text of the layer is one, and every feature is taken. */
  ghost predicate LayerTaken(l: LayerSource) {
    && IsText8(l.name)
    && (forall k :: k in l.keys ==> IsText8(k))
    && (forall v :: v in l.values && v.Text? ==> IsText8(v.text))
    && forall i :: 0 <= i < |l.features| ==> FeatureTaken(l.features[i], l)
  }

  ghost predicate LayerShown(d: (text, Layer), l: LayerSource) {
    && d.0 == l.name && |d.1.features| == |l.features|
    && forall i :: 0 <= i < |l.features| ==> FeatureShown(d.1.features[i], l.features[i], l)
  }

  lemma {:induction false} LayerLaw(l: LayerSource)
    ensures LayerGood(l) <==> LayerTaken(l)
  {
    forall s: text ensures Utf8(s) <==> IsText8(s) {
      Utf8Exactly(s);
    }
    forall i | 0 <= i < |l.features| ensures FeatureGood(l.features[i], l) <==> FeatureTaken(l.features[i], l) {
      FeatureLaw(l.features[i], l);
    }
  }

  lemma {:induction false} LayerShows(d: (text, Layer), l: LayerSource)
    requires LayerDecoded(d, l)
    ensures LayerShown(d, l)
  {
    forall i | 0 <= i < |l.features| ensures FeatureShown(d.1.features[i], l.features[i], l) {
      FeatureShows(d.1.features[i], l.features[i], l);
    }
  }

  ghost predicate Acceptable(layers: seq<LayerSource>) {
    (forall i :: 0 <= i < |layers| ==> LayerTaken(layers[i])) && NamesDiffer(layers)
  }

  lemma {:induction false} AcceptableExactly(layers: seq<LayerSource>)
    ensures LayersGood(layers) && NamesDiffer(layers) <==> Acceptable(layers)
  {
    forall i | 0 <= i < |layers| ensures LayerGood(layers[i]) <==> LayerTaken(layers[i]) {
      LayerLaw(layers[i]);
    }
  }

  /** The tile has each layer under its name, features in order, and no other layer. */
  ghost predicate Shows(tile: Tile, layers: seq<LayerSource>) {
    && (forall n :: n in tile ==> exists i :: 0 <= i < |layers| && layers[i].name == n)
    && forall i :: 0 <= i < |layers| ==>
         layers[i].name in tile && LayerShown((layers[i].name, tile[layers[i].name]), layers[i])
  }

  lemma {:induction false} HeldShows(tile: Tile, named: seq<(text, Layer)>, layers: seq<LayerSource>)
    requires LayersDecoded(named, layers) && Holds(tile, named)
    ensures Shows(tile, layers)
  {
    forall i | 0 <= i < |layers|
      ensures layers[i].name in tile && LayerShown((layers[i].name, tile[layers[i].name]), layers[i])
    {
      LayerShows(named[i], layers[i]);
    }
    forall n | n in tile ensures exists i :: 0 <= i < |layers| && layers[i].name == n {
      var i :| 0 <= i < |named| && named[i].0 == n;
      assert LayerDecoded(named[i], layers[i]);
    }
  }

  ghost predicate SpellsAcceptable(s: seq<byte>) {
    exists layers :: SpellsTile(s, layers) && Acceptable(layers)
  }

  /** Of all byte strings exactly the spellings of acceptable layers decode. */
  lemma {:induction false} TileAcceptedExactly(s: seq<byte>)
    ensures DecodeTile(s).Ok? <==> SpellsAcceptable(s)
  {
    if DecodeTile(s).Ok? {
      var layers := TileFound(s);
      TileDecodesExactly(s, layers);
      AcceptableExactly(layers);
    }
    if SpellsAcceptable(s) {
      var layers :| SpellsTile(s, layers) && Acceptable(layers);
      TileDecodesExactly(s, layers);
      AcceptableExactly(layers);
    }
  }

  /** A decoded tile shows the layers its bytes spell: types by their numbers, properties by their tags. */
  lemma {:induction false} TileShows(s: seq<byte>, layers: seq<LayerSource>)
    requires SpellsTile(s, layers)
    ensures DecodeTile(s).Ok? <==> Acceptable(layers)
    ensures DecodeTile(s).Ok? ==> Shows(DecodeTile(s).value, layers)
  {
    TileDecodesExactly(s, layers);
    AcceptableExactly(layers);
    if DecodeTile(s).Ok? {
      var named :| LayersDecoded(named, layers) && Holds(DecodeTile(s).value, named);
      HeldShows(DecodeTile(s).value, named, layers);
    }
  }
}
