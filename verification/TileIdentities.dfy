/** The identities of a tile's features, read off a decoded tile. */
module TileIdentities {

  // The dump and the assertions both read them. `chars` gives the characters of a UTF-8 text.

  import opened Sequences
  import opened Wrappers
  import opened Sorting
  import opened TileDecoder
  import opened TileDump

  type Chars = text -> string

  predicate HasText(f: Feature, key: text) {
    key in f.properties && f.properties[key].Text?
  }

  predicate Identified(f: Feature, keys: seq<text>) {
    forall key | key in keys :: HasText(f, key)
  }

  /** Every feature has every identity property, as text. */
  predicate AllIdentified(tile: Tile, keys: seq<text>) {
    forall n | n in tile :: LayerIdentified(tile, n, keys)
  }

  predicate LayerIdentified(tile: Tile, n: text, keys: seq<text>) {
    n in tile && forall f | f in tile[n].features :: Identified(f, keys)
  }

  ghost predicate TheseIdentified(tile: Tile, names: seq<text>, keys: seq<text>) {
    forall n :: n in names ==> LayerIdentified(tile, n, keys)
  }

  function TextOf(f: Feature, key: text): text
    requires HasText(f, key)
  {
    f.properties[key].text
  }

  function IdentityOf(layer: text, f: Feature, keys: seq<text>, chars: Chars): Identity
    requires Identified(f, keys)
  {
    Identity(chars(layer), seq(|keys|, i requires 0 <= i < |keys| => (chars(keys[i]), chars(TextOf(f, keys[i])))))
  }

  /** The characters of the keys. */
  function KeyTexts(keys: seq<text>, chars: Chars): seq<string> {
    seq(|keys|, i requires 0 <= i < |keys| => chars(keys[i]))
  }

  lemma {:induction false} IdentityKeys(layer: text, f: Feature, keys: seq<text>, chars: Chars)
    requires Identified(f, keys)
    ensures Keys(IdentityOf(layer, f, keys, chars).properties) == KeyTexts(keys, chars)
  {
  }

  /** One identity for each feature of a layer, in order. */
  function LayerIdentities(layer: text, features: seq<Feature>, keys: seq<text>, chars: Chars): (r: seq<Identity>)
    requires forall f :: f in features ==> Identified(f, keys)
    ensures |r| == |features| && forall i :: 0 <= i < |features| ==> r[i] == IdentityOf(layer, features[i], keys, chars)
  {
    seq(|features|, i requires 0 <= i < |features| => IdentityOf(layer, features[i], keys, chars))
  }

  function OfLayer(tile: Tile, n: text, keys: seq<text>, chars: Chars): seq<Identity>
    requires LayerIdentified(tile, n, keys)
  {
    LayerIdentities(n, tile[n].features, keys, chars)
  }

  /** The identities of the layers in the order of their names. */
  ghost function Gathered(tile: Tile, names: seq<text>, keys: seq<text>, chars: Chars): seq<Identity>
    requires TheseIdentified(tile, names, keys)
    decreases names
  {
    if names == [] then []
    else
      var n := |names| - 1;
      assert names[n] in names && forall k :: k in names[..n] ==> k in names;
      Gathered(tile, names[..n], keys, chars) + OfLayer(tile, names[n], keys, chars)
  }

  /** `names` lists the tile's layers, each once. */
  ghost predicate ListsLayers(names: seq<text>, tile: Tile) {
    && (forall i, j :: 0 <= i < j < |names| ==> names[i] != names[j])
    && (forall n :: n in names <==> n in tile)
  }

  lemma {:induction false} GatheredConcat(tile: Tile, a: seq<text>, b: seq<text>, keys: seq<text>, chars: Chars)
    requires TheseIdentified(tile, a, keys) && TheseIdentified(tile, b, keys)
    ensures TheseIdentified(tile, a + b, keys)
    ensures Gathered(tile, a + b, keys, chars) == Gathered(tile, a, keys, chars) + Gathered(tile, b, keys, chars)
    decreases b
  {
    if b == [] {
      assert a + b == a;
    } else {
      var n := |b| - 1;
      assert b[n] in b && forall k :: k in b[..n] ==> k in b;
      GatheredConcat(tile, a, b[..n], keys, chars);
      Assoc(Gathered(tile, a, keys, chars), Gathered(tile, b[..n], keys, chars), OfLayer(tile, b[n], keys, chars));
      assert (a + b)[..|a + b| - 1] == a + b[..n] && (a + b)[|a + b| - 1] == b[n];
    }
  }

  /** The identities found do not depend on the order in which the layers are listed. */
  lemma {:induction false} ListingIrrelevant(tile: Tile, a: seq<text>, b: seq<text>, keys: seq<text>, chars: Chars)
    requires TheseIdentified(tile, a, keys) && TheseIdentified(tile, b, keys) && multiset(a) == multiset(b)
    ensures multiset(Gathered(tile, a, keys, chars)) == multiset(Gathered(tile, b, keys, chars))
    decreases a
  {
    if a == [] {
      SameElements(a, b);
    } else {
      var k := SameLast(a, b);
      var n, rest := |a| - 1, b[..k] + b[k + 1..];
      NothingAfter(a);
      TakenOut(tile, a, n, keys, chars);
      TakenOut(tile, b, k, keys, chars);
      ListingIrrelevant(tile, a[..n], rest, keys, chars);
    }
  }

  lemma {:induction false} TakenOut(tile: Tile, names: seq<text>, k: nat, keys: seq<text>, chars: Chars)
    requires TheseIdentified(tile, names, keys) && k < |names|
    ensures TheseIdentified(tile, names[..k] + names[k + 1..], keys) && LayerIdentified(tile, names[k], keys)
    ensures multiset(Gathered(tile, names, keys, chars))
            == multiset(Gathered(tile, names[..k] + names[k + 1..], keys, chars))
               + multiset(OfLayer(tile, names[k], keys, chars))
  {
    var a, x, b := names[..k], [names[k]], names[k + 1..];
    assert names[k] in names;
    assert (forall n :: n in a ==> n in names) && (forall n :: n in b ==> n in names);
    GatheredConcat(tile, a, b, keys, chars);
    GatheredConcat(tile, a, x, keys, chars);
    GatheredConcat(tile, a + x, b, keys, chars);
    assert names == a + x + b;
    GatheredOne(tile, names[k], keys, chars);
    MiddleOut(Gathered(tile, a, keys, chars), OfLayer(tile, names[k], keys, chars), Gathered(tile, b, keys, chars));
  }

  lemma {:induction false} GatheredOne(tile: Tile, n: text, keys: seq<text>, chars: Chars)
    requires LayerIdentified(tile, n, keys)
    ensures TheseIdentified(tile, [n], keys) && Gathered(tile, [n], keys, chars) == OfLayer(tile, n, keys, chars)
  {
    assert [n][..0] == [];
  }

  lemma {:induction false} MiddleOut(a: seq<Identity>, x: seq<Identity>, b: seq<Identity>)
    ensures multiset(a + x + b) == multiset(a + b) + multiset(x)
  {
  }

  lemma {:induction false} ListingsAgree(tile: Tile, a: seq<text>, b: seq<text>)
    requires ListsLayers(a, tile) && ListsLayers(b, tile)
    ensures multiset(a) == multiset(b)
  {
    forall n ensures multiset(a)[n] == multiset(b)[n] {
      ListedOnce(a, n);
      ListedOnce(b, n);
      assert n in a <==> n in b;
    }
  }

  lemma {:induction false} ListedOnce(a: seq<text>, n: text)
    requires forall i, j :: 0 <= i < j < |a| ==> a[i] != a[j]
    ensures multiset(a)[n] == if n in a then 1 else 0
    decreases a
  {
    if a != [] {
      ListedOnce(a[1..], n);
      assert a == [a[0]] + a[1..];
      assert a[0] !in a[1..];
    }
  }

  // ---- what an identity shows ----

  /** The layer's characters, and each key's with those of the feature's text under it. */
  ghost predicate Identifies(id: Identity, layer: text, f: Feature, keys: seq<text>, chars: Chars) {
    && id.layer == chars(layer) && |id.properties| == |keys|
    && forall i :: 0 <= i < |keys| ==>
         && keys[i] in f.properties && f.properties[keys[i]].Text?
         && id.properties[i] == (chars(keys[i]), chars(f.properties[keys[i]].text))
  }

  /** Where a feature stands: its layer and its place there. */
  type Seat = (text, nat)

  ghost predicate Seated(tile: Tile, at: Seat) {
    at.0 in tile && at.1 < |tile[at.0].features|
  }

  ghost predicate OneByOne(ids: seq<Identity>, seats: seq<Seat>, tile: Tile, keys: seq<text>, chars: Chars) {
    |ids| == |seats| && forall k :: 0 <= k < |seats| ==>
      Seated(tile, seats[k]) && Identifies(ids[k], seats[k].0, tile[seats[k].0].features[seats[k].1], keys, chars)
  }

  ghost predicate AllApart(seats: seq<Seat>) {
    forall j, k :: 0 <= j < k < |seats| ==> seats[j] != seats[k]
  }

  /** `seats` are those of the features of these layers, each once, and `ids` identifies them one by one. */
  ghost predicate IdentifyEach(ids: seq<Identity>, seats: seq<Seat>, tile: Tile, names: seq<text>, keys: seq<text>,
                               chars: Chars) {
    && OneByOne(ids, seats, tile, keys, chars) && AllApart(seats)
    && forall at: Seat :: at in seats <==> Seated(tile, at) && at.0 in names
  }

  lemma {:induction false} IdentityShows(layer: text, f: Feature, keys: seq<text>, chars: Chars)
    requires Identified(f, keys)
    ensures Identifies(IdentityOf(layer, f, keys, chars), layer, f, keys, chars)
  {
    forall i | 0 <= i < |keys| ensures HasText(f, keys[i]) {
      assert keys[i] in keys;
    }
  }

  function Seats(name: text, n: nat): (r: seq<Seat>)
    ensures |r| == n && forall i :: 0 <= i < n ==> r[i] == (name, i)
  {
    seq(n, i => (name, i))
  }

  lemma {:induction false} LayerShows(tile: Tile, n: text, keys: seq<text>, chars: Chars)
    requires LayerIdentified(tile, n, keys)
    ensures IdentifyEach(OfLayer(tile, n, keys, chars), Seats(n, |tile[n].features|), tile, [n], keys, chars)
  {
    var ids, seats := OfLayer(tile, n, keys, chars), Seats(n, |tile[n].features|);
    forall k | 0 <= k < |seats| ensures Identifies(ids[k], n, tile[n].features[k], keys, chars) {
      assert tile[n].features[k] in tile[n].features;
      IdentityShows(n, tile[n].features[k], keys, chars);
    }
    forall at: Seat ensures at in seats <==> Seated(tile, at) && at.0 in [n] {
      if Seated(tile, at) && at.0 == n {
        assert seats[at.1] == at;
      }
    }
  }

  lemma {:induction false} BothShow(a: seq<Identity>, p: seq<Seat>, b: seq<Identity>, q: seq<Seat>, tile: Tile,
                                    names: seq<text>, n: text, keys: seq<text>, chars: Chars)
    requires IdentifyEach(a, p, tile, names, keys, chars) && IdentifyEach(b, q, tile, [n], keys, chars) && n !in names
    ensures IdentifyEach(a + b, p + q, tile, names + [n], keys, chars)
  {
    JoinedOneByOne(a, p, b, q, tile, keys, chars);
    forall at: Seat | at in p ensures at !in q {
      assert at.0 in names;
    }
    JoinedApart(p, q);
    forall at: Seat ensures at in p + q <==> Seated(tile, at) && at.0 in names + [n] {
      assert at in p + q <==> at in p || at in q;
    }
  }

  lemma {:induction false} JoinedOneByOne(a: seq<Identity>, p: seq<Seat>, b: seq<Identity>, q: seq<Seat>, tile: Tile,
                                          keys: seq<text>, chars: Chars)
    requires OneByOne(a, p, tile, keys, chars) && OneByOne(b, q, tile, keys, chars)
    ensures OneByOne(a + b, p + q, tile, keys, chars)
  {
  }

  lemma {:induction false} JoinedApart(p: seq<Seat>, q: seq<Seat>)
    requires AllApart(p) && AllApart(q) && forall at: Seat :: at in p ==> at !in q
    ensures AllApart(p + q)
  {
    forall j, k | 0 <= j < k < |p + q| ensures (p + q)[j] != (p + q)[k] {
      if j < |p| <= k {
        assert p[j] in p && q[k - |p|] in q;
      }
    }
  }

  lemma {:induction false} GatheredShows(tile: Tile, names: seq<text>, keys: seq<text>, chars: Chars)
    returns (seats: seq<Seat>)
    requires TheseIdentified(tile, names, keys) && forall i, j :: 0 <= i < j < |names| ==> names[i] != names[j]
    ensures IdentifyEach(Gathered(tile, names, keys, chars), seats, tile, names, keys, chars)
    decreases |names|
  {
    if names == [] {
      seats := [];
    } else {
      var k := |names| - 1;
      var n := names[k];
      LastJoined(names);
      assert n in names && forall m :: m in names[..k] ==> m in names;
      var before := GatheredShows(tile, names[..k], keys, chars);
      LayerShows(tile, n, keys, chars);
      seats := before + Seats(n, |tile[n].features|);
      BothShow(Gathered(tile, names[..k], keys, chars), before, OfLayer(tile, n, keys, chars),
        Seats(n, |tile[n].features|), tile, names[..k], n, keys, chars);
    }
  }

  /** These are, in some order, the identities of the tile's features, one for each. */
  ghost predicate IdentifiesTile(ids: seq<Identity>, tile: Tile, keys: seq<text>, chars: Chars) {
    exists found, seats, names :: multiset(found) == multiset(ids) && (forall n :: n in names <==> n in tile) &&
      IdentifyEach(found, seats, tile, names, keys, chars)
  }

  /** Every feature has a text under every key. */
  ghost predicate EveryFeatureHas(tile: Tile, keys: seq<text>) {
    forall n, i, key :: n in tile && 0 <= i < |tile[n].features| && key in keys ==>
      key in tile[n].features[i].properties && tile[n].features[i].properties[key].Text?
  }

  lemma {:induction false} HasExactly(tile: Tile, keys: seq<text>)
    ensures AllIdentified(tile, keys) <==> EveryFeatureHas(tile, keys)
  {
    if AllIdentified(tile, keys) {
      forall n, i, key | n in tile && 0 <= i < |tile[n].features| && key in keys
        ensures HasText(tile[n].features[i], key)
      {
        assert LayerIdentified(tile, n, keys) && tile[n].features[i] in tile[n].features;
      }
    }
    if EveryFeatureHas(tile, keys) {
      forall n, f | n in tile && f in tile[n].features ensures Identified(f, keys) {
        var i :| 0 <= i < |tile[n].features| && tile[n].features[i] == f;
        assert forall key :: key in keys ==> HasText(tile[n].features[i], key);
      }
    }
  }

  lemma {:induction false} TileShown(ids: seq<Identity>, tile: Tile, names: seq<text>, keys: seq<text>, chars: Chars)
    requires ListsLayers(names, tile) && TheseIdentified(tile, names, keys)
    requires multiset(ids) == multiset(Gathered(tile, names, keys, chars))
    ensures IdentifiesTile(ids, tile, keys, chars)
  {
    var seats := GatheredShows(tile, names, keys, chars);
  }

  /** The sorted identities of a tile: of every feature of every layer one, whatever the layers' order. */
  method ReadIdentities(tile: Tile, keys: seq<text>, chars: Chars) returns (r: Result<seq<Identity>>)
    ensures r.Ok? <==> EveryFeatureHas(tile, keys)
    ensures r.Ok? ==> Sorted(IdentityLe, r.value) && IdentifiesTile(r.value, tile, keys, chars)
    ensures r.Ok? ==> OneKeyList(r.value, KeyTexts(keys, chars))
    ensures r.Ok? ==> forall names :: ListsLayers(names, tile) ==>
              multiset(r.value) == multiset(Gathered(tile, names, keys, chars))
  {
    HasExactly(tile, keys);
    var found: seq<Identity> := [];
    var rest := tile.Keys;
    ghost var names: seq<text> := [];
    while rest != {}
      invariant rest <= tile.Keys
      invariant forall n :: n in names <==> n in tile && n !in rest
      invariant forall i, j :: 0 <= i < j < |names| ==> names[i] != names[j]
      invariant TheseIdentified(tile, names, keys) && found == Gathered(tile, names, keys, chars)
      invariant OneKeyList(found, KeyTexts(keys, chars))
      decreases rest
    {
      var n :| n in rest;
      var layer := ReadLayer(n, tile[n].features, keys, chars);
      if layer.Err? {
        return Err;
      }
      found := found + layer.value;
      assert (names + [n])[..|names|] == names;
      names := names + [n];
      rest := rest - {n};
    }
    assert forall n :: n in tile ==> n in names;
    r := Ok(Sort(IdentityLe, found));
    IdentityLeIsTotalOrder();
    SortSorted(IdentityLe, found);
    SameElements(Sort(IdentityLe, found), found);
    TileShown(r.value, tile, names, keys, chars);
    forall other | ListsLayers(other, tile)
      ensures multiset(r.value) == multiset(Gathered(tile, other, keys, chars))
    {
      ListingsAgree(tile, names, other);
      ListingIrrelevant(tile, names, other, keys, chars);
    }
  }

  method ReadLayer(layer: text, features: seq<Feature>, keys: seq<text>, chars: Chars)
    returns (r: Result<seq<Identity>>)
    ensures r.Ok? <==> forall f :: f in features ==> Identified(f, keys)
    ensures r.Ok? ==> r.value == LayerIdentities(layer, features, keys, chars)
    ensures r.Ok? ==> OneKeyList(r.value, KeyTexts(keys, chars))
  {
    var found: seq<Identity> := [];
    for i := 0 to |features|
      invariant forall k :: 0 <= k < i ==> Identified(features[k], keys)
      invariant |found| == i && forall k :: 0 <= k < i ==> found[k] == IdentityOf(layer, features[k], keys, chars)
      invariant OneKeyList(found, KeyTexts(keys, chars))
    {
      if !Identified(features[i], keys) {
        return Err;
      }
      IdentityKeys(layer, features[i], keys, chars);
      found := found + [IdentityOf(layer, features[i], keys, chars)];
    }
    r := Ok(found);
  }
}
