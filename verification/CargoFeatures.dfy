/** Cargo's feature unification: the crates a build compiles and the features each is built with. */
module CargoFeatures {
  import opened Wrappers

  // ---- a workspace ----

  datatype Dependency = Dependency(key: string, dir: string, optional: bool, features: set<string>, default: bool)

  /** `table` is the manifest's feature table: a feature and the items it switches on. */
  datatype Crate = Crate(dir: string, table: map<string, seq<string>>, deps: seq<Dependency>)

  /** The members by name; `order` is the order they were read in. */
  datatype Workspace = Workspace(crates: map<string, Crate>, order: seq<string>) {
    predicate Valid() {
      forall n | n in order :: n in crates
    }

    /** The first member of that directory. */
    function ByDir(dir: string): (r: Option<string>)
      requires Valid()
      ensures r.Some? ==> r.value in crates && crates[r.value].dir == dir
      ensures r.None? ==> forall n :: n in order ==> crates[n].dir != dir
    {
      FirstOf(order, dir)
    }

    function FirstOf(names: seq<string>, dir: string): (r: Option<string>)
      requires forall n :: n in names ==> n in crates
      ensures r.Some? ==> r.value in crates && crates[r.value].dir == dir
      ensures r.None? ==> forall n :: n in names ==> crates[n].dir != dir
    {
      if names == [] then None
      else if crates[names[0]].dir == dir then Some(names[0])
      else FirstOf(names[1..], dir)
    }
  }

  // ---- feature items ----

  /** An item of the feature table: `dep:key`, `key/sub`, weak `key?/sub`, or another feature. */
  datatype Item = Dep(key: string) | Sub(key: string, sub: string, weak: bool) | Plain(name: string)

  function Position(s: string, c: char): (k: nat)
    ensures k <= |s|
    ensures forall i :: 0 <= i < k ==> s[i] != c
    ensures k < |s| ==> s[k] == c
  {
    if s == "" || s[0] == c then 0 else 1 + Position(s[1..], c)
  }

  /** Without the question marks at its end. */
  function Stripped(s: string): string {
    if s != "" && s[|s| - 1] == '?' then Stripped(s[..|s| - 1]) else s
  }

  function Classify(item: string): Item {
    if "dep:" <= item then
      Dep(item[4..])
    else
      var slash := Position(item, '/');
      if slash < |item| then
        var key := item[..slash];
        Sub(Stripped(key), item[slash + 1..], key != "" && key[|key| - 1] == '?')
      else
        Plain(item)
  }

  function ItemsOf(c: Crate, feature: string): seq<string> {
    if feature in c.table then c.table[feature] else []
  }

  // ---- the rules ----

  /** What items ask for: other features, dependencies switched on, features of dependencies. */
  datatype Asks = Asks(names: set<string>, keys: set<string>, pairs: set<(string, string)>) {
    function With(other: Asks): Asks {
      Asks(names + other.names, keys + other.keys, pairs + other.pairs)
    }
  }

  const NOTHING := Asks({}, {}, {})

  function AskOf(item: Item): Asks {
    match item
    case Dep(key) => Asks({}, {key}, {})
    case Sub(key, sub, weak) => Asks({}, if weak then {} else {key}, {(key, sub)})
    case Plain(name) => Asks({name}, {}, {})
  }

  function AsksOf(items: seq<string>): Asks {
    if items == [] then NOTHING
    else AsksOf(items[..|items| - 1]).With(AskOf(Classify(items[|items| - 1])))
  }

  /** The dependency a key names, the last one listed under it. */
  function NamedDependency(deps: seq<Dependency>, key: string): Option<Dependency> {
    if deps == [] then None
    else if deps[|deps| - 1].key == key then Some(deps[|deps| - 1])
    else NamedDependency(deps[..|deps| - 1], key)
  }

  /** An optional dependency is a feature of its own name where the table does not define one. */
  predicate Implicit(c: Crate, feature: string) {
    var d := NamedDependency(c.deps, feature);
    d.Some? && d.value.optional && feature !in c.table
  }

  /** What a feature of a crate asks for. */
  function FeatureAsks(c: Crate, feature: string): Asks {
    Asks({}, if Implicit(c, feature) then {feature} else {}, {}).With(AsksOf(ItemsOf(c, feature)))
  }

  predicate Switched(c: Crate, have: set<string>, key: string) {
    exists f :: f in have && key in FeatureAsks(c, f).keys
  }

  predicate Asked(c: Crate, have: set<string>, key: string, sub: string) {
    exists f :: f in have && (key, sub) in FeatureAsks(c, f).pairs
  }

  predicate Active(c: Crate, have: set<string>, d: Dependency) {
    !d.optional || Switched(c, have, d.key)
  }

  /** The features a dependency of a crate asks of the member `t`. */
  ghost predicate Wants(ws: Workspace, c: Crate, have: set<string>, d: Dependency, t: string, f: string)
    requires t in ws.crates
  {
    f in d.features || Asked(c, have, d.key, f) || (f == "default" && d.default && "default" in ws.crates[t].table)
  }

  type Enabled = map<string, set<string>>

  predicate Leq(a: Enabled, b: Enabled) {
    forall c | c in a :: c in b && a[c] <= b[c]
  }

  predicate FeaturesClosed(c: Crate, have: set<string>) {
    forall f | f in have :: FeatureAsks(c, f).names <= have
  }

  ghost predicate DependencyServed(ws: Workspace, e: Enabled, c: Crate, have: set<string>, d: Dependency)
    requires ws.Valid()
  {
    Active(c, have, d) && ws.ByDir(d.dir).Some? ==>
      var t := ws.ByDir(d.dir).value;
      t in e && forall f :: Wants(ws, c, have, d, t, f) ==> f in e[t]
  }

  ghost predicate CrateClosed(ws: Workspace, e: Enabled, name: string)
    requires ws.Valid() && name in e && name in ws.crates
  {
    var c := ws.crates[name];
    FeaturesClosed(c, e[name]) && forall d :: d in c.deps ==> DependencyServed(ws, e, c, e[name], d)
  }

  ghost predicate RootsIn(ws: Workspace, packages: seq<string>, features: set<string>, default: bool, e: Enabled) {
    forall p :: p in packages ==>
      && p in e && p in ws.crates && features <= e[p]
      && (default && "default" in ws.crates[p].table ==> "default" in e[p])
  }

  /** Every rule holds: the packages asked for are in, and whatever a feature or an active dependency of
      an enabled crate asks for is enabled. */
  ghost predicate Closed(ws: Workspace, packages: seq<string>, features: set<string>, default: bool, e: Enabled)
    requires ws.Valid()
  {
    && e.Keys <= ws.crates.Keys
    && RootsIn(ws, packages, features, default, e)
    && forall name :: name in e ==> CrateClosed(ws, e, name)
  }

  ghost predicate Least(ws: Workspace, packages: seq<string>, features: set<string>, default: bool, e: Enabled)
    requires ws.Valid()
  {
    forall other :: Closed(ws, packages, features, default, other) ==> Leq(e, other)
  }

  // ---- the rules by the text of the table ----

  /** A name with no slash and no `dep:` is another feature. */
  predicate IsPlain(item: string) {
    !("dep:" <= item) && '/' !in item
  }

  /** A key that can stand before a slash. */
  predicate IsKey(key: string) {
    '/' !in key && (key != "" ==> key[|key| - 1] != '?')
  }

  predicate IsStrong(item: string, key: string, sub: string) {
    !("dep:" <= item) && IsKey(key) && item == key + "/" + sub
  }

  predicate AllMarks(marks: string) {
    forall i | 0 <= i < |marks| :: marks[i] == '?'
  }

  /** Question marks before the slash: the dependency is not switched on by this. */
  ghost predicate IsWeak(item: string, key: string, sub: string) {
    !("dep:" <= item) && IsKey(key) && exists marks :: marks != "" && AllMarks(marks) && item == key + marks + "/" + sub
  }

  /** An item of a feature that is enabled. */
  ghost predicate TableLists(c: Crate, have: set<string>, item: string) {
    exists f :: f in have && f in c.table && item in c.table[f]
  }

  /** The last dependency under the key is optional, and no feature of the table has its name. */
  ghost predicate IsImplicit(c: Crate, key: string) {
    && key !in c.table
    && exists i :: 0 <= i < |c.deps| && c.deps[i].key == key && c.deps[i].optional
                   && forall j :: i < j < |c.deps| ==> c.deps[j].key != key
  }

  ghost predicate SwitchedOn(c: Crate, have: set<string>, key: string) {
    || (key in have && IsImplicit(c, key))
    || TableLists(c, have, "dep:" + key)
    || exists item, sub :: TableLists(c, have, item) && IsStrong(item, key, sub)
  }

  ghost predicate AskedFor(c: Crate, have: set<string>, key: string, sub: string) {
    exists item :: TableLists(c, have, item) && (IsStrong(item, key, sub) || IsWeak(item, key, sub))
  }

  /** The first member listed of a directory. */
  ghost predicate FirstIn(ws: Workspace, dir: string, k: nat)
    requires ws.Valid()
  {
    k < |ws.order| && ws.crates[ws.order[k]].dir == dir && forall i :: 0 <= i < k ==> ws.crates[ws.order[i]].dir != dir
  }

  /** What a dependency that is not optional, or is switched on, asks of the member it names. */
  ghost predicate Served(ws: Workspace, e: Enabled, c: Crate, have: set<string>, d: Dependency, t: string) {
    && t in e && t in ws.crates && d.features <= e[t]
    && (forall sub :: AskedFor(c, have, d.key, sub) ==> sub in e[t])
    && (d.default && "default" in ws.crates[t].table ==> "default" in e[t])
  }

  ghost predicate CrateUnified(ws: Workspace, e: Enabled, name: string)
    requires ws.Valid() && name in e && name in ws.crates
  {
    var c := ws.crates[name];
    && (forall item :: TableLists(c, e[name], item) && IsPlain(item) ==> item in e[name])
    && forall d :: d in c.deps && (!d.optional || SwitchedOn(c, e[name], d.key)) ==> ServedFirst(ws, e, c, e[name], d)
  }

  /** Of the members of a dependency's directory the first is served; a directory without members is outside. */
  ghost predicate ServedFirst(ws: Workspace, e: Enabled, c: Crate, have: set<string>, d: Dependency)
    requires ws.Valid()
  {
    forall k: nat :: FirstIn(ws, d.dir, k) ==> Served(ws, e, c, have, d, ws.order[k])
  }

  /** Every rule by the text: what each form of an item of an enabled feature switches on is switched on. */
  ghost predicate Unified(ws: Workspace, packages: seq<string>, features: set<string>, default: bool, e: Enabled)
    requires ws.Valid()
  {
    && e.Keys <= ws.crates.Keys
    && (forall p :: p in packages ==>
          && p in e && p in ws.crates && features <= e[p]
          && (default && "default" in ws.crates[p].table ==> "default" in e[p]))
    && forall name :: name in e ==> CrateUnified(ws, e, name)
  }

  lemma {:induction false} StrippedExactly(s: string) returns (marks: string)
    ensures s == Stripped(s) + marks && AllMarks(marks)
    ensures Stripped(s) != "" ==> Stripped(s)[|Stripped(s)| - 1] != '?'
    ensures marks == "" <==> s == "" || s[|s| - 1] != '?'
  {
    if s != "" && s[|s| - 1] == '?' {
      marks := StrippedExactly(s[..|s| - 1]);
      assert s == Stripped(s) + (marks + "?");
      marks := marks + "?";
    } else {
      marks := "";
    }
  }

  lemma {:induction false} StrippedOf(key: string, marks: string)
    requires AllMarks(marks) && (key != "" ==> key[|key| - 1] != '?')
    ensures Stripped(key + marks) == key
  {
    if marks == "" {
      assert key + marks == key;
    } else {
      assert (key + marks)[..|key + marks| - 1] == key + marks[..|marks| - 1];
      StrippedOf(key, marks[..|marks| - 1]);
    }
  }

  lemma {:induction false} PositionOf(head: string, c: char, tail: string)
    requires c !in head
    ensures Position(head + [c] + tail, c) == |head|
  {
    var s := head + [c] + tail;
    assert s[|head|] == c && forall i :: 0 <= i < |head| ==> s[i] == head[i] != c;
  }

  lemma {:induction false} PositionFound(s: string, c: char)
    ensures Position(s, c) == |s| <==> c !in s
    ensures Position(s, c) < |s| ==>
              s == s[..Position(s, c)] + [c] + s[Position(s, c) + 1..] && c !in s[..Position(s, c)]
  {
  }

  lemma {:induction false} DepRead(item: string)
    ensures "dep:" <= item <==> Classify(item).Dep?
    ensures Classify(item).Dep? ==> item == "dep:" + Classify(item).key
  {
    PositionFound(item, '/');
    if "dep:" <= item {
      assert item == item[..4] + item[4..];
    }
  }

  lemma {:induction false} PlainRead(item: string)
    ensures IsPlain(item) <==> Classify(item).Plain?
    ensures Classify(item).Plain? ==> Classify(item).name == item
  {
    PositionFound(item, '/');
  }

  /** A slash item spells its key, the question marks and the feature of the dependency. */
  lemma {:induction false} SubSpelt(item: string) returns (marks: string)
    requires Classify(item).Sub?
    ensures !("dep:" <= item) && AllMarks(marks)
    ensures var i := Classify(item);
            IsKey(i.key) && item == i.key + marks + "/" + i.sub && (i.weak <==> marks != "")
  {
    PositionFound(item, '/');
    var key := item[..Position(item, '/')];
    marks := StrippedExactly(key);
    assert forall k :: 0 <= k < |Stripped(key)| ==> Stripped(key)[k] == key[k];
  }

  lemma {:induction false} SubRead(item: string, key: string, marks: string, sub: string)
    requires !("dep:" <= item) && IsKey(key) && AllMarks(marks) && item == key + marks + "/" + sub
    ensures Classify(item) == Sub(key, sub, marks != "")
  {
    StrippedOf(key, marks);
    CutAtSlash(key + marks, sub);
    LastMark(key, marks);
  }

  lemma {:induction false} CutAtSlash(head: string, sub: string)
    requires '/' !in head
    ensures var item := head + "/" + sub;
            Position(item, '/') == |head| < |item| && item[..|head|] == head && item[|head| + 1..] == sub
  {
    PositionOf(head, '/', sub);
  }

  lemma {:induction false} LastMark(key: string, marks: string)
    requires IsKey(key) && AllMarks(marks)
    ensures '/' !in key + marks
    ensures marks != "" <==> key + marks != "" && (key + marks)[|key + marks| - 1] == '?'
  {
    if marks != "" {
      assert (key + marks)[|key + marks| - 1] == marks[|marks| - 1];
    } else {
      assert key + marks == key;
    }
  }

  /** The reading of an item, by its text. */
  lemma {:induction false} ItemRead(item: string, key: string, sub: string)
    ensures IsPlain(item) <==> Classify(item) == Plain(item)
    ensures item == "dep:" + key <==> Classify(item) == Dep(key)
    ensures IsStrong(item, key, sub) <==> Classify(item) == Sub(key, sub, false)
    ensures IsWeak(item, key, sub) <==> Classify(item) == Sub(key, sub, true)
  {
    PlainRead(item);
    DepRead(item);
    if item == "dep:" + key {
      assert item[4..] == key;
    }
    if IsStrong(item, key, sub) {
      assert key + "" == key;
      SubRead(item, key, "", sub);
    }
    if IsWeak(item, key, sub) {
      var marks :| marks != "" && AllMarks(marks) && item == key + marks + "/" + sub;
      SubRead(item, key, marks, sub);
    }
    if Classify(item).Sub? {
      var marks := SubSpelt(item);
      assert Classify(item).key + "" == Classify(item).key;
    }
  }

  lemma {:induction false} AsksOfItems(items: seq<string>)
    ensures forall n :: n in AsksOf(items).names <==> exists item :: item in items && Classify(item) == Plain(n)
    ensures forall k :: k in AsksOf(items).keys <==>
              exists item :: item in items && k in AskOf(Classify(item)).keys
    ensures forall p :: p in AsksOf(items).pairs <==>
              exists item :: item in items && p in AskOf(Classify(item)).pairs
  {
    if items != [] {
      var n := |items| - 1;
      AsksOfItems(items[..n]);
      assert items == items[..n] + [items[n]];
      assert forall item :: item in items <==> item in items[..n] || item == items[n];
    }
  }

  lemma {:induction false} NamedNone(deps: seq<Dependency>, key: string)
    ensures NamedDependency(deps, key).None? <==> forall i :: 0 <= i < |deps| ==> deps[i].key != key
  {
    if deps != [] {
      var n := |deps| - 1;
      NamedNone(deps[..n], key);
      assert forall i :: 0 <= i < n ==> deps[i] == deps[..n][i];
    }
  }

  lemma {:induction false} NamedLast(deps: seq<Dependency>, key: string) returns (i: nat)
    requires NamedDependency(deps, key).Some?
    ensures LastUnder(deps, key, NamedDependency(deps, key).value, i)
  {
    i := |deps| - 1;
    if deps[i].key != key {
      i := NamedLast(deps[..i], key);
      LastStays(deps, key, NamedDependency(deps, key).value, i);
    }
  }

  ghost predicate LastUnder(deps: seq<Dependency>, key: string, d: Dependency, i: nat) {
    i < |deps| && deps[i] == d && d.key == key && forall j :: i < j < |deps| ==> deps[j].key != key
  }

  lemma {:induction false} LastStays(deps: seq<Dependency>, key: string, d: Dependency, i: nat)
    requires deps != [] && deps[|deps| - 1].key != key && LastUnder(deps[..|deps| - 1], key, d, i)
    ensures LastUnder(deps, key, d, i)
  {
    var before := deps[..|deps| - 1];
    forall j | i < j < |deps| ensures deps[j].key != key {
      if j < |before| {
        assert deps[j] == before[j];
      }
    }
  }

  lemma {:induction false} ImplicitExactly(c: Crate, key: string)
    ensures Implicit(c, key) <==> IsImplicit(c, key)
  {
    NamedNone(c.deps, key);
    if NamedDependency(c.deps, key).Some? {
      var i := NamedLast(c.deps, key);
      assert c.deps[i].key == key;
      forall k | 0 <= k < |c.deps| && c.deps[k].key == key && forall j :: k < j < |c.deps| ==> c.deps[j].key != key
        ensures k == i
      {
      }
    }
  }

  lemma {:induction false} ItemListed(c: Crate, have: set<string>, f: string, item: string)
    requires f in have && item in ItemsOf(c, f)
    ensures TableLists(c, have, item)
  {
  }

  lemma {:induction false} PlainsClosed(c: Crate, have: set<string>)
    ensures FeaturesClosed(c, have) <==> forall item :: TableLists(c, have, item) && IsPlain(item) ==> item in have
  {
    if FeaturesClosed(c, have) {
      forall item | TableLists(c, have, item) && IsPlain(item) ensures item in have {
        var f :| f in have && f in c.table && item in c.table[f];
        AsksOfItems(ItemsOf(c, f));
        PlainRead(item);
        assert item in FeatureAsks(c, f).names;
      }
    }
    if forall item :: TableLists(c, have, item) && IsPlain(item) ==> item in have {
      forall f, n | f in have && n in FeatureAsks(c, f).names ensures n in have {
        AsksOfItems(ItemsOf(c, f));
        var item :| item in ItemsOf(c, f) && Classify(item) == Plain(n);
        PlainRead(item);
        ItemListed(c, have, f, item);
      }
    }
  }

  lemma {:induction false} SwitchedExactly(c: Crate, have: set<string>, key: string)
    ensures Switched(c, have, key) <==> SwitchedOn(c, have, key)
  {
    ImplicitExactly(c, key);
    if Switched(c, have, key) {
      var f :| f in have && key in FeatureAsks(c, f).keys;
      if !(Implicit(c, f) && key == f) {
        AsksOfItems(ItemsOf(c, f));
        var item :| item in ItemsOf(c, f) && key in AskOf(Classify(item)).keys;
        ItemListed(c, have, f, item);
        if Classify(item).Dep? {
          DepRead(item);
        } else {
          ItemRead(item, key, Classify(item).sub);
        }
      }
    }
    if SwitchedOn(c, have, key) {
      if TableLists(c, have, "dep:" + key) {
        ItemRead("dep:" + key, key, "");
        KeyAsked(c, have, "dep:" + key, key);
      } else if item, sub :| TableLists(c, have, item) && IsStrong(item, key, sub) {
        ItemRead(item, key, sub);
        KeyAsked(c, have, item, key);
      } else {
        assert key in FeatureAsks(c, key).keys;
      }
    }
  }

  lemma {:induction false} KeyAsked(c: Crate, have: set<string>, item: string, key: string)
    requires TableLists(c, have, item) && key in AskOf(Classify(item)).keys
    ensures Switched(c, have, key)
  {
    var f :| f in have && f in c.table && item in c.table[f];
    AsksOfItems(ItemsOf(c, f));
    assert key in FeatureAsks(c, f).keys;
  }

  lemma {:induction false} AskedExactly(c: Crate, have: set<string>, key: string, sub: string)
    ensures Asked(c, have, key, sub) <==> AskedFor(c, have, key, sub)
  {
    if Asked(c, have, key, sub) {
      var f :| f in have && (key, sub) in FeatureAsks(c, f).pairs;
      AsksOfItems(ItemsOf(c, f));
      var item :| item in ItemsOf(c, f) && (key, sub) in AskOf(Classify(item)).pairs;
      ItemListed(c, have, f, item);
      ItemRead(item, key, sub);
    }
    if AskedFor(c, have, key, sub) {
      var item :| TableLists(c, have, item) && (IsStrong(item, key, sub) || IsWeak(item, key, sub));
      ItemRead(item, key, sub);
      var f :| f in have && f in c.table && item in c.table[f];
      AsksOfItems(ItemsOf(c, f));
      assert (key, sub) in FeatureAsks(c, f).pairs;
    }
  }

  lemma {:induction false} FirstExactly(ws: Workspace, names: seq<string>, dir: string)
    requires ws.Valid() && forall n :: n in names ==> n in ws.crates
    ensures match ws.FirstOf(names, dir)
            case None => forall i :: 0 <= i < |names| ==> ws.crates[names[i]].dir != dir
            case Some(t) => exists k :: 0 <= k < |names| && names[k] == t && ws.crates[t].dir == dir
                                        && forall i :: 0 <= i < k ==> ws.crates[names[i]].dir != dir
  {
    if names != [] && ws.crates[names[0]].dir != dir {
      FirstExactly(ws, names[1..], dir);
      assert forall i :: 1 <= i < |names| ==> names[i] == names[1..][i - 1];
      match ws.FirstOf(names, dir) {
        case None =>
        case Some(t) =>
          var k :| 0 <= k < |names[1..]| && names[1..][k] == t && ws.crates[t].dir == dir
                   && forall i :: 0 <= i < k ==> ws.crates[names[1..][i]].dir != dir;
          assert names[k + 1] == t;
      }
    }
  }

  lemma {:induction false} ByDirExactly(ws: Workspace, dir: string, k: nat)
    requires ws.Valid()
    ensures FirstIn(ws, dir, k) ==> ws.ByDir(dir) == Some(ws.order[k])
  {
    FirstExactly(ws, ws.order, dir);
  }

  lemma {:induction false} ByDirFirst(ws: Workspace, dir: string) returns (k: nat)
    requires ws.Valid() && ws.ByDir(dir).Some?
    ensures FirstIn(ws, dir, k) && ws.order[k] == ws.ByDir(dir).value
  {
    FirstExactly(ws, ws.order, dir);
    k :| k < |ws.order| && ws.order[k] == ws.ByDir(dir).value
         && forall i :: 0 <= i < k ==> ws.crates[ws.order[i]].dir != dir;
  }

  lemma {:induction false} WantsServed(ws: Workspace, e: Enabled, c: Crate, have: set<string>, d: Dependency, t: string)
    requires t in ws.crates
    ensures (t in e && forall f :: Wants(ws, c, have, d, t, f) ==> f in e[t]) <==> Served(ws, e, c, have, d, t)
  {
    forall f ensures Asked(c, have, d.key, f) <==> AskedFor(c, have, d.key, f) {
      AskedExactly(c, have, d.key, f);
    }
    assert Wants(ws, c, have, d, t, "default") <==>
        "default" in d.features || Asked(c, have, d.key, "default") || (d.default && "default" in ws.crates[t].table);
    assert forall f :: f in d.features ==> Wants(ws, c, have, d, t, f);
    assert forall f :: Asked(c, have, d.key, f) ==> Wants(ws, c, have, d, t, f);
  }

  lemma {:induction false} ServedExactly(ws: Workspace, e: Enabled, c: Crate, have: set<string>, d: Dependency)
    requires ws.Valid()
    ensures DependencyServed(ws, e, c, have, d) <==>
            (!d.optional || SwitchedOn(c, have, d.key) ==> ServedFirst(ws, e, c, have, d))
  {
    SwitchedExactly(c, have, d.key);
    if ws.ByDir(d.dir).Some? {
      var k := ByDirFirst(ws, d.dir);
      WantsServed(ws, e, c, have, d, ws.order[k]);
      forall i: nat | FirstIn(ws, d.dir, i) ensures ws.order[i] == ws.order[k] {
        ByDirExactly(ws, d.dir, i);
      }
    } else {
      forall i: nat ensures !FirstIn(ws, d.dir, i) {
        ByDirExactly(ws, d.dir, i);
      }
    }
  }

  lemma {:induction false} CrateUnifiedExactly(ws: Workspace, e: Enabled, name: string)
    requires ws.Valid() && name in e && name in ws.crates
    ensures CrateClosed(ws, e, name) <==> CrateUnified(ws, e, name)
  {
    var c := ws.crates[name];
    PlainsClosed(c, e[name]);
    forall d
      ensures DependencyServed(ws, e, c, e[name], d) <==>
              (!d.optional || SwitchedOn(c, e[name], d.key) ==> ServedFirst(ws, e, c, e[name], d))
    {
      ServedExactly(ws, e, c, e[name], d);
    }
  }

  /** Closed under the rules is closed by the text of the tables. */
  lemma {:induction false} ClosedIsUnified(ws: Workspace, packages: seq<string>, features: set<string>, default: bool,
                                           e: Enabled)
    requires ws.Valid()
    ensures Closed(ws, packages, features, default, e) <==> Unified(ws, packages, features, default, e)
  {
    if e.Keys <= ws.crates.Keys {
      forall name | name in e ensures CrateClosed(ws, e, name) <==> CrateUnified(ws, e, name) {
        CrateUnifiedExactly(ws, e, name);
      }
    }
  }

  /** By the text of the tables, no assignment that obeys them is smaller. */
  ghost predicate LeastUnified(ws: Workspace, packages: seq<string>, features: set<string>, default: bool, e: Enabled)
    requires ws.Valid()
  {
    forall other :: Unified(ws, packages, features, default, other) ==>
      forall name :: name in e ==> name in other && e[name] <= other[name]
  }

  lemma {:induction false} LeastIsUnified(ws: Workspace, packages: seq<string>, features: set<string>, default: bool,
                                          e: Enabled)
    requires ws.Valid() && Closed(ws, packages, features, default, e) && Least(ws, packages, features, default, e)
    ensures Unified(ws, packages, features, default, e) && LeastUnified(ws, packages, features, default, e)
  {
    ClosedIsUnified(ws, packages, features, default, e);
    forall other | Unified(ws, packages, features, default, other)
      ensures forall name :: name in e ==> name in other && e[name] <= other[name]
    {
      ClosedIsUnified(ws, packages, features, default, other);
    }
  }

  // ---- what is below a closed assignment stays below it ----

  lemma {:induction false} AskedMore(c: Crate, have: set<string>, more: set<string>)
    requires have <= more
    ensures forall k :: Switched(c, have, k) ==> Switched(c, more, k)
    ensures forall k, s :: Asked(c, have, k, s) ==> Asked(c, more, k, s)
  {
  }

  /** Uniqueness: the least closed assignment depends on what is asked, not on any order. */
  lemma {:induction false} LeastIsUnique(ws: Workspace, packages: seq<string>, others: seq<string>,
                                         features: set<string>,
                                         default: bool, a: Enabled, b: Enabled)
    requires ws.Valid()
    requires forall p :: p in packages <==> p in others
    requires Closed(ws, packages, features, default, a) && Least(ws, packages, features, default, a)
    requires Closed(ws, others, features, default, b) && Least(ws, others, features, default, b)
    ensures a == b
  {
    assert Closed(ws, packages, features, default, b);
    assert Closed(ws, others, features, default, a);
    assert Leq(a, b) && Leq(b, a);
    assert a.Keys == b.Keys;
    forall c | c in a ensures a[c] == b[c] {
    }
  }

  // ---- one crate's own features ----

  /** The pending loop of one crate: `have` its features, those whose items are still to be read, the keys
      switched on, and what its dependencies are asked for. */
  datatype Walk = Walk(have: set<string>, pending: seq<string>, on: set<string>, subs: set<(string, string)>)

  /** Every feature that is not pending has had its items read, and nothing else was noted. */
  ghost predicate Walked(c: Crate, w: Walk) {
    && (forall f :: f in w.pending ==> f in w.have)
    && (forall f :: f in w.have && f !in w.pending ==> Noted(c, f, w))
    && (forall k :: k in w.on ==> Switched(c, w.have, k))
    && (forall k, s :: (k, s) in w.subs ==> Asked(c, w.have, k, s))
  }

  ghost predicate Noted(c: Crate, f: string, w: Walk) {
    var asks := FeatureAsks(c, f);
    asks.names <= w.have && asks.keys <= w.on && asks.pairs <= w.subs
  }

  /** `after` adds what `asks` says to `before`; a feature it did not have is pending. */
  ghost predicate Added(before: Walk, after: Walk, asks: Asks) {
    && after.have == before.have + asks.names
    && after.on == before.on + asks.keys
    && after.subs == before.subs + asks.pairs
    && (forall f :: f in after.pending <==> f in before.pending || f in asks.names - before.have)
    && (asks.names <= before.have ==> after.pending == before.pending)
  }

  method ReadItem(item: Item, w: Walk) returns (after: Walk)
    ensures Added(w, after, AskOf(item))
  {
    match item {
      case Dep(key) => after := w.(on := w.on + {key});
      case Sub(key, sub, weak) =>
        after := w.(on := if weak then w.on else w.on + {key}, subs := w.subs + {(key, sub)});
      case Plain(name) =>
        after := if name in w.have then w else w.(have := w.have + {name}, pending := w.pending + [name]);
    }
  }

  lemma {:induction false} AddedBoth(a: Walk, b: Walk, c: Walk, asks: Asks, more: Asks)
    requires Added(a, b, asks) && Added(b, c, more)
    ensures Added(a, c, asks.With(more))
  {
  }

  method ReadItems(c: Crate, feature: string, w: Walk) returns (after: Walk)
    ensures Added(w, after, FeatureAsks(c, feature))
  {
    var implicit := Asks({}, if Implicit(c, feature) then {feature} else {}, {});
    var items := ItemsOf(c, feature);
    var start := w.(on := w.on + implicit.keys);
    after := start;
    for i := 0 to |items|
      invariant Added(start, after, AsksOf(items[..i]))
    {
      ghost var before := after;
      assert items[..i + 1][..i] == items[..i];
      after := ReadItem(Classify(items[i]), after);
      AddedBoth(start, before, after, AsksOf(items[..i]), AskOf(Classify(items[i])));
    }
    assert items[..|items|] == items;
    AddedBoth(w, start, after, implicit, AsksOf(items));
  }

  /** Reading the items of the feature taken off the pending list keeps the walk's account. */
  lemma {:induction false} WalkedNext(c: Crate, before: Walk, popped: Walk, after: Walk, feature: string)
    requires Walked(c, before) && feature in before.have
    requires popped == before.(pending := popped.pending)
    requires forall f :: f in before.pending <==> f in popped.pending || f == feature
    requires Added(popped, after, FeatureAsks(c, feature))
    ensures Walked(c, after)
  {
    AskedMore(c, before.have, after.have);
    forall f | f in after.have && f !in after.pending ensures Noted(c, f, after) {
      if f != feature {
        assert f in before.have && f !in before.pending;
        assert Noted(c, f, before);
      }
    }
    forall k | k in after.on ensures Switched(c, after.have, k) {
      if k !in before.on {
        assert k in FeatureAsks(c, feature).keys;
      }
    }
    forall k, s | (k, s) in after.subs ensures Asked(c, after.have, k, s) {
      if (k, s) !in before.subs {
        assert (k, s) in FeatureAsks(c, feature).pairs;
      }
    }
  }

  /** A feature set that contains `start` and is closed under the table's own items. */
  ghost predicate ClosedAbove(c: Crate, start: set<string>, bound: set<string>) {
    start <= bound && FeaturesClosed(c, bound)
  }

  method WalkOne(c: Crate, w: Walk) returns (after: Walk)
    requires Walked(c, w) && w.pending != []
    ensures Walked(c, after) && w.have <= after.have
    ensures after.have == w.have ==> |after.pending| < |w.pending|
    ensures forall bound :: FeaturesClosed(c, bound) && w.have <= bound ==> after.have <= bound
  {
    var n := |w.pending| - 1;
    var feature := w.pending[n];
    assert w.pending == w.pending[..n] + [feature];
    var popped := w.(pending := w.pending[..n]);
    after := ReadItems(c, feature, popped);
    WalkedNext(c, w, popped, after, feature);
    assert after.have == w.have ==> FeatureAsks(c, feature).names <= w.have;
  }

  /** Everything one crate's features lead to inside it. */
  method WalkFeatures(c: Crate, start: set<string>, wasOn: set<string>, ghost top: set<string>) returns (w: Walk)
    requires ClosedAbove(c, start, top)
    requires forall k :: k in wasOn ==> Switched(c, start, k)
    ensures Walked(c, w) && w.pending == []
    ensures start <= w.have
    ensures forall bound :: ClosedAbove(c, start, bound) ==> w.have <= bound
  {
    var pending := Listed(start);
    w := Walk(start, pending, wasOn, {});
    while w.pending != []
      invariant Walked(c, w)
      invariant start <= w.have
      invariant forall bound :: ClosedAbove(c, start, bound) ==> w.have <= bound
      decreases |top - w.have|, |w.pending|
    {
      ghost var before := w.have;
      w := WalkOne(c, w);
      if before != w.have {
        SmallerRest(top, before, w.have);
      }
    }
  }

  method Listed(s: set<string>) returns (list: seq<string>)
    ensures forall x :: x in list <==> x in s
  {
    list := [];
    var rest := s;
    while rest != {}
      invariant rest <= s && forall x :: x in list <==> x in s - rest
      decreases |rest|
    {
      var x :| x in rest;
      list := list + [x];
      rest := rest - {x};
    }
  }

  lemma {:induction false} SmallerRest(top: set<string>, a: set<string>, b: set<string>)
    requires a < b <= top
    ensures |top - b| < |top - a|
  {
    var x :| x in b && x !in a;
    assert x in top - a && x !in top - b;
    assert top - b < top - a;
    Smaller(top - b, top - a);
  }

  lemma {:induction false} Smaller<T>(a: set<T>, b: set<T>)
    requires a < b
    ensures |a| < |b|
  {
    assert b == a + (b - a);
    assert |b| == |a| + |b - a|;
    assert b - a != {};
  }

  // ---- the workspace's fixpoint ----

  /** `e` with `name` enabled and `more` among its features. */
  function Extended(e: Enabled, name: string, more: set<string>): Enabled {
    e[name := (if name in e then e[name] else {}) + more]
  }

  function DefaultOf(ws: Workspace, name: string, default: bool): set<string>
    requires name in ws.crates
  {
    if default && "default" in ws.crates[name].table then {"default"} else {}
  }

  method Enable(ws: Workspace, e: Enabled, name: string, wanted: set<string>, default: bool)
    returns (after: Enabled, changed: bool)
    requires name in ws.crates
    ensures after == Extended(e, name, wanted + DefaultOf(ws, name, default))
    ensures changed <==> after != e
  {
    var had := if name in e then e[name] else {};
    var have := had + (wanted + DefaultOf(ws, name, default));
    after := e[name := have];
    changed := name !in e || |have| != |had|;
    if had != have {
      Smaller(had, have);
    }
  }

  /** The switched keys kept from earlier visits, each rightly switched on. */
  ghost predicate ActiveSound(ws: Workspace, e: Enabled, active: map<string, set<string>>) {
    forall n :: n in active ==> n in e && n in ws.crates && forall k :: k in active[n] ==>
      Switched(ws.crates[n], e[n], k)
  }

  lemma {:induction false} ActiveStaysSound(ws: Workspace, a: Enabled, b: Enabled, active: map<string, set<string>>)
    requires ActiveSound(ws, a, active) && Leq(a, b)
    ensures ActiveSound(ws, b, active)
  {
    forall n | n in active ensures n in b && forall k :: k in active[n] ==> Switched(ws.crates[n], b[n], k) {
      AskedMore(ws.crates[n], a[n], b[n]);
    }
  }

  /** Below every closed assignment, and made of members. */
  ghost predicate Below(ws: Workspace, packages: seq<string>, features: set<string>, default: bool, e: Enabled)
    requires ws.Valid()
  {
    e.Keys <= ws.crates.Keys && Least(ws, packages, features, default, e)
  }

  lemma {:induction false} ClosedCrateBound(ws: Workspace, packages: seq<string>, features: set<string>, default: bool,
                                           e: Enabled, name: string, other: Enabled)
    requires ws.Valid() && name in e && name in ws.crates && Leq(e, other)
    requires Closed(ws, packages, features, default, other)
    ensures ClosedAbove(ws.crates[name], e[name], other[name])
  {
    assert CrateClosed(ws, other, name);
  }

  /** A finished walk knows exactly which keys are switched on and what is asked of each. */
  lemma {:induction false} WalkKnows(c: Crate, w: Walk)
    requires Walked(c, w) && w.pending == []
    ensures FeaturesClosed(c, w.have)
    ensures forall k :: k in w.on <==> Switched(c, w.have, k)
    ensures forall k, s :: (k, s) in w.subs <==> Asked(c, w.have, k, s)
  {
    assert forall f :: f in w.have ==> Noted(c, f, w);
  }

  function WantedOf(w: Walk, d: Dependency): set<string> {
    d.features + (set p | p in w.subs && p.0 == d.key :: p.1)
  }

  lemma {:induction false} WantedExactly(ws: Workspace, c: Crate, w: Walk, d: Dependency, t: string, f: string)
    requires Walked(c, w) && w.pending == [] && t in ws.crates
    ensures Wants(ws, c, w.have, d, t, f) <==> f in WantedOf(w, d) + DefaultOf(ws, t, d.default)
  {
    WalkKnows(c, w);
    if Asked(c, w.have, d.key, f) {
      assert (d.key, f) in w.subs;
    }
  }

  /** Serving one dependency of a walked crate stays below every closed assignment. */
  lemma {:induction false} ServingStaysBelow(ws: Workspace, packages: seq<string>, features: set<string>, default: bool,
                                             e: Enabled, name: string, w: Walk, d: Dependency, t: string)
    requires ws.Valid() && Below(ws, packages, features, default, e)
    requires name in e && name in ws.crates && d in ws.crates[name].deps && w.have <= e[name]
    requires Walked(ws.crates[name], w) && w.pending == []
    requires Active(ws.crates[name], w.have, d) && ws.ByDir(d.dir) == Some(t)
    ensures Below(ws, packages, features, default, Extended(e, t, WantedOf(w, d) + DefaultOf(ws, t, d.default)))
  {
    var c, after := ws.crates[name], Extended(e, t, WantedOf(w, d) + DefaultOf(ws, t, d.default));
    forall other | Closed(ws, packages, features, default, other) ensures Leq(after, other) {
      assert Leq(e, other) && CrateClosed(ws, other, name) && DependencyServed(ws, other, c, other[name], d);
      AskedMore(c, w.have, other[name]);
      forall f | f in WantedOf(w, d) + DefaultOf(ws, t, d.default) ensures f in other[t] {
        WantedExactly(ws, c, w, d, t, f);
        assert Wants(ws, c, other[name], d, t, f);
      }
    }
  }

  ghost predicate ServedUpTo(ws: Workspace, e: Enabled, c: Crate, have: set<string>, n: nat)
    requires ws.Valid() && n <= |c.deps|
  {
    forall i :: 0 <= i < n ==> DependencyServed(ws, e, c, have, c.deps[i])
  }

  method ServeDependency(ws: Workspace, e: Enabled, ghost name: string, ghost c: Crate, w: Walk, d: Dependency,
                         ghost packages: seq<string>, ghost features: set<string>, ghost default: bool)
    returns (after: Enabled, changed: bool)
    requires ws.Valid() && Below(ws, packages, features, default, e)
    requires name in e && name in ws.crates && ws.crates[name] == c && d in c.deps && w.have <= e[name]
    requires Walked(c, w) && w.pending == []
    ensures Below(ws, packages, features, default, after) && Leq(e, after)
    ensures changed <==> after != e
    ensures !changed ==> DependencyServed(ws, after, c, w.have, d)
  {
    WalkKnows(c, w);
    after, changed := e, false;
    if d.optional && d.key !in w.on {
      return;
    }
    var target := ws.ByDir(d.dir);
    if target.Some? {
      ServingStaysBelow(ws, packages, features, default, e, name, w, d, target.value);
      after, changed := Enable(ws, e, target.value, WantedOf(w, d), d.default);
      forall f | !changed && Wants(ws, c, w.have, d, target.value, f)
        ensures target.value in after && f in after[target.value] {
        WantedExactly(ws, c, w, d, target.value, f);
      }
    }
  }

  /** One visit of an enabled crate: its features followed, its active dependencies enabled. */
  method VisitCrate(ws: Workspace, e: Enabled, active: map<string, set<string>>, name: string,
                    ghost packages: seq<string>, ghost features: set<string>, ghost default: bool, ghost top: Enabled)
    returns (after: Enabled, nowActive: map<string, set<string>>, changed: bool)
    requires ws.Valid() && Below(ws, packages, features, default, e) && name in e
    requires Closed(ws, packages, features, default, top)
    requires ActiveSound(ws, e, active)
    ensures Below(ws, packages, features, default, after) && Leq(e, after)
    ensures ActiveSound(ws, after, nowActive)
    ensures changed ==> after != e
    ensures !changed ==> after.Keys == e.Keys && (forall n :: n in e && n != name ==> after[n] == e[n])
    ensures !changed ==> CrateClosed(ws, after, name)
  {
    var c := ws.crates[name];
    ClosedCrateBound(ws, packages, features, default, e, name, top);
    var w := WalkFeatures(c, e[name], if name in active then active[name] else {}, top[name]);
    WalkKnows(c, w);
    after := e[name := w.have];
    nowActive := active[name := w.on];
    ghost var walked := after;
    forall other | Closed(ws, packages, features, default, other) ensures Leq(walked, other) {
      ClosedCrateBound(ws, packages, features, default, e, name, other);
    }
    ActiveStaysSound(ws, e, walked, active);
    changed := false;
    for i := 0 to |c.deps|
      invariant Below(ws, packages, features, default, after) && Leq(walked, after)
      invariant changed <==> after != walked
      invariant !changed ==> ServedUpTo(ws, after, c, w.have, i)
    {
      ghost var before := after;
      var grew;
      after, grew := ServeDependency(ws, after, name, c, w, c.deps[i], packages, features, default);
      if grew {
        GrewApart(walked, before, after);
        changed := true;
      }
    }
    ActiveStaysSound(ws, walked, after, nowActive);
    if changed {
      GrewApart(e, walked, after);
    }
  }

  lemma {:induction false} GrewApart(a: Enabled, b: Enabled, c: Enabled)
    requires Leq(a, b) && Leq(b, c) && b != c
    ensures Leq(a, c) && a != c
  {
    if a == c {
      assert forall k :: k in b ==> b[k] == c[k];
    }
  }

  // ---- termination: every assignment is within one that enables everything ----

  ghost function Mentioned(ws: Workspace, features: set<string>): set<string> {
    features + {"default"}
    + (set c, d, f | c in ws.crates && d in ws.crates[c].deps && f in d.features :: f)
    + (set c, f, x | c in ws.crates && f in ws.crates[c].table && x in AsksOf(ws.crates[c].table[f]).names :: x)
    + (set c, f, p | c in ws.crates && f in ws.crates[c].table && p in AsksOf(ws.crates[c].table[f]).pairs :: p.1)
  }

  ghost function Everything(ws: Workspace, features: set<string>): Enabled {
    map c | c in ws.crates :: Mentioned(ws, features)
  }

  lemma {:induction false} EverythingClosed(ws: Workspace, packages: seq<string>, features: set<string>, default: bool)
    requires ws.Valid() && forall p :: p in packages ==> p in ws.crates
    ensures Closed(ws, packages, features, default, Everything(ws, features))
  {
    var e, all := Everything(ws, features), Mentioned(ws, features);
    forall name | name in e ensures CrateClosed(ws, e, name) {
      var c := ws.crates[name];
      forall f | f in all ensures FeatureAsks(c, f).names <= all {
        assert ItemsOf(c, f) != [] ==> f in c.table;
      }
      forall d | d in c.deps ensures DependencyServed(ws, e, c, e[name], d) {
        forall t, f | t in ws.crates && Wants(ws, c, all, d, t, f) ensures f in all {
          if Asked(c, all, d.key, f) {
            var g :| g in all && (d.key, f) in FeatureAsks(c, g).pairs;
            assert ItemsOf(c, g) != [] ==> g in c.table;
            assert (d.key, f) in AsksOf(ItemsOf(c, g)).pairs;
          }
        }
      }
    }
  }

  datatype Fact = In(crate: string) | Has(of: string, feature: string)

  ghost function Facts(e: Enabled): set<Fact> {
    (set c | c in e :: In(c)) + (set c, f | c in e && f in e[c] :: Has(c, f))
  }

  lemma {:induction false} FactsGrow(a: Enabled, b: Enabled, top: Enabled)
    requires Leq(a, b) && a != b && Leq(b, top)
    ensures |Facts(top) - Facts(b)| < |Facts(top) - Facts(a)|
  {
    var x: Fact;
    if c :| c in b && c !in a {
      x := In(c);
    } else {
      assert a.Keys == b.Keys;
      var c :| c in a && a[c] != b[c];
      var f :| f in b[c] && f !in a[c];
      x := Has(c, f);
    }
    assert x in Facts(b) && x !in Facts(a) && x in Facts(top);
    assert Facts(a) <= Facts(b);
    assert x in Facts(top) - Facts(a) && x !in Facts(top) - Facts(b);
    Smaller(Facts(top) - Facts(b), Facts(top) - Facts(a));
  }

  lemma {:induction false} ClosedKept(ws: Workspace, a: Enabled, b: Enabled, n: string)
    requires ws.Valid() && n in a && n in ws.crates && CrateClosed(ws, a, n)
    requires Leq(a, b) && b[n] == a[n]
    ensures CrateClosed(ws, b, n)
  {
    var c := ws.crates[n];
    forall d | d in c.deps ensures DependencyServed(ws, b, c, b[n], d) {
      assert DependencyServed(ws, a, c, a[n], d);
    }
  }

  /** One round over the crates enabled so far. */
  method VisitAll(ws: Workspace, e: Enabled, active: map<string, set<string>>,
                  ghost packages: seq<string>, ghost features: set<string>, ghost default: bool, ghost top: Enabled)
    returns (after: Enabled, nowActive: map<string, set<string>>, changed: bool)
    requires ws.Valid() && Below(ws, packages, features, default, e)
    requires Closed(ws, packages, features, default, top)
    requires ActiveSound(ws, e, active)
    ensures Below(ws, packages, features, default, after) && Leq(e, after) && ActiveSound(ws, after, nowActive)
    ensures changed ==> after != e
    ensures !changed ==> forall n :: n in after ==> CrateClosed(ws, after, n)
  {
    var names := e.Keys;
    after, nowActive, changed := e, active, false;
    while names != {}
      invariant names <= e.Keys
      invariant Below(ws, packages, features, default, after) && Leq(e, after) && ActiveSound(ws, after, nowActive)
      invariant changed ==> after != e
      invariant !changed ==> after.Keys == e.Keys && forall n :: n in after && n !in names ==> CrateClosed(ws, after, n)
      decreases |names|
    {
      var name :| name in names;
      ghost var before := after;
      var grew;
      after, nowActive, grew := VisitCrate(ws, after, nowActive, name, packages, features, default, top);
      if grew {
        GrewApart(e, before, after);
        changed := true;
      }
      if !changed {
        forall n | n in after && n !in names - {name} ensures CrateClosed(ws, after, n) {
          if n != name {
            ClosedKept(ws, before, after, n);
          }
        }
      }
      if changed && !grew {
        StillApart(e, before, after);
      }
      names := names - {name};
    }
  }

  lemma {:induction false} StillApart(a: Enabled, b: Enabled, c: Enabled)
    requires Leq(a, b) && a != b && Leq(b, c)
    ensures a != c
  {
    if a == c {
      assert forall k :: k in a ==> a[k] == b[k];
    }
  }

  /** The packages asked for, each enabled with the features asked for; a stranger is refused. */
  method EnableRoots(ws: Workspace, packages: seq<string>, features: set<string>, default: bool)
    returns (r: Result<Enabled>)
    requires ws.Valid()
    ensures r.Ok? <==> forall p :: p in packages ==> p in ws.crates
    ensures r.Ok? ==>
              RootsIn(ws, packages, features, default, r.value) && Below(ws, packages, features, default, r.value)
  {
    var e: Enabled := map[];
    for i := 0 to |packages|
      invariant e.Keys <= ws.crates.Keys
      invariant forall j :: 0 <= j < i ==> packages[j] in ws.crates
      invariant RootsIn(ws, packages[..i], features, default, e)
      invariant Least(ws, packages, features, default, e)
    {
      if packages[i] !in ws.crates {
        return Err;
      }
      ghost var before := e;
      var changed;
      e, changed := Enable(ws, e, packages[i], features, default);
      forall p | p in packages[..i + 1]
        ensures p in e && p in ws.crates && features <= e[p]
        ensures default && "default" in ws.crates[p].table ==> "default" in e[p]
      {
        assert p in packages[..i] || p == packages[i];
      }
      forall other | Closed(ws, packages, features, default, other) ensures Leq(e, other) {
        assert Leq(before, other) && packages[i] in packages;
      }
    }
    assert packages[..|packages|] == packages;
    r := Ok(e);
  }

  /** Unification: the least assignment closed under every rule, or a refusal of a package that is no member. */
  method Compiled(ws: Workspace, packages: seq<string>, features: set<string>, default: bool)
    returns (r: Result<Enabled>)
    requires ws.Valid()
    ensures r.Ok? <==> forall p :: p in packages ==> p in ws.crates
    ensures r.Ok? ==>
              Closed(ws, packages, features, default, r.value) && Least(ws, packages, features, default, r.value)
    ensures r.Ok? ==>
              && Unified(ws, packages, features, default, r.value)
              && LeastUnified(ws, packages, features, default, r.value)
  {
    var enabled :- EnableRoots(ws, packages, features, default);
    ghost var top := Everything(ws, features);
    EverythingClosed(ws, packages, features, default);
    var active: map<string, set<string>> := map[];
    var changed := true;
    while changed
      invariant RootsIn(ws, packages, features, default, enabled)
      invariant Below(ws, packages, features, default, enabled) && ActiveSound(ws, enabled, active)
      invariant !changed ==> forall n :: n in enabled ==> CrateClosed(ws, enabled, n)
      decreases |Facts(top) - Facts(enabled)|, changed
    {
      ghost var before := enabled;
      enabled, active, changed := VisitAll(ws, enabled, active, packages, features, default, top);
      if before != enabled {
        FactsGrow(before, enabled, top);
      }
    }
    LeastIsUnified(ws, packages, features, default, enabled);
    r := Ok(enabled);
  }
}
