/** The schema registry's rule for when a reader reads all that a writer emits. */
module SchemaRegistry {

  // A reader of one revision must read every document a writer of another emits. `rx(pattern, text)` is the
  // regular-expression engine's answer.

  import opened Wrappers

  // ---- documents and schemas ----

  datatype Atom = Null | Bool(b: bool) | Number(n: real) | String(s: string)

  datatype Json = Atom(atom: Atom) | Array(elements: seq<Json>) | Object(members: map<string, Json>)

  const TYPES := {"object", "array", "string", "integer", "number", "boolean", "null"}

  /** A JSON Schema over the registry's keywords; `others` holds the keywords outside them. */
  datatype Schema = Schema(
    types: Option<set<string>>,
    values: Option<set<Atom>>,
    open: bool,
    pattern: Option<string>,
    properties: map<string, Schema>,
    required: set<string>,
    items: Option<Schema>,
    others: set<string>)

  const ANYTHING := Schema(None, None, false, None, map[], {}, None, {})

  type Regex = (string, string) -> bool

  /** A number with no fraction is an integer, however it is spelled. */
  predicate HasType(d: Json, t: string) {
    match d
    case Atom(Null) => t == "null"
    case Atom(Bool(_)) => t == "boolean"
    case Atom(Number(n)) => t == "number" || (t == "integer" && n.Floor as real == n)
    case Atom(String(_)) => t == "string"
    case Array(_) => t == "array"
    case Object(_) => t == "object"
  }

  /** The type names there are: those some document has. */
  lemma {:induction false} TypesAreThoseShown(t: string)
    ensures t in TYPES <==> exists d :: HasType(d, t)
  {
    assert HasType(Atom(Null), "null") && HasType(Atom(Bool(true)), "boolean") && HasType(Atom(String("")), "string");
    assert HasType(Atom(Number(0.0)), "integer") && HasType(Atom(Number(0.0)), "number");
    assert HasType(Array([]), "array") && HasType(Object(map[]), "object");
  }

  predicate TypesAdmit(types: Option<set<string>>, d: Json) {
    types.Some? ==> exists t :: t in types.value && HasType(d, t)
  }

  predicate PatternAdmits(pattern: Option<string>, d: Json, rx: Regex) {
    pattern.Some? && d.Atom? && d.atom.String? ==> rx(pattern.value, d.atom.s)
  }

  /** A writer of `w` may produce `d`: declared members only, every required member, its enum. */
  ghost predicate Emits(w: Schema, d: Json, rx: Regex)
    decreases w
  {
    && TypesAdmit(w.types, d)
    && (w.values.Some? ==> d.Atom? && d.atom in w.values.value)
    && PatternAdmits(w.pattern, d, rx)
    && (d.Object? ==>
          && w.required <= d.members.Keys <= w.properties.Keys
          && forall n :: n in d.members ==> Emits(w.properties[n], d.members[n], rx))
    && (d.Array? && w.items.Some? ==> forall e :: e in d.elements ==> Emits(w.items.value, e, rx))
  }

  /** A reader of `r` takes `d`: undeclared members are ignored and an open enum admits any value. */
  ghost predicate Accepts(r: Schema, d: Json, rx: Regex)
    decreases r
  {
    && TypesAdmit(r.types, d)
    && (r.values.Some? && !r.open ==> d.Atom? && d.atom in r.values.value)
    && PatternAdmits(r.pattern, d, rx)
    && (d.Object? ==>
          && r.required <= d.members.Keys
          && forall n :: n in d.members && n in r.properties ==> Accepts(r.properties[n], d.members[n], rx))
    && (d.Array? && r.items.Some? ==> forall e :: e in d.elements ==> Accepts(r.items.value, e, rx))
  }

  /** What compatibility is for. */
  ghost predicate ReadsAll(r: Schema, w: Schema, rx: Regex) {
    forall d :: Emits(w, d, rx) ==> Accepts(r, d, rx)
  }

  // ---- the registry's rules ----

  datatype Problem = Keyword | UnknownType | Undeclared | Type | Values | Pattern | MayOmit | Items

  datatype Finding = Finding(at: string, problem: Problem)

  predicate Clean(s: Schema) {
    && s.others == {}
    && (s.types.Some? ==> s.types.value <= TYPES)
    && (forall n | n in s.properties :: Clean(s.properties[n]))
    && s.required <= s.properties.Keys
    && (s.items.Some? ==> Clean(s.items.value))
  }

  predicate TypesRead(want: Option<set<string>>, have: Option<set<string>>) {
    want.Some? ==>
      && have.Some?
      && forall t | t in have.value :: t in want.value || (t == "integer" && "number" in want.value)
  }

  /** Python compares `True` equal to 1 and `False` to 0, in a set as anywhere. */
  function PythonKey(a: Atom): Atom {
    if a.Bool? then Number(if a.b then 1.0 else 0.0) else a
  }

  predicate InPythonSet(a: Atom, values: set<Atom>) {
    exists b :: b in values && PythonKey(a) == PythonKey(b)
  }

  predicate ValuesRead(r: Schema, w: Schema) {
    r.values.Some? && !r.open ==>
      w.values.Some? && forall a | a in w.values.value :: InPythonSet(a, r.values.value)
  }

  predicate PatternRead(r: Schema, w: Schema) {
    r.pattern.Some? ==> w.pattern == r.pattern
  }

  /** The rule `readable` reports against. */
  predicate Reads(r: Schema, w: Schema)
    decreases r
  {
    && TypesRead(r.types, w.types)
    && ValuesRead(r, w)
    && PatternRead(r, w)
    && (forall n | n in r.properties ::
          && (n in r.required ==> n in w.required)
          && (n in w.properties ==> Reads(r.properties[n], w.properties[n])))
    && (r.items.Some? ==> w.items.Some? && Reads(r.items.value, w.items.value))
  }

  predicate Full(old_: Schema, new_: Schema) {
    Reads(new_, old_) && Reads(old_, new_)
  }

  function Under(at: string, name: string): string {
    if at == "" then name else at + "." + name
  }

  // ---- what a report lists ----

  /** A step down in a schema: to a property, or to the items. */
  datatype Step = Into(name: string) | Each

  ghost function Below(s: Schema, path: seq<Step>): Option<Schema>
    decreases |path|
  {
    if path == [] then Some(s)
    else if path[0].Into? then
      if path[0].name in s.properties then Below(s.properties[path[0].name], path[1..]) else None
    else
      if s.items.Some? then Below(s.items.value, path[1..]) else None
  }

  /** The place a path leads to from `at`: names behind dots, the items of a list behind `[]`. */
  ghost function PlaceOf(at: string, path: seq<Step>): string
    decreases |path|
  {
    if path == [] then at
    else if path[0].Each? then PlaceOf(at + "[]", path[1..])
    else PlaceOf(if at == "" then path[0].name else at + "." + path[0].name, path[1..])
  }

  /** What is wrong with one place of a schema by itself. */
  ghost predicate Odd(s: Schema, f: Finding, at: string) {
    && f.at == at
    && match f.problem
       case Keyword => exists k :: k in s.others
       case UnknownType => s.types.Some? && exists t :: t in s.types.value && t !in TYPES
       case Undeclared => exists n :: n in s.required && n !in s.properties
       case _ => false
  }

  ghost predicate OddAt(s: Schema, f: Finding, at: string, path: seq<Step>) {
    Below(s, path).Some? && Odd(Below(s, path).value, f, PlaceOf(at, path))
  }

  ghost predicate OddSomewhere(s: Schema, f: Finding, at: string) {
    exists path :: OddAt(s, f, at, path)
  }

  /** What is wrong with one place of a reader and a writer. */
  ghost predicate Broken(r: Schema, w: Schema, f: Finding, at: string) {
    match f.problem
    case Type =>
      f.at == at && r.types.Some? &&
      (w.types.Some? ==> exists t :: t in w.types.value && t !in r.types.value &&
                           (t == "integer" ==> "number" !in r.types.value))
    case Values =>
      f.at == at && r.values.Some? && !r.open &&
      (w.values.Some? ==> exists a :: a in w.values.value && !InPythonSet(a, r.values.value))
    case Pattern => f.at == at && r.pattern.Some? && w.pattern != r.pattern
    case MayOmit =>
      exists n :: n in r.properties && n in r.required && n !in w.required && f.at == PlaceOf(at, [Into(n)])
    case Items => r.items.Some? && w.items.None? && f.at == at + "[]"
    case _ => false
  }

  ghost predicate BrokenAt(r: Schema, w: Schema, f: Finding, at: string, path: seq<Step>) {
    && Below(r, path).Some? && Below(w, path).Some?
    && Broken(Below(r, path).value, Below(w, path).value, f, PlaceOf(at, path))
  }

  ghost predicate BrokenSomewhere(r: Schema, w: Schema, f: Finding, at: string) {
    exists path :: BrokenAt(r, w, f, at, path)
  }

  ghost predicate OddBelow(s: Schema, f: Finding, at: string, names: set<string>) {
    exists n :: n in s.properties && n in names && OddSomewhere(s.properties[n], f, Under(at, n))
  }

  /** What is odd somewhere is odd here, under some property, or under the items. */
  lemma {:induction false} OddParts(s: Schema, f: Finding, at: string)
    ensures OddSomewhere(s, f, at) <==>
            || Odd(s, f, at) || OddBelow(s, f, at, s.properties.Keys)
            || (s.items.Some? && OddSomewhere(s.items.value, f, at + "[]"))
  {
    if path: seq<Step> :| OddAt(s, f, at, path) {
      if path != [] {
        if path[0].Into? {
          assert OddAt(s.properties[path[0].name], f, Under(at, path[0].name), path[1..]);
        } else {
          assert OddAt(s.items.value, f, at + "[]", path[1..]);
        }
      }
    }
    if Odd(s, f, at) {
      assert OddAt(s, f, at, []);
    }
    if OddBelow(s, f, at, s.properties.Keys) {
      var n :| n in s.properties && OddSomewhere(s.properties[n], f, Under(at, n));
      var path :| OddAt(s.properties[n], f, Under(at, n), path);
      StepInto(s, n, path, at);
      assert OddAt(s, f, at, [Into(n)] + path);
    }
    if s.items.Some? && OddSomewhere(s.items.value, f, at + "[]") {
      var path :| OddAt(s.items.value, f, at + "[]", path);
      StepEach(s, path, at);
      assert OddAt(s, f, at, [Each] + path);
    }
  }

  lemma {:induction false} StepInto(s: Schema, n: string, path: seq<Step>, at: string)
    ensures n in s.properties ==> Below(s, [Into(n)] + path) == Below(s.properties[n], path)
    ensures PlaceOf(at, [Into(n)] + path) == PlaceOf(Under(at, n), path)
  {
    assert ([Into(n)] + path)[1..] == path;
  }

  lemma {:induction false} StepEach(s: Schema, path: seq<Step>, at: string)
    ensures s.items.Some? ==> Below(s, [Each] + path) == Below(s.items.value, path)
    ensures PlaceOf(at, [Each] + path) == PlaceOf(at + "[]", path)
  {
    assert ([Each] + path)[1..] == path;
  }

  /** The findings about the place itself, but for what it requires. */
  method OddHere(s: Schema, at: string) returns (found: seq<Finding>)
    ensures found == [] <==> s.others == {} && (s.types.Some? ==> s.types.value <= TYPES)
    ensures forall f :: f in found <==> Odd(s, f, at) && !f.problem.Undeclared?
  {
    found := [];
    if s.others != {} {
      found := found + [Finding(at, Keyword)];
    }
    if s.types.Some? && !(s.types.value <= TYPES) {
      found := found + [Finding(at, UnknownType)];
    }
  }

  method KeywordViolations(s: Schema, at: string) returns (found: seq<Finding>)
    ensures found == [] <==> Clean(s)
    ensures forall f :: f in found <==> OddSomewhere(s, f, at)
    decreases s
  {
    found := OddHere(s, at);
    var names := s.properties.Keys;
    ghost var before := found;
    while names != {}
      invariant names <= s.properties.Keys
      invariant found == [] <==> before == [] && forall n | n in s.properties && n !in names :: Clean(s.properties[n])
      invariant forall f :: f in found <==> f in before || OddBelow(s, f, at, s.properties.Keys - names)
      decreases |names|
    {
      var n :| n in names;
      var inner := KeywordViolations(s.properties[n], Under(at, n));
      found := found + inner;
      names := names - {n};
    }
    if !(s.required <= s.properties.Keys) {
      found := found + [Finding(at, Undeclared)];
    }
    if s.items.Some? {
      var inner := KeywordViolations(s.items.value, at + "[]");
      found := found + inner;
    }
    forall f ensures f in found <==> OddSomewhere(s, f, at) {
      OddParts(s, f, at);
    }
  }

  /** The rule for the members other than `rest`. */
  ghost predicate MembersRead(r: Schema, w: Schema, rest: set<string>) {
    forall n | n in r.properties && n !in rest ::
      && (n in r.required ==> n in w.required)
      && (n in w.properties ==> Reads(r.properties[n], w.properties[n]))
  }

  lemma {:induction false} MembersNext(r: Schema, w: Schema, rest: set<string>, n: string)
    requires n in rest && rest <= r.properties.Keys
    ensures MembersRead(r, w, rest - {n}) <==>
            && MembersRead(r, w, rest)
            && (n in r.required ==> n in w.required)
            && (n in w.properties ==> Reads(r.properties[n], w.properties[n]))
  {
  }

  ghost predicate BrokenBelow(r: Schema, w: Schema, f: Finding, at: string, names: set<string>) {
    exists n :: n in r.properties && n in names && BrokenMember(r, w, f, at, n)
  }

  /** A property the writer may omit, or one that is broken itself. */
  ghost predicate BrokenMember(r: Schema, w: Schema, f: Finding, at: string, n: string)
    requires n in r.properties
  {
    || (f == Finding(Under(at, n), MayOmit) && n in r.required && n !in w.required)
    || (n in w.properties && BrokenSomewhere(r.properties[n], w.properties[n], f, Under(at, n)))
  }

  ghost predicate BrokenItems(r: Schema, w: Schema, f: Finding, at: string) {
    r.items.Some? &&
    if w.items.Some? then BrokenSomewhere(r.items.value, w.items.value, f, at + "[]")
    else f == Finding(at + "[]", Items)
  }

  /** What is broken somewhere is broken here, at some property, or at the items. */
  lemma {:induction false} BrokenParts(r: Schema, w: Schema, f: Finding, at: string)
    ensures BrokenSomewhere(r, w, f, at) <==>
            || (Broken(r, w, f, at) && !f.problem.MayOmit? && !f.problem.Items?)
            || BrokenBelow(r, w, f, at, r.properties.Keys) || BrokenItems(r, w, f, at)
  {
    if path: seq<Step> :| BrokenAt(r, w, f, at, path) {
      if path == [] {
        if f.problem.MayOmit? {
          var n :| n in r.properties && n in r.required && n !in w.required && f.at == PlaceOf(at, [Into(n)]);
          PlaceUnder(at, n);
          assert BrokenMember(r, w, f, at, n);
        }
      } else if path[0].Into? {
        var n := path[0].name;
        assert BrokenAt(r.properties[n], w.properties[n], f, Under(at, n), path[1..]);
        assert BrokenMember(r, w, f, at, n);
      } else {
        assert BrokenAt(r.items.value, w.items.value, f, at + "[]", path[1..]);
      }
    }
    if BrokenBelow(r, w, f, at, r.properties.Keys) {
      var n :| n in r.properties && BrokenMember(r, w, f, at, n);
      MemberBreaks(r, w, f, at, n);
    }
    if BrokenItems(r, w, f, at) {
      ItemsBreak(r, w, f, at);
    }
    if Broken(r, w, f, at) {
      assert BrokenAt(r, w, f, at, []);
    }
  }

  lemma {:induction false} PlaceUnder(at: string, n: string)
    ensures PlaceOf(at, [Into(n)]) == Under(at, n)
  {
    assert [Into(n)][1..] == [];
  }

  lemma {:induction false} MemberBreaks(r: Schema, w: Schema, f: Finding, at: string, n: string)
    requires n in r.properties && BrokenMember(r, w, f, at, n)
    ensures BrokenSomewhere(r, w, f, at)
  {
    PlaceUnder(at, n);
    if f == Finding(Under(at, n), MayOmit) && n in r.required && n !in w.required {
      assert BrokenAt(r, w, f, at, []);
    } else {
      var path :| BrokenAt(r.properties[n], w.properties[n], f, Under(at, n), path);
      StepInto(r, n, path, at);
      StepInto(w, n, path, at);
      assert BrokenAt(r, w, f, at, [Into(n)] + path);
    }
  }

  lemma {:induction false} ItemsBreak(r: Schema, w: Schema, f: Finding, at: string)
    requires BrokenItems(r, w, f, at)
    ensures BrokenSomewhere(r, w, f, at)
  {
    if w.items.Some? {
      var path :| BrokenAt(r.items.value, w.items.value, f, at + "[]", path);
      StepEach(r, path, at);
      StepEach(w, path, at);
      assert BrokenAt(r, w, f, at, [Each] + path);
    } else {
      assert BrokenAt(r, w, f, at, []);
    }
  }

  /** The findings about the place itself. */
  method ReadableHere(r: Schema, w: Schema, at: string) returns (found: seq<Finding>)
    ensures found == [] <==> TypesRead(r.types, w.types) && ValuesRead(r, w) && PatternRead(r, w)
    ensures forall f :: f in found <==> Broken(r, w, f, at) && !f.problem.MayOmit? && !f.problem.Items?
  {
    found := [];
    if !TypesRead(r.types, w.types) {
      found := found + [Finding(at, Type)];
    }
    if !ValuesRead(r, w) {
      found := found + [Finding(at, Values)];
    }
    if !PatternRead(r, w) {
      found := found + [Finding(at, Pattern)];
    }
  }

  method Readable(r: Schema, w: Schema, at: string) returns (found: seq<Finding>)
    ensures found == [] <==> Reads(r, w)
    ensures forall f :: f in found <==> BrokenSomewhere(r, w, f, at)
    decreases r
  {
    found := ReadableHere(r, w, at);
    var names := r.properties.Keys;
    ghost var before := found;
    while names != {}
      invariant names <= r.properties.Keys
      invariant found == [] <==> before == [] && MembersRead(r, w, names)
      invariant forall f :: f in found <==> f in before || BrokenBelow(r, w, f, at, r.properties.Keys - names)
      decreases |names|
    {
      var n :| n in names;
      MembersNext(r, w, names, n);
      if n in r.required && n !in w.required {
        found := found + [Finding(Under(at, n), MayOmit)];
      }
      if n in w.properties {
        var inner := Readable(r.properties[n], w.properties[n], Under(at, n));
        found := found + inner;
      }
      names := names - {n};
    }
    if r.items.Some? && w.items.Some? {
      var inner := Readable(r.items.value, w.items.value, at + "[]");
      found := found + inner;
    } else if r.items.Some? {
      found := found + [Finding(at + "[]", Items)];
    }
    forall f ensures f in found <==> BrokenSomewhere(r, w, f, at) {
      BrokenParts(r, w, f, at);
    }
  }

  // ---- soundness, exactly ----

  /** A writer of `w` can produce something. */
  ghost predicate CanEmit(w: Schema, rx: Regex)
    decreases w
  {
    if w.values.Some? then
      exists a :: a in w.values.value && EmitsAtom(w, a, rx)
    else
      || w.types.None?
      || w.types.value * {"null", "boolean", "integer", "number", "array"} != {}
      || ("string" in w.types.value && (w.pattern.Some? ==> exists s :: rx(w.pattern.value, s)))
      || ("object" in w.types.value
          && forall n :: n in w.required ==> n in w.properties && CanEmit(w.properties[n], rx))
  }

  ghost predicate EmitsAtom(w: Schema, a: Atom, rx: Regex) {
    && TypesAdmit(w.types, Atom(a))
    && (w.values.Some? ==> a in w.values.value)
    && PatternAdmits(w.pattern, Atom(a), rx)
  }

  ghost predicate EmitsObjects(w: Schema, rx: Regex)
  {
    && w.values.None?
    && (w.types.Some? ==> "object" in w.types.value)
    && forall n :: n in w.required ==> n in w.properties && CanEmit(w.properties[n], rx)
  }

  ghost predicate EmitsArrays(w: Schema) {
    w.values.None? && (w.types.Some? ==> "array" in w.types.value)
  }

  /** No value a writer can reach is taken for another by Python's equality: where the reader holds an
      enum closed, it lists each emitted value itself, not only a boolean for a number. */
  ghost predicate Unconfused(r: Schema, w: Schema, rx: Regex)
    decreases r
  {
    && (r.values.Some? && !r.open && w.values.Some? ==>
          forall a :: a in w.values.value && EmitsAtom(w, a, rx) ==> a in r.values.value)
    && (EmitsObjects(w, rx) ==>
          forall n :: n in r.properties && n in w.properties ==> Unconfused(r.properties[n], w.properties[n], rx))
    && (EmitsArrays(w) && r.items.Some? && w.items.Some? ==> Unconfused(r.items.value, w.items.value, rx))
  }

  lemma {:induction false} EmptyArrayEmitted(w: Schema, rx: Regex)
    requires EmitsArrays(w)
    ensures Emits(w, Array([]), rx)
  {
    if w.types.Some? {
      assert HasType(Array([]), "array");
    }
  }

  /** A document of `w` with one member chosen: the others are any document each can be. */
  lemma {:induction false} ObjectWith(w: Schema, n: string, d: Json, rx: Regex) returns (o: Json)
    requires EmitsObjects(w, rx) && n in w.properties && Emits(w.properties[n], d, rx)
    ensures Emits(w, o, rx) && o.Object? && n in o.members && o.members[n] == d
    decreases w, 1
  {
    var members := Required(w, w.required, rx);
    o := Object(members[n := d]);
    assert w.types.Some? ==> HasType(o, "object");
  }

  lemma {:induction false} Required(w: Schema, names: set<string>, rx: Regex) returns (members: map<string, Json>)
    requires forall n :: n in names ==> n in w.properties && CanEmit(w.properties[n], rx)
    ensures members.Keys == names
    ensures forall n :: n in members ==> Emits(w.properties[n], members[n], rx)
    decreases w, 0, |names|
  {
    if names == {} {
      members := map[];
    } else {
      var n :| n in names;
      members := Required(w, names - {n}, rx);
      var d := Example(w.properties[n], rx);
      members := members[n := d];
    }
  }

  lemma {:induction false} Example(w: Schema, rx: Regex) returns (d: Json)
    requires CanEmit(w, rx)
    ensures Emits(w, d, rx)
    decreases w, 2
  {
    if w.values.Some? {
      var a :| a in w.values.value && EmitsAtom(w, a, rx);
      d := Atom(a);
    } else if w.types.None? || "array" in w.types.value {
      EmptyArrayEmitted(w, rx);
      d := Array([]);
    } else if w.types.value * {"null", "boolean", "integer", "number"} != {} {
      d := if "null" in w.types.value then Atom(Null)
      else if "boolean" in w.types.value then Atom(Bool(true)) else Atom(Number(0.0));
      assert HasType(Atom(Number(0.0)), "integer") && HasType(Atom(Number(0.0)), "number");
      assert HasType(Atom(Null), "null") && HasType(Atom(Bool(true)), "boolean");
    } else if "string" in w.types.value && (w.pattern.Some? ==> exists s :: rx(w.pattern.value, s)) {
      var s: string :| w.pattern.Some? ==> rx(w.pattern.value, s);
      d := Atom(String(s));
      assert HasType(d, "string");
    } else {
      var members := Required(w, w.required, rx);
      d := Object(members);
      assert HasType(d, "object");
    }
  }

  lemma {:induction false} EmittedMeansCan(w: Schema, d: Json, rx: Regex)
    requires Emits(w, d, rx)
    ensures CanEmit(w, rx)
    decreases w
  {
    if w.values.Some? {
      assert EmitsAtom(w, d.atom, rx);
    } else if w.types.Some? {
      var t :| t in w.types.value && HasType(d, t);
      if d.Object? {
        assert "object" in w.types.value;
        forall n | n in w.required ensures n in w.properties && CanEmit(w.properties[n], rx) {
          EmittedMeansCan(w.properties[n], d.members[n], rx);
        }
      } else if t == "string" {
        assert "string" in w.types.value;
        assert w.pattern.Some? ==> rx(w.pattern.value, d.atom.s);
      } else {
        assert t in w.types.value * {"null", "boolean", "integer", "number", "array"};
      }
    }
  }

  ghost predicate EmitsSome(w: Schema, rx: Regex) {
    exists d :: Emits(w, d, rx)
  }

  /** `CanEmit` is what it says. */
  lemma {:induction false} CanEmitExactly(w: Schema, rx: Regex)
    ensures CanEmit(w, rx) <==> EmitsSome(w, rx)
  {
    if CanEmit(w, rx) {
      var d := Example(w, rx);
      assert EmitsSome(w, rx);
    }
    if EmitsSome(w, rx) {
      var d :| Emits(w, d, rx);
      EmittedMeansCan(w, d, rx);
    }
  }

  lemma {:induction false} TypesReadSound(want: Option<set<string>>, have: Option<set<string>>, d: Json)
    requires TypesRead(want, have) && TypesAdmit(have, d)
    ensures TypesAdmit(want, d)
  {
    if want.Some? {
      var t :| t in have.value && HasType(d, t);
      if t !in want.value {
        assert HasType(d, "number");
      }
    }
  }

  /** Soundness: under no confusion of booleans with numbers, an empty report means every document the
      writer emits is accepted, at every depth. */
  lemma {:induction false} ReadsIsSound(r: Schema, w: Schema, d: Json, rx: Regex)
    requires Clean(r) && Clean(w) && Reads(r, w) && Unconfused(r, w, rx)
    requires Emits(w, d, rx)
    ensures Accepts(r, d, rx)
    decreases d
  {
    TypesReadSound(r.types, w.types, d);
    match d
    case Atom(a) =>
      assert w.values.Some? ==> EmitsAtom(w, a, rx);
    case Array(elements) =>
      forall e | r.items.Some? && e in elements ensures Accepts(r.items.value, e, rx) {
        ReadsIsSound(r.items.value, w.items.value, e, rx);
      }
    case Object(members) =>
      forall n | n in w.required ensures CanEmit(w.properties[n], rx) {
        EmittedMeansCan(w.properties[n], members[n], rx);
      }
      forall n | n in members && n in r.properties ensures Accepts(r.properties[n], members[n], rx) {
        ReadsIsSound(r.properties[n], w.properties[n], members[n], rx);
      }
  }

  /** A confusion the writer can reach is a document the reader refuses. */
  lemma {:induction false} ConfusionRefused(r: Schema, w: Schema, rx: Regex) returns (d: Json)
    requires !Unconfused(r, w, rx)
    ensures Emits(w, d, rx) && !Accepts(r, d, rx)
    decreases r
  {
    if r.values.Some? && !r.open && w.values.Some? &&
       exists a :: a in w.values.value && EmitsAtom(w, a, rx) && a !in r.values.value {
      var a :| a in w.values.value && EmitsAtom(w, a, rx) && a !in r.values.value;
      d := Atom(a);
    } else if EmitsObjects(w, rx) &&
              exists n :: n in r.properties && n in w.properties && !Unconfused(r.properties[n], w.properties[n], rx) {
      var n :| n in r.properties && n in w.properties && !Unconfused(r.properties[n], w.properties[n], rx);
      var inner := ConfusionRefused(r.properties[n], w.properties[n], rx);
      d := ObjectWith(w, n, inner, rx);
    } else {
      var inner := ConfusionRefused(r.items.value, w.items.value, rx);
      d := Array([inner]);
      assert w.types.Some? ==> HasType(d, "array");
      assert inner in d.elements;
    }
  }

  /** An empty report is right exactly when no enum value the writer reaches is confused. */
  lemma {:induction false} ReadsIsSoundExactly(r: Schema, w: Schema, rx: Regex)
    requires Clean(r) && Clean(w) && Reads(r, w)
    ensures ReadsAll(r, w, rx) <==> Unconfused(r, w, rx)
  {
    if Unconfused(r, w, rx) {
      forall d | Emits(w, d, rx) ensures Accepts(r, d, rx) {
        ReadsIsSound(r, w, d, rx);
      }
    } else {
      var d := ConfusionRefused(r, w, rx);
    }
  }

  /** What Python finds in a set: the value itself, and of true and 1, and of false and 0, each for the other. */
  lemma {:induction false} FoundExactly(a: Atom, values: set<Atom>)
    ensures InPythonSet(a, values) <==>
            || a in values
            || (a == Bool(true) && Number(1.0) in values) || (a == Number(1.0) && Bool(true) in values)
            || (a == Bool(false) && Number(0.0) in values) || (a == Number(0.0) && Bool(false) in values)
  {
    if a in values {
      assert PythonKey(a) == PythonKey(a);
    }
    assert PythonKey(Bool(true)) == PythonKey(Number(1.0)) && PythonKey(Bool(false)) == PythonKey(Number(0.0));
  }

  /** The confusion happens: a reader of the closed enum `[true]` passes for a reader of `[1]`. */
  lemma {:induction false} ReadsConfusesTrueWithOne(rx: Regex)
    ensures var r := ANYTHING.(values := Some({Bool(true)}));
            var w := ANYTHING.(values := Some({Number(1.0)}));
            Clean(r) && Clean(w) && Reads(r, w) && !ReadsAll(r, w, rx)
  {
    var r := ANYTHING.(values := Some({Bool(true)}));
    var w := ANYTHING.(values := Some({Number(1.0)}));
    assert Emits(w, Atom(Number(1.0)), rx);
    assert PythonKey(Bool(true)) == PythonKey(Number(1.0));
    assert ValuesRead(r, w) by {
      forall a | a in w.values.value ensures InPythonSet(a, r.values.value) {
        assert a == Number(1.0) && Bool(true) in r.values.value;
      }
    }
  }

  /** Every enum of the schema lists strings and nulls only, as the registry's do. */
  predicate PlainEnums(s: Schema) {
    && (s.values.Some? ==> forall a | a in s.values.value :: a.String? || a.Null?)
    && (forall n | n in s.properties :: PlainEnums(s.properties[n]))
    && (s.items.Some? ==> PlainEnums(s.items.value))
  }

  lemma {:induction false} PlainEnumsUnconfused(r: Schema, w: Schema, rx: Regex)
    requires Reads(r, w) && PlainEnums(w)
    ensures Unconfused(r, w, rx)
    decreases r
  {
    if r.values.Some? && !r.open && w.values.Some? {
      forall a | a in w.values.value ensures a in r.values.value {
        assert InPythonSet(a, r.values.value);
      }
    }
    forall n | n in r.properties && n in w.properties ensures Unconfused(r.properties[n], w.properties[n], rx) {
      PlainEnumsUnconfused(r.properties[n], w.properties[n], rx);
    }
    if r.items.Some? {
      PlainEnumsUnconfused(r.items.value, w.items.value, rx);
    }
  }

  // ---- when a report is right ----

  /** Every place shows what it declares: some type, a value of each where it lists values (texts and null), a pattern
      only for texts, items exactly where arrays may stand and members only where objects may. */
  predicate Told(w: Schema) {
    && w.types.Some? && w.types.value != {}
    && (w.values.Some? ==>
          w.pattern.None? && w.types.value <= {"string", "null"} && ListsEach(w.types.value, w.values.value))
    && (w.pattern.Some? ==> "string" in w.types.value)
    && (w.items.Some? <==> "array" in w.types.value)
    && (w.properties != map[] ==> "object" in w.types.value)
    && (forall n | n in w.properties :: Told(w.properties[n]))
    && (w.items.Some? ==> Told(w.items.value))
  }

  /** The values are texts and null, of the listed types, and each type has one. */
  predicate ListsEach(types: set<string>, values: set<Atom>) {
    && (forall a | a in values :: (a.String? && "string" in types) || (a.Null? && "null" in types))
    && ("null" in types ==> Null in values)
    && ("string" in types ==> exists a :: a in values && a.String?)
  }

  /** What the reader asks about, the writer has: arrays for its items, objects for its required members, texts for its
      pattern, and more than null and booleans for its closed enum. */
  predicate Answered(r: Schema, w: Schema)
    decreases r
  {
    && (r.items.Some? ==> w.items.Some? && Answered(r.items.value, w.items.value))
    && (r.required != {} ==> w.types.Some? && "object" in w.types.value)
    && (r.pattern.Some? ==> w.types.Some? && "string" in w.types.value)
    && (r.values.Some? && !r.open && w.values.None? ==> w.types.Some? && !(w.types.value <= {"null", "boolean"}))
    && (forall n | n in r.properties && n in w.properties :: Answered(r.properties[n], w.properties[n]))
  }

  lemma {:induction false} ToldIsPlain(w: Schema)
    requires Told(w)
    ensures PlainEnums(w)
    decreases w
  {
    forall n | n in w.properties ensures PlainEnums(w.properties[n]) {
      ToldIsPlain(w.properties[n]);
    }
    if w.items.Some? {
      ToldIsPlain(w.items.value);
    }
  }

  lemma {:induction false} ReadsIsAnswered(r: Schema, w: Schema)
    requires Clean(r) && Clean(w) && Told(w) && Reads(r, w)
    ensures Answered(r, w)
    decreases r
  {
    if r.required != {} {
      var n :| n in r.required;
      assert n in r.properties && n in w.required && n in w.properties;
    }
    forall n | n in r.properties && n in w.properties ensures Answered(r.properties[n], w.properties[n]) {
      ReadsIsAnswered(r.properties[n], w.properties[n]);
    }
    if r.items.Some? {
      ReadsIsAnswered(r.items.value, w.items.value);
    }
  }

  /** Every pattern matches something. */
  ghost predicate Generous(rx: Regex) {
    forall p :: Matched(rx, p)
  }

  ghost predicate Matched(rx: Regex, p: string) {
    exists s :: rx(p, s)
  }

  /** The engine for which one pattern refuses one text, and everything else matches. */
  function Refusing(pattern: string, text: string): Regex {
    (p: string, s: string) => !(p == pattern && s == text)
  }

  lemma {:induction false} RefusingIsGenerous(pattern: string, text: string)
    ensures Generous(Refusing(pattern, text))
  {
    forall p ensures Matched(Refusing(pattern, text), p) {
      assert |text + "x"| != |text|;
      assert Refusing(pattern, text)(p, text + "x");
    }
  }

  lemma {:induction false} ToldCanEmit(w: Schema, rx: Regex)
    requires Clean(w) && Told(w) && Generous(rx)
    ensures CanEmit(w, rx)
    decreases w
  {
    forall n | n in w.properties ensures CanEmit(w.properties[n], rx) {
      ToldCanEmit(w.properties[n], rx);
    }
    var t :| t in w.types.value;
    assert t in TYPES;
    if w.values.Some? {
      var a := ListedEmitted(w, t, rx);
    } else if t == "string" {
      assert w.pattern.Some? ==> Matched(rx, w.pattern.value);
    } else if t != "object" {
      assert t in w.types.value * {"null", "boolean", "integer", "number", "array"};
    }
  }

  lemma {:induction false} ValueEmitted(w: Schema, a: Atom, rx: Regex)
    requires Told(w) && w.values.Some? && a in w.values.value
    ensures EmitsAtom(w, a, rx) && Emits(w, Atom(a), rx)
  {
    assert HasType(Atom(a), if a.String? then "string" else "null");
  }

  lemma {:induction false} ListedEmitted(w: Schema, t: string, rx: Regex) returns (a: Atom)
    requires Told(w) && w.values.Some? && t in w.types.value
    ensures a in w.values.value && EmitsAtom(w, a, rx) && Emits(w, Atom(a), rx)
    ensures if t == "null" then a.Null? else t == "string" && a.String?
  {
    if t == "null" {
      a := Null;
    } else {
      assert t == "string";
      a :| a in w.values.value && a.String?;
    }
    ValueEmitted(w, a, rx);
  }

  lemma {:induction false} ToldObjects(w: Schema, rx: Regex)
    requires Clean(w) && Told(w) && Generous(rx) && "object" in w.types.value
    ensures EmitsObjects(w, rx)
  {
    forall n | n in w.required ensures n in w.properties && CanEmit(w.properties[n], rx) {
      ToldCanEmit(w.properties[n], rx);
    }
  }

  /** A text the writer emits. */
  lemma {:induction false} TextShown(w: Schema, s: string, rx: Regex)
    requires Told(w) && w.values.None? && "string" in w.types.value && (w.pattern.Some? ==> rx(w.pattern.value, s))
    ensures Emits(w, Atom(String(s)), rx)
  {
    assert HasType(Atom(String(s)), "string");
  }

  lemma {:induction false} NumberShown(w: Schema, x: real, rx: Regex)
    requires Told(w) && w.values.None?
    requires "number" in w.types.value || ("integer" in w.types.value && x.Floor as real == x)
    ensures Emits(w, Atom(Number(x)), rx)
  {
    assert HasType(Atom(Number(x)), "number");
    assert x.Floor as real == x ==> HasType(Atom(Number(x)), "integer");
  }

  /** A document of one type only; a number that is no integer where the type says number. */
  lemma {:induction false} Shown(w: Schema, t: string, rx: Regex) returns (d: Json)
    requires Clean(w) && Told(w) && Generous(rx) && t in w.types.value
    ensures Emits(w, d, rx) && HasType(d, t)
    ensures forall u :: HasType(d, u) ==> u == t || (t == "integer" && u == "number")
  {
    assert t in TYPES;
    if w.values.Some? {
      var a := ListedEmitted(w, t, rx);
      d := Atom(a);
    } else if t == "object" {
      ToldObjects(w, rx);
      var members := Required(w, w.required, rx);
      d := Object(members);
      assert HasType(d, t);
    } else if t == "array" {
      d := Array([]);
      assert HasType(d, t);
    } else if t == "string" {
      assert w.pattern.Some? ==> Matched(rx, w.pattern.value);
      var s: string :| w.pattern.Some? ==> rx(w.pattern.value, s);
      TextShown(w, s, rx);
      d := Atom(String(s));
    } else if t == "integer" || t == "number" {
      var x := if t == "integer" then 0.0 else 0.5;
      assert 0.5.Floor as real != 0.5 && 0.0.Floor as real == 0.0;
      NumberShown(w, x, rx);
      d := Atom(Number(x));
    } else {
      d := Atom(if t == "null" then Null else Bool(true));
      assert HasType(d, t);
    }
  }

  /** A document without a member the writer does not require. */
  lemma {:induction false} Omitting(w: Schema, n: string, rx: Regex) returns (d: Json)
    requires Clean(w) && Told(w) && Generous(rx) && "object" in w.types.value && n !in w.required
    ensures Emits(w, d, rx) && d.Object? && n !in d.members
  {
    ToldObjects(w, rx);
    var members := Required(w, w.required, rx);
    d := Object(members);
    assert HasType(d, "object");
  }

  lemma {:induction false} LongerThanAll(values: set<Atom>) returns (n: nat)
    ensures forall a :: a in values && a.String? ==> |a.s| < n
    ensures forall a :: a in values && a.Number? ==> a.n < n as real
    decreases |values|
  {
    if values == {} {
      n := 0;
    } else {
      var a :| a in values;
      var m := LongerThanAll(values - {a});
      var k: nat := if a.String? then |a.s| else if a.Number? && a.n > 0.0 then a.n.Floor else 0;
      n := m + k + 1;
      forall b | b in values ensures (b.String? ==> |b.s| < n) && (b.Number? ==> b.n < n as real) {
        if b != a {
          assert b in values - {a};
        }
      }
    }
  }

  /** Beside null and booleans a place without listed values shows more than any list holds. */
  lemma {:induction false} Unlisted(w: Schema, values: set<Atom>, rx: Regex) returns (d: Json)
    requires Clean(w) && Told(w) && w.values.None? && !(w.types.value <= {"null", "boolean"})
    requires forall p, s :: rx(p, s)
    ensures Emits(w, d, rx) && (d.Atom? ==> d.atom !in values)
  {
    var t :| t in w.types.value && t !in {"null", "boolean"};
    assert t in TYPES;
    assert Generous(rx) by {
      forall p ensures Matched(rx, p) {
        assert rx(p, "");
      }
    }
    var n := LongerThanAll(values);
    if t == "string" {
      var s := seq(n, _ => 'x');
      TextShown(w, s, rx);
      d := Atom(String(s));
    } else if t == "integer" || t == "number" {
      assert (n as real).Floor as real == n as real;
      NumberShown(w, n as real, rx);
      d := Atom(Number(n as real));
    } else {
      d := Shown(w, t, rx);
    }
  }

  function Always(): Regex {
    (p: string, s: string) => true
  }

  lemma {:induction false} AlwaysIsGenerous()
    ensures Generous(Always())
  {
    forall p ensures Matched(Always(), p) {
      assert Always()(p, "");
    }
  }

  /** A report on the place itself, before its members and items. */
  lemma {:induction false} PlaceRefused(r: Schema, w: Schema) returns (rx: Regex, d: Json)
    requires Clean(r) && Clean(w) && Told(w) && Answered(r, w)
    requires !(TypesRead(r.types, w.types) && ValuesRead(r, w) && PatternRead(r, w))
    ensures Generous(rx) && Emits(w, d, rx) && !Accepts(r, d, rx)
  {
    rx := Always();
    AlwaysIsGenerous();
    if !TypesRead(r.types, w.types) {
      var t :| t in w.types.value && t !in r.types.value && !(t == "integer" && "number" in r.types.value);
      d := Shown(w, t, rx);
    } else if !ValuesRead(r, w) {
      if w.values.None? {
        d := Unlisted(w, r.values.value, rx);
      } else {
        var a :| a in w.values.value && !InPythonSet(a, r.values.value);
        ValueEmitted(w, a, rx);
        assert PythonKey(a) == PythonKey(a);
        d := Atom(a);
      }
    } else {
      rx, d := PatternRefused(r, w);
    }
  }

  lemma {:induction false} PatternRefused(r: Schema, w: Schema) returns (rx: Regex, d: Json)
    requires Told(w) && r.pattern.Some? && w.pattern != r.pattern && "string" in w.types.value
    ensures Generous(rx) && Emits(w, d, rx) && !Accepts(r, d, rx)
  {
    var text := "";
    if w.values.Some? {
      var a := ListedEmitted(w, "string", Always());
      text := a.s;
    }
    rx := Refusing(r.pattern.value, text);
    RefusingIsGenerous(r.pattern.value, text);
    d := Atom(String(text));
    if w.values.Some? {
      ValueEmitted(w, String(text), rx);
    } else {
      TextShown(w, text, rx);
    }
  }

  /** A report is proved right by a document that the writer emits and the reader refuses, under some meaning of the
      patterns. */
  lemma {:induction false} ReportedRefused(r: Schema, w: Schema) returns (rx: Regex, d: Json)
    requires Clean(r) && Clean(w) && Told(w) && Answered(r, w) && !Reads(r, w)
    ensures Generous(rx) && Emits(w, d, rx) && !Accepts(r, d, rx)
    decreases r
  {
    if !(TypesRead(r.types, w.types) && ValuesRead(r, w) && PatternRead(r, w)) {
      rx, d := PlaceRefused(r, w);
    } else if n :| n in r.required && n !in w.required {
      rx := Always();
      AlwaysIsGenerous();
      d := Omitting(w, n, rx);
    } else if n :| n in r.properties && n in w.properties && !Reads(r.properties[n], w.properties[n]) {
      rx, d := ReportedRefused(r.properties[n], w.properties[n]);
      d := MemberRefused(r, w, n, rx, d);
    } else {
      rx, d := ReportedRefused(r.items.value, w.items.value);
      d := ItemRefused(r, w, rx, d);
    }
  }

  lemma {:induction false} MemberRefused(r: Schema, w: Schema, n: string, rx: Regex, inner: Json) returns (d: Json)
    requires Clean(w) && Told(w) && Generous(rx) && n in r.properties && n in w.properties
    requires Emits(w.properties[n], inner, rx) && !Accepts(r.properties[n], inner, rx)
    ensures Emits(w, d, rx) && !Accepts(r, d, rx)
  {
    assert w.properties != map[];
    ToldObjects(w, rx);
    d := ObjectWith(w, n, inner, rx);
  }

  lemma {:induction false} ItemRefused(r: Schema, w: Schema, rx: Regex, inner: Json) returns (d: Json)
    requires Told(w) && r.items.Some? && w.items.Some?
    requires Emits(w.items.value, inner, rx) && !Accepts(r.items.value, inner, rx)
    ensures Emits(w, d, rx) && !Accepts(r, d, rx)
  {
    d := Array([inner]);
    assert HasType(d, "array") && inner in d.elements;
  }

  ghost predicate ReadsAlways(r: Schema, w: Schema) {
    forall rx :: ReadsAll(r, w, rx)
  }

  /** Against a writer that shows what it declares, the report is empty if and only if every document is read, whatever
      the patterns mean, and the reader asks about nothing the writer lacks. */
  lemma {:induction false} ReportIsRightExactly(r: Schema, w: Schema)
    requires Clean(r) && Clean(w) && Told(w)
    ensures Reads(r, w) <==> ReadsAlways(r, w) && Answered(r, w)
  {
    if Reads(r, w) {
      ToldIsPlain(w);
      forall rx ensures ReadsAll(r, w, rx) {
        PlainEnumsUnconfused(r, w, rx);
        ReadsIsSoundExactly(r, w, rx);
      }
      ReadsIsAnswered(r, w);
    } else if Answered(r, w) {
      var rx, d := ReportedRefused(r, w);
      assert !ReadsAll(r, w, rx);
    }
  }

  /** A report can be idle: a reader of null or a list of numbers reads every null, and is reported for its items. */
  lemma {:induction false} ReportMayBeIdle()
    ensures var w := ANYTHING.(types := Some({"null"}));
            var r := ANYTHING.(types := Some({"array", "null"}), items := Some(ANYTHING.(types := Some({"number"}))));
            Clean(r) && Clean(w) && Told(w) && ReadsAlways(r, w) && !Reads(r, w)
  {
    var w := ANYTHING.(types := Some({"null"}));
    var r := ANYTHING.(types := Some({"array", "null"}), items := Some(ANYTHING.(types := Some({"number"}))));
    forall rx, d | Emits(w, d, rx) ensures Accepts(r, d, rx) {
      var t :| t in w.types.value && HasType(d, t);
      assert t == "null" && t in r.types.value;
    }
    assert w.types.value == {"null"} && "null" in w.types.value && "null" in TYPES;
  }

  // ---- a major's history ----

  lemma {:induction false} ReadsReflexive(s: Schema)
    ensures Reads(s, s)
    decreases s
  {
    if s.values.Some? {
      forall a | a in s.values.value ensures InPythonSet(a, s.values.value) {
        assert PythonKey(a) == PythonKey(a);
      }
    }
    forall n | n in s.properties ensures Reads(s.properties[n], s.properties[n]) {
      ReadsReflexive(s.properties[n]);
    }
    if s.items.Some? {
      ReadsReflexive(s.items.value);
    }
  }

  /** Compatibility is not transitive: drop an optional field and add it again with another type, and
      neighbours are FULL compatible while the ends are not, on a document the last one writes. */
  lemma {:induction false} ReadsNotTransitive(rx: Regex) returns (a: Schema, b: Schema, c: Schema)
    ensures Clean(a) && Clean(b) && Clean(c)
    ensures Full(a, b) && Full(b, c) && !Reads(a, c) && !ReadsAll(a, c, rx)
  {
    b := ANYTHING.(types := Some({"object"}));
    a := b.(properties := map["x" := ANYTHING.(types := Some({"string"}))]);
    c := b.(properties := map["x" := ANYTHING.(types := Some({"integer"}))]);
    assert HasType(Object(map["x" := Atom(Number(1.0))]), "object");
    assert HasType(Atom(Number(1.0)), "integer");
    assert Emits(c.properties["x"], Atom(Number(1.0)), rx);
    assert Emits(c, Object(map["x" := Atom(Number(1.0))]), rx);
    assert !Accepts(a.properties["x"], Atom(Number(1.0)), rx);
    assert "string" in a.properties["x"].types.value && "integer" in c.properties["x"].types.value;
    assert !Reads(a.properties["x"], c.properties["x"]);
    assert Full(a, b) && Full(b, c) && !Reads(a, c);
  }

  /** The middle revision declares every field the outer two share, and keeps closed what the reader does. */
  predicate Bridges(a: Schema, b: Schema, c: Schema)
    decreases a
  {
    && (a.values.Some? && !a.open ==> !b.open)
    && (forall n | n in a.properties && n in c.properties ::
          n in b.properties && Bridges(a.properties[n], b.properties[n], c.properties[n]))
    && (a.items.Some? && b.items.Some? && c.items.Some? ==> Bridges(a.items.value, b.items.value, c.items.value))
  }

  lemma {:induction false} ReadsTransitive(a: Schema, b: Schema, c: Schema)
    requires Clean(a) && Clean(b) && Clean(c)
    requires Reads(a, b) && Reads(b, c) && Bridges(a, b, c)
    ensures Reads(a, c)
    decreases a
  {
    if a.values.Some? && !a.open {
      forall x | x in c.values.value ensures InPythonSet(x, a.values.value) {
        assert InPythonSet(x, b.values.value);
        var y :| y in b.values.value && PythonKey(x) == PythonKey(y);
        assert InPythonSet(y, a.values.value);
      }
    }
    forall n | n in a.properties
      ensures n in a.required ==> n in c.required
      ensures n in c.properties ==> Reads(a.properties[n], c.properties[n])
    {
      if n in a.required {
        assert n in b.required && n in b.properties;
      }
      if n in c.properties {
        ReadsTransitive(a.properties[n], b.properties[n], c.properties[n]);
      }
    }
    if a.items.Some? {
      ReadsTransitive(a.items.value, b.items.value, c.items.value);
    }
  }

  datatype Revision = Revision(major: nat, number: nat, schema: Schema)

  predicate Earlier(old_: Revision, new_: Revision) {
    old_.major == new_.major && old_.number < new_.number
  }

  /** The registry's pairwise rule over a subject's revisions. */
  predicate History(revisions: seq<Revision>) {
    forall i, j | 0 <= i < |revisions| && 0 <= j < |revisions| ::
      Earlier(revisions[i], revisions[j]) ==> Full(revisions[i].schema, revisions[j].schema)
  }

  predicate NumberedOnce(revisions: seq<Revision>) {
    forall i, j | 0 <= i < j < |revisions| :: revisions[i].number != revisions[j].number
  }

  /** Why the revision `number` is not compatible with an earlier one, in one direction or the other. */
  datatype Incompatible = Incompatible(number: nat, earlier: nat, newReadsOld: bool, why: Finding)

  ghost predicate NotFull(old_: Revision, new_: Revision, e: Incompatible) {
    && e.number == new_.number && e.earlier == old_.number
    && if e.newReadsOld then BrokenSomewhere(new_.schema, old_.schema, e.why, "")
       else BrokenSomewhere(old_.schema, new_.schema, e.why, "")
  }

  ghost predicate PairFails(revisions: seq<Revision>, i: int, j: int, e: Incompatible) {
    && 0 <= i < |revisions| && 0 <= j < |revisions| && Earlier(revisions[i], revisions[j])
    && NotFull(revisions[i], revisions[j], e)
  }

  method CheckFull(old_: Revision, new_: Revision) returns (out: seq<Incompatible>)
    ensures out == [] <==> Full(old_.schema, new_.schema)
    ensures forall e :: e in out <==> NotFull(old_, new_, e)
  {
    var forward := Readable(new_.schema, old_.schema, "");
    var backward := Readable(old_.schema, new_.schema, "");
    var a := Reported(new_.number, old_.number, true, forward);
    var b := Reported(new_.number, old_.number, false, backward);
    out := a + b;
  }

  function Reported(number: nat, earlier: nat, newReadsOld: bool, found: seq<Finding>): (r: seq<Incompatible>)
    ensures r == [] <==> found == []
    ensures forall e :: e in r <==>
              e.number == number && e.earlier == earlier && e.newReadsOld == newReadsOld && e.why in found
  {
    if found == [] then []
    else [Incompatible(number, earlier, newReadsOld, found[0])] + Reported(number, earlier, newReadsOld, found[1..])
  }

  method CheckPairs(revisions: seq<Revision>) returns (out: seq<Incompatible>)
    ensures out == [] <==> History(revisions)
    ensures forall e :: e in out <==> exists i, j :: PairFails(revisions, i, j, e)
  {
    out := [];
    for j := 0 to |revisions|
      invariant out == [] <==> forall i, k :: 0 <= i < |revisions| && 0 <= k < j ==>
        Earlier(revisions[i], revisions[k]) ==> Full(revisions[i].schema, revisions[k].schema)
      invariant forall e :: e in out <==> exists i, k :: k < j && PairFails(revisions, i, k, e)
    {
      ghost var before := out;
      for i := 0 to |revisions|
        invariant out == [] <==> before == [] && forall k :: 0 <= k < i ==>
          Earlier(revisions[k], revisions[j]) ==> Full(revisions[k].schema, revisions[j].schema)
        invariant forall e :: e in out <==> e in before || exists k :: k < i && PairFails(revisions, k, j, e)
      {
        if Earlier(revisions[i], revisions[j]) {
          var more := CheckFull(revisions[i], revisions[j]);
          assert forall e :: e in more <==> PairFails(revisions, i, j, e);
          out := out + more;
        }
      }
    }
  }

  /** Every reader of any revision of a major reads every document of any revision of it. */
  lemma {:induction false} WholeHistoryReads(revisions: seq<Revision>, i: nat, j: nat, rx: Regex)
    requires i < |revisions| && j < |revisions| && revisions[i].major == revisions[j].major
    requires NumberedOnce(revisions) && History(revisions)
    requires forall r :: r in revisions ==> Clean(r.schema)
    ensures ReadsAll(revisions[i].schema, revisions[j].schema, rx) <==>
            Unconfused(revisions[i].schema, revisions[j].schema, rx)
    ensures PlainEnums(revisions[j].schema) ==> ReadsAll(revisions[i].schema, revisions[j].schema, rx)
  {
    var a, b := revisions[i].schema, revisions[j].schema;
    assert revisions[i] in revisions && revisions[j] in revisions;
    if i == j {
      ReadsReflexive(a);
    } else {
      assert Earlier(revisions[i], revisions[j]) || Earlier(revisions[j], revisions[i]);
      assert Full(a, b) || Full(b, a);
    }
    ReadsIsSoundExactly(a, b, rx);
    if PlainEnums(b) {
      PlainEnumsUnconfused(a, b, rx);
    }
  }

  /** Appending a revision asks for nothing but its own pairs: what merged stays checked. */
  lemma {:induction false} AppendKeepsHistory(revisions: seq<Revision>, next: Revision)
    requires forall r :: r in revisions ==> r.number < next.number
    ensures History(revisions + [next]) <==>
            History(revisions) && forall r :: r in revisions && r.major == next.major ==> Full(r.schema, next.schema)
  {
    var all := revisions + [next];
    if History(all) {
      forall i, j | 0 <= i < |revisions| && 0 <= j < |revisions| && Earlier(revisions[i], revisions[j])
        ensures Full(revisions[i].schema, revisions[j].schema)
      {
        assert Earlier(all[i], all[j]);
      }
      forall r | r in revisions && r.major == next.major ensures Full(r.schema, next.schema) {
        var i :| 0 <= i < |revisions| && revisions[i] == r;
        assert Earlier(all[i], all[|revisions|]);
      }
    }
    if History(revisions) && forall r :: r in revisions && r.major == next.major ==> Full(r.schema, next.schema) {
      forall i, j | 0 <= i < |all| && 0 <= j < |all| && Earlier(all[i], all[j])
        ensures Full(all[i].schema, all[j].schema)
      {
        assert i < |revisions| ==> all[i] in revisions;
        assert j < |revisions| ==> all[j] in revisions;
      }
    }
  }
}
