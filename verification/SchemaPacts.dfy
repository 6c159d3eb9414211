/** The pacts, which guarantee a consumer its path in every document of a major. */
module SchemaPacts {
  import opened Wrappers
  import opened SchemaRegistry
  import opened SchemaPaths

  // ---- what a consumer finds ----

  /** Wherever a consumer following the path finds an object to look in, the last part is there. */
  ghost predicate Has(d: Json, parts: seq<string>)
    decreases parts
  {
    parts != [] && d.Object? ==>
      var name := Bare(parts[0]);
      if |parts| == 1 then name in d.members
      else name in d.members ==>
        if HasBrackets(parts[0]) then
          d.members[name].Array? ==> forall e :: e in d.members[name].elements ==> Has(e, parts[1..])
        else Has(d.members[name], parts[1..])
  }

  ghost predicate AllHave(s: Schema, parts: seq<string>, rx: Regex) {
    forall d :: Emits(s, d, rx) ==> Has(d, parts)
  }

  /** Some document of `s` reaches the object that should hold the last part and lacks it there. */
  ghost predicate Gap(s: Schema, parts: seq<string>, rx: Regex)
    decreases parts, 0
  {
    && parts != [] && EmitsObjects(s, rx)
    && var name := Bare(parts[0]);
       if |parts| == 1 then name !in s.required
       else name in s.properties && GapBelow(s.properties[name], HasBrackets(parts[0]), parts[1..], rx)
  }

  ghost predicate GapBelow(inner: Schema, items: bool, rest: seq<string>, rx: Regex)
    decreases rest, 1
  {
    if items then EmitsArrays(inner) && (inner.items.None? || Gap(inner.items.value, rest, rx))
    else Gap(inner, rest, rx)
  }

  lemma {:induction false} EmittedObject(s: Schema, d: Json, rx: Regex)
    requires Emits(s, d, rx)
    ensures d.Object? ==> EmitsObjects(s, rx)
    ensures d.Array? ==> EmitsArrays(s)
  {
    if s.types.Some? {
      var t :| t in s.types.value && HasType(d, t);
    }
    if d.Object? {
      forall n | n in s.required ensures n in s.properties && CanEmit(s.properties[n], rx) {
        EmittedMeansCan(s.properties[n], d.members[n], rx);
      }
    }
  }

  lemma {:induction false} NoGapHas(s: Schema, parts: seq<string>, d: Json, rx: Regex)
    requires !Gap(s, parts, rx) && Emits(s, d, rx)
    ensures Has(d, parts)
    decreases parts
  {
    EmittedObject(s, d, rx);
    if parts != [] && d.Object? && |parts| > 1 {
      var name, rest := Bare(parts[0]), parts[1..];
      if name in d.members {
        var inner := s.properties[name];
        EmittedObject(inner, d.members[name], rx);
        if !HasBrackets(parts[0]) {
          NoGapHas(inner, rest, d.members[name], rx);
        } else if d.members[name].Array? {
          forall e | e in d.members[name].elements ensures Has(e, rest) {
            NoGapHas(inner.items.value, rest, e, rx);
          }
        }
      }
    }
  }

  /** A document that leads to the last object of the path and lacks the last part there. */
  lemma {:induction false} Lacking(parts: seq<string>) returns (d: Json)
    requires parts != []
    ensures !Has(d, parts)
    decreases parts
  {
    if |parts| == 1 {
      d := Object(map[]);
    } else {
      var inner := Lacking(parts[1..]);
      if HasBrackets(parts[0]) {
        assert inner in [inner];
        d := Object(map[Bare(parts[0]) := Array([inner])]);
      } else {
        d := Object(map[Bare(parts[0]) := inner]);
      }
    }
  }

  lemma {:induction false} GapLacks(s: Schema, parts: seq<string>, rx: Regex) returns (d: Json)
    requires Gap(s, parts, rx)
    ensures Emits(s, d, rx) && !Has(d, parts)
    decreases parts
  {
    var name, rest := Bare(parts[0]), parts[1..];
    if |parts| == 1 {
      var members := Required(s, s.required, rx);
      d := Object(members);
      assert s.types.Some? ==> HasType(d, "object");
    } else {
      var inner := s.properties[name];
      if !HasBrackets(parts[0]) {
        var below := GapLacks(inner, rest, rx);
        d := ObjectWith(s, name, below, rx);
      } else {
        var below;
        if inner.items.None? {
          below := Lacking(rest);
        } else {
          below := GapLacks(inner.items.value, rest, rx);
        }
        var list := Array([below]);
        assert below in list.elements;
        assert inner.types.Some? ==> HasType(list, "array");
        d := ObjectWith(s, name, list, rx);
      }
    }
  }

  /** Every document of a schema has the path exactly when the schema leaves no gap for it. */
  lemma {:induction false} GapExactly(s: Schema, parts: seq<string>, rx: Regex)
    ensures AllHave(s, parts, rx) <==> !Gap(s, parts, rx)
  {
    if Gap(s, parts, rx) {
      var d := GapLacks(s, parts, rx);
    } else {
      forall d | Emits(s, d, rx) ensures Has(d, parts) {
        NoGapHas(s, parts, d, rx);
      }
    }
  }

  /** The lookup leads through the first `end - 1` parts and no further. */
  ghost predicate StopsAt(s: Schema, parts: seq<string>, end: nat)
    requires 0 < end <= |parts|
  {
    Resolve(Place(s, true), parts[..end - 1]).Some? && Resolve(Place(s, true), parts[..end]).None?
  }

  /** The rule of a pact: required where it is declared, or under a field the schema lacks and the consumer
      reads as optional. */
  ghost predicate Promises(s: Schema, path: string, optional: set<string>) {
    if At(s, path).Some? then At(s, path).value.required
    else exists end ::
      0 < end < |Split(path)| && StopsAt(s, Split(path), end) && Bare(Joined(Split(path)[..end])) in optional
  }

  lemma {:induction false} ResolveAppend(p: Place, a: seq<string>, b: seq<string>)
    ensures Resolve(p, a + b) == if Resolve(p, a).None? then None else Resolve(Resolve(p, a).value, b)
    decreases a
  {
    if a == [] {
      assert a + b == b;
    } else {
      assert (a + b)[1..] == a[1..] + b;
      if Next(p.node, a[0]).Some? {
        ResolveAppend(Next(p.node, a[0]).value, a[1..], b);
      }
    }
  }

  lemma {:induction false} PrefixAt(s: Schema, path: string, end: nat)
    requires 0 < end <= |Split(path)|
    ensures At(s, Joined(Split(path)[..end])) == Resolve(Place(s, true), Split(path)[..end])
    ensures At(s, Joined(Split(path)[..end])).None? ==> At(s, path).None?
  {
    var parts := Split(path);
    SplitDotless(path);
    SplitJoined(parts[..end]);
    assert parts == parts[..end] + parts[end..];
    ResolveAppend(Place(s, true), parts[..end], parts[end..]);
  }

  lemma {:induction false} OneStop(s: Schema, parts: seq<string>, i: nat, j: nat)
    requires 0 < i <= |parts| && 0 < j <= |parts| && StopsAt(s, parts, i) && StopsAt(s, parts, j)
    ensures i == j
  {
    if i < j {
      assert parts[..j - 1] == parts[..i] + parts[i..j - 1];
      ResolveAppend(Place(s, true), parts[..i], parts[i..j - 1]);
    } else if j < i {
      assert parts[..i - 1] == parts[..j] + parts[j..i - 1];
      ResolveAppend(Place(s, true), parts[..j], parts[j..i - 1]);
    }
  }

  method Guaranteed(schema: Schema, path: string, optional: set<string>) returns (r: bool)
    ensures r <==> Promises(schema, path, optional)
  {
    var parts := Split(path);
    for end := 1 to |parts| + 1
      invariant Resolve(Place(schema, true), parts[..end - 1]).Some?
    {
      var prefix := Joined(parts[..end]);
      var place := NodeAt(schema, prefix);
      PrefixAt(schema, path, end);
      if place.None? {
        assert StopsAt(schema, parts, end);
        forall other | 0 < other < |parts| && StopsAt(schema, parts, other) ensures other == end {
          OneStop(schema, parts, other, end);
        }
        return end < |parts| && Bare(prefix) in optional;
      }
    }
    assert parts[..|parts|] == parts;
    var found := NodeAt(schema, path);
    r := found.Some? && found.value.required;
  }

  /** The lookup stops at the items of a list whose items the schema does not declare, in a place that
      documents reach. */
  ghost predicate MeetsLooseList(s: Schema, parts: seq<string>, rx: Regex)
    decreases parts
  {
    && |parts| > 1 && EmitsObjects(s, rx) && Bare(parts[0]) in s.properties
    && var inner := s.properties[Bare(parts[0])];
       if HasBrackets(parts[0]) then
         EmitsArrays(inner) && (inner.items.None? || MeetsLooseList(inner.items.value, parts[1..], rx))
       else MeetsLooseList(inner, parts[1..], rx)
  }

  lemma {:induction false} GapIsLoose(s: Schema, r: bool, parts: seq<string>, rx: Regex)
    requires parts != []
    requires Resolve(Place(s, r), parts).None? ==> |parts| > 1 && Resolve(Place(s, r), parts[..|parts| - 1]).None?
    requires Resolve(Place(s, r), parts).Some? ==> Resolve(Place(s, r), parts).value.required
    ensures Gap(s, parts, rx) <==> MeetsLooseList(s, parts, rx)
    decreases parts
  {
    if |parts| > 1 && Next(s, parts[0]).Some? {
      var next, rest := Next(s, parts[0]).value, parts[1..];
      if |rest| > 1 {
        assert parts[..|parts| - 1][1..] == rest[..|rest| - 1];
      } else {
        assert parts[..|parts| - 1][1..] == [];
      }
      GapIsLoose(next.node, next.required, rest, rx);
    } else if |parts| == 1 {
      assert parts[1..] == [];
    }
  }

  /**
    * A kept pact: what is guaranteed is in every document under each object the consumer reaches, exactly
    * unless documents reach a list with undeclared items on the way.
    */
  lemma {:induction false} PromiseIsKeptExactly(s: Schema, path: string, optional: set<string>, rx: Regex)
    requires Promises(s, path, optional)
    ensures AllHave(s, Split(path), rx) <==> !MeetsLooseList(s, Split(path), rx)
  {
    var parts := Split(path);
    if At(s, path).None? {
      var end :| 0 < end < |parts| && StopsAt(s, parts, end);
      assert parts[..|parts| - 1] == parts[..end] + parts[end..|parts| - 1];
      ResolveAppend(Place(s, true), parts[..end], parts[end..|parts| - 1]);
    }
    GapIsLoose(s, true, parts, rx);
    GapExactly(s, parts, rx);
  }

  /** Every list declares its items. */
  predicate ListsDeclared(s: Schema) {
    && (s.items.None? ==> s.values.Some? || (s.types.Some? && "array" !in s.types.value))
    && (forall n | n in s.properties :: ListsDeclared(s.properties[n]))
    && (s.items.Some? ==> ListsDeclared(s.items.value))
  }

  /** Where every list declares its items, a guarantee always holds. */
  lemma {:induction false} PromiseIsKept(s: Schema, path: string, optional: set<string>, rx: Regex)
    requires Promises(s, path, optional) && ListsDeclared(s)
    ensures AllHave(s, Split(path), rx)
  {
    DeclaredMeetsNone(s, Split(path), rx);
    PromiseIsKeptExactly(s, path, optional, rx);
  }

  lemma {:induction false} DeclaredMeetsNone(s: Schema, parts: seq<string>, rx: Regex)
    requires ListsDeclared(s)
    ensures !MeetsLooseList(s, parts, rx)
    decreases parts
  {
    if |parts| > 1 && Bare(parts[0]) in s.properties {
      var inner := s.properties[Bare(parts[0])];
      if !HasBrackets(parts[0]) {
        DeclaredMeetsNone(inner, parts[1..], rx);
      } else if inner.items.Some? {
        DeclaredMeetsNone(inner.items.value, parts[1..], rx);
      }
    }
  }

  // ---- the pacts of a whole history ----

  /** What the newest revision declares on the way, every revision it reads declares: no list is loose. */
  lemma {:induction false} DeclaredThroughout(newest: Schema, s: Schema, r: bool, parts: seq<string>, rx: Regex)
    requires Reads(newest, s) && Resolve(Place(newest, r), parts).Some?
    ensures !MeetsLooseList(s, parts, rx)
    decreases parts
  {
    if |parts| > 1 && Bare(parts[0]) in s.properties {
      var name, next := Bare(parts[0]), Next(newest, parts[0]).value;
      assert Reads(newest.properties[name], s.properties[name]);
      if HasBrackets(parts[0]) {
        DeclaredThroughout(next.node, s.properties[name].items.value, next.required, parts[1..], rx);
      } else {
        DeclaredThroughout(next.node, s.properties[name], next.required, parts[1..], rx);
      }
    }
  }

  /** A path that the newest revision declares and a compatible revision guarantees is in every document of
      that revision, under each object the consumer reaches. */
  lemma {:induction false} DeclaredPromiseIsKept(newest: Schema, s: Schema, path: string, optional: set<string>,
                                                 rx: Regex)
    requires Reads(newest, s) && At(newest, path).Some? && Promises(s, path, optional)
    ensures AllHave(s, Split(path), rx)
  {
    DeclaredThroughout(newest, s, true, Split(path), rx);
    PromiseIsKeptExactly(s, path, optional, rx);
  }

  datatype Read = Read(path: string, required: bool)

  function OptionalOf(wants: seq<Read>): set<string> {
    set r | r in wants && !r.required :: r.path
  }

  /** The rule for one read: the newest revision declares it, and every live one guarantees it where it is required. */
  ghost predicate ReadKept(newest: Option<Schema>, live: seq<Schema>, r: Read, optional: set<string>,
                           wellFormed: string -> bool) {
    && wellFormed(r.path)
    && (newest.Some? ==> At(newest.value, r.path).Some?)
    && (r.required ==> forall k :: 0 <= k < |live| ==> Promises(live[k], r.path, optional))
  }

  ghost predicate PactKept(newest: Option<Schema>, live: seq<Schema>, wants: seq<Read>, wellFormed: string -> bool) {
    forall k :: 0 <= k < |wants| ==>
      ReadKept(newest, live, wants[k], set r | r in wants && !r.required :: r.path, wellFormed)
  }

  datatype Complaint = Malformed(path: string) | NotDeclared(path: string) | NotGuaranteed(path: string, revision: nat)

  /** What may be complained about in one read. */
  ghost predicate Complains(newest: Option<Schema>, live: seq<Schema>, r: Read, optional: set<string>,
                            wellFormed: string -> bool, c: Complaint) {
    && c.path == r.path && (wellFormed(r.path) <==> !c.Malformed?)
    && match c
       case Malformed(_) => true
       case NotDeclared(_) => newest.Some? && At(newest.value, r.path).None?
       case NotGuaranteed(_, _) => r.required && Lacks(live, r.path, optional, c)
  }

  ghost predicate SomeComplains(newest: Option<Schema>, live: seq<Schema>, wants: seq<Read>, optional: set<string>,
                                wellFormed: string -> bool, c: Complaint) {
    exists r :: r in wants && Complains(newest, live, r, optional, wellFormed, c)
  }

  method CheckRead(newest: Option<Schema>, live: seq<Schema>, r: Read, optional: set<string>,
                   wellFormed: string -> bool)
    returns (out: seq<Complaint>)
    ensures out == [] <==> ReadKept(newest, live, r, optional, wellFormed)
    ensures forall c :: c in out <==> Complains(newest, live, r, optional, wellFormed, c)
  {
    out := [];
    if !wellFormed(r.path) {
      return [Malformed(r.path)];
    }
    if newest.Some? {
      var place := NodeAt(newest.value, r.path);
      if place.None? {
        out := out + [NotDeclared(r.path)];
      }
    }
    if r.required {
      var more := NotGuaranteedBy(live, r.path, optional);
      out := out + more;
    }
  }

  ghost predicate Lacks(live: seq<Schema>, path: string, optional: set<string>, c: Complaint) {
    c.NotGuaranteed? && c.path == path && c.revision < |live| && !Promises(live[c.revision], path, optional)
  }

  method NotGuaranteedBy(live: seq<Schema>, path: string, optional: set<string>) returns (out: seq<Complaint>)
    ensures out == [] <==> forall k :: 0 <= k < |live| ==> Promises(live[k], path, optional)
    ensures forall c :: c in out <==> Lacks(live, path, optional, c)
  {
    out := [];
    for k := 0 to |live|
      invariant forall c :: c in out <==> Lacks(live[..k], path, optional, c)
    {
      var kept := Guaranteed(live[k], path, optional);
      LacksNext(live, path, optional, k);
      if !kept {
        out := out + [NotGuaranteed(path, k)];
      }
    }
    assert live[..|live|] == live;
    NoneLacks(live, path, optional, out);
  }

  lemma {:induction false} LacksNext(live: seq<Schema>, path: string, optional: set<string>, k: nat)
    requires k < |live|
    ensures forall c :: Lacks(live[..k + 1], path, optional, c) <==>
              Lacks(live[..k], path, optional, c) ||
              (c == NotGuaranteed(path, k) && !Promises(live[k], path, optional))
  {
    forall c ensures Lacks(live[..k + 1], path, optional, c) <==>
                Lacks(live[..k], path, optional, c) ||
                (c == NotGuaranteed(path, k) && !Promises(live[k], path, optional))
    {
      if c.NotGuaranteed? && c.path == path && c.revision <= k {
        assert live[..k + 1][c.revision] == live[c.revision];
      }
    }
  }

  lemma {:induction false} NoneLacks(live: seq<Schema>, path: string, optional: set<string>, out: seq<Complaint>)
    requires forall c :: c in out <==> Lacks(live, path, optional, c)
    ensures out == [] <==> forall k :: 0 <= k < |live| ==> Promises(live[k], path, optional)
  {
    if out == [] {
      forall k | 0 <= k < |live| ensures Promises(live[k], path, optional) {
        assert !Lacks(live, path, optional, NotGuaranteed(path, k));
      }
    } else {
      assert out[0] in out;
    }
  }

  /** A consumer's reads against the live revisions of its subject's major. */
  method CheckConsumer(newest: Option<Schema>, live: seq<Schema>, wants: seq<Read>, wellFormed: string -> bool)
    returns (out: seq<Complaint>)
    ensures out == [] <==> PactKept(newest, live, wants, wellFormed)
    ensures forall c :: c in out <==>
              SomeComplains(newest, live, wants, set w | w in wants && !w.required :: w.path, wellFormed, c)
  {
    out := [];
    var optional := OptionalOf(wants);
    for k := 0 to |wants|
      invariant out == [] <==> forall j :: 0 <= j < k ==> ReadKept(newest, live, wants[j], optional, wellFormed)
      invariant forall c :: c in out <==> SomeComplains(newest, live, wants[..k], optional, wellFormed, c)
    {
      var more := CheckRead(newest, live, wants[k], optional, wellFormed);
      assert wants[..k + 1] == wants[..k] + [wants[k]];
      out := out + more;
    }
    assert wants[..|wants|] == wants;
  }

  /** The live revisions: those of one major, in their order. */
  function LiveOf(revisions: seq<Revision>, major: nat): seq<Schema> {
    if revisions == [] then []
    else
      var last := revisions[|revisions| - 1];
      LiveOf(revisions[..|revisions| - 1], major) + (if last.major == major then [last.schema] else [])
  }

  lemma {:induction false} IsLive(revisions: seq<Revision>, i: nat) returns (k: nat)
    requires i < |revisions|
    ensures k < |LiveOf(revisions, revisions[i].major)| &&
            LiveOf(revisions, revisions[i].major)[k] == revisions[i].schema
    decreases revisions
  {
    var n := |revisions| - 1;
    if i < n {
      k := IsLive(revisions[..n], i);
    } else {
      k := |LiveOf(revisions[..n], revisions[i].major)|;
    }
  }

  /**
    * What the registry promises its consumers: where the history is compatible and the consumer's pact is
    * accepted, every document of every revision of the major has each required path under each object the
    * consumer reaches.
    */
  lemma {:induction false} PactsAreKept(revisions: seq<Revision>, newest: nat, i: nat, wants: seq<Read>, k: nat,
                                        wellFormed: string -> bool, rx: Regex)
    requires newest < |revisions| && i < |revisions| && revisions[i].major == revisions[newest].major
    requires History(revisions) && NumberedOnce(revisions)
    requires PactKept(Some(revisions[newest].schema), LiveOf(revisions, revisions[newest].major), wants, wellFormed)
    requires k < |wants| && wants[k].required
    ensures AllHave(revisions[i].schema, Split(wants[k].path), rx)
  {
    var a, b := revisions[newest].schema, revisions[i].schema;
    var j := IsLive(revisions, i);
    assert ReadKept(Some(a), LiveOf(revisions, revisions[newest].major), wants[k], OptionalOf(wants), wellFormed);
    if i == newest {
      ReadsReflexive(a);
    } else {
      assert Earlier(revisions[i], revisions[newest]) || Earlier(revisions[newest], revisions[i]);
      assert Full(a, b) || Full(b, a);
    }
    DeclaredPromiseIsKept(a, b, wants[k].path, OptionalOf(wants), rx);
  }

  // ---- the limit of the guarantee taken alone ----

  /** By itself the rule passes `photos[].sha256` to a consumer that reads `photos` as optional where `photos` is
      declared without items, and a document lists a photo without it; no revision that reads it declares the path. */
  lemma {:induction false} LooseListBreaksPromise(rx: Regex)
    ensures var s := ANYTHING.(properties := map["photos" := ANYTHING]);
            Promises(s, "photos[].sha256", {"photos"}) && !AllHave(s, Split("photos[].sha256"), rx)
  {
    LooseListBreaks("photos", "sha256", rx);
    assert "photos" + "[]" + "." + "sha256" == "photos[].sha256";
  }

  lemma {:induction false} LooseListBreaks(list: string, name: string, rx: Regex)
    requires PlainName(list) && '.' !in name
    ensures var s := ANYTHING.(properties := map[list := ANYTHING]);
            Promises(s, list + "[]" + "." + name, {list}) && !AllHave(s, Split(list + "[]" + "." + name), rx)
  {
    var s := ANYTHING.(properties := map[list := ANYTHING]);
    var part, path := list + "[]", list + "[]" + "." + name;
    var parts := [part, name];
    BareBrackets(list);
    SplitFirst(part, name);
    SplitOne(name);
    assert Split(path) == parts;
    assert Next(s, part).None?;
    assert parts[..0] == [] && parts[..1] == [part] && Joined([part]) == part;
    assert StopsAt(s, parts, 1);
    assert Promises(s, path, {list});
    PromiseIsKeptExactly(s, path, {list}, rx);
  }
}
