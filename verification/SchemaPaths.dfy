/** The two views of a schema's field paths: the record lists every property path, the lookup resolves one. */
module SchemaPaths {
  import opened Wrappers
  import opened Sorting
  import opened SchemaRegistry

  // ---- paths as text ----

  /** `path.split(".")`. */
  function Split(path: string): (parts: seq<string>)
    ensures |parts| > 0
  {
    if path == "" then [""]
    else
      var rest := Split(path[1..]);
      if path[0] == '.' then [""] + rest else [[path[0]] + rest[0]] + rest[1..]
  }

  function Joined(parts: seq<string>): string {
    if parts == [] then "" else if |parts| == 1 then parts[0] else parts[0] + "." + Joined(parts[1..])
  }

  predicate HasBrackets(part: string) {
    |part| >= 2 && part[|part| - 2] == '[' && part[|part| - 1] == ']'
  }

  /** `part.removesuffix("[]")`. */
  function Bare(part: string): string {
    if HasBrackets(part) then part[..|part| - 2] else part
  }

  ghost predicate Dotless(parts: seq<string>) {
    forall k :: 0 <= k < |parts| ==> '.' !in parts[k]
  }

  lemma {:induction false} SplitDotless(path: string)
    ensures Dotless(Split(path)) && Joined(Split(path)) == path
  {
    if path != "" {
      var rest := Split(path[1..]);
      SplitDotless(path[1..]);
      assert path == [path[0]] + path[1..];
      if path[0] == '.' {
        assert ([""] + rest)[1..] == rest;
        assert Joined([""] + rest) == "" + "." + Joined(rest);
      } else {
        var all := [[path[0]] + rest[0]] + rest[1..];
        assert all[1..] == rest[1..];
        if |rest| == 1 {
          assert Joined(all) == [path[0]] + rest[0];
        } else {
          assert Joined(all) == [path[0]] + rest[0] + "." + Joined(rest[1..]);
          assert Joined(rest) == rest[0] + "." + Joined(rest[1..]);
          assert [path[0]] + rest[0] + "." + Joined(rest[1..]) == [path[0]] + (rest[0] + "." + Joined(rest[1..]));
        }
      }
    }
  }

  lemma {:induction false} SplitOne(part: string)
    requires '.' !in part
    ensures Split(part) == [part]
  {
    if part != "" {
      SplitOne(part[1..]);
      assert part == [part[0]] + part[1..];
    }
  }

  lemma {:induction false} SplitFirst(part: string, rest: string)
    requires '.' !in part
    ensures Split(part + "." + rest) == [part] + Split(rest)
  {
    var all := part + "." + rest;
    if part == "" {
      assert all[1..] == rest;
    } else {
      SplitFirst(part[1..], rest);
      assert all[1..] == part[1..] + "." + rest;
      assert part == [part[0]] + part[1..];
    }
  }

  lemma {:induction false} SplitJoined(parts: seq<string>)
    requires Dotless(parts) && parts != []
    ensures Split(Joined(parts)) == parts
  {
    if |parts| == 1 {
      SplitOne(parts[0]);
    } else {
      SplitJoined(parts[1..]);
      SplitFirst(parts[0], Joined(parts[1..]));
    }
  }

  lemma {:induction false} JoinedLast(parts: seq<string>, last: string)
    ensures Joined(parts + [last]) == if parts == [] then last else Joined(parts) + "." + last
  {
    if |parts| > 1 {
      JoinedLast(parts[1..], last);
      assert (parts + [last])[1..] == parts[1..] + [last];
      assert parts[0] + "." + (Joined(parts[1..]) + "." + last) == parts[0] + "." + Joined(parts[1..]) + "." + last;
    } else if |parts| == 1 {
      assert (parts + [last])[1..] == [last];
    }
  }

  // ---- the lookup ----

  datatype Place = Place(node: Schema, required: bool)

  /** The place one part of a path leads to. */
  function Next(s: Schema, part: string): Option<Place> {
    var name := Bare(part);
    if name !in s.properties then None
    else if !HasBrackets(part) then Some(Place(s.properties[name], name in s.required))
    else if s.properties[name].items.None? then None
    else Some(Place(s.properties[name].items.value, name in s.required))
  }

  function Resolve(p: Place, parts: seq<string>): Option<Place>
    decreases parts
  {
    if parts == [] then Some(p)
    else match Next(p.node, parts[0])
      case None => None
      case Some(next) => Resolve(next, parts[1..])
  }

  /** What a path leads to, and whether it is required where it is declared. */
  function At(s: Schema, path: string): Option<Place> {
    Resolve(Place(s, true), Split(path))
  }

  method NodeAt(schema: Schema, path: string) returns (r: Option<Place>)
    ensures r == At(schema, path)
  {
    var node, required := schema, true;
    var parts := Split(path);
    var k := 0;
    assert parts[0..] == parts;
    while k < |parts|
      invariant 0 <= k <= |parts|
      invariant Resolve(Place(node, required), parts[k..]) == At(schema, path)
    {
      var items, name := HasBrackets(parts[k]), Bare(parts[k]);
      assert parts[k..][1..] == parts[k + 1..];
      if name !in node.properties {
        return None;
      }
      required := name in node.required;
      node := node.properties[name];
      if items {
        if node.items.None? {
          return None;
        }
        node := node.items.value;
      }
      k := k + 1;
    }
    assert parts[k..] == [];
    r := Some(Place(node, required));
  }

  // ---- the record ----

  datatype Field = Field(path: string, required: bool)

  /** The record's walk of `s` under the path `at` lists `f`. */
  ghost predicate Lists(s: Schema, at: string, f: Field)
    decreases s, 2
  {
    (s.items.Some? && Lists(s.items.value, at + "[]", f)) || ListsBelow(s, at, f)
  }

  ghost predicate ListsBelow(s: Schema, at: string, f: Field)
    decreases s, 1
  {
    exists n :: n in s.properties && ListsUnder(s, at, n, f)
  }

  ghost predicate ListsUnder(s: Schema, at: string, n: string, f: Field)
    requires n in s.properties
    decreases s, 0
  {
    f == Field(Under(at, n), n in s.required) || Lists(s.properties[n], Under(at, n), f)
  }

  /** A name that a path can spell: not empty, without a dot, and not ending like a list's items. */
  predicate PlainName(n: string) {
    n != "" && '.' !in n && !HasBrackets(n)
  }

  /** Every property, however deep, is named plainly. */
  predicate PlainlyNamed(s: Schema) {
    && (forall n | n in s.properties :: PlainName(n) && PlainlyNamed(s.properties[n]))
    && (s.items.Some? ==> PlainlyNamed(s.items.value))
  }

  /** There is a property in the schema or in the items of its lists. */
  predicate HoldsProperty(s: Schema) {
    s.properties != map[] || (s.items.Some? && HoldsProperty(s.items.value))
  }

  /** No property below the schema's own items. */
  predicate Bottom(s: Schema) {
    s.items.Some? ==> !HoldsProperty(s.items.value)
  }

  /** The properties are named plainly and no list of lists holds a property. */
  predicate Plain(s: Schema) {
    forall n | n in s.properties :: PlainName(n) && Plain(s.properties[n]) && PlainItems(s.properties[n])
  }

  predicate PlainItems(s: Schema) {
    s.items.Some? ==> Plain(s.items.value) && Bottom(s.items.value)
  }

  lemma {:induction false} NothingListed(s: Schema, at: string, f: Field)
    requires !HoldsProperty(s)
    ensures !Lists(s, at, f)
    decreases s
  {
    if s.items.Some? {
      NothingListed(s.items.value, at + "[]", f);
    }
  }

  lemma {:induction false} NoPropertyPlain(s: Schema)
    requires !HoldsProperty(s)
    ensures Plain(s) && Bottom(s) && PlainItems(s)
    decreases s
  {
    if s.items.Some? {
      NoPropertyPlain(s.items.value);
    }
  }

  /** Below items that hold no property the walk of a schema lists its own properties only. */
  lemma {:induction false} ListsOwn(s: Schema, at: string, f: Field)
    requires Bottom(s)
    ensures Lists(s, at, f) <==> ListsBelow(s, at, f)
  {
    if s.items.Some? {
      NothingListed(s.items.value, at + "[]", f);
    }
  }

  ghost predicate PlainParts(parts: seq<string>) {
    Dotless(parts) && forall k :: 0 <= k < |parts| ==> parts[k] != ""
  }

  lemma {:induction false} JoinedNotEmpty(parts: seq<string>)
    requires PlainParts(parts) && parts != []
    ensures Joined(parts) != ""
  {
  }

  lemma {:induction false} UnderJoined(prefix: seq<string>, n: string)
    requires PlainParts(prefix)
    ensures Joined(prefix + [n]) == Under(Joined(prefix), n)
  {
    JoinedLast(prefix, n);
    if prefix != [] {
      JoinedNotEmpty(prefix);
    }
  }

  lemma {:induction false} JoinedBrackets(prefix: seq<string>, n: string)
    requires PlainParts(prefix)
    ensures Joined(prefix + [n + "[]"]) == Under(Joined(prefix), n) + "[]"
  {
    JoinedLast(prefix, n + "[]");
    if prefix != [] {
      JoinedNotEmpty(prefix);
      assert Joined(prefix) + "." + (n + "[]") == Joined(prefix) + "." + n + "[]";
    }
  }

  /** The parts below `s` that lead to the property `f` names. */
  ghost predicate Leads(s: Schema, prefix: seq<string>, parts: seq<string>, f: Field) {
    && parts != [] && PlainParts(parts) && !HasBrackets(parts[|parts| - 1])
    && f.path == Joined(prefix + parts)
    && forall r :: Resolve(Place(s, r), parts).Some? && Resolve(Place(s, r), parts).value.required == f.required
  }

  lemma {:induction false} BareBrackets(n: string)
    requires PlainName(n)
    ensures Bare(n) == n && HasBrackets(n + "[]") && Bare(n + "[]") == n && '.' !in n + "[]"
  {
  }

  /** What the walk lists for one property of a plain schema. */
  lemma {:induction false} ListsUnderExactly(s: Schema, at: string, n: string, f: Field)
    requires Plain(s) && n in s.properties
    ensures ListsUnder(s, at, n, f) <==>
            || f == Field(Under(at, n), n in s.required)
            || ListsBelow(s.properties[n], Under(at, n), f)
            || (s.properties[n].items.Some? && ListsBelow(s.properties[n].items.value, Under(at, n) + "[]", f))
  {
    var inner, path := s.properties[n], Under(at, n);
    assert Lists(inner, path, f) <==>
      ListsBelow(inner, path, f) || (inner.items.Some? && Lists(inner.items.value, path + "[]", f));
    if inner.items.Some? {
      ListsOwn(inner.items.value, path + "[]", f);
    }
  }

  lemma {:induction false} LeadsStep(s: Schema, prefix: seq<string>, part: string, rest: seq<string>, f: Field)
    requires '.' !in part && part != "" && Next(s, part).Some?
    requires Leads(Next(s, part).value.node, prefix + [part], rest, f)
    ensures Leads(s, prefix, [part] + rest, f)
  {
    var parts := [part] + rest;
    assert parts[1..] == rest && prefix + [part] + rest == prefix + parts;
    forall r ensures Resolve(Place(s, r), parts) == Resolve(Next(s, part).value, rest) {
    }
  }

  /** A listed property is one that a path leads to. */
  lemma {:induction false} UnderLeads(s: Schema, prefix: seq<string>, n: string, f: Field) returns (parts: seq<string>)
    requires Plain(s) && PlainParts(prefix) && n in s.properties && ListsUnder(s, Joined(prefix), n, f)
    ensures Leads(s, prefix, parts, f) && Bare(parts[0]) == n
    ensures Lists(s.properties[n], Under(Joined(prefix), n), f) ==> |parts| > 1
    decreases s, 0
  {
    var inner := s.properties[n];
    UnderJoined(prefix, n);
    JoinedBrackets(prefix, n);
    BareBrackets(n);
    ListsUnderExactly(s, Joined(prefix), n, f);
    if inner.items.Some? && ListsBelow(inner.items.value, Joined(prefix + [n + "[]"]), f) {
      var rest := BelowLeads(inner.items.value, prefix + [n + "[]"], f);
      LeadsStep(s, prefix, n + "[]", rest, f);
      parts := [n + "[]"] + rest;
    } else if ListsBelow(inner, Joined(prefix + [n]), f) {
      var rest := BelowLeads(inner, prefix + [n], f);
      LeadsStep(s, prefix, n, rest, f);
      parts := [n] + rest;
    } else {
      parts := [n];
      assert parts[1..] == [];
      if inner.items.Some? {
        ListsOwn(inner.items.value, Joined(prefix + [n]) + "[]", f);
      }
    }
  }

  lemma {:induction false} BelowLeads(s: Schema, prefix: seq<string>, f: Field) returns (parts: seq<string>)
    requires Plain(s) && PlainParts(prefix) && ListsBelow(s, Joined(prefix), f)
    ensures Leads(s, prefix, parts, f)
    decreases s, 1
  {
    var n :| n in s.properties && ListsUnder(s, Joined(prefix), n, f);
    parts := UnderLeads(s, prefix, n, f);
  }

  /** A property that a path leads to is listed. */
  lemma {:induction false} LeadsIsListed(s: Schema, prefix: seq<string>, parts: seq<string>, f: Field)
    requires Plain(s) && PlainParts(prefix) && Leads(s, prefix, parts, f)
    ensures ListsBelow(s, Joined(prefix), f)
    decreases s
  {
    var n, rest := Bare(parts[0]), parts[1..];
    assert Resolve(Place(s, true), parts).Some?;
    UnderJoined(prefix, n);
    JoinedBrackets(prefix, n);
    ListsUnderExactly(s, Joined(prefix), n, f);
    assert parts == [parts[0]] + rest;
    if rest == [] {
      assert parts == [n] && prefix + parts == prefix + [n];
      assert Resolve(Place(s, true), parts) == Next(s, n);
      assert f == Field(Under(Joined(prefix), n), n in s.required);
    } else {
      LeadsRest(s, prefix, parts[0], rest, f);
      LeadsIsListed(Next(s, parts[0]).value.node, prefix + [parts[0]], rest, f);
      if HasBrackets(parts[0]) {
        assert parts[0] == n + "[]";
        assert ListsBelow(s.properties[n].items.value, Under(Joined(prefix), n) + "[]", f);
      } else {
        assert ListsBelow(s.properties[n], Under(Joined(prefix), n), f);
      }
    }
    assert ListsUnder(s, Joined(prefix), n, f);
  }

  lemma {:induction false} LeadsRest(s: Schema, prefix: seq<string>, part: string, rest: seq<string>, f: Field)
    requires rest != [] && Leads(s, prefix, [part] + rest, f)
    ensures Next(s, part).Some? && part != "" && '.' !in part &&
            Leads(Next(s, part).value.node, prefix + [part], rest, f)
  {
    var parts := [part] + rest;
    assert parts[0] == part && parts[1..] == rest && prefix + [part] + rest == prefix + parts;
    assert Resolve(Place(s, true), parts).Some?;
    var next := Next(s, part).value;
    forall r ensures Resolve(Place(next.node, r), rest) == Resolve(next, rest) == Resolve(Place(s, true), parts) {
    }
    forall k | 0 <= k < |rest| ensures rest[k] != "" && '.' !in rest[k] {
      assert parts[k + 1] == rest[k];
    }
  }

  lemma {:induction false} LastBrackets(parts: seq<string>)
    requires parts != [] && Dotless(parts)
    ensures HasBrackets(Joined(parts)) <==> HasBrackets(parts[|parts| - 1])
  {
    var front, last := parts[..|parts| - 1], parts[|parts| - 1];
    assert parts == front + [last];
    JoinedLast(front, last);
    if front != [] {
      BracketsAfterDot(Joined(front), last);
    }
  }

  lemma {:induction false} BracketsAfterDot(front: string, last: string)
    ensures HasBrackets(front + "." + last) <==> HasBrackets(last)
  {
    var p := front + "." + last;
    if |last| >= 2 {
      assert p[|p| - 2] == last[|last| - 2] && p[|p| - 1] == last[|last| - 1];
    } else {
      assert p[|p| - 1 - |last|] == '.';
    }
  }

  lemma {:induction false} ResolvedNames(s: Schema, r: bool, parts: seq<string>)
    requires Plain(s) && Resolve(Place(s, r), parts).Some?
    ensures forall k :: 0 <= k < |parts| ==> parts[k] != ""
    decreases parts
  {
    if parts != [] {
      ResolvedNames(Next(s, parts[0]).value.node, Next(s, parts[0]).value.required, parts[1..]);
    }
  }

  /** The lookup resolves the path of a property, as required as `f` says. */
  ghost predicate Looked(s: Schema, f: Field) {
    !HasBrackets(f.path) && At(s, f.path).Some? && At(s, f.path).value.required == f.required
  }

  /** Every property is named plainly, and none lies below a list of lists or below items of the root. */
  predicate Agreeing(s: Schema) {
    Plain(s) && Bottom(s)
  }

  /** The record and the lookup agree: the record lists a path, and says it is required, exactly when the
      path names a property the lookup resolves as required; both leave the same paths out. */
  lemma {:induction false} RecordIsLookup(s: Schema, f: Field)
    requires Agreeing(s)
    ensures Lists(s, "", f) <==> Looked(s, f)
  {
    ListsOwn(s, "", f);
    if Lists(s, "", f) {
      var parts := BelowLeads(s, [], f);
      assert [] + parts == parts;
      SplitJoined(parts);
      LastBrackets(parts);
    }
    if Looked(s, f) {
      var parts := Split(f.path);
      SplitDotless(f.path);
      LastBrackets(parts);
      ResolvedNames(s, true, parts);
      assert [] + parts == parts;
      forall r ensures Resolve(Place(s, r), parts) == Resolve(Place(s, true), parts) {
      }
      assert Leads(s, [], parts, f);
      LeadsIsListed(s, [], parts, f);
    }
  }

  // ---- where the record and the lookup part ----

  function Brackets(k: nat): string
    decreases k
  {
    if k == 0 then "" else "[]" + Brackets(k - 1)
  }

  lemma {:induction false} BracketsLast(k: nat)
    ensures Brackets(k + 1) == Brackets(k) + "[]" && '.' !in Brackets(k)
    decreases k
  {
    if k > 0 {
      BracketsLast(k - 1);
      assert "[]" + (Brackets(k - 1) + "[]") == "[]" + Brackets(k - 1) + "[]";
    } else {
      assert Brackets(0) == "" && Brackets(1) == "[]" + Brackets(0);
    }
  }

  lemma {:induction false} BracketsEnd(n: string, k: nat)
    ensures HasBrackets(n + Brackets(k + 1)) && Bare(n + Brackets(k + 1)) == n + Brackets(k)
    ensures '.' !in Brackets(k)
  {
    BracketsLast(k);
    BareOf(n, Brackets(k));
  }

  lemma {:induction false} BareOf(n: string, b: string)
    ensures HasBrackets(n + (b + "[]")) && Bare(n + (b + "[]")) == n + b
  {
  }

  /** No part of lists in lists leads anywhere: what is left of it is no plain name. */
  lemma {:induction false} DeepPartLeadsNowhere(s: Schema, n: string, k: nat)
    requires PlainlyNamed(s) && (n == "" || k > 0)
    ensures Next(s, n + Brackets(k + 1)).None?
  {
    BracketsEnd(n, k);
    if k > 0 {
      BracketsEnd(n, k - 1);
    }
  }

  /** Some property that the walk finds in the items of items. */
  lemma {:induction false} FirstBelow(s: Schema, at: string) returns (f: Field, k: nat, n: string)
    requires HoldsProperty(s) && PlainlyNamed(s)
    ensures Lists(s, at, f) && PlainName(n) && f.path == Under(at + Brackets(k), n)
    decreases s
  {
    if s.properties != map[] {
      n :| n in s.properties;
      k, f := 0, Field(Under(at, n), n in s.required);
      assert at + Brackets(0) == at;
      assert ListsUnder(s, at, n, f);
    } else {
      f, k, n := FirstBelow(s.items.value, at + "[]");
      assert at + "[]" + Brackets(k) == at + Brackets(k + 1);
      k := k + 1;
    }
  }

  /** The walk lists `f`, and the parts of its path lead nowhere. */
  ghost predicate Misleads(s: Schema, prefix: seq<string>, parts: seq<string>, f: Field) {
    && parts != [] && PlainParts(parts) && f.path == Joined(prefix + parts)
    && ListsBelow(s, Joined(prefix), f)
    && forall r :: Resolve(Place(s, r), parts).None?
  }

  lemma {:induction false} MisleadsStep(s: Schema, prefix: seq<string>, n: string, part: string, rest: seq<string>,
                                        f: Field)
    requires PlainParts(prefix) && n in s.properties && PlainName(n)
    requires part == n || (part == n + "[]" && s.properties[n].items.Some?)
    requires Misleads(Next(s, part).value.node, prefix + [part], rest, f)
    ensures Misleads(s, prefix, [part] + rest, f)
  {
    var parts := [part] + rest;
    BareBrackets(n);
    UnderJoined(prefix, n);
    JoinedBrackets(prefix, n);
    assert parts[1..] == rest && prefix + [part] + rest == prefix + parts;
    forall r ensures Resolve(Place(s, r), parts).None? {
      assert Resolve(Place(s, r), parts) == Resolve(Next(s, part).value, rest);
    }
    assert ListsUnder(s, Joined(prefix), n, f);
  }

  /** A property below a list of lists is listed under a path that leads nowhere. */
  lemma {:induction false} DeepProperty(s: Schema, prefix: seq<string>, n: string)
    returns (f: Field, parts: seq<string>)
    requires PlainlyNamed(s) && PlainParts(prefix) && n in s.properties
    requires s.properties[n].items.Some? && !Bottom(s.properties[n].items.value)
    ensures Misleads(s, prefix, parts, f)
  {
    assert PlainlyNamed(s.properties[n]);
    var inner := s.properties[n].items.value;
    assert PlainlyNamed(inner);
    var at := Under(Joined(prefix), n);
    var k, m;
    f, k, m := FirstBelow(inner.items.value, at + "[]" + "[]");
    DeepListed(s, Joined(prefix), n, f);
    parts := [n + Brackets(k + 2), m];
    DeepPath(prefix, n, k, m);
    DeepLeadsNowhere(s, n, k, m);
  }

  lemma {:induction false} DeepListed(s: Schema, at: string, n: string, f: Field)
    requires n in s.properties && s.properties[n].items.Some? && s.properties[n].items.value.items.Some?
    requires Lists(s.properties[n].items.value.items.value, Under(at, n) + "[]" + "[]", f)
    ensures ListsBelow(s, at, f)
  {
    assert Lists(s.properties[n].items.value, Under(at, n) + "[]", f);
    assert Lists(s.properties[n], Under(at, n), f);
    assert ListsUnder(s, at, n, f);
  }

  lemma {:induction false} DeepLeadsNowhere(s: Schema, n: string, k: nat, m: string)
    requires PlainlyNamed(s)
    ensures forall r :: Resolve(Place(s, r), [n + Brackets(k + 2), m]).None?
  {
    DeepPartLeadsNowhere(s, n, k + 1);
    forall r ensures Resolve(Place(s, r), [n + Brackets(k + 2), m]).None? {
    }
  }

  lemma {:induction false} DeepPath(prefix: seq<string>, n: string, k: nat, m: string)
    requires PlainParts(prefix) && PlainName(n) && PlainName(m)
    ensures PlainParts([n + Brackets(k + 2), m])
    ensures Joined(prefix + [n + Brackets(k + 2), m]) == Under(Under(Joined(prefix), n) + "[]" + "[]" + Brackets(k), m)
  {
    var part := n + Brackets(k + 2);
    BracketsEnd(n, k + 2);
    JoinedDeep(prefix, n, k);
    TwoJoined(prefix, part, m);
  }

  lemma {:induction false} TwoJoined(prefix: seq<string>, a: string, b: string)
    requires Joined(prefix + [a]) != ""
    ensures Joined(prefix + [a, b]) == Under(Joined(prefix + [a]), b)
  {
    JoinedLast(prefix + [a], b);
    TwoParts(prefix, a, b);
  }

  lemma {:induction false} TwoParts(prefix: seq<string>, a: string, b: string)
    ensures prefix + [a] + [b] == prefix + [a, b]
  {
  }

  lemma {:induction false} JoinedDeep(prefix: seq<string>, n: string, k: nat)
    requires PlainParts(prefix) && n != ""
    ensures Joined(prefix + [n + Brackets(k + 2)]) == Under(Joined(prefix), n) + "[]" + "[]" + Brackets(k)
    ensures Joined(prefix + [n + Brackets(k + 2)]) != ""
  {
    var tail := Brackets(k + 2);
    assert Brackets(k + 1) == "[]" + Brackets(k);
    assert tail == "[]" + Brackets(k + 1);
    JoinedLast(prefix, n + tail);
    if prefix != [] {
      JoinedNotEmpty(prefix);
      assert Joined(prefix) + "." + (n + tail) == Joined(prefix) + "." + n + "[]" + "[]" + Brackets(k);
    } else {
      assert n + tail == n + "[]" + "[]" + Brackets(k);
    }
  }

  lemma {:induction false} LostBelow(s: Schema, prefix: seq<string>) returns (f: Field, parts: seq<string>)
    requires PlainlyNamed(s) && !Plain(s) && PlainParts(prefix)
    ensures Misleads(s, prefix, parts, f)
    decreases s
  {
    var n :| n in s.properties && !(PlainName(n) && Plain(s.properties[n]) && PlainItems(s.properties[n]));
    var inner := s.properties[n];
    BareBrackets(n);
    if !Plain(inner) {
      f, parts := LostBelow(inner, prefix + [n]);
      MisleadsStep(s, prefix, n, n, parts, f);
      parts := [n] + parts;
    } else if !Plain(inner.items.value) {
      f, parts := LostBelow(inner.items.value, prefix + [n + "[]"]);
      MisleadsStep(s, prefix, n, n + "[]", parts, f);
      parts := [n + "[]"] + parts;
    } else {
      f, parts := DeepProperty(s, prefix, n);
    }
  }

  lemma {:induction false} RootItemsLost(s: Schema) returns (f: Field)
    requires PlainlyNamed(s) && !Bottom(s)
    ensures Lists(s, "", f) && At(s, f.path).None?
  {
    var k, n;
    f, k, n := FirstBelow(s.items.value, "" + "[]");
    RootPart(k, n);
    DeepPartLeadsNowhere(s, "", k);
    SplitPath(s, f.path, "" + Brackets(k + 1), n);
  }

  lemma {:induction false} RootPart(k: nat, n: string)
    requires PlainName(n)
    ensures Under("" + "[]" + Brackets(k), n) == "" + Brackets(k + 1) + "." + n
    ensures Split("" + Brackets(k + 1) + "." + n) == ["" + Brackets(k + 1), n]
  {
    assert "" + "[]" + Brackets(k) == "" + Brackets(k + 1);
    BracketsEnd("", k + 1);
    SplitFirst("" + Brackets(k + 1), n);
    SplitOne(n);
  }

  lemma {:induction false} SplitPath(s: Schema, path: string, part: string, n: string)
    requires Split(path) == [part, n] && Next(s, part).None?
    ensures At(s, path).None?
  {
  }

  /** Of a plainly named schema, the record and the lookup agree on every path if and only if no property lies
      below a list of lists or below items of the root. */
  lemma {:induction false} RecordIsLookupExactly(s: Schema)
    requires PlainlyNamed(s)
    ensures (forall f :: Lists(s, "", f) <==> Looked(s, f)) <==> Agreeing(s)
  {
    if Agreeing(s) {
      forall f ensures Lists(s, "", f) <==> Looked(s, f) {
        RecordIsLookup(s, f);
      }
    } else {
      var f;
      if !Bottom(s) {
        f := RootItemsLost(s);
      } else {
        var parts;
        f, parts := LostBelow(s, []);
        assert [] + parts == parts;
        SplitJoined(parts);
      }
      assert Lists(s, "", f) && !Looked(s, f);
    }
  }

  ghost predicate Distinct(fs: seq<Field>) {
    forall i, j :: 0 <= i < j < |fs| ==> fs[i].path != fs[j].path
  }

  /** `at` spells the plain way to a plain schema, whose items hold a property only where a part can name them. */
  ghost predicate Fits(s: Schema, at: string, prefix: seq<string>) {
    Plain(s) && PlainItems(s) && PlainParts(prefix) && at == Joined(prefix) && (prefix == [] ==> Bottom(s))
  }

  lemma {:induction false} LeadsSplits(s: Schema, prefix: seq<string>, parts: seq<string>, f: Field)
    requires PlainParts(prefix) && Leads(s, prefix, parts, f)
    ensures Split(f.path) == prefix + parts
  {
    SplitJoined(prefix + parts);
  }

  /** Properties under different names have different paths. */
  lemma {:induction false} NamesApart(s: Schema, prefix: seq<string>, n: string, m: string, f: Field, g: Field)
    requires Plain(s) && PlainParts(prefix) && n in s.properties && m in s.properties && n != m
    requires ListsUnder(s, Joined(prefix), n, f) && ListsUnder(s, Joined(prefix), m, g)
    ensures f.path != g.path
  {
    var a := UnderLeads(s, prefix, n, f);
    var b := UnderLeads(s, prefix, m, g);
    LeadsSplits(s, prefix, a, f);
    LeadsSplits(s, prefix, b, g);
    assert (prefix + a)[|prefix|] == a[0] && (prefix + b)[|prefix|] == b[0];
  }

  /** A property's own path is not listed again below it. */
  lemma {:induction false} OwnApart(s: Schema, prefix: seq<string>, n: string, f: Field)
    requires Plain(s) && PlainParts(prefix) && n in s.properties && Lists(s.properties[n], Under(Joined(prefix), n), f)
    ensures f.path != Under(Joined(prefix), n)
  {
    var a := UnderLeads(s, prefix, n, f);
    LeadsSplits(s, prefix, a, f);
    UnderJoined(prefix, n);
    SplitJoined(prefix + [n]);
  }

  /** A list's own properties are listed apart from those of its items. */
  lemma {:induction false} ItemsApart(s: Schema, at: string, prefix: seq<string>, f: Field, g: Field)
    requires Fits(s, at, prefix) && s.items.Some? && prefix != []
    requires Lists(s.items.value, at + "[]", f) && ListsBelow(s, at, g)
    ensures f.path != g.path
  {
    var front, last := prefix[..|prefix| - 1], prefix[|prefix| - 1];
    var items := front + [last + "[]"];
    ItemsFit(s, at, prefix);
    ListsOwn(s.items.value, at + "[]", f);
    var a := BelowLeads(s.items.value, items, f);
    var b := BelowLeads(s, prefix, g);
    LeadsSplits(s.items.value, items, a, f);
    LeadsSplits(s, prefix, b, g);
    assert (items + a)[|front|] == last + "[]" && (prefix + b)[|front|] == last;
  }

  lemma {:induction false} ItemsFit(s: Schema, at: string, prefix: seq<string>)
    requires Fits(s, at, prefix) && s.items.Some? && prefix != []
    ensures Fits(s.items.value, at + "[]", prefix[..|prefix| - 1] + [prefix[|prefix| - 1] + "[]"])
  {
    var front, last := prefix[..|prefix| - 1], prefix[|prefix| - 1];
    ItemsPlain(s);
    LastBracketed(prefix);
  }

  lemma {:induction false} ItemsPlain(s: Schema)
    requires Plain(s) && PlainItems(s) && s.items.Some?
    ensures Plain(s.items.value) && PlainItems(s.items.value)
  {
    if s.items.value.items.Some? {
      NoPropertyPlain(s.items.value.items.value);
    }
  }

  lemma {:induction false} LastBracketed(prefix: seq<string>)
    requires prefix != [] && PlainParts(prefix)
    ensures var items := prefix[..|prefix| - 1] + [prefix[|prefix| - 1] + "[]"];
            PlainParts(items) && Joined(items) == Joined(prefix) + "[]"
  {
    var front, last := prefix[..|prefix| - 1], prefix[|prefix| - 1];
    assert prefix == front + [last];
    JoinedLast(front, last);
    JoinedLast(front, last + "[]");
    if front != [] {
      assert Joined(front) + "." + last + "[]" == Joined(front) + "." + (last + "[]");
    }
  }

  lemma {:induction false} PropertyFits(s: Schema, at: string, prefix: seq<string>, n: string)
    requires Fits(s, at, prefix) && n in s.properties
    ensures Fits(s.properties[n], Under(at, n), prefix + [n])
  {
    UnderJoined(prefix, n);
  }

  method Walk(s: Schema, at: string, ghost prefix: seq<string>) returns (out: seq<Field>)
    ensures forall f :: f in out <==> Lists(s, at, f)
    ensures Fits(s, at, prefix) ==> Distinct(out)
    decreases s
  {
    out := [];
    if s.items.Some? {
      ghost var deeper := if prefix == [] then [] else prefix[..|prefix| - 1] + [prefix[|prefix| - 1] + "[]"];
      if Fits(s, at, prefix) && prefix != [] {
        ItemsFit(s, at, prefix);
      }
      out := Walk(s.items.value, at + "[]", deeper);
      if Fits(s, at, prefix) && prefix == [] {
        if |out| > 0 {
          assert out[0] in out;
          NothingListed(s.items.value, at + "[]", out[0]);
        }
      }
    }
    ghost var first := out;
    var names := s.properties.Keys;
    while names != {}
      invariant names <= s.properties.Keys
      invariant forall f :: f in out <==> f in first || ListedSo(s, at, s.properties.Keys - names, f)
      invariant Fits(s, at, prefix) ==> Distinct(out)
      decreases names
    {
      var n :| n in names;
      ghost var done := s.properties.Keys - names;
      var inner := Walk(s.properties[n], Under(at, n), prefix + [n]);
      var more := [Field(Under(at, n), n in s.required)] + inner;
      if Fits(s, at, prefix) {
        PropertyFits(s, at, prefix, n);
        MoreIsDistinct(s, at, prefix, n, inner);
        OutStaysDistinct(s, at, prefix, done, n, out, first, more);
      }
      ListedNext(s, at, done, n);
      out := out + more;
      names := names - {n};
      assert s.properties.Keys - names == done + {n};
    }
    assert s.properties.Keys - names == s.properties.Keys;
  }

  ghost predicate ListedSo(s: Schema, at: string, done: set<string>, f: Field) {
    exists n :: n in done && n in s.properties && ListsUnder(s, at, n, f)
  }

  lemma {:induction false} ListedNext(s: Schema, at: string, done: set<string>, n: string)
    requires n in s.properties
    ensures forall f :: ListedSo(s, at, done + {n}, f) <==> ListedSo(s, at, done, f) || ListsUnder(s, at, n, f)
  {
  }

  lemma {:induction false} MoreIsDistinct(s: Schema, at: string, prefix: seq<string>, n: string, inner: seq<Field>)
    requires Fits(s, at, prefix) && n in s.properties && Distinct(inner)
    requires forall f :: f in inner <==> Lists(s.properties[n], Under(at, n), f)
    ensures Distinct([Field(Under(at, n), n in s.required)] + inner)
  {
    forall k | 0 <= k < |inner| ensures inner[k].path != Under(at, n) {
      assert inner[k] in inner;
      OwnApart(s, prefix, n, inner[k]);
    }
  }

  lemma {:induction false} OutStaysDistinct(s: Schema, at: string, prefix: seq<string>, done: set<string>, n: string,
                                            out: seq<Field>, first: seq<Field>, more: seq<Field>)
    requires Fits(s, at, prefix) && n in s.properties && n !in done && Distinct(out) && Distinct(more)
    requires forall f :: f in first ==> s.items.Some? && Lists(s.items.value, at + "[]", f)
    requires forall f :: f in out ==> f in first || ListedSo(s, at, done, f)
    requires forall f :: f in more ==> ListsUnder(s, at, n, f)
    ensures Distinct(out + more)
  {
    forall i, j | 0 <= i < |out| && 0 <= j < |more| ensures out[i].path != more[j].path {
      var f, g := out[i], more[j];
      assert f in out && g in more;
      if f in first && prefix == [] {
        NothingListed(s.items.value, at + "[]", f);
      } else if f in first {
        ItemsApart(s, at, prefix, f, g);
      } else {
        var m :| m in done && m in s.properties && ListsUnder(s, at, m, f);
        NamesApart(s, prefix, m, n, f, g);
      }
    }
  }

  // ---- the record as it is compared ----

  predicate PathLe(a: Field, b: Field) {
    StringLe(a.path, b.path)
  }

  /** The record: sorted by path; of an agreeing schema each path once, and exactly what the lookup resolves. */
  method RecordOf(schema: Schema) returns (r: seq<Field>)
    ensures Sorted(PathLe, r) && forall f :: f in r <==> Lists(schema, "", f)
    ensures Agreeing(schema) ==> Distinct(r) && forall f :: f in r <==> Looked(schema, f)
  {
    if schema.items.Some? && Bottom(schema) {
      NoPropertyPlain(schema.items.value);
    }
    var out := Walk(schema, "", []);
    r := Sort(PathLe, out);
    PathLeIsPreorder();
    SortSorted(PathLe, out);
    SameElements(r, out);
    if Agreeing(schema) {
      SortDistinct(out);
      forall f ensures f in r <==> Looked(schema, f) {
        RecordIsLookup(schema, f);
      }
    }
  }

  lemma {:induction false} PathLeIsPreorder()
    ensures Preorder(PathLe)
  {
    StringLeIsTotalOrder();
  }

  lemma {:induction false} InsertDistinct(x: Field, fs: seq<Field>)
    requires Distinct(fs) && forall y :: y in fs ==> y.path != x.path
    ensures Distinct(Insert(PathLe, x, fs))
    decreases fs
  {
    if fs != [] && !PathLe(x, fs[0]) {
      var rest := Insert(PathLe, x, fs[1..]);
      InsertDistinct(x, fs[1..]);
      forall y | y in rest ensures y.path != fs[0].path {
        assert y in multiset(rest);
        assert y == x || y in fs[1..];
      }
    }
  }

  lemma {:induction false} SortDistinct(fs: seq<Field>)
    requires Distinct(fs)
    ensures Distinct(Sort(PathLe, fs))
  {
    if fs != [] {
      SortDistinct(fs[1..]);
      SameElements(Sort(PathLe, fs[1..]), fs[1..]);
      forall y | y in fs[1..] ensures y.path != fs[0].path {
      }
      InsertDistinct(fs[0], Sort(PathLe, fs[1..]));
    }
  }

  /** A list of lists that holds a property is enough for them to part. */
  lemma {:induction false} NestedListsDisagree(list: string, name: string)
    requires PlainName(list) && PlainName(name)
    ensures var x := ANYTHING.(properties := map[name := ANYTHING]);
            var s := ANYTHING.(properties := map[list := ANYTHING.(items := Some(ANYTHING.(items := Some(x))))]);
            var path := list + "[]" + "[]" + "." + name;
            Lists(s, "", Field(path, false)) && At(s, path).None?
  {
    var x := ANYTHING.(properties := map[name := ANYTHING]);
    var inner := ANYTHING.(items := Some(x));
    var a := ANYTHING.(items := Some(inner));
    var s := ANYTHING.(properties := map[list := a]);
    var at := list + "[]" + "[]";
    var f := Field(at + "." + name, false);
    assert ListsUnder(x, at, name, f);
    assert Lists(x, at, f);
    assert Lists(inner, list + "[]", f);
    assert Lists(a, list, f);
    assert ListsUnder(s, "", list, f);
    SplitFirst(at, name);
    SplitOne(name);
    assert Bare(at) == list + "[]" && Bare(at) != list;
    assert Next(s, at).None?;
  }
}
