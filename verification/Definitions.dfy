/** Declared definitions: the committed artifacts' item collections are split into one definition per
    group, and generated back from them. */
module Definitions {
  import opened Sequences
  import opened Wrappers
  import opened Sorting

  // ---- documents and definitions ----

  /** A string, or any other value: `text` is what Python formats it as, and `elements` the strings among what it
      is iterated over, where it can be. */
  datatype Json = Str(s: string) | Other(id: nat, text: string, elements: Option<seq<string>>)

  function Formatted(j: Json): string {
    match j
    case Str(s) => s
    case Other(_, text, _) => text
  }

  /** What `for e in j` goes over, of strings; a string goes letter by letter. */
  function Elements(j: Json): Option<seq<string>> {
    match j
    case Str(s) => Some(seq(|s|, i requires 0 <= i < |s| => [s[i]]))
    case Other(_, _, elements) => elements
  }

  /** A JSON object; the order of its members is not part of it. */
  type Item = map<string, Json>

  /** The six collections the artifacts hold. */
  datatype Slot = Jobs | Nodes | Edges | Lanes | Memory | Subjects

  const SLOTS := [Jobs, Nodes, Edges, Lanes, Memory, Subjects]

  /** The member that names an item of a list; none where the collection is an object keyed by name. */
  function Key(slot: Slot): Option<string> {
    match slot
    case Jobs => Some("id")
    case Nodes => Some("id")
    case Edges => Some("id")
    case Lanes => None
    case Memory => None
    case Subjects => Some("subject")
  }

  datatype Entry = Entry(id: string, item: Item)

  /** A collection as written: a list of objects, or an object keyed by name in the order written. */
  datatype Contents = AsList(items: seq<Item>) | AsMap(entries: seq<Entry>)

  /** `rest` is everything of the artifacts but their collections. */
  datatype Documents = Documents(rest: Json, slots: map<Slot, Contents>)

  /** `marker` is the member that says which kind of file this is. */
  datatype Platform = Platform(marker: string, rest: Json, order: map<Slot, seq<string>>)

  /** A group's markers, the members it should not have, its sections, and the asset checks no artifact holds,
      as (asset, check). */
  datatype Definition = Definition(marker: string, group: string, unknown: set<string>,
                                   sections: map<Slot, Contents>, checks: seq<(string, string)>)

  const DEFINITION := "foundation-platform.definition.v1"

  type Definitions = map<string, Definition>

  predicate Complete<T>(m: map<Slot, T>) {
    forall slot: Slot :: slot in m
  }

  // ---- items ----

  /** The item is an object of its list with a string under the list's key. */
  predicate Keyed(slot: Slot, item: Item) {
    Key(slot).Some? ==> Key(slot).value in item && item[Key(slot).value].Str?
  }

  function IdOf(slot: Slot, item: Item): string
    requires Key(slot).Some? && Keyed(slot, item)
  {
    item[Key(slot).value].s
  }

  /** The collection has its slot's shape. */
  predicate Shaped(slot: Slot, c: Contents) {
    match c
    case AsList(items) => Key(slot).Some? && forall i | 0 <= i < |items| :: Keyed(slot, items[i])
    case AsMap(entries) => Key(slot).None?
  }

  function Entries(slot: Slot, c: Contents): (es: seq<Entry>)
    requires Shaped(slot, c)
  {
    match c
    case AsList(items) => seq(|items|, i requires 0 <= i < |items| => Entry(IdOf(slot, items[i]), items[i]))
    case AsMap(entries) => entries
  }

  predicate IdsOnce(es: seq<Entry>) {
    forall i, j | 0 <= i < j < |es| :: es[i].id != es[j].id
  }

  function Ids(es: seq<Entry>): seq<string> {
    seq(|es|, i requires 0 <= i < |es| => es[i].id)
  }

  predicate HasEnds(edge: Item) {
    "from" in edge && "to" in edge
  }

  function EdgeId(edge: Item): string
    requires HasEnds(edge)
  {
    Formatted(edge["from"]) + "-to-" + Formatted(edge["to"])
  }

  predicate NamedByEnds(e: Entry) {
    HasEnds(e.item) && e.id == EdgeId(e.item)
  }

  /** What a definition writes of an item: an edge's id is not written. */
  function Written(slot: Slot, e: Entry): Item {
    if slot.Edges? then e.item - {"id"} else e.item
  }

  /** An item of a list as a definition may write it. */
  predicate Readable(slot: Slot, item: Item) {
    if slot.Edges? then HasEnds(item) && "id" !in item else Keyed(slot, item)
  }

  function Read(slot: Slot, item: Item): Entry
    requires Key(slot).Some? && Readable(slot, item)
  {
    if slot.Edges? then
      var named := item["id" := Str(EdgeId(item))];
      Entry(EdgeId(item), named)
    else
      Entry(IdOf(slot, item), item)
  }

  lemma {:induction false} ReadWritten(slot: Slot, e: Entry)
    requires Key(slot).Some? && Keyed(slot, e.item) && e.id == IdOf(slot, e.item)
    requires slot.Edges? ==> NamedByEnds(e)
    ensures Readable(slot, Written(slot, e)) && Read(slot, Written(slot, e)) == e
  {
    if slot.Edges? {
      var w := Written(slot, e);
      assert w["from"] == e.item["from"] && w["to"] == e.item["to"];
      assert e.item["id"] == Str(EdgeId(w));
      assert w["id" := Str(EdgeId(w))] == e.item;
    }
  }

  // ---- sections of a definition ----

  function Empty(slot: Slot): Contents {
    if Key(slot).Some? then AsList([]) else AsMap([])
  }

  function Section(defs: Definitions, group: string, slot: Slot): Contents {
    if group in defs && slot in defs[group].sections then defs[group].sections[slot] else Empty(slot)
  }

  function Append(slot: Slot, c: Contents, e: Entry): Contents {
    match c
    case AsList(items) => AsList(items + [Written(slot, e)])
    case AsMap(entries) => AsMap(entries + [e])
  }

  /** A section as `generate` can read it. */
  predicate SectionReadable(slot: Slot, c: Contents) {
    match c
    case AsList(items) => Key(slot).Some? && forall i | 0 <= i < |items| :: Readable(slot, items[i])
    case AsMap(_) => Key(slot).None?
  }

  function SectionEntries(slot: Slot, c: Contents): seq<Entry>
    requires SectionReadable(slot, c)
  {
    match c
    case AsList(items) => seq(|items|, i requires 0 <= i < |items| => Read(slot, items[i]))
    case AsMap(entries) => entries
  }

  /** The entries of a collection that go to one group, in order. */
  function Among(es: seq<Entry>, groups: map<string, string>, group: string): seq<Entry> {
    if es == [] then []
    else
      var before, last := Among(es[..|es| - 1], groups, group), es[|es| - 1];
      if last.id in groups && groups[last.id] == group then before + [last] else before
  }

  function SectionOf(slot: Slot, es: seq<Entry>, groups: map<string, string>, group: string): Contents {
    if es == [] then Empty(slot)
    else
      var before, last := SectionOf(slot, es[..|es| - 1], groups, group), es[|es| - 1];
      if last.id in groups && groups[last.id] == group then Append(slot, before, last) else before
  }

  predicate Splittable(slot: Slot, es: seq<Entry>) {
    && (forall i | 0 <= i < |es| :: Key(slot).Some? ==> Keyed(slot, es[i].item) && es[i].id == IdOf(slot, es[i].item))
    && (slot.Edges? ==> forall i | 0 <= i < |es| :: NamedByEnds(es[i]))
  }

  /** A section written by `split` reads back as the entries that went into it. */
  lemma {:induction false} SectionReadsBack(slot: Slot, es: seq<Entry>, groups: map<string, string>, group: string)
    requires Splittable(slot, es)
    ensures SectionReadable(slot, SectionOf(slot, es, groups, group))
    ensures SectionEntries(slot, SectionOf(slot, es, groups, group)) == Among(es, groups, group)
  {
    if es != [] {
      var n := |es| - 1;
      SectionReadsBack(slot, es[..n], groups, group);
      if Key(slot).Some? {
        ReadWritten(slot, es[n]);
      }
    }
  }

  // ---- collecting a slot over the groups ----

  datatype Collected = Collected(items: map<string, Item>) | Refused

  /** Entries added one by one; an id that is owned already is refused. */
  function AddAll(items: map<string, Item>, es: seq<Entry>): Collected {
    if es == [] then Collected(items)
    else
      match AddAll(items, es[..|es| - 1])
      case Refused => Refused
      case Collected(before) =>
        var e := es[|es| - 1];
        if e.id in before then Refused else Collected(before[e.id := e.item])
  }

  function Collect(slot: Slot, names: seq<string>, defs: Definitions): Collected {
    if names == [] then Collected(map[])
    else
      match Collect(slot, names[..|names| - 1], defs)
      case Refused => Refused
      case Collected(before) =>
        WithSection(slot, before, Section(defs, names[|names| - 1], slot))
  }

  function WithSection(slot: Slot, items: map<string, Item>, c: Contents): Collected {
    if SectionReadable(slot, c) then AddAll(items, SectionEntries(slot, c)) else Refused
  }

  lemma {:induction false} AmongMember(es: seq<Entry>, groups: map<string, string>, group: string, e: Entry)
    ensures e in Among(es, groups, group) <==> e in es && e.id in groups && groups[e.id] == group
  {
    if es != [] {
      AmongMember(es[..|es| - 1], groups, group, e);
      assert es == es[..|es| - 1] + [es[|es| - 1]];
    }
  }

  lemma {:induction false} AmongOnce(es: seq<Entry>, groups: map<string, string>, group: string)
    requires IdsOnce(es)
    ensures IdsOnce(Among(es, groups, group))
  {
    if es != [] {
      var n := |es| - 1;
      var before := Among(es[..n], groups, group);
      AmongOnce(es[..n], groups, group);
      forall i | 0 <= i < |before| ensures before[i].id != es[n].id {
        AmongMember(es[..n], groups, group, before[i]);
        var k :| 0 <= k < n && es[..n][k] == before[i];
        assert es[k].id == before[i].id;
      }
    }
  }

  /** `m` holds what `items` holds and these entries. */
  ghost predicate HoldsToo(m: map<string, Item>, items: map<string, Item>, es: seq<Entry>) {
    && (forall id :: id in m <==> id in items || exists i :: 0 <= i < |es| && es[i].id == id)
    && (forall id :: id in items ==> m[id] == items[id])
    && (forall i :: 0 <= i < |es| ==> m[es[i].id] == es[i].item)
  }

  lemma {:induction false} HoldsOneMore(m: map<string, Item>, items: map<string, Item>, es: seq<Entry>, e: Entry)
    requires HoldsToo(m, items, es) && e.id !in items && forall i :: 0 <= i < |es| ==> es[i].id != e.id
    ensures e.id !in m && HoldsToo(m[e.id := e.item], items, es + [e])
  {
    var more, after := es + [e], m[e.id := e.item];
    forall id ensures id in after <==> id in items || exists i :: 0 <= i < |more| && more[i].id == id {
      if i :| 0 <= i < |es| && es[i].id == id {
        assert more[i].id == id;
      }
      assert more[|es|].id == e.id;
    }
  }

  lemma {:induction false} AddAllHolds(items: map<string, Item>, es: seq<Entry>)
    requires IdsOnce(es) && forall i :: 0 <= i < |es| ==> es[i].id !in items
    ensures AddAll(items, es).Collected? && HoldsToo(AddAll(items, es).items, items, es)
  {
    if es != [] {
      var n := |es| - 1;
      assert forall i :: 0 <= i < n ==> es[..n][i] == es[i];
      AddAllHolds(items, es[..n]);
      HoldsOneMore(AddAll(items, es[..n]).items, items, es[..n], es[n]);
      LastJoined(es);
    }
  }

  // ---- split ----

  type Groups = map<Slot, map<string, string>>

  /** What `split` accepts: shapes right, every id once, every edge named by its ends. */
  predicate SlotSplittable(slot: Slot, c: Contents) {
    && Shaped(slot, c)
    && IdsOnce(Entries(slot, c))
    && (slot.Edges? ==> forall i | 0 <= i < |Entries(slot, c)| :: NamedByEnds(Entries(slot, c)[i]))
  }

  ghost predicate AllSplittable(docs: Documents) {
    Complete(docs.slots) && forall slot: Slot :: SlotSplittable(slot, docs.slots[slot])
  }

  /** Every item has a group. */
  ghost predicate Grouped(docs: Documents, groups: Groups) {
    && Complete(docs.slots) && Complete(groups)
    && forall slot: Slot, i | Shaped(slot, docs.slots[slot]) && 0 <= i < |Entries(slot, docs.slots[slot])| ::
         Entries(slot, docs.slots[slot])[i].id in groups[slot]
  }

  /** The slot's items lie in their groups' sections, each group's in the order they came. */
  ghost predicate Scattered(slot: Slot, es: seq<Entry>, groups: map<string, string>, defs: Definitions) {
    && (forall group :: Section(defs, group, slot) == SectionOf(slot, es, groups, group))
    && (forall i :: 0 <= i < |es| ==> es[i].id in groups && groups[es[i].id] in defs)
  }

  /** The definition says what it is and whose, and has no section beside the known ones. */
  predicate WellMarked(group: string, d: Definition) {
    d.marker == DEFINITION && d.group == group && d.unknown == {}
  }

  /** As a split writes them: well marked, without checks. */
  ghost predicate Bare(defs: Definitions) {
    forall group :: group in defs ==> WellMarked(group, defs[group]) && defs[group].checks == []
  }

  /** `after` differs from `before` in sections of one slot only. */
  ghost predicate OnlySlot(slot: Slot, before: Definitions, after: Definitions) {
    && before.Keys <= after.Keys
    && forall group, other: Slot :: other != slot ==> Section(after, group, other) == Section(before, group, other)
  }

  method SplitSlot(slot: Slot, es: seq<Entry>, groups: map<string, string>, defs: Definitions)
    returns (after: Definitions)
    requires forall i :: 0 <= i < |es| ==> es[i].id in groups
    requires forall group :: Section(defs, group, slot) == Empty(slot)
    requires Bare(defs)
    ensures Scattered(slot, es, groups, after) && OnlySlot(slot, defs, after) && Bare(after)
  {
    after := defs;
    for k := 0 to |es|
      invariant (forall i :: 0 <= i < k ==> groups[es[i].id] in after) && Bare(after)
      invariant Sectioned(slot, es[..k], groups, defs, after)
    {
      var e := es[k];
      var group := groups[e.id];
      var definition := if group in after then after[group] else Definition(DEFINITION, group, {}, map[], []);
      var section := if slot in definition.sections then definition.sections[slot] else Empty(slot);
      SectionedNext(slot, es, k, groups, defs, after,
        definition.(sections := definition.sections[slot := Append(slot, section, e)]));
      after := after[group := definition.(sections := definition.sections[slot := Append(slot, section, e)])];
    }
    assert es[..|es|] == es;
  }

  ghost predicate Sectioned(slot: Slot, es: seq<Entry>, groups: map<string, string>, defs: Definitions,
                            after: Definitions) {
    OnlySlot(slot, defs, after) && forall group :: Section(after, group, slot) == SectionOf(slot, es, groups, group)
  }

  lemma {:induction false} SectionedNext(slot: Slot, es: seq<Entry>, k: nat, groups: map<string, string>,
                                         defs: Definitions,
                                         after: Definitions, d: Definition)
    requires k < |es| && es[k].id in groups && Sectioned(slot, es[..k], groups, defs, after)
    requires var group := groups[es[k].id];
             && slot in d.sections && d.sections[slot] == Append(slot, Section(after, group, slot), es[k])
             && (forall other :: other != slot ==>
                   (if other in d.sections then d.sections[other] else Empty(other)) == Section(after, group, other))
    ensures Sectioned(slot, es[..k + 1], groups, defs, after[groups[es[k].id] := d])
  {
    var next := after[groups[es[k].id] := d];
    assert es[..k + 1][..k] == es[..k];
    forall group ensures Section(next, group, slot) == SectionOf(slot, es[..k + 1], groups, group) {
      assert Section(after, group, slot) == SectionOf(slot, es[..k], groups, group);
    }
    forall group, other: Slot | other != slot ensures Section(next, group, other) == Section(defs, group, other) {
      assert Section(after, group, other) == Section(defs, group, other);
    }
  }

  ghost predicate IsSplit(docs: Documents, groups: Groups, p: Platform, defs: Definitions)
    requires AllSplittable(docs) && Complete(groups)
  {
    && p.marker == DEFINITION && p.rest == docs.rest && Complete(p.order) && Bare(defs)
    && forall slot: Slot ::
         && p.order[slot] == Ids(Entries(slot, docs.slots[slot]))
         && Scattered(slot, Entries(slot, docs.slots[slot]), groups[slot], defs)
  }

  /** The slots handled so far are split, and the others are untouched. */
  ghost predicate SplitSoFar(docs: Documents, groups: Groups, done: seq<Slot>, order: map<Slot, seq<string>>,
                             defs: Definitions)
    requires Complete(docs.slots) && Complete(groups)
  {
    && Bare(defs)
    && (forall slot :: slot in done ==>
          && SlotSplittable(slot, docs.slots[slot]) && slot in order
          && order[slot] == Ids(Entries(slot, docs.slots[slot]))
          && Scattered(slot, Entries(slot, docs.slots[slot]), groups[slot], defs))
    && (forall group, slot: Slot :: slot !in done ==> Section(defs, group, slot) == Empty(slot))
  }

  lemma {:induction false} ScatteredStays(slot: Slot, es: seq<Entry>, groups: map<string, string>, other: Slot,
                                          before: Definitions, after: Definitions)
    requires Scattered(slot, es, groups, before) && OnlySlot(other, before, after) && slot != other
    ensures Scattered(slot, es, groups, after)
  {
  }

  lemma {:induction false} SplitOneMore(docs: Documents, groups: Groups, done: seq<Slot>, order: map<Slot, seq<string>>,
                                        defs: Definitions, slot: Slot, after: Definitions)
    requires Complete(docs.slots) && Complete(groups) && slot !in done
    requires SplitSoFar(docs, groups, done, order, defs) && SlotSplittable(slot, docs.slots[slot])
    requires Scattered(slot, Entries(slot, docs.slots[slot]), groups[slot], after) && OnlySlot(slot, defs, after) &&
             Bare(after)
    ensures SplitSoFar(docs, groups, done + [slot], order[slot := Ids(Entries(slot, docs.slots[slot]))], after)
  {
    forall other | other in done
      ensures Scattered(other, Entries(other, docs.slots[other]), groups[other], after)
    {
      ScatteredStays(other, Entries(other, docs.slots[other]), groups[other], slot, defs, after);
    }
  }

  method Split(docs: Documents, groups: Groups) returns (r: Result<(Platform, Definitions)>)
    requires Grouped(docs, groups)
    ensures r.Ok? <==> AllSplittable(docs)
    ensures r.Ok? ==> IsSplit(docs, groups, r.value.0, r.value.1)
  {
    var order: map<Slot, seq<string>>, defs: Definitions := map[], map[];
    for k := 0 to |SLOTS|
      invariant SplitSoFar(docs, groups, SLOTS[..k], order, defs)
    {
      var slot := SLOTS[k];
      assert SLOTS[..k + 1] == SLOTS[..k] + [slot];
      if !SlotSplittable(slot, docs.slots[slot]) {
        return Err;
      }
      var es := Entries(slot, docs.slots[slot]);
      ghost var before := defs;
      defs := SplitSlot(slot, es, groups[slot], defs);
      SplitOneMore(docs, groups, SLOTS[..k], order, before, slot, defs);
      order := order[slot := Ids(es)];
    }
    AllSlots();
    r := Ok((Platform(DEFINITION, docs.rest, order), defs));
  }

  lemma {:induction false} AllSlots()
    ensures forall slot: Slot :: slot in SLOTS[..|SLOTS|]
  {
    assert SLOTS[..|SLOTS|] == SLOTS;
    forall slot: Slot ensures slot in SLOTS {
      match slot {
        case Jobs => assert SLOTS[0] == slot;
        case Nodes => assert SLOTS[1] == slot;
        case Edges => assert SLOTS[2] == slot;
        case Lanes => assert SLOTS[3] == slot;
        case Memory => assert SLOTS[4] == slot;
        case Subjects => assert SLOTS[5] == slot;
      }
    }
  }

  // ---- generate ----

  /** `l` lists the set in order. */
  ghost predicate Lists(l: seq<string>, s: set<string>) {
    Sorted(StringLe, l) && Once(l, s)
  }

  method Listing(s: set<string>) returns (l: seq<string>)
    ensures Lists(l, s)
  {
    var rest, found: seq<string> := s, [];
    while rest != {}
      invariant rest <= s && Once(found, s - rest)
      decreases |rest|
    {
      var x :| x in rest;
      OnceMore(found, s - rest, x);
      found := found + [x];
      assert s - rest + {x} == s - (rest - {x});
      rest := rest - {x};
    }
    assert s - rest == s;
    l := Sort(StringLe, found);
    SortedLists(found, s);
  }

  ghost predicate Once(l: seq<string>, s: set<string>) {
    && (forall i, j :: 0 <= i < j < |l| ==> l[i] != l[j])
    && (forall x :: x in l <==> x in s)
  }

  lemma {:induction false} OnceMore(l: seq<string>, s: set<string>, x: string)
    requires Once(l, s) && x !in s
    ensures Once(l + [x], s + {x})
  {
  }

  lemma {:induction false} SortedLists(found: seq<string>, s: set<string>)
    requires Once(found, s)
    ensures Lists(Sort(StringLe, found), s)
  {
    StringLeIsTotalOrder();
    SortSorted(StringLe, found);
    SameElements(Sort(StringLe, found), found);
    DistinctKept(found, Sort(StringLe, found));
  }

  lemma {:induction false} ListingExists(s: set<string>) returns (l: seq<string>)
    ensures Lists(l, s)
  {
    if s == {} {
      l := [];
    } else {
      var x :| x in s;
      var m := ListingExists(s - {x});
      SortedLists(m + [x], s);
      l := Sort(StringLe, m + [x]);
    }
  }

  lemma {:induction false} CountOfDistinct(s: seq<string>, x: string)
    requires forall i, j :: 0 <= i < j < |s| ==> s[i] != s[j]
    ensures multiset(s)[x] <= 1
  {
    if s != [] {
      var n := |s| - 1;
      assert s == s[..n] + [s[n]];
      CountOfDistinct(s[..n], x);
      if x == s[n] {
        assert x !in s[..n];
        assert multiset(s[..n])[x] == 0;
      }
    }
  }

  lemma {:induction false} DistinctKept(s: seq<string>, t: seq<string>)
    requires multiset(s) == multiset(t)
    requires forall i, j :: 0 <= i < j < |s| ==> s[i] != s[j]
    ensures forall i, j :: 0 <= i < j < |t| ==> t[i] != t[j]
  {
    forall i, j | 0 <= i < j < |t| ensures t[i] != t[j] {
      if t[i] == t[j] {
        assert t == t[..i] + [t[i]] + t[i + 1..j] + [t[j]] + t[j + 1..];
        assert multiset(t)[t[i]] >= 2;
        CountOfDistinct(s, t[i]);
        assert false;
      }
    }
  }

  lemma {:induction false} ListsUnique(l: seq<string>, m: seq<string>, s: set<string>)
    requires Lists(l, s) && Lists(m, s)
    ensures l == m
  {
    forall x ensures multiset(l)[x] == multiset(m)[x] {
      CountOfDistinct(l, x);
      CountOfDistinct(m, x);
      assert x in multiset(l) <==> x in l;
      assert x in multiset(m) <==> x in m;
    }
    assert multiset(l) == multiset(m);
    StringLeIsTotalOrder();
    SortedUnique(StringLe, l, m);
  }

  /** The ids a slot is written in: those `order` lists, then the others sorted. */
  ghost predicate Ordered(ids: seq<string>, order: seq<string>, keys: set<string>) {
    && |order| <= |ids| && ids[..|order|] == order
    && Lists(ids[|order|..], keys - set x | x in order)
  }

  /** Each id once, where it first stands: what a dictionary built from the list holds. */
  function Firsts(ids: seq<string>): (r: seq<string>)
    ensures forall x :: x in r <==> x in ids
  {
    if ids == [] then []
    else
      var before, last := Firsts(ids[..|ids| - 1]), ids[|ids| - 1];
      assert ids == ids[..|ids| - 1] + [last];
      if last in before then before else before + [last]
  }

  function ContentsOf(slot: Slot, ids: seq<string>, items: map<string, Item>): Contents
    requires forall x :: x in ids ==> x in items
  {
    if Key(slot).Some? then
      AsList(seq(|ids|, i requires 0 <= i < |ids| => items[ids[i]]))
    else
      var once := Firsts(ids);
      AsMap(seq(|once|, i requires 0 <= i < |once| => Entry(once[i], items[once[i]])))
  }

  predicate HasId(es: seq<Entry>, id: string) {
    exists k :: 0 <= k < |es| && es[k].id == id
  }

  /** A group checks only its own assets, each check once on each. */
  predicate ChecksOwned(d: Definition) {
    var assets := if Nodes in d.sections then d.sections[Nodes] else Empty(Nodes);
    && SectionReadable(Nodes, assets)
    && (forall i | 0 <= i < |d.checks| :: HasId(SectionEntries(Nodes, assets), d.checks[i].0))
    && (forall i, j | 0 <= i < j < |d.checks| :: d.checks[i] != d.checks[j])
  }

  function OrderOf(p: Platform, slot: Slot, ordered: bool): seq<string> {
    if ordered && slot in p.order then p.order[slot] else []
  }

  /** The slot's contents: what the groups hold, none twice, in the order the platform keeps; an order that
      lists an item no group holds is refused. */
  ghost predicate SlotGenerated(slot: Slot, order: seq<string>, names: seq<string>, defs: Definitions, c: Contents) {
    match Collect(slot, names, defs)
    case Refused => false
    case Collected(items) =>
      && (forall x :: x in order ==> x in items)
      && exists ids ::
           Ordered(ids, order, items.Keys) && (forall x :: x in ids ==> x in items) && c == ContentsOf(slot, ids, items)
  }

  ghost predicate Generates(p: Platform, defs: Definitions, ordered: bool, docs: Documents) {
    && p.marker == DEFINITION && docs.rest == p.rest && Complete(docs.slots)
    && (forall group :: group in defs ==> WellMarked(group, defs[group]) && ChecksOwned(defs[group]))
    && exists names :: Lists(names, defs.Keys)
                       && forall slot: Slot :: SlotGenerated(slot, OrderOf(p, slot, ordered), names, defs,
                          docs.slots[slot])
  }

  lemma {:induction false} AddAllRefused(items: map<string, Item>, es: seq<Entry>, n: nat)
    requires n <= |es| && AddAll(items, es[..n]).Refused?
    ensures AddAll(items, es).Refused?
  {
    if n < |es| {
      assert es[..|es| - 1][..n] == es[..n];
      AddAllRefused(items, es[..|es| - 1], n);
    } else {
      assert es[..n] == es;
    }
  }

  lemma {:induction false} CollectRefused(slot: Slot, names: seq<string>, defs: Definitions, n: nat)
    requires n <= |names| && Collect(slot, names[..n], defs).Refused?
    ensures Collect(slot, names, defs).Refused?
  {
    if n < |names| {
      assert names[..|names| - 1][..n] == names[..n];
      CollectRefused(slot, names[..|names| - 1], defs, n);
    } else {
      assert names[..n] == names;
    }
  }

  /** Adds a group's entries; one that is owned already is refused. */
  method AddSection(slot: Slot, items: map<string, Item>, c: Contents) returns (r: Collected)
    ensures r == WithSection(slot, items, c)
  {
    if !SectionReadable(slot, c) {
      return Refused;
    }
    var es := SectionEntries(slot, c);
    var all := items;
    for i := 0 to |es|
      invariant AddAll(items, es[..i]) == Collected(all)
    {
      assert es[..i + 1][..i] == es[..i];
      if es[i].id in all {
        AddAllRefused(items, es, i + 1);
        return Refused;
      }
      all := all[es[i].id := es[i].item];
    }
    assert es[..|es|] == es;
    r := Collected(all);
  }

  /** One slot's items over all the groups. */
  method CollectSlot(slot: Slot, names: seq<string>, defs: Definitions) returns (r: Collected)
    ensures r == Collect(slot, names, defs)
  {
    r := Collected(map[]);
    for k := 0 to |names|
      invariant r.Collected? && Collect(slot, names[..k], defs) == r
    {
      assert names[..k + 1][..k] == names[..k];
      r := AddSection(slot, r.items, Section(defs, names[k], slot));
      if r.Refused? {
        CollectRefused(slot, names, defs, k + 1);
        return;
      }
    }
    assert names[..|names|] == names;
  }

  method GenerateSlot(slot: Slot, order: seq<string>, names: seq<string>, defs: Definitions)
    returns (r: Option<Contents>)
    ensures r.Some? ==> SlotGenerated(slot, order, names, defs, r.value)
    ensures r.None? ==> forall c :: !SlotGenerated(slot, order, names, defs, c)
  {
    var collected := CollectSlot(slot, names, defs);
    if collected.Refused? {
      return None;
    }
    var items := collected.items;
    if exists x :: x in order && x !in items {
      return None;
    }
    var tail := Listing(items.Keys - set x | x in order);
    var ids := order + tail;
    assert ids[|order|..] == tail;
    r := Some(ContentsOf(slot, ids, items));
  }

  /** The artifacts the definitions say, or a refusal when they say none. */
  method Generate(p: Platform, defs: Definitions, ordered: bool) returns (r: Result<Documents>)
    ensures r.Ok? ==> Generates(p, defs, ordered, r.value)
    ensures r.Err? ==> forall docs :: !Generates(p, defs, ordered, docs)
  {
    if p.marker != DEFINITION {
      return Err;
    }
    if exists group :: group in defs && !(WellMarked(group, defs[group]) && ChecksOwned(defs[group])) {
      return Err;
    }
    var names := Listing(defs.Keys);
    forall other | Lists(other, defs.Keys) ensures other == names { ListsUnique(names, other, defs.Keys); }
    var slots: map<Slot, Contents> := map[];
    for k := 0 to |SLOTS|
      invariant forall slot :: slot in SLOTS[..k] ==>
        slot in slots && SlotGenerated(slot, OrderOf(p, slot, ordered), names, defs, slots[slot])
    {
      var slot := SLOTS[k];
      assert SLOTS[..k + 1] == SLOTS[..k] + [slot];
      var c := GenerateSlot(slot, OrderOf(p, slot, ordered), names, defs);
      if c.None? {
        return Err;
      }
      slots := slots[slot := c.value];
    }
    AllSlots();
    r := Ok(Documents(p.rest, slots));
  }

  // ---- the round trip ----

  /** What collecting over some of the groups finds of scattered entries. */
  ghost predicate FoundAmong(items: map<string, Item>, es: seq<Entry>, groups: map<string, string>,
                             names: seq<string>) {
    && (forall id :: id in items ==> exists i :: 0 <= i < |es| && es[i].id == id && id in groups && groups[id] in names)
    && (forall i :: 0 <= i < |es| && es[i].id in groups && groups[es[i].id] in names ==>
          es[i].id in items && items[es[i].id] == es[i].item)
  }

  lemma {:induction false} AmongIndex(es: seq<Entry>, groups: map<string, string>, name: string, e: Entry)
    requires e in es && e.id in groups && groups[e.id] == name
    ensures exists i :: 0 <= i < |es| && es[i].id == e.id
  {
    var i :| 0 <= i < |es| && es[i] == e;
    assert es[i].id == e.id;
  }

  lemma {:induction false} FoundNext(items: map<string, Item>, es: seq<Entry>, groups: map<string, string>,
                                     names: seq<string>, name: string)
    requires IdsOnce(es) && FoundAmong(items, es, groups, names) && name !in names
    ensures AddAll(items, Among(es, groups, name)).Collected?
    ensures FoundAmong(AddAll(items, Among(es, groups, name)).items, es, groups, names + [name])
  {
    var more := Among(es, groups, name);
    AmongOnce(es, groups, name);
    forall e ensures e in more <==> e in es && e.id in groups && groups[e.id] == name {
      AmongMember(es, groups, name, e);
    }
    forall i | 0 <= i < |more| ensures more[i].id !in items {
      assert more[i] in more && groups[more[i].id] == name;
    }
    AddAllHolds(items, more);
    MoreFound(items, AddAll(items, more).items, es, groups, names, name);
  }

  lemma {:induction false} MoreFound(items: map<string, Item>, all: map<string, Item>, es: seq<Entry>,
                                     groups: map<string, string>,
                                     names: seq<string>, name: string)
    requires FoundAmong(items, es, groups, names) && HoldsToo(all, items, Among(es, groups, name))
    ensures FoundAmong(all, es, groups, names + [name])
  {
    var more := Among(es, groups, name);
    forall id | id in all
      ensures exists i :: 0 <= i < |es| && es[i].id == id && id in groups && groups[id] in names + [name]
    {
      if id !in items {
        var k :| 0 <= k < |more| && more[k].id == id;
        AmongMember(es, groups, name, more[k]);
        AmongIndex(es, groups, name, more[k]);
      }
    }
    forall i | 0 <= i < |es| && es[i].id in groups && groups[es[i].id] in names + [name]
      ensures es[i].id in all && all[es[i].id] == es[i].item
    {
      if groups[es[i].id] == name {
        AmongMember(es, groups, name, es[i]);
        var k :| 0 <= k < |more| && more[k] == es[i];
        assert all[more[k].id] == more[k].item;
      }
    }
  }

  lemma {:induction false} CollectFinds(slot: Slot, es: seq<Entry>, groups: map<string, string>, defs: Definitions,
                                        names: seq<string>)
    requires Splittable(slot, es) && IdsOnce(es) && Scattered(slot, es, groups, defs)
    requires forall i, j :: 0 <= i < j < |names| ==> names[i] != names[j]
    ensures Collect(slot, names, defs).Collected?
    ensures FoundAmong(Collect(slot, names, defs).items, es, groups, names)
  {
    if names != [] {
      var n := |names| - 1;
      CollectFinds(slot, es, groups, defs, names[..n]);
      SectionFound(slot, Collect(slot, names[..n], defs).items, es, groups, defs, names[..n], names[n]);
      LastJoined(names);
    }
  }

  lemma {:induction false} SectionFound(slot: Slot, items: map<string, Item>, es: seq<Entry>,
                                        groups: map<string, string>, defs: Definitions, names: seq<string>,
                                        name: string)
    requires Splittable(slot, es) && IdsOnce(es) && Scattered(slot, es, groups, defs)
    requires FoundAmong(items, es, groups, names) && name !in names
    ensures var all := WithSection(slot, items, Section(defs, name, slot));
            all.Collected? && FoundAmong(all.items, es, groups, names + [name])
  {
    SectionReadsBack(slot, es, groups, name);
    FoundNext(items, es, groups, names, name);
  }

  lemma {:induction false} FirstsOfDistinct(ids: seq<string>)
    requires forall i, j :: 0 <= i < j < |ids| ==> ids[i] != ids[j]
    ensures Firsts(ids) == ids
  {
    if ids != [] {
      var n := |ids| - 1;
      FirstsOfDistinct(ids[..n]);
      assert ids == ids[..n] + [ids[n]];
    }
  }

  lemma {:induction false} SlotRoundTrip(slot: Slot, c: Contents, groups: map<string, string>, defs: Definitions,
                                         names: seq<string>)
    requires SlotSplittable(slot, c) && Scattered(slot, Entries(slot, c), groups, defs) && Lists(names, defs.Keys)
    ensures SlotGenerated(slot, Ids(Entries(slot, c)), names, defs, c)
  {
    var ids := Ids(Entries(slot, c));
    CollectFinds(slot, Entries(slot, c), groups, defs, names);
    var items := Collect(slot, names, defs).items;
    FoundContents(slot, c, groups, defs.Keys, names, items);
    OrderedByItself(ids, items.Keys);
    GeneratedAs(slot, ids, names, defs, c, ids);
  }

  /** Items found of a whole collection are its contents. */
  lemma {:induction false} FoundContents(slot: Slot, c: Contents, groups: map<string, string>, defined: set<string>,
                                         names: seq<string>, items: map<string, Item>)
    requires Shaped(slot, c) && IdsOnce(Entries(slot, c)) && FoundAmong(items, Entries(slot, c), groups, names)
    requires forall x :: x in names <==> x in defined
    requires forall i :: 0 <= i < |Entries(slot, c)| ==>
               Entries(slot, c)[i].id in groups && groups[Entries(slot, c)[i].id] in defined
    ensures var ids := Ids(Entries(slot, c));
            (forall x :: x in items <==> x in ids) && ContentsOf(slot, ids, items) == c
  {
    FoundAll(items, Entries(slot, c), groups, defined, names);
    FirstsOfDistinct(Ids(Entries(slot, c)));
    SameContents(slot, c, items);
  }

  lemma {:induction false} OrderedByItself(ids: seq<string>, keys: set<string>)
    requires forall x :: x in keys ==> x in ids
    ensures Ordered(ids, ids, keys)
  {
    assert keys - (set x | x in ids) == {};
    assert ids[|ids|..] == [] && ids[..|ids|] == ids;
  }

  lemma {:induction false} GeneratedAs(slot: Slot, order: seq<string>, names: seq<string>, defs: Definitions,
                                       c: Contents, ids: seq<string>)
    requires Collect(slot, names, defs).Collected?
    requires forall x :: x in order ==> x in Collect(slot, names, defs).items
    requires Ordered(ids, order, Collect(slot, names, defs).items.Keys)
    requires forall x :: x in ids ==> x in Collect(slot, names, defs).items
    requires c == ContentsOf(slot, ids, Collect(slot, names, defs).items)
    ensures SlotGenerated(slot, order, names, defs, c)
  {
  }

  lemma {:induction false} FoundAll(items: map<string, Item>, es: seq<Entry>, groups: map<string, string>,
                                    defined: set<string>, names: seq<string>)
    requires FoundAmong(items, es, groups, names) && forall x :: x in names <==> x in defined
    requires forall i :: 0 <= i < |es| ==> es[i].id in groups && groups[es[i].id] in defined
    ensures forall i :: 0 <= i < |es| ==> es[i].id in items && items[es[i].id] == es[i].item
    ensures forall x :: x in items <==> x in Ids(es)
  {
    var ids := Ids(es);
    forall x | x in ids ensures x in items {
      var i :| 0 <= i < |ids| && ids[i] == x;
      assert groups[es[i].id] in names;
    }
    forall x | x in items ensures x in ids {
      var i :| 0 <= i < |es| && es[i].id == x;
      assert ids[i] == x;
    }
  }

  lemma {:induction false} SameContents(slot: Slot, c: Contents, items: map<string, Item>)
    requires Shaped(slot, c) && Firsts(Ids(Entries(slot, c))) == Ids(Entries(slot, c))
    requires forall i :: 0 <= i < |Entries(slot, c)| ==> Entries(slot, c)[i].id in items
                                                         && items[Entries(slot, c)[i].id] == Entries(slot, c)[i].item
    ensures (forall x :: x in Ids(Entries(slot, c)) ==> x in items) &&
            ContentsOf(slot, Ids(Entries(slot, c)), items) == c
  {
    var es := Entries(slot, c);
    var ids := Ids(es);
    forall x | x in ids ensures x in items {
      var i :| 0 <= i < |ids| && ids[i] == x;
      assert es[i].id in items;
    }
    match c {
      case AsList(list) =>
        assert forall i :: 0 <= i < |list| ==> items[ids[i]] == es[i].item == list[i];
        assert ContentsOf(slot, ids, items).items == list;
      case AsMap(entries) =>
        assert forall i :: 0 <= i < |entries| ==> Entry(ids[i], items[ids[i]]) == entries[i];
        assert ContentsOf(slot, ids, items).entries == entries;
    }
  }

  /** The round trip: splitting documents by any grouping and generating gives the documents back, every
      collection in its order, and nothing else. */
  lemma {:induction false} SplitThenGenerate(docs: Documents, groups: Groups, p: Platform, defs: Definitions)
    requires AllSplittable(docs) && Complete(groups) && IsSplit(docs, groups, p, defs)
    ensures Generates(p, defs, true, docs)
    ensures forall other :: Generates(p, defs, true, other) ==> other == docs
  {
    SplitGenerates(docs, groups, p, defs);
    forall other | Generates(p, defs, true, other) ensures other == docs {
      GeneratedOnce(p, defs, true, docs, other);
    }
  }

  lemma {:induction false} SplitGenerates(docs: Documents, groups: Groups, p: Platform, defs: Definitions)
    requires AllSplittable(docs) && Complete(groups) && IsSplit(docs, groups, p, defs)
    ensures Generates(p, defs, true, docs)
  {
    var names := ListingExists(defs.Keys);
    forall slot: Slot ensures SlotGenerated(slot, OrderOf(p, slot, true), names, defs, docs.slots[slot]) {
      SlotRoundTrip(slot, docs.slots[slot], groups[slot], defs, names);
    }
    SplitChecksOwned(docs, groups, p, defs);
  }

  lemma {:induction false} SplitChecksOwned(docs: Documents, groups: Groups, p: Platform, defs: Definitions)
    requires AllSplittable(docs) && Complete(groups) && IsSplit(docs, groups, p, defs)
    ensures forall group :: group in defs ==> ChecksOwned(defs[group])
  {
    var nodes := Entries(Nodes, docs.slots[Nodes]);
    forall group | group in defs ensures ChecksOwned(defs[group]) {
      assert Section(defs, group, Nodes) == SectionOf(Nodes, nodes, groups[Nodes], group);
      SectionReadsBack(Nodes, nodes, groups[Nodes], group);
    }
  }

  /** Definitions generate one set of documents at most. */
  lemma {:induction false} GeneratedOnce(p: Platform, defs: Definitions, ordered: bool, a: Documents, b: Documents)
    requires Generates(p, defs, ordered, a) && Generates(p, defs, ordered, b)
    ensures a == b
  {
    var names :| Lists(names, defs.Keys) &&
      forall slot: Slot :: SlotGenerated(slot, OrderOf(p, slot, ordered), names, defs, a.slots[slot]);
    var others :| Lists(others, defs.Keys) &&
      forall slot: Slot :: SlotGenerated(slot, OrderOf(p, slot, ordered), others, defs, b.slots[slot]);
    ListsUnique(names, others, defs.Keys);
    SlotsOnce(p, defs, ordered, names, a, b);
  }

  lemma {:induction false} SlotsOnce(p: Platform, defs: Definitions, ordered: bool, names: seq<string>, a: Documents,
                                     b: Documents)
    requires a.rest == b.rest && Complete(a.slots) && Complete(b.slots)
    requires forall slot: Slot :: SlotGenerated(slot, OrderOf(p, slot, ordered), names, defs, a.slots[slot])
    requires forall slot: Slot :: SlotGenerated(slot, OrderOf(p, slot, ordered), names, defs, b.slots[slot])
    ensures a == b
  {
    forall slot: Slot ensures a.slots[slot] == b.slots[slot] {
      SlotOnce(slot, OrderOf(p, slot, ordered), names, defs, a.slots[slot], b.slots[slot]);
    }
    SameSlots(a.slots, b.slots);
  }

  lemma {:induction false} SameSlots(a: map<Slot, Contents>, b: map<Slot, Contents>)
    requires Complete(a) && Complete(b) && forall slot: Slot :: a[slot] == b[slot]
    ensures a == b
  {
    assert a.Keys == b.Keys;
  }

  lemma {:induction false} SlotOnce(slot: Slot, order: seq<string>, names: seq<string>, defs: Definitions, a: Contents,
                                    b: Contents)
    requires SlotGenerated(slot, order, names, defs, a) && SlotGenerated(slot, order, names, defs, b)
    ensures a == b
  {
    var items := Collect(slot, names, defs).items;
    var ids :| Ordered(ids, order, items.Keys) && (forall x :: x in ids ==> x in items) &&
      a == ContentsOf(slot, ids, items);
    var others :| Ordered(others, order, items.Keys) && (forall x :: x in others ==> x in items) &&
      b == ContentsOf(slot, others, items);
    OrderedOnce(ids, others, order, items.Keys);
  }

  lemma {:induction false} OrderedOnce(ids: seq<string>, others: seq<string>, order: seq<string>, keys: set<string>)
    requires Ordered(ids, order, keys) && Ordered(others, order, keys)
    ensures ids == others
  {
    ListsUnique(ids[|order|..], others[|order|..], keys - set x | x in order);
    assert ids == ids[..|order|] + ids[|order|..] && others == others[..|order|] + others[|order|..];
  }

  // ---- adding items keeps the others in place ----

  /** The ids of `ids` that lie in `keys`, in their order. */
  function Kept(ids: seq<string>, keys: set<string>): seq<string> {
    if ids == [] then []
    else
      var before, last := Kept(ids[..|ids| - 1], keys), ids[|ids| - 1];
      if last in keys then before + [last] else before
  }

  lemma {:induction false} KeptConcat(a: seq<string>, b: seq<string>, keys: set<string>)
    ensures Kept(a + b, keys) == Kept(a, keys) + Kept(b, keys)
  {
    if b == [] {
      assert a + b == a;
    } else {
      assert (a + b)[..|a + b| - 1] == a + b[..|b| - 1];
      KeptConcat(a, b[..|b| - 1], keys);
    }
  }

  lemma {:induction false} KeptAll(ids: seq<string>, keys: set<string>)
    requires forall x :: x in ids ==> x in keys
    ensures Kept(ids, keys) == ids
  {
    if ids != [] {
      assert ids == ids[..|ids| - 1] + [ids[|ids| - 1]];
      KeptAll(ids[..|ids| - 1], keys);
    }
  }

  lemma {:induction false} KeptLists(l: seq<string>, all: set<string>, keys: set<string>)
    requires Lists(l, all) && keys <= all
    ensures Lists(Kept(l, keys), keys)
  {
    KeptMembers(l, keys);
    KeptOrder(l, keys);
  }

  lemma {:induction false} KeptMembers(l: seq<string>, keys: set<string>)
    ensures forall x :: x in Kept(l, keys) <==> x in l && x in keys
  {
    if l != [] {
      assert l == l[..|l| - 1] + [l[|l| - 1]];
      KeptMembers(l[..|l| - 1], keys);
    }
  }

  lemma {:induction false} KeptOrder(l: seq<string>, keys: set<string>)
    requires Sorted(StringLe, l) && forall i, j :: 0 <= i < j < |l| ==> l[i] != l[j]
    ensures Sorted(StringLe, Kept(l, keys))
    ensures forall i, j :: 0 <= i < j < |Kept(l, keys)| ==> Kept(l, keys)[i] != Kept(l, keys)[j]
  {
    if l != [] {
      var n := |l| - 1;
      var before := Kept(l[..n], keys);
      KeptOrder(l[..n], keys);
      KeptMembers(l[..n], keys);
      forall i | 0 <= i < |before| ensures StringLe(before[i], l[n]) && before[i] != l[n] {
        assert before[i] in before;
        var k :| 0 <= k < n && l[..n][k] == before[i];
        assert l[k] == before[i];
      }
    }
  }

  /** Whatever items are added, those that were there stay in their order, and the platform's order stays
      first: the new ones go into the sorted tail. */
  lemma {:induction false} AddingKeepsOrder(order: seq<string>, keys: set<string>, more: set<string>,
                                            ids: seq<string>, idsAfter: seq<string>)
    requires Ordered(ids, order, keys) && Ordered(idsAfter, order, keys + more)
    requires forall x :: x in order ==> x in keys
    ensures idsAfter[..|order|] == order && Kept(idsAfter, keys) == ids
  {
    var tail, tailAfter := ids[|order|..], idsAfter[|order|..];
    var listed := set x | x in order;
    assert idsAfter == order + tailAfter && ids == order + tail;
    KeptConcat(order, tailAfter, keys);
    KeptAll(order, keys);
    KeptLists(tailAfter, keys + more - listed, keys - listed);
    KeptSame(tailAfter, keys, keys - listed);
    ListsUnique(Kept(tailAfter, keys - listed), tail, keys - listed);
  }

  lemma {:induction false} KeptSame(l: seq<string>, a: set<string>, b: set<string>)
    requires forall x :: x in l ==> (x in a <==> x in b)
    ensures Kept(l, a) == Kept(l, b)
  {
    if l != [] {
      assert l == l[..|l| - 1] + [l[|l| - 1]];
      KeptSame(l[..|l| - 1], a, b);
    }
  }

  ghost predicate InSection(slot: Slot, defs: Definitions, name: string, id: string) {
    var c := Section(defs, name, slot);
    SectionReadable(slot, c) && exists i :: 0 <= i < |SectionEntries(slot, c)| && SectionEntries(slot, c)[i].id == id
  }

  lemma {:induction false} AddAllKeys(items: map<string, Item>, es: seq<Entry>)
    requires AddAll(items, es).Collected?
    ensures forall id :: id in AddAll(items, es).items <==> id in items || exists i :: 0 <= i < |es| && es[i].id == id
  {
    if es != [] {
      var n := |es| - 1;
      AddAllKeys(items, es[..n]);
      assert forall i :: 0 <= i < n ==> es[..n][i] == es[i];
    }
  }

  lemma {:induction false} CollectKeys(slot: Slot, names: seq<string>, defs: Definitions)
    requires Collect(slot, names, defs).Collected?
    ensures forall id :: id in Collect(slot, names, defs).items <==>
                         exists k :: 0 <= k < |names| && InSection(slot, defs, names[k], id)
  {
    if names != [] {
      var n := |names| - 1;
      CollectKeys(slot, names[..n], defs);
      forall id
        ensures id in Collect(slot, names, defs).items <==>
                exists k :: 0 <= k < |names| && InSection(slot, defs, names[k], id)
      {
        KeyCollected(slot, names, defs, id);
        InSectionsBefore(slot, names, defs, id);
      }
    }
  }

  lemma {:induction false} KeyCollected(slot: Slot, names: seq<string>, defs: Definitions, id: string)
    requires names != [] && Collect(slot, names, defs).Collected?
    ensures id in Collect(slot, names, defs).items <==>
            id in Collect(slot, names[..|names| - 1], defs).items || InSection(slot, defs, names[|names| - 1], id)
  {
    var n := |names| - 1;
    AddAllKeys(Collect(slot, names[..n], defs).items, SectionEntries(slot, Section(defs, names[n], slot)));
  }

  lemma {:induction false} InSectionsBefore(slot: Slot, names: seq<string>, defs: Definitions, id: string)
    requires names != []
    ensures var before := names[..|names| - 1];
            (exists k :: 0 <= k < |names| && InSection(slot, defs, names[k], id)) <==>
            InSection(slot, defs, names[|names| - 1], id)
            || exists k :: 0 <= k < |before| && InSection(slot, defs, before[k], id)
  {
    var n := |names| - 1;
    if k :| 0 <= k < n && InSection(slot, defs, names[..n][k], id) {
      assert InSection(slot, defs, names[k], id);
    }
    if k :| 0 <= k < |names| && InSection(slot, defs, names[k], id) && k != n {
      assert InSection(slot, defs, names[..n][k], id);
    }
  }

  /** Adding a group to definitions: in every collection the items that were there keep their order, and
      those the platform orders stay first. */
  lemma {:induction false} AddedGroupKeepsOrder(slot: Slot, order: seq<string>, names: seq<string>, defs: Definitions,
                                                c: Contents,
                                                group: string, d: Definition, namesAfter: seq<string>, after: Contents)
    returns (ids: seq<string>, idsAfter: seq<string>)
    requires group !in defs && Lists(names, defs.Keys) && Lists(namesAfter, defs.Keys + {group})
    requires SlotGenerated(slot, order, names, defs, c)
    requires SlotGenerated(slot, order, namesAfter, defs[group := d], after)
    ensures var items, itemsAfter := Collect(slot, names, defs).items,
            Collect(slot, namesAfter, defs[group := d]).items;
            && (forall x :: x in ids <==> x in items) && c == ContentsOf(slot, ids, items)
            && (forall x :: x in idsAfter <==> x in itemsAfter) && after == ContentsOf(slot, idsAfter, itemsAfter)
            && order <= idsAfter && Kept(idsAfter, items.Keys) == ids
  {
    var more := defs[group := d];
    ids := IdsOf(slot, order, names, defs, c);
    idsAfter := IdsOf(slot, order, namesAfter, more, after);
    MoreIsCollected(slot, names, defs, group, d, namesAfter);
    AddingKeepsOrder(order, Collect(slot, names, defs).items.Keys, Collect(slot, namesAfter, more).items.Keys, ids,
      idsAfter);
  }

  /** The ids a collection was generated in. */
  lemma {:induction false} IdsOf(slot: Slot, order: seq<string>, names: seq<string>, defs: Definitions, c: Contents)
    returns (ids: seq<string>)
    requires SlotGenerated(slot, order, names, defs, c)
    ensures Collect(slot, names, defs).Collected?
    ensures var items := Collect(slot, names, defs).items;
            Ordered(ids, order, items.Keys) && (forall x :: x in ids <==> x in items) &&
              c == ContentsOf(slot, ids, items)
  {
    var items := Collect(slot, names, defs).items;
    ids :| Ordered(ids, order, items.Keys) && (forall x :: x in ids ==> x in items) &&
      c == ContentsOf(slot, ids, items);
    OrderedHolds(ids, order, items.Keys);
  }

  lemma {:induction false} OrderedHolds(ids: seq<string>, order: seq<string>, keys: set<string>)
    requires Ordered(ids, order, keys)
    ensures forall x :: x in keys ==> x in ids
  {
    assert ids == order + ids[|order|..];
  }

  lemma {:induction false} CollectedSomewhere(slot: Slot, names: seq<string>, defs: Definitions, id: string)
    returns (k: nat)
    requires Lists(names, defs.Keys) && Collect(slot, names, defs).Collected? && id in Collect(slot, names, defs).items
    ensures k < |names| && InSection(slot, defs, names[k], id)
  {
    CollectKeys(slot, names, defs);
    k :| 0 <= k < |names| && InSection(slot, defs, names[k], id);
  }

  lemma {:induction false} SectionIsCollected(slot: Slot, names: seq<string>, defs: Definitions, name: string,
                                              id: string)
    requires Lists(names, defs.Keys) && Collect(slot, names, defs).Collected?
    requires name in names && InSection(slot, defs, name, id)
    ensures id in Collect(slot, names, defs).items
  {
    CollectKeys(slot, names, defs);
    var j :| 0 <= j < |names| && names[j] == name;
    assert InSection(slot, defs, names[j], id);
  }

  lemma {:induction false} MoreIsCollected(slot: Slot, names: seq<string>, defs: Definitions, group: string,
                                           d: Definition,
                                           namesAfter: seq<string>)
    requires group !in defs && Lists(names, defs.Keys) && Lists(namesAfter, defs.Keys + {group})
    requires Collect(slot, names, defs).Collected? && Collect(slot, namesAfter, defs[group := d]).Collected?
    ensures Collect(slot, names, defs).items.Keys <= Collect(slot, namesAfter, defs[group := d]).items.Keys
  {
    var more := defs[group := d];
    forall id | id in Collect(slot, names, defs).items ensures id in Collect(slot, namesAfter, more).items {
      var k := CollectedSomewhere(slot, names, defs, id);
      assert names[k] in names;
      SectionIsCollected(slot, namesAfter, more, names[k], id);
    }
  }
}
