/** What definition files and artifacts hold, by their members: what a split takes and what is generated. */
module DefinitionFiles {
  import opened Wrappers
  import opened Sequences
  import opened Sorting
  import opened Definitions

  // ---- what a split takes ----

  /** A list of objects, each with a string of its own under the key. */
  ghost predicate ListedUnder(key: string, c: Contents) {
    && c.AsList?
    && (forall i :: 0 <= i < |c.items| ==> key in c.items[i] && c.items[i][key].Str?)
    && forall i, j :: 0 <= i < j < |c.items| ==> c.items[i][key] != c.items[j][key]
  }

  ghost function Text(j: Json): string {
    match j
    case Str(s) => s
    case Other(_, text, _) => text
  }

  ghost predicate NamedFromTo(edge: Item) {
    "from" in edge && "to" in edge && "id" in edge && edge["id"] == Str(Text(edge["from"]) + "-to-" + Text(edge["to"]))
  }

  ghost predicate Taken(slot: Slot, c: Contents) {
    match slot
    case Jobs => ListedUnder("id", c)
    case Nodes => ListedUnder("id", c)
    case Subjects => ListedUnder("subject", c)
    case Edges => ListedUnder("id", c) && forall i :: 0 <= i < |c.items| ==> NamedFromTo(c.items[i])
    case _ => c.AsMap? && forall i, j :: 0 <= i < j < |c.entries| ==> c.entries[i].id != c.entries[j].id
  }

  lemma {:induction false} ListedExactly(slot: Slot, c: Contents)
    requires Key(slot).Some?
    ensures Shaped(slot, c) && IdsOnce(Entries(slot, c)) <==> ListedUnder(Key(slot).value, c)
  {
    var key := Key(slot).value;
    if Shaped(slot, c) && IdsOnce(Entries(slot, c)) {
      forall i, j | 0 <= i < j < |c.items| ensures c.items[i][key] != c.items[j][key] {
        assert Entries(slot, c)[i].id != Entries(slot, c)[j].id;
      }
    }
    if ListedUnder(key, c) {
      forall i, j | 0 <= i < j < |c.items| ensures Entries(slot, c)[i].id != Entries(slot, c)[j].id {
        assert c.items[i][key] != c.items[j][key];
      }
    }
  }

  /** A split takes a collection exactly when it has its shape, its ids come once and its edges are named by their
      ends. */
  lemma {:induction false} TakenExactly(slot: Slot, c: Contents)
    ensures SlotSplittable(slot, c) <==> Taken(slot, c)
  {
    if Key(slot).Some? {
      ListedExactly(slot, c);
      if slot.Edges? && ListedUnder("id", c) {
        forall i | 0 <= i < |c.items| ensures NamedByEnds(Entries(slot, c)[i]) <==> NamedFromTo(c.items[i]) {
          assert Entries(slot, c)[i] == Entry(c.items[i]["id"].s, c.items[i]);
        }
      }
    }
  }

  // ---- what the groups hold ----

  /** The `k`-th item of the group's section is this entry; an edge is written without its id. */
  ghost predicate Holds(defs: Definitions, slot: Slot, group: string, k: nat, e: Entry) {
    && group in defs && slot in defs[group].sections
    && var c := defs[group].sections[slot];
    match slot
    case Lanes => c.AsMap? && k < |c.entries| && c.entries[k] == e
    case Memory => c.AsMap? && k < |c.entries| && c.entries[k] == e
    case Edges =>
      && c.AsList? && k < |c.items|
      && "id" !in c.items[k] && e.item == c.items[k]["id" := Str(e.id)] && NamedFromTo(e.item)
    case Subjects =>
      c.AsList? && k < |c.items| && e.item == c.items[k] && "subject" in e.item && e.item["subject"] == Str(e.id)
    case _ => c.AsList? && k < |c.items| && e.item == c.items[k] && "id" in e.item && e.item["id"] == Str(e.id)
  }

  ghost predicate IsMap(slot: Slot) {
    slot.Lanes? || slot.Memory?
  }

  ghost predicate HoldsSome(defs: Definitions, slot: Slot, group: string, k: nat) {
    exists e :: Holds(defs, slot, group, k, e)
  }

  /** A section has its slot's shape, and every item of it can be read. */
  ghost predicate SectionReads(defs: Definitions, slot: Slot, group: string)
    requires group in defs
  {
    slot in defs[group].sections ==>
      match defs[group].sections[slot]
      case AsMap(_) => IsMap(slot)
      case AsList(items) => !IsMap(slot) && forall k :: 0 <= k < |items| ==> HoldsSome(defs, slot, group, k)
  }

  ghost predicate HeldOnce(defs: Definitions, slot: Slot) {
    forall g, k: nat, e, h, l: nat, d :: Holds(defs, slot, g, k, e) && Holds(defs, slot, h, l, d) && e.id == d.id ==>
      g == h && k == l
  }

  ghost predicate Held(defs: Definitions, slot: Slot, id: string, item: Item) {
    exists group, k: nat :: Holds(defs, slot, group, k, Entry(id, item))
  }

  ghost predicate HeldUnder(defs: Definitions, slot: Slot, id: string) {
    exists item :: Held(defs, slot, id, item)
  }

  lemma {:induction false} KeyOf(slot: Slot)
    ensures Key(slot).None? <==> IsMap(slot)
    ensures Key(slot).Some? ==> Key(slot).value == if slot.Subjects? then "subject" else "id"
  {
  }

  lemma {:induction false} EdgeRead(item: Item, e: Entry)
    requires "id" !in item
    ensures Readable(Edges, item) <==> "from" in item && "to" in item
    ensures Readable(Edges, item) && Read(Edges, item) == e <==>
            e.item == item["id" := Str(e.id)] && NamedFromTo(e.item)
  {
    var named := item["id" := Str(e.id)];
    assert "from" in item ==> named["from"] == item["from"];
    assert "to" in item ==> named["to"] == item["to"];
    assert named["id"] == Str(e.id);
  }

  lemma {:induction false} ListedRead(slot: Slot, item: Item, e: Entry)
    requires Key(slot).Some? && !slot.Edges?
    ensures Readable(slot, item) && Read(slot, item) == e <==>
            e.item == item && Key(slot).value in item && item[Key(slot).value] == Str(e.id)
  {
  }

  /** What a section reads as is what the group holds. */
  lemma {:induction false} HoldsExactly(defs: Definitions, slot: Slot, group: string, k: nat, e: Entry)
    requires group in defs && SectionReadable(slot, Section(defs, group, slot))
    ensures Holds(defs, slot, group, k, e) <==>
            && k < |SectionEntries(slot, Section(defs, group, slot))|
            && SectionEntries(slot, Section(defs, group, slot))[k] == e
  {
    KeyOf(slot);
    var c := Section(defs, group, slot);
    if c.AsList? && k < |c.items| {
      if slot.Edges? {
        EdgeRead(c.items[k], e);
      } else {
        ListedRead(slot, c.items[k], e);
      }
    }
  }

  lemma {:induction false} ReadsExactly(defs: Definitions, slot: Slot, group: string)
    requires group in defs
    ensures SectionReadable(slot, Section(defs, group, slot)) <==> SectionReads(defs, slot, group)
  {
    KeyOf(slot);
    var c := Section(defs, group, slot);
    if SectionReadable(slot, c) {
      if slot in defs[group].sections && c.AsList? {
        forall k | 0 <= k < |c.items| ensures HoldsSome(defs, slot, group, k) {
          HoldsExactly(defs, slot, group, k, Read(slot, c.items[k]));
        }
      }
    } else if SectionReads(defs, slot, group) && slot in defs[group].sections && c.AsList? {
      forall k | 0 <= k < |c.items| ensures Readable(slot, c.items[k]) {
        assert HoldsSome(defs, slot, group, k);
        var e :| Holds(defs, slot, group, k, e);
        if slot.Edges? {
          EdgeRead(c.items[k], e);
        } else {
          ListedRead(slot, c.items[k], e);
        }
      }
    }
  }

  // ---- collecting them ----

  ghost predicate Apart(items: map<string, Item>, es: seq<Entry>) {
    IdsOnce(es) && forall i :: 0 <= i < |es| ==> es[i].id !in items
  }

  lemma {:induction false} AddAllExactly(items: map<string, Item>, es: seq<Entry>)
    ensures AddAll(items, es).Collected? <==> Apart(items, es)
  {
    if es != [] {
      var n := |es| - 1;
      AddAllExactly(items, es[..n]);
      LastApart(items, es);
      if Apart(items, es[..n]) {
        AddAllHolds(items, es[..n]);
      }
    }
  }

  lemma {:induction false} LastApart(items: map<string, Item>, es: seq<Entry>)
    requires es != []
    ensures var before, last := es[..|es| - 1], es[|es| - 1];
            Apart(items, es) <==>
            Apart(items, before) && last.id !in items && forall i :: 0 <= i < |before| ==> before[i].id != last.id
  {
    var n := |es| - 1;
    assert forall i :: 0 <= i < n ==> es[i] == es[..n][i];
  }

  ghost predicate HeldOnceIn(defs: Definitions, slot: Slot, names: seq<string>) {
    forall g, k: nat, e, h, l: nat, d ::
      g in names && h in names && Holds(defs, slot, g, k, e) && Holds(defs, slot, h, l, d) && e.id == d.id ==>
        g == h && k == l
  }

  ghost predicate HeldIn(defs: Definitions, slot: Slot, names: seq<string>, e: Entry) {
    exists g, k: nat :: g in names && Holds(defs, slot, g, k, e)
  }

  /** The collection is what these groups hold. */
  ghost predicate CollectedOf(defs: Definitions, slot: Slot, names: seq<string>, items: map<string, Item>) {
    forall id, item :: (id in items && items[id] == item) <==> HeldIn(defs, slot, names, Entry(id, item))
  }

  ghost predicate ReadAndHeldOnce(defs: Definitions, slot: Slot, names: seq<string>)
    requires forall n :: n in names ==> n in defs
  {
    (forall n :: n in names ==> SectionReads(defs, slot, n)) && HeldOnceIn(defs, slot, names)
  }

  lemma {:induction false} EntriesHeld(defs: Definitions, slot: Slot, group: string)
    requires group in defs && SectionReadable(slot, Section(defs, group, slot))
    ensures var es := SectionEntries(slot, Section(defs, group, slot));
            forall k: nat, e :: Holds(defs, slot, group, k, e) <==> k < |es| && es[k] == e
  {
    forall k: nat, e {
      HoldsExactly(defs, slot, group, k, e);
    }
  }

  /** The next group's entries are apart from the collection exactly when nothing is held twice. */
  lemma {:induction false} ApartExactly(defs: Definitions, slot: Slot, names: seq<string>, group: string,
                                        items: map<string, Item>, es: seq<Entry>)
    requires HeldOnceIn(defs, slot, names) && CollectedOf(defs, slot, names, items) && group !in names
    requires forall k: nat, e :: Holds(defs, slot, group, k, e) <==> k < |es| && es[k] == e
    ensures Apart(items, es) <==> HeldOnceIn(defs, slot, names + [group])
  {
    if HeldOnceIn(defs, slot, names + [group]) {
      forall i, j | 0 <= i < j < |es| ensures es[i].id != es[j].id {
        assert Holds(defs, slot, group, i, es[i]) && Holds(defs, slot, group, j, es[j]);
      }
      forall i | 0 <= i < |es| ensures es[i].id !in items {
        assert Holds(defs, slot, group, i, es[i]);
        NotCollected(defs, slot, names, group, items, i, es[i]);
      }
    }
    if Apart(items, es) {
      forall g, k: nat, e, h, l: nat, d | g in names + [group] && h in names + [group] &&
          Holds(defs, slot, g, k, e) && Holds(defs, slot, h, l, d) && e.id == d.id
        ensures g == h && k == l
      {
        BothHeld(defs, slot, names, group, items, es, g, k, e, h, l, d);
      }
    }
  }

  lemma {:induction false} NotCollected(defs: Definitions, slot: Slot, names: seq<string>, group: string,
                                        items: map<string, Item>, k: nat, e: Entry)
    requires CollectedOf(defs, slot, names, items) && group !in names && HeldOnceIn(defs, slot, names + [group])
    requires Holds(defs, slot, group, k, e)
    ensures e.id !in items
  {
    if e.id in items {
      HeldWhere(defs, slot, names, group, items, e.id);
    }
  }

  lemma {:induction false} HeldWhere(defs: Definitions, slot: Slot, names: seq<string>, group: string,
                                     items: map<string, Item>, id: string)
    requires CollectedOf(defs, slot, names, items) && id in items
    ensures group in names + [group]
    ensures exists g, l: nat :: g in names && g in names + [group] && Holds(defs, slot, g, l, Entry(id, items[id]))
  {
    assert HeldIn(defs, slot, names, Entry(id, items[id]));
    var g, l: nat :| g in names && Holds(defs, slot, g, l, Entry(id, items[id]));
    assert g in names + [group];
  }

  lemma {:induction false} BothHeld(defs: Definitions, slot: Slot, names: seq<string>, group: string,
                                    items: map<string, Item>, es: seq<Entry>, g: string, k: nat, e: Entry, h: string,
                                    l: nat, d: Entry)
    requires HeldOnceIn(defs, slot, names) && CollectedOf(defs, slot, names, items) && Apart(items, es)
    requires forall k: nat, e :: Holds(defs, slot, group, k, e) <==> k < |es| && es[k] == e
    requires (g in names || g == group) && (h in names || h == group) && group !in names
    requires Holds(defs, slot, g, k, e) && Holds(defs, slot, h, l, d) && e.id == d.id
    ensures g == h && k == l
  {
    if g in names {
      assert HeldIn(defs, slot, names, Entry(e.id, e.item));
    }
    if h in names {
      assert HeldIn(defs, slot, names, Entry(d.id, d.item));
    }
    if g == group && h == group {
      assert es[k].id == es[l].id;
    }
  }

  lemma {:induction false} CollectedNext(defs: Definitions, slot: Slot, names: seq<string>, group: string,
                                         items: map<string, Item>, es: seq<Entry>, more: map<string, Item>)
    requires CollectedOf(defs, slot, names, items) && Apart(items, es) && HoldsToo(more, items, es)
    requires forall k: nat, e :: Holds(defs, slot, group, k, e) <==> k < |es| && es[k] == e
    ensures CollectedOf(defs, slot, names + [group], more)
  {
    forall id, item
      ensures (id in more && more[id] == item) <==> HeldIn(defs, slot, names + [group], Entry(id, item))
    {
      HeldInMore(defs, slot, names, group, Entry(id, item));
      assert HeldIn(defs, slot, [group], Entry(id, item)) <==>
          exists k :: 0 <= k < |es| && es[k] == Entry(id, item) by {
        HeldHere(defs, slot, group, es, Entry(id, item));
      }
      if id in more && id !in items {
        var i :| 0 <= i < |es| && es[i].id == id;
        assert more[es[i].id] == es[i].item;
      }
    }
  }

  lemma {:induction false} HeldInMore(defs: Definitions, slot: Slot, names: seq<string>, group: string, e: Entry)
    ensures HeldIn(defs, slot, names + [group], e) <==> HeldIn(defs, slot, names, e) || HeldIn(defs, slot, [group], e)
  {
    if HeldIn(defs, slot, names, e) {
      var g, k: nat :| g in names && Holds(defs, slot, g, k, e);
      assert g in names + [group];
    }
    if HeldIn(defs, slot, [group], e) {
      var g, k: nat :| g in [group] && Holds(defs, slot, g, k, e);
      assert g in names + [group];
    }
    if HeldIn(defs, slot, names + [group], e) {
      var g, k: nat :| g in names + [group] && Holds(defs, slot, g, k, e);
      assert g in names || g in [group];
    }
  }

  lemma {:induction false} HeldHere(defs: Definitions, slot: Slot, group: string, es: seq<Entry>, e: Entry)
    requires forall k: nat, e :: Holds(defs, slot, group, k, e) <==> k < |es| && es[k] == e
    ensures HeldIn(defs, slot, [group], e) <==> exists k :: 0 <= k < |es| && es[k] == e
  {
    if k :| 0 <= k < |es| && es[k] == e {
      assert group in [group] && Holds(defs, slot, group, k, e);
    }
    if HeldIn(defs, slot, [group], e) {
      var g, k: nat :| g in [group] && Holds(defs, slot, g, k, e);
      assert es[k] == e;
    }
  }

  /** The collection succeeds exactly when every section reads and nothing is held twice; it then is what is held. */
  lemma {:induction false} CollectExactly(defs: Definitions, slot: Slot, names: seq<string>)
    requires (forall n :: n in names ==> n in defs) && forall i, j :: 0 <= i < j < |names| ==> names[i] != names[j]
    ensures Collect(slot, names, defs).Collected? <==> ReadAndHeldOnce(defs, slot, names)
    ensures Collect(slot, names, defs).Collected? ==> CollectedOf(defs, slot, names, Collect(slot, names, defs).items)
  {
    if names != [] {
      var n := |names| - 1;
      var before, group := names[..n], names[n];
      LastJoined(names);
      CollectExactly(defs, slot, before);
      assert group !in before && group in names && forall m :: m in before ==> m in names;
      ReadsExactly(defs, slot, group);
      FewerToo(defs, slot, before, group);
      if Collect(slot, before, defs).Collected? && SectionReads(defs, slot, group) {
        CollectStep(defs, slot, before, group, Collect(slot, before, defs).items);
        OneGroupMore(defs, slot, before, group);
      }
    }
  }

  lemma {:induction false} OneGroupMore(defs: Definitions, slot: Slot, names: seq<string>, group: string)
    requires group in defs && (forall n :: n in names ==> n in defs)
    requires ReadAndHeldOnce(defs, slot, names) && SectionReads(defs, slot, group)
    ensures ReadAndHeldOnce(defs, slot, names + [group]) <==> HeldOnceIn(defs, slot, names + [group])
  {
  }

  lemma {:induction false} FewerToo(defs: Definitions, slot: Slot, names: seq<string>, group: string)
    requires group in defs && (forall n :: n in names ==> n in defs)
    ensures ReadAndHeldOnce(defs, slot, names + [group]) ==>
              ReadAndHeldOnce(defs, slot, names) && SectionReads(defs, slot, group)
  {
    assert forall n :: n in names ==> n in names + [group];
    assert group in names + [group];
  }

  lemma {:induction false} CollectStep(defs: Definitions, slot: Slot, names: seq<string>, group: string,
                                       items: map<string, Item>)
    requires group in defs && SectionReads(defs, slot, group) && group !in names
    requires HeldOnceIn(defs, slot, names) && CollectedOf(defs, slot, names, items)
    ensures var all := WithSection(slot, items, Section(defs, group, slot));
            && (all.Collected? <==> HeldOnceIn(defs, slot, names + [group]))
            && (all.Collected? ==> CollectedOf(defs, slot, names + [group], all.items))
  {
    ReadsExactly(defs, slot, group);
    EntriesHeld(defs, slot, group);
    var es := SectionEntries(slot, Section(defs, group, slot));
    AddAllExactly(items, es);
    ApartExactly(defs, slot, names, group, items, es);
    if Apart(items, es) {
      AddAllHolds(items, es);
      CollectedNext(defs, slot, names, group, items, es, AddAll(items, es).items);
    }
  }

  // ---- what is generated ----

  ghost predicate NodesListed(c: Contents) {
    c.AsList? && forall k :: 0 <= k < |c.items| ==> "id" in c.items[k] && c.items[k]["id"].Str?
  }

  /** A group checks its own nodes only, each check once on each. */
  ghost predicate ChecksOwn(d: Definition) {
    && (Nodes in d.sections ==> NodesListed(d.sections[Nodes]))
    && (forall i :: 0 <= i < |d.checks| ==> Nodes in d.sections && OwnsNode(d.sections[Nodes], d.checks[i].0))
    && forall i, j :: 0 <= i < j < |d.checks| ==> d.checks[i] != d.checks[j]
  }

  ghost predicate OwnsNode(c: Contents, id: string) {
    c.AsList? && exists k :: 0 <= k < |c.items| && "id" in c.items[k] && c.items[k]["id"] == Str(id)
  }

  lemma {:induction false} ChecksExactly(d: Definition)
    ensures ChecksOwned(d) <==> ChecksOwn(d)
  {
    if Nodes in d.sections {
      var c := d.sections[Nodes];
      NodesRead(c);
      if SectionReadable(Nodes, c) {
        forall id
          ensures OwnsNode(c, id) <==> HasId(SectionEntries(Nodes, c), id)
        {
          NodeOwned(c, id);
        }
      }
    } else {
      NodesRead(Empty(Nodes));
      NoNodes(d);
    }
  }

  lemma {:induction false} NoNodes(d: Definition)
    requires Nodes !in d.sections
    ensures ChecksOwned(d) <==> d.checks == []
    ensures ChecksOwn(d) <==> d.checks == []
  {
    assert |SectionEntries(Nodes, Empty(Nodes))| == 0;
    assert forall id :: !HasId(SectionEntries(Nodes, Empty(Nodes)), id);
    if d.checks != [] {
      assert d.checks[0].0 == d.checks[0].0;
    }
  }

  lemma {:induction false} NodesRead(c: Contents)
    ensures SectionReadable(Nodes, c) <==> NodesListed(c)
  {
  }

  lemma {:induction false} NodeOwned(c: Contents, id: string)
    requires SectionReadable(Nodes, c)
    ensures OwnsNode(c, id) <==> HasId(SectionEntries(Nodes, c), id)
  {
    var es := SectionEntries(Nodes, c);
    assert forall k :: 0 <= k < |es| ==> es[k].id == c.items[k]["id"].s;
    if OwnsNode(c, id) {
      var k :| 0 <= k < |c.items| && "id" in c.items[k] && c.items[k]["id"] == Str(id);
      assert es[k].id == id;
    }
    if k :| 0 <= k < |es| && es[k].id == id {
      assert c.items[k]["id"] == Str(id);
    }
  }

  ghost predicate Marked(group: string, d: Definition) {
    d.marker == "foundation-platform.definition.v1" && d.group == group && d.unknown == {}
  }

  ghost function KeptOrder(p: Platform, slot: Slot, ordered: bool): seq<string> {
    if ordered && slot in p.order then p.order[slot] else []
  }

  ghost predicate SlotStands(p: Platform, defs: Definitions, slot: Slot, ordered: bool) {
    && (forall group :: group in defs ==> SectionReads(defs, slot, group))
    && HeldOnce(defs, slot)
    && forall x :: x in KeptOrder(p, slot, ordered) ==> HeldUnder(defs, slot, x)
  }

  /** What the definitions must be to generate anything. */
  ghost predicate Stands(p: Platform, defs: Definitions, ordered: bool) {
    && p.marker == "foundation-platform.definition.v1"
    && (forall group :: group in defs ==> Marked(group, defs[group]) && ChecksOwn(defs[group]))
    && forall slot: Slot :: SlotStands(p, defs, slot, ordered)
  }

  /** The ids the platform lists, then the others, ascending and each once. */
  ghost predicate ListedFirst(ids: seq<string>, order: seq<string>) {
    && |order| <= |ids| && ids[..|order|] == order
    && (forall i, j :: |order| <= i < j < |ids| ==> ids[i] != ids[j] && StringLe(ids[i], ids[j]))
    && forall i :: |order| <= i < |ids| ==> ids[i] !in order
  }

  /** Entry by entry where each id first stands. */
  ghost predicate FirstStand(ids: seq<string>, entries: seq<Entry>, at: seq<int>) {
    && |at| == |entries|
    && (forall i :: 0 <= i < |at| ==> 0 <= at[i] < |ids| && ids[at[i]] == entries[i].id)
    && (forall i, k :: 0 <= i < |at| && 0 <= k < at[i] ==> ids[k] != entries[i].id)
    && (forall i, j :: 0 <= i < j < |at| ==> at[i] < at[j])
    && forall x :: x in ids ==> exists i :: 0 <= i < |entries| && entries[i].id == x
  }

  /** The collection is what the groups hold, in the order of the ids. */
  ghost predicate Laid(defs: Definitions, slot: Slot, ids: seq<string>, c: Contents) {
    match c
    case AsList(items) =>
      !IsMap(slot) && |items| == |ids| && forall i :: 0 <= i < |ids| ==> Held(defs, slot, ids[i], items[i])
    case AsMap(entries) =>
      && IsMap(slot) && (forall i :: 0 <= i < |entries| ==> Held(defs, slot, entries[i].id, entries[i].item))
      && exists at :: FirstStand(ids, entries, at)
  }

  ghost predicate Written(p: Platform, defs: Definitions, slot: Slot, ordered: bool, c: Contents) {
    exists ids :: ListedFirst(ids, KeptOrder(p, slot, ordered)) && Laid(defs, slot, ids, c) &&
      forall x :: x in ids <==> HeldUnder(defs, slot, x)
  }

  lemma {:induction false} HeldByAll(defs: Definitions, slot: Slot, names: seq<string>)
    requires Lists(names, defs.Keys)
    ensures HeldOnceIn(defs, slot, names) <==> HeldOnce(defs, slot)
    ensures forall id, item :: HeldIn(defs, slot, names, Entry(id, item)) <==> Held(defs, slot, id, item)
  {
    assert forall n :: n in names <==> n in defs;
  }

  lemma {:induction false} FirstsStand(ids: seq<string>) returns (at: seq<int>)
    ensures |at| == |Firsts(ids)|
    ensures forall i :: 0 <= i < |at| ==> 0 <= at[i] < |ids| && ids[at[i]] == Firsts(ids)[i]
    ensures forall i, k :: 0 <= i < |at| && 0 <= k < at[i] ==> ids[k] != Firsts(ids)[i]
    ensures forall i, j :: 0 <= i < j < |at| ==> at[i] < at[j]
  {
    if ids == [] {
      at := [];
    } else {
      var n := |ids| - 1;
      at := FirstsStand(ids[..n]);
      var before := Firsts(ids[..n]);
      assert forall k :: 0 <= k < n ==> ids[k] == ids[..n][k];
      if ids[n] !in before {
        forall k | 0 <= k < n ensures ids[k] != ids[n] {
          assert ids[..n][k] in ids[..n];
        }
        at := at + [n];
      }
    }
  }

  lemma {:induction false} ContentsLaid(defs: Definitions, slot: Slot, ids: seq<string>, items: map<string, Item>)
    requires forall x :: x in ids ==> x in items
    requires forall x :: x in items ==> Held(defs, slot, x, items[x])
    ensures Laid(defs, slot, ids, ContentsOf(slot, ids, items))
  {
    KeyOf(slot);
    if IsMap(slot) {
      var once, entries := Firsts(ids), ContentsOf(slot, ids, items).entries;
      var at := FirstsStand(ids);
      forall x | x in ids ensures exists i :: 0 <= i < |entries| && entries[i].id == x {
        var i :| 0 <= i < |once| && once[i] == x;
        assert entries[i].id == x;
      }
      assert FirstStand(ids, entries, at);
    }
  }

  lemma {:induction false} OrderedListed(ids: seq<string>, order: seq<string>, keys: set<string>)
    requires Ordered(ids, order, keys) && forall x :: x in order ==> x in keys
    ensures ListedFirst(ids, order) && forall x :: x in ids <==> x in keys
  {
    var tail := ids[|order|..];
    assert ids == order + tail;
    forall i, j | |order| <= i < j < |ids| ensures ids[i] != ids[j] && StringLe(ids[i], ids[j]) {
      assert ids[i] == tail[i - |order|] && ids[j] == tail[j - |order|];
    }
    forall i | |order| <= i < |ids| ensures ids[i] !in order {
      assert ids[i] == tail[i - |order|] && tail[i - |order|] in tail;
    }
  }

  lemma {:induction false} SlotWritten(p: Platform, defs: Definitions, slot: Slot, ordered: bool, names: seq<string>,
                                       c: Contents)
    requires Lists(names, defs.Keys) && SlotGenerated(slot, OrderOf(p, slot, ordered), names, defs, c)
    ensures SlotStands(p, defs, slot, ordered) && Written(p, defs, slot, ordered, c)
  {
    CollectionHeld(defs, slot, names);
    ContentsWritten(defs, slot, OrderOf(p, slot, ordered), Collect(slot, names, defs).items, c);
    OrderHeld(defs, slot, OrderOf(p, slot, ordered), Collect(slot, names, defs).items);
  }

  lemma {:induction false} OrderHeld(defs: Definitions, slot: Slot, order: seq<string>, items: map<string, Item>)
    requires HeldItems(defs, slot, items) && forall x :: x in order ==> x in items
    ensures forall x :: x in order ==> HeldUnder(defs, slot, x)
  {
  }

  lemma {:induction false} CollectionHeld(defs: Definitions, slot: Slot, names: seq<string>)
    requires Lists(names, defs.Keys) && Collect(slot, names, defs).Collected?
    ensures HeldItems(defs, slot, Collect(slot, names, defs).items)
    ensures HeldOnce(defs, slot) && forall group :: group in defs ==> SectionReads(defs, slot, group)
  {
    CollectExactly(defs, slot, names);
    HeldByAll(defs, slot, names);
    ItemsHeld(defs, slot, names, Collect(slot, names, defs).items);
    assert forall group :: group in defs ==> group in names;
  }

  /** The collection is what the groups hold. */
  ghost predicate HeldItems(defs: Definitions, slot: Slot, items: map<string, Item>) {
    && (forall x :: x in items ==> Held(defs, slot, x, items[x]))
    && forall x :: x in items <==> HeldUnder(defs, slot, x)
  }

  lemma {:induction false} ItemsHeld(defs: Definitions, slot: Slot, names: seq<string>, items: map<string, Item>)
    requires CollectedOf(defs, slot, names, items) && Lists(names, defs.Keys)
    ensures HeldItems(defs, slot, items)
  {
    HeldByAll(defs, slot, names);
    forall x ensures x in items <==> HeldUnder(defs, slot, x) {
      KeyHeld(defs, slot, names, items, x);
    }
    forall x | x in items ensures Held(defs, slot, x, items[x]) {
      assert HeldIn(defs, slot, names, Entry(x, items[x]));
    }
  }

  lemma {:induction false} ContentsWritten(defs: Definitions, slot: Slot, order: seq<string>, items: map<string, Item>,
                                           c: Contents)
    requires HeldItems(defs, slot, items) && forall x :: x in order ==> x in items
    requires exists ids :: Ordered(ids, order, items.Keys) && (forall x :: x in ids ==> x in items) &&
               c == ContentsOf(slot, ids, items)
    ensures exists ids :: ListedFirst(ids, order) && Laid(defs, slot, ids, c) &&
              forall x :: x in ids <==> HeldUnder(defs, slot, x)
  {
    var ids :| Ordered(ids, order, items.Keys) && (forall x :: x in ids ==> x in items) &&
      c == ContentsOf(slot, ids, items);
    OrderedListed(ids, order, items.Keys);
    ContentsLaid(defs, slot, ids, items);
  }

  lemma {:induction false} KeyHeld(defs: Definitions, slot: Slot, names: seq<string>, items: map<string, Item>,
                                   x: string)
    requires CollectedOf(defs, slot, names, items) && Lists(names, defs.Keys)
    ensures x in items <==> HeldUnder(defs, slot, x)
  {
    HeldByAll(defs, slot, names);
    if x in items {
      assert HeldIn(defs, slot, names, Entry(x, items[x]));
    }
    if item :| Held(defs, slot, x, item) {
      assert HeldIn(defs, slot, names, Entry(x, item));
    }
  }

  lemma {:induction false} SlotStood(p: Platform, defs: Definitions, slot: Slot, ordered: bool, names: seq<string>)
    returns (c: Contents)
    requires Lists(names, defs.Keys) && SlotStands(p, defs, slot, ordered)
    ensures SlotGenerated(slot, OrderOf(p, slot, ordered), names, defs, c)
  {
    var order := OrderOf(p, slot, ordered);
    CollectExactly(defs, slot, names);
    HeldByAll(defs, slot, names);
    var items := Collect(slot, names, defs).items;
    ItemsHeld(defs, slot, names, items);
    assert forall x :: x in order ==> HeldUnder(defs, slot, x);
    var tail := ListingExists(items.Keys - set x | x in order);
    var ids := order + tail;
    assert ids[|order|..] == tail && ids[..|order|] == order;
    c := ContentsOf(slot, ids, items);
    GeneratedAs(slot, order, names, defs, c, ids);
  }

  /** What is generated, by the members of the files: the definitions stand, and every collection holds what the
      groups hold, the ids the platform lists first and the others ascending. */
  lemma {:induction false} GeneratedHolds(p: Platform, defs: Definitions, ordered: bool, docs: Documents)
    requires Generates(p, defs, ordered, docs)
    ensures Stands(p, defs, ordered) && docs.rest == p.rest
    ensures forall slot: Slot :: slot in docs.slots && Written(p, defs, slot, ordered, docs.slots[slot])
  {
    var names :| Lists(names, defs.Keys) &&
      forall slot: Slot :: SlotGenerated(slot, OrderOf(p, slot, ordered), names, defs, docs.slots[slot]);
    forall slot: Slot ensures SlotStands(p, defs, slot, ordered) && Written(p, defs, slot, ordered, docs.slots[slot]) {
      SlotWritten(p, defs, slot, ordered, names, docs.slots[slot]);
    }
    forall group | group in defs ensures Marked(group, defs[group]) && ChecksOwn(defs[group]) {
      ChecksExactly(defs[group]);
    }
  }

  /** Definitions that stand generate documents. */
  lemma {:induction false} StandingGenerates(p: Platform, defs: Definitions, ordered: bool) returns (docs: Documents)
    requires Stands(p, defs, ordered)
    ensures Generates(p, defs, ordered, docs)
  {
    var names := ListingExists(defs.Keys);
    forall group | group in defs ensures WellMarked(group, defs[group]) && ChecksOwned(defs[group]) {
      ChecksExactly(defs[group]);
    }
    assert SLOTS[..|SLOTS|] == SLOTS;
    AllSlots();
    var slots := SlotsFor(p, defs, ordered, names, SLOTS);
    docs := Documents(p.rest, slots);
  }

  lemma {:induction false} SlotsFor(p: Platform, defs: Definitions, ordered: bool, names: seq<string>, of: seq<Slot>)
    returns (slots: map<Slot, Contents>)
    requires Lists(names, defs.Keys) && forall slot: Slot :: SlotStands(p, defs, slot, ordered)
    ensures forall slot :: slot in of ==>
              slot in slots && SlotGenerated(slot, OrderOf(p, slot, ordered), names, defs, slots[slot])
  {
    slots := map[];
    if of != [] {
      slots := SlotsFor(p, defs, ordered, names, of[1..]);
      var c := SlotStood(p, defs, of[0], ordered, names);
      HeadJoined(of);
      slots := slots[of[0] := c];
    }
  }

  /** Generating succeeds exactly on definitions that stand. */
  lemma {:induction false} GeneratesExactly(p: Platform, defs: Definitions, ordered: bool)
    ensures (exists docs :: Generates(p, defs, ordered, docs)) <==> Stands(p, defs, ordered)
  {
    if docs :| Generates(p, defs, ordered, docs) {
      GeneratedHolds(p, defs, ordered, docs);
    }
    if Stands(p, defs, ordered) {
      var docs := StandingGenerates(p, defs, ordered);
    }
  }

  // ---- where a split puts an item ----

  /** Every item lies in its group's section. */
  ghost predicate Lies(docs: Documents, groups: Groups, defs: Definitions)
    requires AllSplittable(docs) && Complete(groups)
  {
    forall slot: Slot, i :: 0 <= i < |Entries(slot, docs.slots[slot])| ==>
      LiesIn(defs, slot, groups[slot], Entries(slot, docs.slots[slot])[i])
  }

  ghost predicate LiesIn(defs: Definitions, slot: Slot, groups: map<string, string>, e: Entry) {
    e.id in groups && exists k: nat :: Holds(defs, slot, groups[e.id], k, e)
  }

  lemma {:induction false} ItemLies(slot: Slot, es: seq<Entry>, groups: map<string, string>, defs: Definitions, i: nat)
    requires Splittable(slot, es) && Scattered(slot, es, groups, defs) && i < |es|
    ensures LiesIn(defs, slot, groups, es[i])
  {
    var e := es[i];
    var group := groups[e.id];
    SectionReadsBack(slot, es, groups, group);
    AmongMember(es, groups, group, e);
    var among := Among(es, groups, group);
    assert e in es;
    var k :| 0 <= k < |among| && among[k] == e;
    HoldsExactly(defs, slot, group, k, e);
  }

  lemma {:induction false} SplitLies(docs: Documents, groups: Groups, p: Platform, defs: Definitions)
    requires AllSplittable(docs) && Complete(groups) && IsSplit(docs, groups, p, defs)
    ensures Lies(docs, groups, defs)
  {
    forall slot: Slot, i | 0 <= i < |Entries(slot, docs.slots[slot])|
      ensures LiesIn(defs, slot, groups[slot], Entries(slot, docs.slots[slot])[i])
    {
      ItemLies(slot, Entries(slot, docs.slots[slot]), groups[slot], defs, i);
    }
  }
}
