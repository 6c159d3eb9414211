/** The canonical dump of a tile's identities: what its text determines. */
module TileDump {
  import opened Sequences
  import opened Sorting
  import opened TileQuote
  import opened TilePieces

  datatype Identity = Identity(layer: string, properties: seq<(string, string)>)

  // ---- lines ----

  function Properties(ps: seq<(string, string)>): string {
    if ps == [] then "" else "\t" + ps[0].0 + "=" + Quote(ps[0].1) + Properties(ps[1..])
  }

  function CanonicalLine(id: Identity): string {
    "layer=" + Quote(id.layer) + Properties(id.properties)
  }

  /** The lines of a dump, joined by newlines. */
  function Dump(ids: seq<Identity>): string {
    if ids == [] then ""
    else if |ids| == 1 then CanonicalLine(ids[0])
    else CanonicalLine(ids[0]) + "\n" + Dump(ids[1..])
  }

  /** No quoted value can seem to open within the key: it holds no `="`. */
  predicate KeyPlain(k: string) {
    forall i | 0 <= i < |k| - 1 :: !(k[i] == '=' && k[i + 1] == '"')
  }

  predicate KeysPlain(ps: seq<(string, string)>) {
    forall i | 0 <= i < |ps| :: KeyPlain(ps[i].0)
  }

  function Keys(ps: seq<(string, string)>): seq<string> {
    seq(|ps|, i requires 0 <= i < |ps| => ps[i].0)
  }

  /** Their keys decide where each property of the two ends: the same keys, as in one run, or plain ones. */
  predicate Decided(a: Identity, b: Identity) {
    Keys(a.properties) == Keys(b.properties) || (KeysPlain(a.properties) && KeysPlain(b.properties))
  }

  ghost predicate AllDecided(a: seq<Identity>, b: seq<Identity>) {
    forall x, y :: x in a && y in b ==> Decided(x, y)
  }

  /** One run reads every identity with one list of keys. */
  ghost predicate OneKeyList(ids: seq<Identity>, keys: seq<string>) {
    forall id :: id in ids ==> Keys(id.properties) == keys
  }

  lemma {:induction false} KeyDelimits(a: string, b: string, r: string, q: string)
    requires |a| == |b| || (KeyPlain(a) && KeyPlain(b))
    requires r != "" && r[0] == '"' && q != "" && q[0] == '"' && a + ("=" + r) == b + ("=" + q)
    ensures a == b && r == q
  {
    var s := a + ("=" + r);
    if |a| == |b| {
      assert a == s[..|a|] && b == s[..|b|];
      assert r == s[|a| + 1..] && q == s[|b| + 1..];
    } else if |a| < |b| {
      KeyOpens(a, b, r, q);
    } else {
      KeyOpens(b, a, q, r);
    }
  }

  /** The longer of two keys holds the shorter one's `="`. */
  lemma {:induction false} KeyOpens(a: string, b: string, r: string, q: string)
    requires |a| < |b| && r != "" && r[0] == '"' && q != "" && q[0] == '"' && a + ("=" + r) == b + ("=" + q)
    ensures !KeyPlain(b)
  {
    var s := a + ("=" + r);
    assert s[|a|] == '=' && s[|a| + 1] == '"';
    assert s[|b|] == '=';
    assert |a| + 1 < |b|;
    assert s[|a|] == b[|a|] && s[|a| + 1] == b[|a| + 1];
  }

  /** What can follow a line: nothing, or the next one. */
  predicate Ends(s: string) {
    s == "" || s[0] == '\n'
  }

  function Tail(a: seq<(string, string)>, r: string): string
    requires a != []
  {
    a[0].0 + ("=" + (Quote(a[0].1) + (Properties(a[1..]) + r)))
  }

  lemma {:induction false} PropertiesHead(a: seq<(string, string)>, r: string)
    requires a != []
    ensures Properties(a) + r == "\t" + Tail(a, r)
  {
    var k, e, v, p := a[0].0, "=", Quote(a[0].1), Properties(a[1..]);
    Assoc("\t", k, e);
    Assoc("\t", k + e, v);
    Assoc("\t", k + e + v, p);
    Assoc("\t", k + e + v + p, r);
    Assoc(k + e + v, p, r);
    Assoc(k + e, v, p + r);
    Assoc(k, e, v + (p + r));
  }

  /** Whether properties follow shows in the first character. */
  lemma {:induction false} HeadTells(a: seq<(string, string)>, r: string)
    requires Ends(r)
    ensures a != [] <==> var s := Properties(a) + r; s != "" && s[0] == '\t'
    ensures a == [] ==> Properties(a) + r == r
  {
    if a != [] {
      PropertiesHead(a, r);
    }
  }

  lemma {:induction false} PropertiesDelimit(a: seq<(string, string)>, b: seq<(string, string)>, r: string, q: string)
    requires Keys(a) == Keys(b) || (KeysPlain(a) && KeysPlain(b))
    requires Ends(r) && Ends(q) && Properties(a) + r == Properties(b) + q
    ensures a == b && r == q
    decreases |a|
  {
    HeadTells(a, r);
    HeadTells(b, q);
    if a == [] {
      assert b == [];
    } else {
      PropertiesHead(a, r);
      PropertiesHead(b, q);
      SameTail("\t", Tail(a, r), Tail(b, q));
      var tailA, tailB := Properties(a[1..]) + r, Properties(b[1..]) + q;
      KeysHead(a, b);
      KeyDelimits(a[0].0, b[0].0, Quote(a[0].1) + tailA, Quote(b[0].1) + tailB);
      QuoteDelimits(a[0].1, b[0].1, tailA, tailB);
      PropertiesDelimit(a[1..], b[1..], r, q);
      HeadJoined(a);
      HeadJoined(b);
    }
  }

  lemma {:induction false} KeysHead(a: seq<(string, string)>, b: seq<(string, string)>)
    requires a != [] && b != []
    ensures Keys(a) == Keys(b) ==> a[0].0 == b[0].0 && Keys(a[1..]) == Keys(b[1..])
    ensures KeysPlain(a) ==> KeyPlain(a[0].0) && KeysPlain(a[1..])
    ensures KeysPlain(b) ==> KeyPlain(b[0].0) && KeysPlain(b[1..])
  {
    if Keys(a) == Keys(b) {
      assert |a| == |Keys(a)| == |b|;
      assert Keys(a)[0] == a[0].0 && Keys(b)[0] == b[0].0;
      assert Keys(a)[1..] == Keys(a[1..]) && Keys(b)[1..] == Keys(b[1..]);
    }
  }

  lemma {:induction false} LineHead(a: Identity, r: string)
    ensures CanonicalLine(a) + r == "layer=" + (Quote(a.layer) + (Properties(a.properties) + r))
  {
    Assoc("layer=", Quote(a.layer), Properties(a.properties));
    Assoc("layer=", Quote(a.layer) + Properties(a.properties), r);
    Assoc(Quote(a.layer), Properties(a.properties), r);
  }

  lemma {:induction false} LineDelimits(a: Identity, b: Identity, r: string, q: string)
    requires Decided(a, b) && Ends(r) && Ends(q)
    requires CanonicalLine(a) + r == CanonicalLine(b) + q
    ensures a == b && r == q
  {
    var tailA, tailB := Properties(a.properties) + r, Properties(b.properties) + q;
    LineHead(a, r);
    LineHead(b, q);
    SameTail("layer=", Quote(a.layer) + tailA, Quote(b.layer) + tailB);
    QuoteDelimits(a.layer, b.layer, tailA, tailB);
    PropertiesDelimit(a.properties, b.properties, r, q);
  }

  function Following(ids: seq<Identity>): string
    requires ids != []
  {
    if |ids| == 1 then "" else "\n" + Dump(ids[1..])
  }

  lemma {:induction false} DumpHead(ids: seq<Identity>)
    requires ids != []
    ensures Dump(ids) == CanonicalLine(ids[0]) + Following(ids)
    ensures Dump(ids) != "" && Ends(Following(ids))
    ensures |ids| > 1 ==> Following(ids) != "" && Following(ids)[1..] == Dump(ids[1..])
  {
    var line := CanonicalLine(ids[0]);
    Assoc("layer=", Quote(ids[0].layer), Properties(ids[0].properties));
    assert line[0] == 'l';
    if |ids| > 1 {
      Assoc(line, "\n", Dump(ids[1..]));
    } else {
      assert line + "" == line;
    }
  }

  /** Equal dumps come from equal identities in equal order, keys and all, whenever the keys decide. */
  lemma {:induction false} DumpDetermines(a: seq<Identity>, b: seq<Identity>)
    requires AllDecided(a, b) && Dump(a) == Dump(b)
    ensures a == b
    decreases |a|
  {
    if a != [] { DumpHead(a); }
    if b != [] { DumpHead(b); }
    if a != [] && b != [] {
      LineDelimits(a[0], b[0], Following(a), Following(b));
      FollowingTells(a, b);
      DumpDetermines(a[1..], b[1..]);
      HeadJoined(a);
      HeadJoined(b);
    }
  }

  // ---- which identities share a line ----

  function PropertyPieces(ps: seq<(string, string)>): seq<Piece> {
    if ps == [] then [] else [Piece("\t" + ps[0].0 + "=", ps[0].1)] + PropertyPieces(ps[1..])
  }

  lemma {:induction false} PropertiesText(ps: seq<(string, string)>)
    ensures Properties(ps) == Text(PropertyPieces(ps)) && Led(PropertyPieces(ps))
    ensures |PropertyPieces(ps)| == |ps|
  {
    if ps != [] {
      var p := Piece("\t" + ps[0].0 + "=", ps[0].1);
      PropertiesText(ps[1..]);
      TextHead(p, PropertyPieces(ps[1..]));
      LedHead(p, PropertyPieces(ps[1..]));
      Assoc(p.lead, Quote(p.value), Properties(ps[1..]));
    }
  }

  /** Two identities share a line if and only if they are of one layer and their properties are regroupings of
      one list: neighbours run together into one key. */
  lemma {:induction false} LinesAgreeExactly(a: Identity, b: Identity)
    ensures CanonicalLine(a) == CanonicalLine(b) <==>
            a.layer == b.layer && ShareRefinement(PropertyPieces(a.properties), PropertyPieces(b.properties))
  {
    PropertiesText(a.properties);
    PropertiesText(b.properties);
    TextsAgreeExactly(PropertyPieces(a.properties), PropertyPieces(b.properties));
    LinesAgree(a, b);
  }

  lemma {:induction false} LinesAgree(a: Identity, b: Identity)
    ensures CanonicalLine(a) == CanonicalLine(b) <==>
            a.layer == b.layer && Properties(a.properties) == Properties(b.properties)
  {
    if CanonicalLine(a) == CanonicalLine(b) {
      LineHead(a, "");
      LineHead(b, "");
      NothingMore(CanonicalLine(a));
      NothingMore(CanonicalLine(b));
      NothingMore(Properties(a.properties));
      NothingMore(Properties(b.properties));
      SameTail("layer=", Quote(a.layer) + Properties(a.properties), Quote(b.layer) + Properties(b.properties));
      QuoteDelimits(a.layer, b.layer, Properties(a.properties), Properties(b.properties));
    }
  }

  lemma {:induction false} GroupOpens(g: seq<Piece>, k: string)
    requires |g| >= 2 && IsLead(g[0].lead) && Grouped(g).lead == "\t" + k + "="
    ensures !KeyPlain(k)
  {
    var lead, n := "\t" + k + "=", |g[0].lead|;
    QuoteEnds(g[0].value);
    assert lead == g[0].lead + (Quote(g[0].value) + Grouped(g[1..]).lead);
    assert lead[n - 1] == '=' && lead[n] == '"';
    assert k[n - 2] == '=' && k[n - 1] == '"';
  }

  /** Plain keys are no groups. */
  lemma {:induction false} PlainIsFinest(c: seq<Piece>, ps: seq<(string, string)>)
    requires Led(c) && Regroups(c, PropertyPieces(ps)) && KeysPlain(ps)
    ensures c == PropertyPieces(ps)
    decreases |ps|
  {
    if ps != [] {
      var qs := PropertyPieces(ps);
      HeadApart(Piece("\t" + ps[0].0 + "=", ps[0].1), PropertyPieces(ps[1..]));
      var m :| 1 <= m <= |c| && qs[0] == Grouped(c[..m]) && Regroups(c[m..], qs[1..]);
      assert KeyPlain(ps[0].0);
      if m > 1 {
        GroupOpens(c[..m], ps[0].0);
      }
      PlainIsFinest(c[m..], ps[1..]);
      CutJoined(c, m);
      assert c[..1] == [c[0]];
    }
  }

  /** The identities that share a line with one of plain keys are exactly its regroupings. */
  lemma {:induction false} PlainLinesExactly(a: Identity, b: Identity)
    requires KeysPlain(a.properties)
    ensures CanonicalLine(a) == CanonicalLine(b) <==>
            a.layer == b.layer && Regroups(PropertyPieces(a.properties), PropertyPieces(b.properties))
  {
    var ps, qs := PropertyPieces(a.properties), PropertyPieces(b.properties);
    LinesAgreeExactly(a, b);
    PropertiesText(a.properties);
    if a.layer == b.layer && ShareRefinement(ps, qs) {
      var c :| Led(c) && Regroups(c, ps) && Regroups(c, qs);
      PlainIsFinest(c, a.properties);
    }
    RegroupsItself(ps);
  }

  /** A key that holds a whole property before its last part. */
  function LongKey(k: string, v: string, l: string): string {
    k + ("=" + (Quote(v) + ("\t" + l)))
  }

  lemma {:induction false} LongKeyText(k: string, v: string, l: string, rest: string)
    ensures LongKey(k, v, l) + rest == k + ("=" + (Quote(v) + ("\t" + (l + rest))))
  {
    Assoc("\t", l, rest);
    Assoc(Quote(v), "\t" + l, rest);
    Assoc("=", Quote(v) + ("\t" + l), rest);
    Assoc(k, "=" + (Quote(v) + ("\t" + l)), rest);
  }

  lemma {:induction false} OneProperty(k: string, v: string, r: string)
    ensures Properties([(k, v)]) + r == "\t" + (k + ("=" + (Quote(v) + r)))
  {
    var ps := [(k, v)];
    PropertiesHead(ps, r);
    assert ps[1..] == [] && Properties([]) + r == r;
  }

  /** Keys that run together confuse two dumps with different keys: two properties, or one with a long key. */
  lemma {:induction false} LongKeyConfuses(layer: string, k: string, v: string, l: string, w: string)
    ensures var a := Identity(layer, [(k, v), (l, w)]);
            var b := Identity(layer, [(LongKey(k, v, l), w)]);
            a != b && CanonicalLine(a) == CanonicalLine(b)
  {
    var ps, qs := [(k, v), (l, w)], [(LongKey(k, v, l), w)];
    assert ps[1..] == [(l, w)] && |ps| == 2 && |qs| == 1;
    NothingMore(Properties(ps));
    NothingMore(Properties(qs));
    NothingMore(Properties([(l, w)]));
    PropertiesHead(ps, "");
    OneProperty(l, w, "");
    OneProperty(LongKey(k, v, l), w, "");
    LongKeyText(k, v, l, "=" + (Quote(w) + ""));
  }

  // ---- which dumps agree ----

  /** The pieces of a dump, each line behind a line break. */
  function DumpPieces(ids: seq<Identity>): seq<Piece> {
    if ids == [] then [] else LinePieces(ids[0]) + DumpPieces(ids[1..])
  }

  function LinePieces(id: Identity): seq<Piece> {
    [Piece(LINE, id.layer)] + PropertyPieces(id.properties)
  }

  const LINE := "\nlayer="

  lemma {:induction false} LineText(id: Identity)
    ensures Text(LinePieces(id)) == "\n" + CanonicalLine(id) && Led(LinePieces(id))
  {
    PropertiesText(id.properties);
    TextHead(Piece(LINE, id.layer), PropertyPieces(id.properties));
    LedHead(Piece(LINE, id.layer), PropertyPieces(id.properties));
    NothingMore(CanonicalLine(id));
    NothingMore(Properties(id.properties));
    LineHead(id, "");
    Assoc("\n", "layer=", Quote(id.layer) + Properties(id.properties));
    assert LINE == "\n" + "layer=";
  }

  lemma {:induction false} DumpText(ids: seq<Identity>)
    ensures Led(DumpPieces(ids))
    ensures Text(DumpPieces(ids)) == if ids == [] then "" else "\n" + Dump(ids)
    decreases |ids|
  {
    if ids != [] {
      DumpText(ids[1..]);
      LineText(ids[0]);
      TextConcat(LinePieces(ids[0]), DumpPieces(ids[1..]));
      DumpHead(ids);
      Assoc("\n", CanonicalLine(ids[0]), Following(ids));
    }
  }

  lemma {:induction false} DumpIsText(a: seq<Identity>, b: seq<Identity>)
    ensures Dump(a) == Dump(b) <==> Text(DumpPieces(a)) == Text(DumpPieces(b))
  {
    DumpText(a);
    DumpText(b);
    if a != [] { DumpHead(a); }
    if b != [] { DumpHead(b); }
    if a != [] && b != [] && Text(DumpPieces(a)) == Text(DumpPieces(b)) {
      SameTail("\n", Dump(a), Dump(b));
    }
  }

  /** Two dumps are equal, whatever their keys, if and only if their lines, taken together, are regroupings of one
      list: neighbours run together into one key, across line breaks where a key holds one. */
  lemma {:induction false} DumpsAgreeExactly(a: seq<Identity>, b: seq<Identity>)
    ensures Dump(a) == Dump(b) <==> ShareRefinement(DumpPieces(a), DumpPieces(b))
  {
    DumpIsText(a, b);
    DumpText(a);
    DumpText(b);
    TextsAgreeExactly(DumpPieces(a), DumpPieces(b));
  }

  /** A key that holds a line break confuses dumps of different lengths: two lines, or one with a long key. */
  lemma {:induction false} LineBreakConfuses(layer: string, k: string, v: string, w: string)
    ensures var a := [Identity(layer, [(k, v)]), Identity(layer, [(k, w)])];
            var b := [Identity(layer, [(BrokenKey(layer, k, v), w)])];
            Dump(a) == Dump(b) && OneKeyList(a, [k]) && OneKeyList(b, [BrokenKey(layer, k, v)])
  {
    var x, y := Identity(layer, [(k, v)]), Identity(layer, [(k, w)]);
    var z := Identity(layer, [(BrokenKey(layer, k, v), w)]);
    assert [x, y][1..] == [y];
    OneKey(k, v);
    OneKey(k, w);
    OneKey(BrokenKey(layer, k, v), w);
    BrokenText(layer, k, v, w);
  }

  lemma {:induction false} OneKey(k: string, v: string)
    ensures Keys([(k, v)]) == [k]
  {
  }

  function BrokenKey(layer: string, k: string, v: string): string {
    k + ("=" + (Quote(v) + (LINE + (Quote(layer) + ("\t" + k)))))
  }

  lemma {:induction false} OneLineText(layer: string, k: string, v: string, r: string)
    ensures CanonicalLine(Identity(layer, [(k, v)])) + r
            == "layer=" + (Quote(layer) + ("\t" + (k + ("=" + (Quote(v) + r)))))
  {
    LineHead(Identity(layer, [(k, v)]), r);
    OneProperty(k, v, r);
  }

  lemma {:induction false} BrokenText(layer: string, k: string, v: string, w: string)
    ensures CanonicalLine(Identity(layer, [(k, v)])) + "\n" + CanonicalLine(Identity(layer, [(k, w)]))
            == CanonicalLine(Identity(layer, [(BrokenKey(layer, k, v), w)]))
  {
    var line, end := CanonicalLine(Identity(layer, [(k, w)])), "=" + (Quote(w) + "");
    Assoc(CanonicalLine(Identity(layer, [(k, v)])), "\n", line);
    OneLineText(layer, k, v, "\n" + line);
    NothingMore(line);
    OneLineText(layer, k, w, "");
    OneLineText(layer, BrokenKey(layer, k, v), w, "");
    NothingMore(CanonicalLine(Identity(layer, [(BrokenKey(layer, k, v), w)])));
    BrokenKeyText(layer, k, v, end);
    Assoc("\n", "layer=", Quote(layer) + ("\t" + (k + end)));
    assert LINE == "\n" + "layer=";
  }

  lemma {:induction false} BrokenKeyText(layer: string, k: string, v: string, end: string)
    ensures BrokenKey(layer, k, v) + end
            == k + ("=" + (Quote(v) + (LINE + (Quote(layer) + ("\t" + (k + end))))))
  {
    Assoc("\t", k, end);
    Assoc(Quote(layer), "\t" + k, end);
    Assoc(LINE, Quote(layer) + ("\t" + k), end);
    Assoc(Quote(v), LINE + (Quote(layer) + ("\t" + k)), end);
    Assoc("=", Quote(v) + (LINE + (Quote(layer) + ("\t" + k))), end);
    Assoc(k, "=" + (Quote(v) + (LINE + (Quote(layer) + ("\t" + k)))), end);
  }

  // ---- which key lists can be confused ----

  function KeyLeads(keys: seq<string>): seq<string> {
    if keys == [] then [] else ["\t" + keys[0] + "="] + KeyLeads(keys[1..])
  }

  /** What stands before the quoted values of n lines. */
  function DumpLeads(keys: seq<string>, n: nat): seq<string> {
    if n == 0 then [] else [LINE] + KeyLeads(keys) + DumpLeads(keys, n - 1)
  }

  lemma {:induction false} PropertyLeads(ps: seq<(string, string)>)
    ensures Leads(PropertyPieces(ps)) == KeyLeads(Keys(ps))
  {
    if ps != [] {
      PropertyLeads(ps[1..]);
      LeadsHead(Piece("\t" + ps[0].0 + "=", ps[0].1), PropertyPieces(ps[1..]));
      KeysJoined(ps);
    } else {
      assert Keys(ps) == [];
    }
  }

  lemma {:induction false} KeysJoined(ps: seq<(string, string)>)
    requires ps != []
    ensures Keys(ps) != [] && Keys(ps)[0] == ps[0].0 && Keys(ps)[1..] == Keys(ps[1..])
  {
  }

  lemma {:induction false} LeadsConcat(a: seq<Piece>, b: seq<Piece>)
    ensures Leads(a + b) == Leads(a) + Leads(b)
  {
  }

  lemma {:induction false} IdentityLeads(ids: seq<Identity>, keys: seq<string>)
    requires OneKeyList(ids, keys)
    ensures Leads(DumpPieces(ids)) == DumpLeads(keys, |ids|)
    decreases |ids|
  {
    if ids != [] {
      IdentityLeads(ids[1..], keys);
      LeadsConcat(LinePieces(ids[0]), DumpPieces(ids[1..]));
      LeadsHead(Piece(LINE, ids[0].layer), PropertyPieces(ids[0].properties));
      PropertyLeads(ids[0].properties);
    }
  }

  /** Pieces behind a key list's leads are properties. */
  lemma {:induction false} PropertiesOf(ps: seq<Piece>, keys: seq<string>) returns (props: seq<(string, string)>)
    requires Leads(ps) == KeyLeads(keys)
    ensures PropertyPieces(props) == ps && Keys(props) == keys
    decreases |keys|
  {
    assert |ps| == |Leads(ps)|;
    if keys == [] {
      props := [];
    } else {
      LeadsTail(ps);
      HeadJoined(ps);
      var rest := PropertiesOf(ps[1..], keys[1..]);
      props := [(keys[0], ps[0].value)] + rest;
      assert props[0] == (keys[0], ps[0].value) && props[1..] == rest;
      KeysJoined(props);
      assert Keys(props) == [keys[0]] + keys[1..] == keys;
    }
  }

  lemma {:induction false} LeadsCut(ps: seq<Piece>, ls: seq<string>, more: seq<string>)
    requires Leads(ps) == ls + more
    ensures |ls| <= |ps| && Leads(ps[..|ls|]) == ls && Leads(ps[|ls|..]) == more
  {
    assert |ps| == |Leads(ps)|;
    assert Leads(ps[..|ls|]) == Leads(ps)[..|ls|] && Leads(ps[|ls|..]) == Leads(ps)[|ls|..];
  }

  lemma {:induction false} LineOf(ps: seq<Piece>, keys: seq<string>) returns (id: Identity)
    requires Leads(ps) == [LINE] + KeyLeads(keys)
    ensures LinePieces(id) == ps && Keys(id.properties) == keys
  {
    assert |ps| == |Leads(ps)|;
    LeadsTail(ps);
    HeadJoined(ps);
    assert ([LINE] + KeyLeads(keys))[1..] == KeyLeads(keys);
    var props := PropertiesOf(ps[1..], keys);
    id := Identity(ps[0].value, props);
  }

  lemma {:induction false} IdentitiesOf(ps: seq<Piece>, keys: seq<string>, n: nat) returns (ids: seq<Identity>)
    requires Leads(ps) == DumpLeads(keys, n)
    ensures DumpPieces(ids) == ps && OneKeyList(ids, keys) && |ids| == n
    decreases n
  {
    assert |ps| == |Leads(ps)|;
    if n == 0 {
      ids := [];
    } else {
      var line := [LINE] + KeyLeads(keys);
      LeadsCut(ps, line, DumpLeads(keys, n - 1));
      var id := LineOf(ps[..|line|], keys);
      var rest := IdentitiesOf(ps[|line|..], keys, n - 1);
      CutJoined(ps, |line|);
      ids := [id] + rest;
      assert ids[0] == id && ids[1..] == rest;
    }
  }

  ghost predicate SomeDumpsAgree(keys: seq<string>, n: nat, others: seq<string>, m: nat) {
    exists a, b :: |a| == n && |b| == m && OneKeyList(a, keys) && OneKeyList(b, others) && Dump(a) == Dump(b)
  }

  /** Some n identities read with one key list and some m read with another have one dump if and only if the leads
      meet, which the keys alone decide. */
  lemma {:induction false} KeysConfuseExactly(keys: seq<string>, n: nat, others: seq<string>, m: nat)
    ensures SomeDumpsAgree(keys, n, others, m) <==> Meet(DumpLeads(keys, n), DumpLeads(others, m))
  {
    if SomeDumpsAgree(keys, n, others, m) {
      var a, b :| |a| == n && |b| == m && OneKeyList(a, keys) && OneKeyList(b, others) && Dump(a) == Dump(b);
      DumpIsText(a, b);
      DumpText(a);
      DumpText(b);
      IdentityLeads(a, keys);
      IdentityLeads(b, others);
      TextsMeet(DumpPieces(a), DumpPieces(b));
    }
    if Meet(DumpLeads(keys, n), DumpLeads(others, m)) {
      var ps, qs := MeetingTexts(DumpLeads(keys, n), DumpLeads(others, m));
      var a := IdentitiesOf(ps, keys, n);
      var b := IdentitiesOf(qs, others, m);
      DumpIsText(a, b);
    }
  }

  ghost predicate AllPlain(keys: seq<string>) {
    forall i :: 0 <= i < |keys| ==> KeyPlain(keys[i])
  }

  /** Different key lists of plain keys confuse nothing but empty dumps. */
  lemma {:induction false} PlainKeysNeverConfuse(a: seq<Identity>, keys: seq<string>, b: seq<Identity>,
                                                 others: seq<string>)
    requires OneKeyList(a, keys) && OneKeyList(b, others) && AllPlain(keys) && AllPlain(others) && keys != others
    ensures Dump(a) == Dump(b) <==> a == [] && b == []
  {
    forall x, y | x in a && y in b ensures Decided(x, y) {
      KeysOfPlain(x.properties, keys);
      KeysOfPlain(y.properties, others);
    }
    if Dump(a) == Dump(b) {
      DumpDetermines(a, b);
      SomeKeyList(a, keys, others);
    }
  }

  lemma {:induction false} SomeKeyList(ids: seq<Identity>, keys: seq<string>, others: seq<string>)
    requires OneKeyList(ids, keys) && OneKeyList(ids, others)
    ensures ids != [] ==> keys == others
  {
    if ids != [] {
      assert ids[0] in ids;
    }
  }

  lemma {:induction false} KeysOfPlain(ps: seq<(string, string)>, keys: seq<string>)
    requires Keys(ps) == keys && AllPlain(keys)
    ensures KeysPlain(ps)
  {
    forall i | 0 <= i < |ps| ensures KeyPlain(ps[i].0) {
      assert Keys(ps)[i] == ps[i].0;
    }
  }

  // ---- keys without line breaks ----

  predicate OneLine(id: Identity) {
    forall i | 0 <= i < |id.properties| :: '\n' !in id.properties[i].0
  }

  lemma {:induction false} PropertiesOnOneLine(ps: seq<(string, string)>)
    requires forall i :: 0 <= i < |ps| ==> '\n' !in ps[i].0
    ensures '\n' !in Properties(ps)
    decreases |ps|
  {
    if ps != [] {
      QuoteOnOneLine(ps[0].1);
      PropertiesOnOneLine(ps[1..]);
    }
  }

  lemma {:induction false} LineOnOneLine(id: Identity)
    requires OneLine(id)
    ensures '\n' !in CanonicalLine(id)
  {
    QuoteOnOneLine(id.layer);
    PropertiesOnOneLine(id.properties);
  }

  lemma {:induction false} LineReaches(x: string, y: string, r: string, q: string)
    requires '\n' !in y && Ends(r) && x + r == y + q
    ensures |x| >= |y|
  {
    var s := x + r;
    assert forall i :: 0 <= i < |y| ==> s[i] == y[i];
    assert forall i :: 0 <= i < |r| ==> s[|x| + i] == r[i];
  }

  lemma {:induction false} FirstLine(x: string, y: string, r: string, q: string)
    requires '\n' !in x && '\n' !in y && Ends(r) && Ends(q) && x + r == y + q
    ensures x == y && r == q
  {
    LineReaches(x, y, r, q);
    LineReaches(y, x, q, r);
    assert x == (x + r)[..|x|] && y == (y + q)[..|y|];
    SameTail(x, r, q);
  }

  ghost predicate SameLines(a: seq<Identity>, b: seq<Identity>) {
    |a| == |b| && forall i :: 0 <= i < |a| ==> CanonicalLine(a[i]) == CanonicalLine(b[i])
  }

  /** Whatever keys the two dumps use, as long as no key breaks a line: the dumps are equal if and only if their
      identities share their lines one by one. */
  lemma {:induction false} DumpsAgreeByLine(a: seq<Identity>, b: seq<Identity>)
    requires (forall i :: 0 <= i < |a| ==> OneLine(a[i])) && (forall i :: 0 <= i < |b| ==> OneLine(b[i]))
    ensures Dump(a) == Dump(b) <==> SameLines(a, b)
    decreases |a|
  {
    if a != [] { DumpHead(a); }
    if b != [] { DumpHead(b); }
    if a != [] && b != [] {
      LineOnOneLine(a[0]);
      LineOnOneLine(b[0]);
      DumpsAgreeByLine(a[1..], b[1..]);
      if Dump(a) == Dump(b) {
        FirstLine(CanonicalLine(a[0]), CanonicalLine(b[0]), Following(a), Following(b));
        FollowingTells(a, b);
      }
      SameLinesHead(a, b);
      if SameLines(a, b) {
        FollowingSame(a, b);
      }
    }
  }

  lemma {:induction false} SameLinesHead(a: seq<Identity>, b: seq<Identity>)
    requires a != [] && b != []
    ensures SameLines(a, b) <==> CanonicalLine(a[0]) == CanonicalLine(b[0]) && SameLines(a[1..], b[1..])
  {
    if CanonicalLine(a[0]) == CanonicalLine(b[0]) && SameLines(a[1..], b[1..]) {
      forall i | 0 <= i < |a| ensures CanonicalLine(a[i]) == CanonicalLine(b[i]) {
        if i > 0 {
          assert a[i] == a[1..][i - 1] && b[i] == b[1..][i - 1];
        }
      }
    }
  }

  lemma {:induction false} FollowingTells(a: seq<Identity>, b: seq<Identity>)
    requires a != [] && b != [] && Following(a) == Following(b)
    ensures |a| == 1 <==> |b| == 1
    ensures Dump(a[1..]) == Dump(b[1..])
  {
    DumpHead(a);
    DumpHead(b);
  }

  lemma {:induction false} FollowingSame(a: seq<Identity>, b: seq<Identity>)
    requires a != [] && |a| == |b| && Dump(a[1..]) == Dump(b[1..])
    ensures Following(a) == Following(b)
  {
  }

  ghost predicate SomeDumpAgrees(keys: seq<string>, others: seq<string>) {
    exists a, b :: a != [] && OneKeyList(a, keys) && OneKeyList(b, others) && Dump(a) == Dump(b)
  }

  ghost predicate NoBreak(keys: seq<string>) {
    forall i :: 0 <= i < |keys| ==> '\n' !in keys[i]
  }

  lemma {:induction false} KeysOneLine(ids: seq<Identity>, keys: seq<string>)
    requires OneKeyList(ids, keys) && NoBreak(keys)
    ensures forall i :: 0 <= i < |ids| ==> OneLine(ids[i])
  {
    forall i, j | 0 <= i < |ids| && 0 <= j < |ids[i].properties| ensures '\n' !in ids[i].properties[j].0 {
      assert ids[i] in ids && Keys(ids[i].properties)[j] == ids[i].properties[j].0;
    }
  }

  /** Where no key holds a line break, some dump of identities is read with both key lists if and only if the leads
      of one line meet. */
  lemma {:induction false} LineKeysConfuseExactly(keys: seq<string>, others: seq<string>)
    requires NoBreak(keys) && NoBreak(others)
    ensures SomeDumpAgrees(keys, others) <==> Meet(KeyLeads(keys), KeyLeads(others))
  {
    if SomeDumpAgrees(keys, others) {
      var a, b :| a != [] && OneKeyList(a, keys) && OneKeyList(b, others) && Dump(a) == Dump(b);
      KeysOneLine(a, keys);
      KeysOneLine(b, others);
      DumpsAgreeByLine(a, b);
      LineKeysMeet(a[0], keys, b[0], others);
    }
    if Meet(KeyLeads(keys), KeyLeads(others)) {
      var ps, qs := MeetingTexts(KeyLeads(keys), KeyLeads(others));
      var props := PropertiesOf(ps, keys);
      var more := PropertiesOf(qs, others);
      OneLineDumps(props, keys, more, others);
    }
  }

  lemma {:induction false} OneLineDumps(ps: seq<(string, string)>, keys: seq<string>, qs: seq<(string, string)>,
                                        others: seq<string>)
    requires Keys(ps) == keys && Keys(qs) == others && Text(PropertyPieces(ps)) == Text(PropertyPieces(qs))
    ensures SomeDumpAgrees(keys, others)
  {
    var x, y := Identity("", ps), Identity("", qs);
    PropertiesText(ps);
    PropertiesText(qs);
    LinesAgree(x, y);
    OneIdentity(x);
    OneIdentity(y);
    assert [x] != [] && Dump([x]) == Dump([y]);
  }

  lemma {:induction false} OneIdentity(id: Identity)
    ensures OneKeyList([id], Keys(id.properties)) && Dump([id]) == CanonicalLine(id)
  {
  }

  lemma {:induction false} LineKeysMeet(a: Identity, keys: seq<string>, b: Identity, others: seq<string>)
    requires Keys(a.properties) == keys && Keys(b.properties) == others && CanonicalLine(a) == CanonicalLine(b)
    ensures Meet(KeyLeads(keys), KeyLeads(others))
  {
    LinesAgree(a, b);
    PropertiesText(a.properties);
    PropertiesText(b.properties);
    PropertyLeads(a.properties);
    PropertyLeads(b.properties);
    TextsMeet(PropertyPieces(a.properties), PropertyPieces(b.properties));
  }

  // ---- identities as a multiset ----

  predicate PropertiesLe(a: seq<(string, string)>, b: seq<(string, string)>) {
    a == [] ||
    (b != [] &&
      if a[0].0 != b[0].0 then StringLe(a[0].0, b[0].0)
      else if a[0].1 != b[0].1 then StringLe(a[0].1, b[0].1)
      else PropertiesLe(a[1..], b[1..]))
  }

  /** The derived order: by layer, then by the properties in turn. */
  predicate IdentityLe(a: Identity, b: Identity) {
    if a.layer != b.layer then StringLe(a.layer, b.layer) else PropertiesLe(a.properties, b.properties)
  }

  lemma {:induction false} PropertiesLeTotal(a: seq<(string, string)>, b: seq<(string, string)>)
    ensures PropertiesLe(a, b) || PropertiesLe(b, a)
    ensures PropertiesLe(a, b) && PropertiesLe(b, a) ==> a == b
  {
    if a != [] && b != [] {
      StringLeTotal(a[0].0, b[0].0);
      StringLeTotal(a[0].1, b[0].1);
      PropertiesLeTotal(a[1..], b[1..]);
      assert a == [a[0]] + a[1..] && b == [b[0]] + b[1..];
    }
  }

  lemma {:induction false} PropertiesLeTransitive(a: seq<(string, string)>, b: seq<(string, string)>,
                                                  c: seq<(string, string)>)
    requires PropertiesLe(a, b) && PropertiesLe(b, c)
    ensures PropertiesLe(a, c)
  {
    if a != [] {
      StringLeIsTotalOrder();
      if a[0] == b[0] == c[0] {
        PropertiesLeTransitive(a[1..], b[1..], c[1..]);
      }
    }
  }

  lemma {:induction false} IdentityLeIsTotalOrder()
    ensures TotalOrder(IdentityLe)
  {
    StringLeIsTotalOrder();
    forall a, b ensures (IdentityLe(a, b) || IdentityLe(b, a)) && (IdentityLe(a, b) && IdentityLe(b, a) ==> a == b) {
      PropertiesLeTotal(a.properties, b.properties);
    }
    forall a, b, c | IdentityLe(a, b) && IdentityLe(b, c) ensures IdentityLe(a, c) {
      if a.layer == b.layer == c.layer {
        PropertiesLeTransitive(a.properties, b.properties, c.properties);
      }
    }
  }

  /** Where the lists first differ, the key decides, or the value under one key; where they do not, the shorter. */
  ghost predicate EarlierAt(a: seq<(string, string)>, b: seq<(string, string)>, k: nat) {
    && k < |a| && k < |b| && (forall i :: 0 <= i < k ==> a[i] == b[i]) && a[k] != b[k]
    && if a[k].0 != b[k].0 then StringLe(a[k].0, b[k].0) else StringLe(a[k].1, b[k].1)
  }

  lemma {:induction false} EarlierBehind(a: seq<(string, string)>, b: seq<(string, string)>, k: nat)
    requires a != [] && b != [] && a[0] == b[0]
    ensures EarlierAt(a, b, k + 1) <==> EarlierAt(a[1..], b[1..], k)
  {
    if EarlierAt(a, b, k + 1) {
      assert forall i :: 0 <= i < k ==> a[1..][i] == a[i + 1] && b[1..][i] == b[i + 1];
    }
    if EarlierAt(a[1..], b[1..], k) {
      assert forall i :: 0 < i <= k ==> a[i] == a[1..][i - 1] && b[i] == b[1..][i - 1];
    }
  }

  /** The order of identities: by layer, then by keys and values in turn. */
  lemma {:induction false} PropertiesLeExactly(a: seq<(string, string)>, b: seq<(string, string)>)
    ensures PropertiesLe(a, b) <==> a <= b || exists k: nat :: EarlierAt(a, b, k)
  {
    if a != [] && b != [] {
      if a[0] == b[0] {
        PropertiesLeExactly(a[1..], b[1..]);
        HeadJoined(a);
        HeadJoined(b);
        if k: nat :| EarlierAt(a[1..], b[1..], k) {
          EarlierBehind(a, b, k);
        }
        if k: nat :| EarlierAt(a, b, k) {
          EarlierBehind(a, b, k - 1);
        }
      } else if PropertiesLe(a, b) {
        assert EarlierAt(a, b, 0);
      }
    }
  }

  /** A line as it is written: the layer, and each key with its value behind a tab. */
  lemma {:induction false} LineWritten(layer: string, k: string, v: string, l: string, w: string)
    ensures CanonicalLine(Identity(layer, [(k, v), (l, w)]))
            == "layer=" + Quote(layer) + ("\t" + k + "=" + Quote(v)) + ("\t" + l + "=" + Quote(w))
  {
    var ps := [(k, v), (l, w)];
    assert ps[1..] == [(l, w)] && ps[1..][1..] == [];
    var first, second := "\t" + k + "=" + Quote(v), "\t" + l + "=" + Quote(w);
    NothingMore(second);
    assert Properties(ps[1..]) == second + Properties([]) == second;
    assert Properties(ps) == first + second;
    Assoc("layer=" + Quote(layer), first, second);
  }

  /** A dump as it is written: its lines with line breaks between them. */
  lemma {:induction false} DumpWritten(a: Identity, b: Identity, c: Identity)
    ensures Dump([]) == "" && Dump([a]) == CanonicalLine(a)
    ensures Dump([a, b, c]) == CanonicalLine(a) + "\n" + (CanonicalLine(b) + "\n" + CanonicalLine(c))
  {
    assert [a, b, c][1..] == [b, c] && [b, c][1..] == [c];
    assert Dump([b, c]) == CanonicalLine(b) + "\n" + Dump([c]);
  }

  /** The assertion compares sorted lists; that is equality of the two multisets of identities. */
  lemma {:induction false} SortedComparisonIsMultiset(actual: seq<Identity>, expected: seq<Identity>)
    ensures Sort(IdentityLe, actual) == Sort(IdentityLe, expected) <==> multiset(actual) == multiset(expected)
  {
    IdentityLeIsTotalOrder();
    SortsAgree(IdentityLe, actual, expected);
  }

  /** Two tiles have one dump exactly when they hold the same identities, each as often, whenever the keys decide. */
  lemma {:induction false} DecidedDumpsExactly(a: seq<Identity>, b: seq<Identity>)
    requires AllDecided(a, b)
    ensures Dump(Sort(IdentityLe, a)) == Dump(Sort(IdentityLe, b)) <==> multiset(a) == multiset(b)
  {
    SortedComparisonIsMultiset(a, b);
    SameElements(Sort(IdentityLe, a), a);
    SameElements(Sort(IdentityLe, b), b);
    assert AllDecided(Sort(IdentityLe, a), Sort(IdentityLe, b));
    if Dump(Sort(IdentityLe, a)) == Dump(Sort(IdentityLe, b)) {
      DumpDetermines(Sort(IdentityLe, a), Sort(IdentityLe, b));
    }
  }

  /** In one run the keys always decide, whatever they hold. */
  lemma {:induction false} OneRunDumpsExactly(a: seq<Identity>, b: seq<Identity>, keys: seq<string>)
    requires OneKeyList(a, keys) && OneKeyList(b, keys)
    ensures Dump(Sort(IdentityLe, a)) == Dump(Sort(IdentityLe, b)) <==> multiset(a) == multiset(b)
  {
    assert AllDecided(a, b);
    DecidedDumpsExactly(a, b);
  }
}
