/** Quoted values and the text that leads to each: when two such lists have one text. */
module TilePieces {
  import opened Sequences
  import opened Wrappers
  import opened TileQuote

  /** A quoted value and what stands before it. */
  datatype Piece = Piece(lead: string, value: string)

  function Text(ps: seq<Piece>): string {
    if ps == [] then "" else ps[0].lead + (Quote(ps[0].value) + Text(ps[1..]))
  }

  function Leads(ps: seq<Piece>): seq<string> {
    seq(|ps|, i requires 0 <= i < |ps| => ps[i].lead)
  }

  /** A lead begins with what cannot stand in quotes, and ends in `=`. */
  predicate IsLead(s: string) {
    s != "" && s[0] in "\t\n" && s[|s| - 1] == '='
  }

  predicate AllLeads(ls: seq<string>) {
    forall i | 0 <= i < |ls| :: IsLead(ls[i])
  }

  predicate Led(ps: seq<Piece>) {
    forall i | 0 <= i < |ps| :: IsLead(ps[i].lead)
  }

  // ---- regrouping ----

  /** The first of two neighbours, value and all, becomes the beginning of the second's lead. */
  function RunTogether(p: Piece, q: Piece): Piece {
    Piece(p.lead + (Quote(p.value) + q.lead), q.value)
  }

  function Grouped(g: seq<Piece>): Piece
    requires g != []
    decreases |g|
  {
    if |g| == 1 then g[0] else RunTogether(g[0], Grouped(g[1..]))
  }

  /** `qs` is `ps` with neighbours run together. */
  ghost predicate Regroups(ps: seq<Piece>, qs: seq<Piece>)
    decreases |qs|
  {
    if qs == [] then ps == []
    else exists m :: 1 <= m <= |ps| && qs[0] == Grouped(ps[..m]) && Regroups(ps[m..], qs[1..])
  }

  /** Both are regroupings of one list. */
  ghost predicate ShareRefinement(ps: seq<Piece>, qs: seq<Piece>) {
    exists c :: Led(c) && Regroups(c, ps) && Regroups(c, qs)
  }

  lemma {:induction false} TextHead(p: Piece, ps: seq<Piece>)
    ensures Text([p] + ps) == p.lead + (Quote(p.value) + Text(ps))
  {
    HeadApart(p, ps);
  }

  lemma {:induction false} TextConcat(a: seq<Piece>, b: seq<Piece>)
    ensures Text(a + b) == Text(a) + Text(b)
    decreases |a|
  {
    if a == [] {
      assert a + b == b && Text(a) + Text(b) == Text(b);
    } else {
      assert (a + b)[0] == a[0] && (a + b)[1..] == a[1..] + b;
      TextConcat(a[1..], b);
      Assoc(Quote(a[0].value), Text(a[1..]), Text(b));
      Assoc(a[0].lead, Quote(a[0].value) + Text(a[1..]), Text(b));
    }
  }

  lemma {:induction false} LongLead(p: Piece, lead: string, rest: string)
    ensures p.lead + (Quote(p.value) + lead) + rest == p.lead + (Quote(p.value) + (lead + rest))
  {
    Assoc(Quote(p.value), lead, rest);
    Assoc(p.lead, Quote(p.value) + lead, rest);
  }

  lemma {:induction false} GroupText(g: seq<Piece>, r: string)
    requires g != []
    ensures Text(g) + r == Grouped(g).lead + (Quote(Grouped(g).value) + r)
    decreases |g|
  {
    var q := Quote(g[0].value);
    Assoc(q, Text(g[1..]), r);
    Assoc(g[0].lead, q + Text(g[1..]), r);
    if |g| == 1 {
      NoText(r);
    } else {
      GroupText(g[1..], r);
      LongLead(g[0], Grouped(g[1..]).lead, Quote(Grouped(g[1..]).value) + r);
    }
  }

  lemma {:induction false} NoText(r: string)
    ensures Text([]) + r == r
  {
  }

  /** Regrouping leaves the text as it is. */
  lemma {:induction false} RegroupedText(ps: seq<Piece>, qs: seq<Piece>)
    requires Regroups(ps, qs)
    ensures Text(ps) == Text(qs)
    decreases |qs|
  {
    if qs != [] {
      var m :| 1 <= m <= |ps| && qs[0] == Grouped(ps[..m]) && Regroups(ps[m..], qs[1..]);
      RegroupedText(ps[m..], qs[1..]);
      CutJoined(ps, m);
      TextConcat(ps[..m], ps[m..]);
      GroupText(ps[..m], Text(ps[m..]));
    }
  }

  lemma {:induction false} FirstGroup(g: seq<Piece>, rest: seq<Piece>, qs: seq<Piece>)
    requires g != [] && Regroups(rest, qs)
    ensures Regroups(g + rest, [Grouped(g)] + qs)
  {
    HeadApart(Grouped(g), qs);
    CutApart(g, rest);
  }

  lemma {:induction false} RegroupsOne(p: Piece, c: seq<Piece>, qs: seq<Piece>)
    requires Regroups(c, qs)
    ensures Regroups([p] + c, [p] + qs)
  {
    FirstGroup([p], c, qs);
  }

  lemma {:induction false} RegroupsItself(ps: seq<Piece>)
    ensures Regroups(ps, ps)
    decreases |ps|
  {
    if ps != [] {
      RegroupsItself(ps[1..]);
      RegroupsOne(ps[0], ps[1..], ps[1..]);
      HeadJoined(ps);
    }
  }

  /** A piece in front joins the first group. */
  lemma {:induction false} RegroupsInto(p: Piece, c: seq<Piece>, q: Piece, qs: seq<Piece>)
    requires Regroups(c, [q] + qs)
    ensures Regroups([p] + c, [RunTogether(p, q)] + qs)
  {
    var was := [q] + qs;
    HeadApart(q, qs);
    var m :| 1 <= m <= |c| && was[0] == Grouped(c[..m]) && Regroups(c[m..], was[1..]);
    GroupGrows(p, c[..m], c[m..], qs);
    CutJoined(c, m);
  }

  lemma {:induction false} GroupGrows(p: Piece, g: seq<Piece>, rest: seq<Piece>, qs: seq<Piece>)
    requires g != [] && Regroups(rest, qs)
    ensures Regroups([p] + (g + rest), [RunTogether(p, Grouped(g))] + qs)
  {
    GroupedInto(p, g);
    FirstGroup([p] + g, rest, qs);
    JoinedAfter(p, g, rest);
  }

  lemma {:induction false} GroupedInto(p: Piece, g: seq<Piece>)
    requires g != []
    ensures Grouped([p] + g) == RunTogether(p, Grouped(g))
  {
    HeadApart(p, g);
  }

  lemma {:induction false} JoinedAfter(p: Piece, g: seq<Piece>, rest: seq<Piece>)
    ensures [p] + (g + rest) == [p] + g + rest
  {
  }

  // ---- one text, one refinement ----

  /** What can follow a quoted value: nothing, or the next lead. */
  predicate Follows(s: string) {
    s == "" || s[0] in "\t\n"
  }

  lemma {:induction false} TextFollows(ps: seq<Piece>)
    requires Led(ps)
    ensures Follows(Text(ps)) && (Text(ps) == "" <==> ps == [])
  {
    if ps != [] {
      assert Text(ps)[0] == ps[0].lead[0];
    }
  }

  /** No second value opens within a quoted one. */
  lemma {:induction false} NoOpeningInside(x: string, w: string, q: string, v: string, r: string)
    requires x != "" && x[|x| - 1] == '=' && x + (Quote(w) + q) == Quote(v) + r && Follows(r)
    ensures |x| > |Quote(v)|
  {
    var t, p, n := Quote(v) + r, |x|, |Quote(v)|;
    QuoteEnds(v);
    QuoteEnds(w);
    assert t == x + (Quote(w) + q) && |t| >= p + 2;
    assert t[p - 1] == '=' && t[p] == '"' && t[p + 1] == Quote(w)[1];
    assert forall i :: 0 <= i < n ==> t[i] == Quote(v)[i];
    assert forall i :: 0 <= i < |r| ==> t[n + i] == r[i];
    if p < n - 1 {
      QuotedInside(v, p);
    }
  }

  /** A longer lead to the same text holds the shorter one and its value; what remains is a lead. */
  lemma {:induction false} LeadBehind(k: string, l: string, v: string, w: string, r: string, q: string)
    returns (rest: string)
    requires |k| < |l| && IsLead(l) && Follows(r) && k + (Quote(v) + r) == l + (Quote(w) + q)
    ensures l == k + (Quote(v) + rest) && IsLead(rest) && r == rest + (Quote(w) + q)
  {
    var x := LeadPrefix(k, l, Quote(v) + r, Quote(w) + q);
    assert x[|x| - 1] == l[|l| - 1];
    NoOpeningInside(x, w, q, v, r);
    rest := ValueApart(x, Quote(v), r, Quote(w) + q);
    assert rest[|rest| - 1] == x[|x| - 1];
    assert rest[0] == r[0];
  }

  lemma {:induction false} LeadPrefix(k: string, l: string, a: string, b: string) returns (x: string)
    requires |k| < |l| && k + a == l + b
    ensures l == k + x && a == x + b
  {
    var t := k + a;
    x := l[|k|..];
    assert l == t[..|l|] && k == t[..|k|];
    assert k == l[..|k|];
    assert a == t[|k|..] && b == t[|l|..];
  }

  lemma {:induction false} ValueApart(x: string, v: string, r: string, q: string) returns (rest: string)
    requires |x| > |v| && x + q == v + r
    ensures rest != "" && x == v + rest && r == rest + q
  {
    rest := LeadPrefix(v, x, r, q);
  }

  lemma {:induction false} SameLead(a: string, b: string, r: string, q: string)
    requires |a| == |b| && a + r == b + q
    ensures a == b && r == q
  {
    var t := a + r;
    assert a == t[..|a|] && b == t[..|b|] && r == t[|a|..] && q == t[|b|..];
  }

  lemma {:induction false} LedTail(ps: seq<Piece>)
    requires ps != [] && Led(ps)
    ensures IsLead(ps[0].lead) && Led(ps[1..])
  {
  }

  lemma {:induction false} LedHead(p: Piece, ps: seq<Piece>)
    requires IsLead(p.lead) && Led(ps)
    ensures Led([p] + ps)
  {
  }

  /** Lists with one text are regroupings of one list. */
  lemma {:induction false} CommonRefinement(a: seq<Piece>, b: seq<Piece>) returns (c: seq<Piece>)
    requires Led(a) && Led(b) && Text(a) == Text(b)
    ensures Led(c) && Regroups(c, a) && Regroups(c, b)
    decreases |a| + |b|, if a != [] && b != [] && |a[0].lead| > |b[0].lead| then 1 else 0
  {
    TextFollows(a);
    TextFollows(b);
    if a == [] {
      c := [];
    } else if |a[0].lead| > |b[0].lead| {
      c := CommonRefinement(b, a);
    } else {
      LedTail(a);
      LedTail(b);
      HeadJoined(a);
      HeadJoined(b);
      TextFollows(a[1..]);
      if |a[0].lead| == |b[0].lead| {
        SamePiece(a, b);
        c := CommonRefinement(a[1..], b[1..]);
        RegroupsOne(a[0], c, a[1..]);
        RegroupsOne(b[0], c, b[1..]);
      } else {
        var q := PieceBehind(a, b);
        LedHead(q, b[1..]);
        c := CommonRefinement(a[1..], [q] + b[1..]);
        RegroupsOne(a[0], c, a[1..]);
        RegroupsInto(a[0], c, q, b[1..]);
      }
      LedHead(a[0], c);
      c := [a[0]] + c;
    }
  }

  lemma {:induction false} SamePiece(a: seq<Piece>, b: seq<Piece>)
    requires a != [] && b != [] && |a[0].lead| == |b[0].lead| && Text(a) == Text(b)
    ensures a[0] == b[0] && Text(a[1..]) == Text(b[1..])
  {
    var restA, restB := Text(a[1..]), Text(b[1..]);
    SameLead(a[0].lead, b[0].lead, Quote(a[0].value) + restA, Quote(b[0].value) + restB);
    QuoteDelimits(a[0].value, b[0].value, restA, restB);
  }

  lemma {:induction false} PieceBehind(a: seq<Piece>, b: seq<Piece>) returns (q: Piece)
    requires a != [] && b != [] && |a[0].lead| < |b[0].lead| && Led(a) && Led(b) && Text(a) == Text(b)
    ensures IsLead(q.lead) && b[0] == RunTogether(a[0], q) && Text(a[1..]) == Text([q] + b[1..])
  {
    LedTail(a);
    TextFollows(a[1..]);
    var rest := LeadBehind(a[0].lead, b[0].lead, a[0].value, b[0].value, Text(a[1..]), Text(b[1..]));
    q := Piece(rest, b[0].value);
    TextHead(q, b[1..]);
  }

  /** Two lists have one text if and only if they are regroupings of one list. */
  lemma {:induction false} TextsAgreeExactly(a: seq<Piece>, b: seq<Piece>)
    requires Led(a) && Led(b)
    ensures Text(a) == Text(b) <==> ShareRefinement(a, b)
  {
    if Text(a) == Text(b) {
      var c := CommonRefinement(a, b);
    }
    if ShareRefinement(a, b) {
      var c :| Led(c) && Regroups(c, a) && Regroups(c, b);
      RegroupedText(c, a);
      RegroupedText(c, b);
    }
  }

  // ---- which leads can meet ----

  /** What remains of a longer lead behind a shorter one and a value: the value and a lead. */
  function Behind(k: string, l: string): (r: Result<(string, string)>)
    ensures r.Ok? ==> l == k + (Quote(r.value.0) + r.value.1) && IsLead(r.value.1)
  {
    if |k| < |l| && k <= l then
      var (value, rest) :- Unquote(l[|k| + 1..]);
      if l == k + (Quote(value) + rest) && IsLead(rest) then Ok((value, rest)) else Err
    else
      Err
  }

  /** Whether values can be put behind these leads and behind those so that both give one text: of two heads the
      longer must hold the shorter, a value, and another lead. */
  predicate Meet(ks: seq<string>, ls: seq<string>)
    decreases |ks| + |ls|
  {
    if ks == [] || ls == [] then
      ks == ls
    else if ks[0] == ls[0] then
      Meet(ks[1..], ls[1..])
    else
      match (Behind(ks[0], ls[0]), Behind(ls[0], ks[0]))
      case (Ok(behind), _) => Meet(ks[1..], [behind.1] + ls[1..])
      case (Err, Ok(behind)) => Meet([behind.1] + ks[1..], ls[1..])
      case (Err, Err) => false
  }

  lemma {:induction false} BehindFinds(k: string, l: string, v: string, rest: string)
    requires l == k + (Quote(v) + rest) && IsLead(rest)
    ensures Behind(k, l) == Ok((v, rest))
  {
    QuoteRoundTrip(v, rest);
    QuoteEnds(v);
    assert l[..|k|] == k;
    assert l[|k| + 1..] == EscapeAll(v) + ("\"" + rest);
  }

  lemma {:induction false} LeadsTail(ps: seq<Piece>)
    requires ps != []
    ensures Leads(ps)[0] == ps[0].lead && Leads(ps)[1..] == Leads(ps[1..])
  {
  }

  lemma {:induction false} LeadsHead(p: Piece, ps: seq<Piece>)
    ensures Leads([p] + ps) == [p.lead] + Leads(ps)
  {
  }

  lemma {:induction false} MeetSymmetric(ks: seq<string>, ls: seq<string>)
    ensures Meet(ks, ls) <==> Meet(ls, ks)
    decreases |ks| + |ls|
  {
    if ks != [] && ls != [] {
      if ks[0] == ls[0] {
        MeetSymmetric(ks[1..], ls[1..]);
      } else {
        match (Behind(ks[0], ls[0]), Behind(ls[0], ks[0]))
        case (Ok(behind), _) => MeetSymmetric(ks[1..], [behind.1] + ls[1..]);
        case (Err, Ok(behind)) => MeetSymmetric([behind.1] + ks[1..], ls[1..]);
        case (Err, Err) =>
      }
    }
  }

  lemma {:induction false} MeetBehind(k: string, ks: seq<string>, l: string, ls: seq<string>, v: string, rest: string)
    requires l == k + (Quote(v) + rest) && IsLead(rest) && Meet(ks, [rest] + ls)
    ensures Meet([k] + ks, [l] + ls)
  {
    var all, others := [k] + ks, [l] + ls;
    BehindFinds(k, l, v, rest);
    QuoteEnds(v);
    assert all[0] == k && all[1..] == ks && others[0] == l && others[1..] == ls;
  }

  lemma {:induction false} MeetSame(k: string, ks: seq<string>, ls: seq<string>)
    requires Meet(ks, ls)
    ensures Meet([k] + ks, [k] + ls)
  {
    var all, others := [k] + ks, [k] + ls;
    assert all[0] == k && all[1..] == ks && others[0] == k && others[1..] == ls;
  }

  lemma {:induction false} LeadsJoined(ps: seq<Piece>)
    requires ps != []
    ensures Leads(ps) == [ps[0].lead] + Leads(ps[1..])
  {
  }

  /** Where the texts are one, the leads meet. */
  lemma {:induction false} TextsMeet(a: seq<Piece>, b: seq<Piece>)
    requires Led(a) && Led(b) && Text(a) == Text(b)
    ensures Meet(Leads(a), Leads(b))
    decreases |a| + |b|, if a != [] && b != [] && |a[0].lead| > |b[0].lead| then 1 else 0
  {
    TextFollows(a);
    TextFollows(b);
    if a != [] {
      if |a[0].lead| > |b[0].lead| {
        TextsMeet(b, a);
        MeetSymmetric(Leads(b), Leads(a));
      } else {
        LedTail(a);
        LedTail(b);
        LeadsJoined(a);
        LeadsJoined(b);
        if |a[0].lead| == |b[0].lead| {
          SamePiece(a, b);
          TextsMeet(a[1..], b[1..]);
          MeetSame(a[0].lead, Leads(a[1..]), Leads(b[1..]));
        } else {
          var q := PieceBehind(a, b);
          LedHead(q, b[1..]);
          TextsMeet(a[1..], [q] + b[1..]);
          LeadsHead(q, b[1..]);
          MeetBehind(a[0].lead, Leads(a[1..]), b[0].lead, Leads(b[1..]), a[0].value, q.lead);
        }
      }
    }
  }

  /** Where the leads meet, values make the texts one. */
  lemma {:induction false} MeetingTexts(ks: seq<string>, ls: seq<string>) returns (a: seq<Piece>, b: seq<Piece>)
    requires Meet(ks, ls)
    ensures Leads(a) == ks && Leads(b) == ls && Text(a) == Text(b)
    decreases |ks| + |ls|
  {
    if ks == [] {
      a, b := [], [];
    } else if ks[0] == ls[0] {
      a, b := MeetingTexts(ks[1..], ls[1..]);
      var p := Piece(ks[0], "");
      Prefixed(p, a, ks);
      Prefixed(p, b, ls);
      a, b := [p] + a, [p] + b;
    } else {
      match Behind(ks[0], ls[0])
      case Ok(behind) =>
        a, b := MeetingTexts(ks[1..], [behind.1] + ls[1..]);
        a, b := MeetingOne(ks, ls, behind.0, behind.1, a, b);
      case Err =>
        var behind := Behind(ls[0], ks[0]).value;
        a, b := MeetingTexts([behind.1] + ks[1..], ls[1..]);
        b, a := MeetingOne(ls, ks, behind.0, behind.1, b, a);
    }
  }

  lemma {:induction false} Prefixed(p: Piece, ps: seq<Piece>, ls: seq<string>)
    requires ls != [] && p.lead == ls[0] && Leads(ps) == ls[1..]
    ensures Leads([p] + ps) == ls && Text([p] + ps) == p.lead + (Quote(p.value) + Text(ps))
  {
    LeadsHead(p, ps);
    TextHead(p, ps);
    assert ls == [ls[0]] + ls[1..];
  }

  lemma {:induction false} MeetingOne(ks: seq<string>, ls: seq<string>, v: string, rest: string, a: seq<Piece>,
                                      b: seq<Piece>)
    returns (c: seq<Piece>, d: seq<Piece>)
    requires ks != [] && ls != [] && ls[0] == ks[0] + (Quote(v) + rest)
    requires Leads(a) == ks[1..] && Leads(b) == [rest] + ls[1..] && Text(a) == Text(b)
    ensures Leads(c) == ks && Leads(d) == ls && Text(c) == Text(d)
  {
    assert |b| == |Leads(b)|;
    LeadsTail(b);
    assert ([rest] + ls[1..])[1..] == ls[1..];
    var p, q := Piece(ks[0], v), Piece(ls[0], b[0].value);
    Prefixed(p, a, ks);
    Prefixed(q, b[1..], ls);
    LongLead(p, rest, Quote(q.value) + Text(b[1..]));
    c, d := [p] + a, [q] + b[1..];
  }

  ghost predicate SomeTextsAgree(ks: seq<string>, ls: seq<string>) {
    exists a, b :: Leads(a) == ks && Leads(b) == ls && Text(a) == Text(b)
  }

  /** Leads meet if and only if some values behind them give one text. */
  lemma {:induction false} MeetExactly(ks: seq<string>, ls: seq<string>)
    requires AllLeads(ks) && AllLeads(ls)
    ensures Meet(ks, ls) <==> SomeTextsAgree(ks, ls)
  {
    if Meet(ks, ls) {
      var a, b := MeetingTexts(ks, ls);
    }
    if SomeTextsAgree(ks, ls) {
      var a, b :| Leads(a) == ks && Leads(b) == ls && Text(a) == Text(b);
      LeadsLed(a);
      LeadsLed(b);
      TextsMeet(a, b);
    }
  }

  lemma {:induction false} LeadsLed(ps: seq<Piece>)
    ensures AllLeads(Leads(ps)) <==> Led(ps)
  {
    if AllLeads(Leads(ps)) {
      assert forall i :: 0 <= i < |ps| ==> Leads(ps)[i] == ps[i].lead;
    }
  }
}
