/** Evaluating a `cfg` predicate, given as the tokens of its text, in a release build. */
module CfgPredicate {
  import opened Sequences
  import opened Wrappers

  /** What the tokenizer finds: words, quoted values (here without their quotes) and punctuation. */
  datatype Token = Word(text: string) | Quoted(text: string) | Open | Close | Comma | Equal

  type Tokens = seq<Token>

  datatype Combinator = AnyOf | AllOf | NotOf

  function CombinatorOf(t: Token): Option<Combinator> {
    if t == Word("any") then Some(AnyOf)
    else if t == Word("all") then Some(AllOf)
    else if t == Word("not") then Some(NotOf)
    else None
  }

  function WordOf(c: Combinator): (t: Token)
    ensures CombinatorOf(t) == Some(c)
  {
    match c
    case AnyOf => Word("any")
    case AllOf => Word("all")
    case NotOf => Word("not")
  }

  /** A token's text with the quotes at its ends stripped. */
  function Stripped(t: Token): string {
    match t
    case Word(text) => text
    case Quoted(text) => text
    case Open => "("
    case Close => ")"
    case Comma => ","
    case Equal => "="
  }

  function Combine(c: Combinator, values: seq<bool>): bool
    requires c.NotOf? ==> values != []
  {
    match c
    case AnyOf => true in values
    case AllOf => false !in values
    case NotOf => !values[0]
  }

  // ---- the evaluator on a list of tokens ----

  /** A value and the tokens it took, or an expression cut short. */
  datatype One = One(value: bool, used: nat) | NoOne

  datatype Many = Many(values: seq<bool>, used: nat) | NoMany

  /** Values read and tokens passed, before what is still to be read. */
  function After(values: seq<bool>, n: nat, rest: Many): Many {
    match rest
    case NoMany => NoMany
    case Many(vs, m) => Many(values + vs, n + m)
  }

  function Closed(c: Combinator, args: Many): One {
    match args
    case NoMany => NoOne
    case Many(values, n) => if c.NotOf? && values == [] then NoOne else One(Combine(c, values), n + 3)
  }

  /** The value of the predicate the tokens begin with and how many they are. */
  function Predicate(ts: Tokens, features: set<string>): (r: One)
    ensures r.One? ==> 1 <= r.used <= |ts|
    decreases |ts|, 0
  {
    if ts == [] then
      NoOne
    else if CombinatorOf(ts[0]).Some? && |ts| > 1 && ts[1].Open? then
      Closed(CombinatorOf(ts[0]).value, Values(ts[2..], features))
    else if |ts| > 1 && ts[1].Equal? then
      if |ts| == 2 then NoOne
      else One(if ts[0] == Word("feature") then Stripped(ts[2]) in features else true, 3)
    else
      One(ts[0] != Word("test"), 1)
  }

  /** The values up to the closing parenthesis, and the tokens before it. */
  function Values(ts: Tokens, features: set<string>): (r: Many)
    ensures r.Many? ==> r.used < |ts|
    decreases |ts|, 1
  {
    if ts == [] then
      NoMany
    else if ts[0].Close? then
      Many([], 0)
    else
      match Predicate(ts, features)
      case NoOne => NoMany
      case One(v, n) =>
        if n == |ts| then NoMany
        else
          var next := if ts[n].Comma? then n + 1 else n;
          After([v], next, Values(ts[next..], features))
  }

  /** An expression cut short counts as true. */
  function CfgTrue(ts: Tokens, features: set<string>): bool {
    match Predicate(ts, features)
    case One(v, _) => v
    case NoOne => true
  }

  // ---- predicates as trees ----

  /** `comma` says whether a trailing comma is written. */
  datatype Cfg =
    | Flag(name: string)
    | Equals(name: string, value: string)
    | Any(args: seq<Cfg>, comma: bool)
    | All(args: seq<Cfg>, comma: bool)
    | Not(arg: Cfg, comma: bool)

  function Print(c: Cfg): (ts: Tokens)
    ensures ts != [] && ts[0].Word?
    decreases c, 0
  {
    match c
    case Flag(name) => [Word(name)]
    case Equals(name, value) => [Word(name), Equal, Quoted(value)]
    case Any(args, comma) => [WordOf(AnyOf), Open] + PrintArgs(args, comma) + [Close]
    case All(args, comma) => [WordOf(AllOf), Open] + PrintArgs(args, comma) + [Close]
    case Not(arg, comma) => [WordOf(NotOf), Open] + LastTokens(arg, comma) + [Close]
  }

  function LastTokens(arg: Cfg, comma: bool): Tokens
    decreases arg, 1
  {
    Print(arg) + if comma then [Comma] else []
  }

  function PrintArgs(args: seq<Cfg>, comma: bool): Tokens
    decreases args, 2
  {
    if args == [] then []
    else if |args| == 1 then LastTokens(args[0], comma)
    else Print(args[0]) + [Comma] + PrintArgs(args[1..], comma)
  }

  /** `test` is off, a feature is on when enabled, anything else counts as on. */
  predicate Holds(c: Cfg, features: set<string>) {
    match c
    case Flag(name) => name != "test"
    case Equals(name, value) => name == "feature" ==> value in features
    case Any(args, _) => exists a :: a in args && Holds(a, features)
    case All(args, _) => forall a :: a in args ==> Holds(a, features)
    case Not(arg, _) => !Holds(arg, features)
  }

  // ---- the evaluator means the tree ----

  /** What may follow a predicate inside a list, or at the end of the expression. */
  ghost predicate Separates(rest: Tokens) {
    rest == [] || rest[0].Comma? || rest[0].Close?
  }

  function ValuesOf(args: seq<Cfg>, features: set<string>): seq<bool> {
    seq(|args|, i requires 0 <= i < |args| => Holds(args[i], features))
  }

  lemma {:induction false} CombineMeans(args: seq<Cfg>, features: set<string>)
    ensures Combine(AnyOf, ValuesOf(args, features)) <==> exists a :: a in args && Holds(a, features)
    ensures Combine(AllOf, ValuesOf(args, features)) <==> forall a :: a in args ==> Holds(a, features)
  {
    var vs := ValuesOf(args, features);
    forall a | a in args ensures Holds(a, features) in vs {
      var i :| 0 <= i < |args| && args[i] == a;
      assert vs[i] == Holds(a, features);
    }
    forall v | v in vs ensures exists a :: a in args && Holds(a, features) == v {
      var i :| 0 <= i < |vs| && vs[i] == v;
      assert args[i] in args;
    }
  }

  lemma {:induction false} AfterNothing(rest: Many)
    ensures After([], 0, rest) == rest
  {
    assert rest.Many? ==> [] + rest.values == rest.values;
  }

  lemma {:induction false} AfterEnd(values: seq<bool>, n: nat, ts: Tokens, features: set<string>)
    requires ts != [] && ts[0].Close?
    ensures After(values, n, Values(ts, features)) == Many(values, n)
  {
    assert values + [] == values;
  }

  lemma {:induction false} AfterShift(values: seq<bool>, n: nat, v: bool, next: nat,
                                       a: Many, b: Many)
    requires a == After([v], next, b)
    ensures After(values, n, a) == After(values + [v], n + next, b)
  {
    if b.Many? {
      assert values + ([v] + b.values) == values + [v] + b.values;
    }
  }

  lemma {:induction false} ValuesUnfold(ts: Tokens, features: set<string>, v: bool, next: nat)
    requires ts != [] && OneRead(ts, features, v, next)
    ensures next <= |ts| && Values(ts, features) == After([v], next, Values(ts[next..], features))
  {
  }

  /** One value of a list and the comma behind it. */
  ghost predicate OneRead(ts: Tokens, features: set<string>, v: bool, next: nat)
    requires ts != []
  {
    && !ts[0].Close?
    && Predicate(ts, features).One?
    && var m := Predicate(ts, features).used;
    && v == Predicate(ts, features).value
    && m < |ts| && next == if ts[m].Comma? then m + 1 else m
  }

  lemma {:induction false} BehindOpening(word: Token, body: Tokens, rest: Tokens)
    ensures var ts := [word, Open] + body + [Close] + rest;
            |ts| > 2 && ts[0] == word && ts[1] == Open && ts[2..] == body + ([Close] + rest)
  {
  }

  lemma {:induction false} CombinatorValue(c: Combinator, ts: Tokens, values: seq<bool>, n: nat, features: set<string>)
    requires c.NotOf? ==> values != []
    requires |ts| > 2 && ts[0] == WordOf(c) && ts[1] == Open && Values(ts[2..], features) == Many(values, n)
    ensures Predicate(ts, features) == One(Combine(c, values), n + 3)
  {
  }

  lemma {:induction false} CombinatorReads(c: Combinator, body: Tokens, rest: Tokens, values: seq<bool>,
                                           features: set<string>)
    requires c.NotOf? ==> values != []
    requires Values(body + ([Close] + rest), features) == Many(values, |body|)
    ensures Predicate([WordOf(c), Open] + body + [Close] + rest, features) == One(Combine(c, values), |body| + 3)
  {
    BehindOpening(WordOf(c), body, rest);
    CombinatorValue(c, [WordOf(c), Open] + body + [Close] + rest, values, |body|, features);
  }

  lemma {:induction false} CommaTokens(head: Tokens, more: Tokens)
    requires head != []
    ensures var ts := head + ([Comma] + more);
            ts[0] == head[0] && |ts| > |head| && ts[|head|].Comma? && ts[|head| + 1..] == more
  {
  }

  lemma {:induction false} ValuesComma(head: Tokens, more: Tokens, v: bool, vs: seq<bool>, m: nat,
                                       features: set<string>)
    requires head != [] && !head[0].Close?
    requires Predicate(head + ([Comma] + more), features) == One(v, |head|) && Values(more, features) == Many(vs, m)
    ensures Values(head + ([Comma] + more), features) == Many([v] + vs, |head| + 1 + m)
  {
    CommaTokens(head, more);
    ValuesNext(head + ([Comma] + more), |head|, more, v, vs, m, features);
  }

  lemma {:induction false} ValuesNext(ts: Tokens, used: nat, rest: Tokens, v: bool, vs: seq<bool>, m: nat,
                                      features: set<string>)
    requires used < |ts| && !ts[0].Close? && ts[used].Comma? && ts[used + 1..] == rest
    requires Predicate(ts, features) == One(v, used) && Values(rest, features) == Many(vs, m)
    ensures Values(ts, features) == Many([v] + vs, used + 1 + m)
  {
    OneAndComma(ts, used, v, features);
    ValuesUnfold(ts, features, v, used + 1);
    AfterMany([v], used + 1, vs, m);
  }

  lemma {:induction false} OneAndComma(ts: Tokens, used: nat, v: bool, features: set<string>)
    requires used < |ts| && !ts[0].Close? && ts[used].Comma? && Predicate(ts, features) == One(v, used)
    ensures OneRead(ts, features, v, used + 1)
  {
  }

  lemma {:induction false} AfterMany(values: seq<bool>, next: nat, vs: seq<bool>, m: nat)
    ensures After(values, next, Many(vs, m)) == Many(values + vs, next + m)
  {
  }

  lemma {:induction false} ValuesClose(head: Tokens, close: Tokens, v: bool, features: set<string>)
    requires head != [] && !head[0].Close? && close != [] && close[0].Close?
    requires Predicate(head + close, features) == One(v, |head|)
    ensures Values(head + close, features) == Many([v], |head|)
  {
    var ts := head + close;
    assert ts[|head|].Close? && ts[|head|..] == close;
    assert [v] + [] == [v];
  }

  lemma {:induction false} PredicateMeans(c: Cfg, rest: Tokens, features: set<string>)
    requires Separates(rest)
    ensures Predicate(Print(c) + rest, features) == One(Holds(c, features), |Print(c)|)
    decreases c, 0
  {
    if c.Not? {
      NotMeans(c, rest, features);
    } else if c.Any? || c.All? {
      ArgsMean(c.args, c.comma, rest, features);
      CombineMeans(c.args, features);
      var combinator := if c.Any? then AnyOf else AllOf;
      CombinatorReads(combinator, PrintArgs(c.args, c.comma), rest, ValuesOf(c.args, features), features);
      CombinatorPrinted(c);
    }
  }

  lemma {:induction false} CombinatorPrinted(c: Cfg)
    requires c.Any? || c.All?
    ensures Print(c) == [WordOf(if c.Any? then AnyOf else AllOf), Open] + PrintArgs(c.args, c.comma) + [Close]
    ensures |Print(c)| == |PrintArgs(c.args, c.comma)| + 3
  {
  }

  lemma {:induction false} NotMeans(c: Cfg, rest: Tokens, features: set<string>)
    requires c.Not?
    ensures Predicate(Print(c) + rest, features) == One(Holds(c, features), |Print(c)|)
    decreases c.arg, 3
  {
    LastMeans(c.arg, c.comma, rest, features);
    CombinatorReads(NotOf, LastTokens(c.arg, c.comma), rest, [Holds(c.arg, features)], features);
  }

  lemma {:induction false} LastMeans(arg: Cfg, comma: bool, rest: Tokens, features: set<string>)
    ensures Values(LastTokens(arg, comma) + ([Close] + rest), features) ==
            Many([Holds(arg, features)], |LastTokens(arg, comma)|)
    decreases arg, 1
  {
    var close := [Close] + rest;
    if comma {
      PredicateMeans(arg, [Comma] + close, features);
      ValuesComma(Print(arg), close, Holds(arg, features), [], 0, features);
      Assoc(Print(arg), [Comma], close);
      assert [Holds(arg, features)] + [] == [Holds(arg, features)];
    } else {
      PredicateMeans(arg, close, features);
      ValuesClose(Print(arg), close, Holds(arg, features), features);
      assert Print(arg) + [] == Print(arg);
    }
  }

  lemma {:induction false} ArgsMean(args: seq<Cfg>, comma: bool, rest: Tokens, features: set<string>)
    ensures Values(PrintArgs(args, comma) + ([Close] + rest), features) ==
            Many(ValuesOf(args, features), |PrintArgs(args, comma)|)
    decreases args, 2
  {
    var close := [Close] + rest;
    if args == [] {
      assert PrintArgs(args, comma) + close == close && ValuesOf(args, features) == [];
    } else if |args| == 1 {
      LastMeans(args[0], comma, rest, features);
      OneArg(args, comma, features);
    } else {
      var more := PrintArgs(args[1..], comma) + close;
      ArgsMean(args[1..], comma, rest, features);
      PredicateMeans(args[0], [Comma] + more, features);
      MoreArgs(args, comma, close, more, features);
    }
  }

  lemma {:induction false} OneArg(args: seq<Cfg>, comma: bool, features: set<string>)
    requires |args| == 1
    ensures ValuesOf(args, features) == [Holds(args[0], features)] &&
            PrintArgs(args, comma) == LastTokens(args[0], comma)
  {
  }

  lemma {:induction false} MoreArgs(args: seq<Cfg>, comma: bool, close: Tokens, more: Tokens, features: set<string>)
    requires |args| > 1
    requires more == PrintArgs(args[1..], comma) + close
    requires Values(more, features) == Many(ValuesOf(args[1..], features), |PrintArgs(args[1..], comma)|)
    requires Predicate(Print(args[0]) + ([Comma] + more), features) == One(Holds(args[0], features), |Print(args[0])|)
    ensures Values(PrintArgs(args, comma) + close, features) == Many(ValuesOf(args, features), |PrintArgs(args, comma)|)
  {
    ArgsNext(args, comma, close, features);
    ValuesComma(Print(args[0]), more, Holds(args[0], features), ValuesOf(args[1..], features),
                |PrintArgs(args[1..], comma)|, features);
  }

  lemma {:induction false} ArgsNext(args: seq<Cfg>, comma: bool, close: Tokens, features: set<string>)
    requires |args| > 1
    ensures var head, tail := Print(args[0]), PrintArgs(args[1..], comma);
            PrintArgs(args, comma) + close == head + ([Comma] + (tail + close)) &&
              |PrintArgs(args, comma)| == |head| + 1 + |tail|
    ensures ValuesOf(args, features) == [Holds(args[0], features)] + ValuesOf(args[1..], features)
  {
    var head, tail := Print(args[0]), PrintArgs(args[1..], comma);
    Assoc(head + [Comma], tail, close);
    Assoc(head, [Comma], tail + close);
  }

  /** A printed predicate evaluates to its meaning. */
  lemma {:induction false} CfgTrueMeans(c: Cfg, features: set<string>)
    ensures CfgTrue(Print(c), features) <==> Holds(c, features)
  {
    PredicateMeans(c, [], features);
    assert Print(c) + [] == Print(c);
  }

  /** These values were read from `start` up to `position`. */
  ghost predicate Collecting(ts: Tokens, features: set<string>, start: nat, position: nat, values: seq<bool>) {
    && start <= position <= |ts|
    && Values(ts[start..], features) == After(values, position - start, Values(ts[position..], features))
  }

  lemma {:induction false} CollectingStarts(ts: Tokens, features: set<string>, start: nat)
    requires start <= |ts|
    ensures Collecting(ts, features, start, start, [])
  {
    AfterNothing(Values(ts[start..], features));
  }

  /** One more value read in place. */
  lemma {:induction false} CollectingMore(ts: Tokens, features: set<string>, start: nat, before: nat, after: nat,
                                          values: seq<bool>, value: bool)
    requires Collecting(ts, features, start, before, values) && before < after <= |ts|
    requires OneRead(ts[before..], features, value, after - before)
    ensures Collecting(ts, features, start, after, values + [value])
  {
    var next := after - before;
    assert ts[before..][next..] == ts[after..];
    ValuesUnfold(ts[before..], features, value, next);
    AfterShift(values, before - start, value, next, Values(ts[before..], features), Values(ts[after..], features));
  }

  lemma {:induction false} CollectingRefused(ts: Tokens, features: set<string>, start: nat, position: nat,
                                             values: seq<bool>)
    requires Collecting(ts, features, start, position, values)
    requires position == |ts| || Values(ts[position..], features).NoMany?
    ensures Values(ts[start..], features).NoMany?
  {
    if position == |ts| {
      assert ts[position..] == [];
    }
  }

  lemma {:induction false} CollectingEnds(ts: Tokens, features: set<string>, start: nat, position: nat,
                                          values: seq<bool>)
    requires Collecting(ts, features, start, position, values) && position < |ts| && ts[position].Close?
    ensures Values(ts[start..], features) == Many(values, position - start)
  {
    AfterEnd(values, position - start, ts[position..], features);
  }

  // ---- the evaluator's walk ----

  class Evaluator {
    const tokens: Tokens
    const features: set<string>
    var position: nat

    ghost predicate Valid()
      reads this
    {
      position <= |tokens|
    }

    constructor (tokens: Tokens, features: set<string>)
      ensures Valid() && position == 0 && this.tokens == tokens && this.features == features
    {
      this.tokens := tokens;
      this.features := features;
      position := 0;
    }

    method Take() returns (r: Result<Token>)
      requires Valid()
      modifies this
      ensures Valid()
      ensures if old(position) < |tokens| then
                r == Ok(tokens[old(position)]) && position == old(position) + 1
              else
                r.Err?
    {
      if position == |tokens| {
        return Err;
      }
      position := position + 1;
      r := Ok(tokens[position - 1]);
    }

    method ReadPredicate() returns (r: Result<bool>)
      requires Valid()
      modifies this
      ensures Valid()
      ensures match Predicate(tokens[old(position)..], features)
              case NoOne => r.Err?
              case One(v, n) => r == Ok(v) && position == old(position) + n
      decreases |tokens| - position, 0
    {
      ghost var ts := tokens[position..];
      var word :- Take();
      if CombinatorOf(word).Some? && position < |tokens| && tokens[position].Open? {
        position := position + 1;
        assert tokens[position..] == ts[2..];
        var values :- ReadValues();
        position := position + 1;
        var c := CombinatorOf(word).value;
        if c.NotOf? && values == [] {
          return Err;
        }
        return Ok(Combine(c, values));
      }
      if position < |tokens| && tokens[position].Equal? {
        position := position + 1;
        var value :- Take();
        return Ok(if word == Word("feature") then Stripped(value) in features else true);
      }
      r := Ok(word != Word("test"));
    }

    /** One value of a list, and the comma behind it; a list that ends there is cut short. */
    method ReadOne() returns (r: Result<bool>)
      requires Valid() && position < |tokens| && !tokens[position].Close?
      modifies this
      ensures Valid()
      ensures r.Ok? ==>
                && position > old(position)
                && OneRead(tokens[old(position)..], features, r.value, position - old(position))
      ensures r.Err? ==> Values(tokens[old(position)..], features).NoMany?
      decreases |tokens| - position, 1
    {
      ghost var ts, start := tokens[position..], position;
      var value :- ReadPredicate();
      if position == |tokens| {
        return Err;
      }
      assert ts[position - start] == tokens[position];
      if tokens[position].Comma? {
        position := position + 1;
      }
      r := Ok(value);
    }

    method ReadValues() returns (r: Result<seq<bool>>)
      requires Valid()
      modifies this
      ensures Valid()
      ensures match Values(tokens[old(position)..], features)
              case NoMany => r.Err?
              case Many(vs, n) => r == Ok(vs) && position == old(position) + n
      decreases |tokens| - position, 2
    {
      var values: seq<bool> := [];
      ghost var start := position;
      CollectingStarts(tokens, features, start);
      while true
        invariant Valid() && Collecting(tokens, features, start, position, values)
        decreases |tokens| - position
      {
        ghost var before := position;
        if position == |tokens| {
          CollectingRefused(tokens, features, start, position, values);
          return Err;
        }
        if tokens[position].Close? {
          break;
        }
        var value := ReadOne();
        if value.Err? {
          CollectingRefused(tokens, features, start, before, values);
          return Err;
        }
        CollectingMore(tokens, features, start, before, position, values, value.value);
        values := values + [value.value];
      }
      CollectingEnds(tokens, features, start, position, values);
      r := Ok(values);
    }
  }

  /** A value is taken by its text, quoted or not; of a feature it is looked up, of anything else it counts as true. */
  lemma {:induction false} ValueTokens(name: string, value: string, features: set<string>)
    ensures CfgTrue([Word(name), Equal, Quoted(value)], features) == (name == "feature" ==> value in features)
    ensures CfgTrue([Word(name), Equal, Word(value)], features) == (name == "feature" ==> value in features)
    ensures CfgTrue([Word(name), Equal, Open], features) == (name == "feature" ==> "(" in features)
    ensures CfgTrue([Word(name), Equal, Close], features) == (name == "feature" ==> ")" in features)
    ensures CfgTrue([Word(name), Equal, Comma], features) == (name == "feature" ==> "," in features)
    ensures CfgTrue([Word(name), Equal, Equal], features) == (name == "feature" ==> "=" in features)
  {
  }

  method EvaluateCfg(tokens: Tokens, features: set<string>) returns (r: bool)
    ensures r == CfgTrue(tokens, features)
  {
    var evaluator := new Evaluator(tokens, features);
    assert tokens[0..] == tokens;
    var value := evaluator.ReadPredicate();
    r := match value case Ok(v) => v case Err => true;
  }
}
