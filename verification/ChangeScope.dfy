/** What a change selects for verification: workspace members and suite files. */
module ChangeScope {

  // Both walk a graph of dependents with a worklist, in any order.

  import opened Wrappers
  import opened Sorting

  // ---- spreading along a graph ----

  type Graph = map<string, set<string>>

  function Next(g: Graph, x: string): set<string> {
    if x in g then g[x] else {}
  }

  /** Each node of the chain is a neighbour of the one before it, which does not stop the walk. */
  ghost predicate Chain(g: Graph, stops: string -> bool, p: seq<string>) {
    p != [] && forall i :: 0 <= i < |p| - 1 ==> p[i + 1] in Next(g, p[i]) && !stops(p[i])
  }

  ghost predicate ChainTo(g: Graph, stops: string -> bool, start: set<string>, x: string, p: seq<string>) {
    Chain(g, stops, p) && p[0] in start && p[|p| - 1] == x
  }

  ghost predicate Reached(g: Graph, stops: string -> bool, start: set<string>, x: string) {
    exists p :: ChainTo(g, stops, start, x, p)
  }

  lemma {:induction false} StartReached(g: Graph, stops: string -> bool, start: set<string>, x: string)
    requires x in start
    ensures Reached(g, stops, start, x)
  {
    assert ChainTo(g, stops, start, x, [x]);
  }

  lemma {:induction false} NextReached(g: Graph, stops: string -> bool, start: set<string>, x: string, y: string)
    requires Reached(g, stops, start, x) && !stops(x) && y in Next(g, x)
    ensures Reached(g, stops, start, y)
  {
    var p :| ChainTo(g, stops, start, x, p);
    var q := p + [y];
    assert ChainTo(g, stops, start, y, q) by {
      forall i | 0 <= i < |q| - 1 ensures q[i + 1] in Next(g, q[i]) && !stops(q[i]) {
        assert q[i] == p[i];
      }
    }
  }

  /** A set that holds the start and the neighbours of its nodes holds all that is reached. */
  lemma {:induction false} ReachedInside(g: Graph, stops: string -> bool, start: set<string>, all: set<string>,
                                         p: seq<string>)
    requires start <= all
    requires forall x :: x in all && !stops(x) ==> Next(g, x) <= all
    requires Chain(g, stops, p) && p[0] in start
    ensures p[|p| - 1] in all
    decreases |p|
  {
    if |p| > 1 {
      ReachedInside(g, stops, start, all, p[..|p| - 1]);
      assert p[|p| - 1] in Next(g, p[|p| - 2]);
    }
  }

  /** Reaching from two starts is reaching from one or from the other. */
  lemma {:induction false} ReachedUnion(g: Graph, stops: string -> bool, a: set<string>, b: set<string>, x: string)
    ensures Reached(g, stops, a + b, x) <==> Reached(g, stops, a, x) || Reached(g, stops, b, x)
  {
    if p :| ChainTo(g, stops, a + b, x, p) {
      assert ChainTo(g, stops, a, x, p) || ChainTo(g, stops, b, x, p);
    }
    if p :| ChainTo(g, stops, a, x, p) {
      assert ChainTo(g, stops, a + b, x, p);
    }
    if p :| ChainTo(g, stops, b, x, p) {
      assert ChainTo(g, stops, a + b, x, p);
    }
  }

  function Nodes(g: Graph): set<string> {
    set x, y | x in g && y in g[x] :: y
  }

  /** A worklist at work: `stack` holds reached nodes whose neighbours are still to be added. */
  ghost predicate Spreading(g: Graph, stops: string -> bool, start: set<string>, reached: set<string>,
                            stack: set<string>) {
    && start <= reached <= start + Nodes(g)
    && (forall x :: x in stack ==> x in reached && !stops(x))
    && (forall x :: x in reached ==> Reached(g, stops, start, x))
    && (forall x :: x in reached && !stops(x) && x !in stack ==> Next(g, x) <= reached)
  }

  lemma {:induction false} SpreadingOn(g: Graph, stops: string -> bool, start: set<string>, reached: set<string>,
                                       stack: set<string>, x: string, found: set<string>, pushed: set<string>)
    requires Spreading(g, stops, start, reached, stack) && x in stack
    requires found == Next(g, x) - reached && forall y :: y in pushed <==> y in found && !stops(y)
    ensures Spreading(g, stops, start, reached + found, stack - {x} + pushed)
    ensures found <= start + Nodes(g)
  {
    var after, left := reached + found, stack - {x} + pushed;
    forall y | y in found ensures Reached(g, stops, start, y) && y in Nodes(g) {
      NextReached(g, stops, start, x, y);
    }
    forall y | y in after && !stops(y) && y !in left ensures Next(g, y) <= after {
      if y != x {
        assert y in reached && y !in stack;
      }
    }
  }

  /** The worklist: exactly what is reached, on cyclic graphs too and whatever is popped first. */
  method Spread(g: Graph, stops: string -> bool, start: set<string>) returns (reached: set<string>)
    ensures forall x :: x in reached <==> Reached(g, stops, start, x)
  {
    reached := start;
    var stack := set x | x in start && !stops(x);
    forall x | x in start ensures Reached(g, stops, start, x) { StartReached(g, stops, start, x); }
    while stack != {}
      invariant Spreading(g, stops, start, reached, stack)
      decreases |start + Nodes(g) - reached| + |stack|
    {
      var x :| x in stack;
      var found := Next(g, x) - reached;
      var pushed := set y | y in found && !stops(y);
      SpreadingOn(g, stops, start, reached, stack, x, found, pushed);
      WorkShrinks(start + Nodes(g), reached, found, stack, x, pushed);
      reached := reached + found;
      stack := stack - {x} + pushed;
    }
    forall x | Reached(g, stops, start, x) ensures x in reached {
      var p :| ChainTo(g, stops, start, x, p);
      ReachedInside(g, stops, start, reached, p);
    }
  }

  lemma {:induction false} WorkShrinks(all: set<string>, reached: set<string>, more: set<string>, stack: set<string>,
                                       x: string, pushed: set<string>)
    requires reached <= all && more <= all && more !! reached && stack <= reached && x in stack && pushed <= more
    ensures |all - (reached + more)| + |stack - {x} + pushed| < |all - reached| + |stack|
  {
    assert all - reached == (all - (reached + more)) + more;
    assert |all - reached| == |all - (reached + more)| + |more|;
    assert |stack - {x} + pushed| == |stack - {x}| + |pushed|;
    SubsetSmaller(pushed, more);
  }

  lemma {:induction false} SubsetSmaller<T>(a: set<T>, b: set<T>)
    requires a <= b
    ensures |a| <= |b|
  {
    assert b == a + (b - a);
  }

  // ---- members of a workspace ----

  datatype Member = Member(directory: string, deps: set<string>)

  type Members = map<string, Member>

  predicate ValidMembers(members: Members) {
    forall n | n in members :: members[n].deps <= members.Keys
  }

  /** Who depends on whom, turned round. */
  function Dependents(members: Members): Graph {
    map n | n in members :: set m | m in members && n in members[m].deps
  }

  predicate Never(x: string) { false }

  /** `x` is one of `changed` or depends on one of them, directly or not. */
  ghost predicate Affected(members: Members, changed: set<string>, x: string) {
    Reached(Dependents(members), Never, changed, x)
  }

  ghost predicate Needs(members: Members, x: string, y: string) {
    x in members && y in members[x].deps
  }

  /** A chain from a changed member to `x`: each depends on the one before it. */
  ghost predicate MemberChain(members: Members, changed: set<string>, x: string, p: seq<string>) {
    && p != [] && p[0] in changed && p[|p| - 1] == x
    && forall i :: 0 <= i < |p| - 1 ==> Needs(members, p[i + 1], p[i])
  }

  ghost predicate DependsOnChange(members: Members, changed: set<string>, x: string) {
    exists p :: MemberChain(members, changed, x, p)
  }

  lemma {:induction false} DependentsNext(members: Members, x: string, y: string)
    requires ValidMembers(members)
    ensures y in Next(Dependents(members), x) <==> Needs(members, y, x)
  {
    if y in members && x in members[y].deps {
      assert x in members;
    }
  }

  lemma {:induction false} MemberChainsAgree(members: Members, changed: set<string>, x: string, p: seq<string>)
    requires ValidMembers(members)
    ensures ChainTo(Dependents(members), Never, changed, x, p) <==> MemberChain(members, changed, x, p)
  {
    forall i | 0 <= i < |p| - 1
      ensures p[i + 1] in Next(Dependents(members), p[i]) <==> Needs(members, p[i + 1], p[i])
    {
      DependentsNext(members, p[i], p[i + 1]);
    }
  }

  /** What the graph of dependents reaches are the ends of chains of dependencies. */
  lemma {:induction false} AffectedIsChain(members: Members, changed: set<string>, x: string)
    requires ValidMembers(members)
    ensures Affected(members, changed, x) <==> DependsOnChange(members, changed, x)
  {
    if p :| ChainTo(Dependents(members), Never, changed, x, p) {
      MemberChainsAgree(members, changed, x, p);
    }
    if p :| MemberChain(members, changed, x, p) {
      MemberChainsAgree(members, changed, x, p);
    }
  }

  method Closure(members: Members, changed: set<string>) returns (selected: set<string>)
    requires ValidMembers(members) && changed <= members.Keys
    ensures selected <= members.Keys
    ensures forall x :: x in selected <==> Affected(members, changed, x)
    ensures forall x :: x in selected <==> DependsOnChange(members, changed, x)
  {
    selected := Spread(Dependents(members), Never, changed);
    forall x ensures Affected(members, changed, x) <==> DependsOnChange(members, changed, x) {
      AffectedIsChain(members, changed, x);
    }
    forall x | x in selected ensures x in members {
      var p :| ChainTo(Dependents(members), Never, changed, x, p);
      ReachedInside(Dependents(members), Never, changed, members.Keys, p);
    }
  }

  /** The member's directory holds the path. */
  predicate HoldsPath(m: Member, path: string) {
    m.directory + "/" <= path
  }

  /** The order `max` takes owners in: by length of directory, then by name. */
  predicate OwnerLe(members: Members, a: string, b: string)
    requires a in members && b in members
  {
    var (x, y) := (|members[a].directory|, |members[b].directory|);
    x < y || (x == y && StringLe(a, b))
  }

  ghost predicate Owns(members: Members, path: string, n: string) {
    && n in members && HoldsPath(members[n], path)
    && forall m :: m in members && HoldsPath(members[m], path) ==> OwnerLe(members, m, n)
  }

  ghost predicate IsOwner(members: Members, path: string, owner: Option<string>) {
    match owner
    case Some(n) => Owns(members, path, n)
    case None => forall m :: m in members ==> !HoldsPath(members[m], path)
  }

  method OwningMember(members: Members, path: string) returns (owner: Option<string>)
    ensures IsOwner(members, path, owner)
    ensures match owner case Some(n) => OwnedBy(members, path, n) case None => Unowned(members, path)
  {
    forall n ensures Owns(members, path, n) <==> OwnedBy(members, path, n) {
      OwnedExactly(members, path, n);
    }
    OwnedExactly(members, path, "");
    owner := None;
    var rest := members.Keys;
    StringLeIsTotalOrder();
    while rest != {}
      invariant rest <= members.Keys
      invariant match owner
                case Some(n) => n in members && HoldsPath(members[n], path)
                                && forall m :: m in members && m !in rest && HoldsPath(members[m], path) ==>
                                   OwnerLe(members, m, n)
                case None => forall m :: m in members && m !in rest ==> !HoldsPath(members[m], path)
      decreases |rest|
    {
      var m :| m in rest;
      rest := rest - {m};
      if HoldsPath(members[m], path) && (owner.None? || OwnerLe(members, owner.value, m)) {
        owner := Some(m);
      }
    }
  }

  lemma {:induction false} OwnerIsUnique(members: Members, path: string, a: Option<string>, b: Option<string>)
    requires IsOwner(members, path, a) && IsOwner(members, path, b)
    ensures a == b
  {
    if a.Some? && b.Some? {
      StringLeTotal(a.value, b.value);
    }
  }

  /** The owner's directory is the deepest that holds the path: it holds every other one that does. */
  lemma {:induction false} OwnerIsDeepest(members: Members, path: string, n: string, m: string)
    requires Owns(members, path, n) && m in members && HoldsPath(members[m], path)
    ensures members[m].directory == members[n].directory || members[m].directory + "/" <= members[n].directory + "/"
  {
    var a, b := members[m].directory, members[n].directory;
    assert a + "/" == path[..|a| + 1] && b + "/" == path[..|b| + 1];
    assert OwnerLe(members, m, n);
    assert path[..|b| + 1][..|a| + 1] == path[..|a| + 1];
  }

  // ---- which members a change verifies ----

  /** The answer: every member, or those to verify, apart those whose dependents run too and those that
      only read a changed source. */
  datatype Answer = All | Narrowed(selected: set<string>, direct: set<string>, readers: set<string>)

  /** The contract's globs (`runAll`), the paths of the scope's own definition, the workspace's directory,
      and the top folders a walking test names. */
  datatype Scope = Scope(runAll: string -> bool, definition: set<string>, workspace: string, walkedRoots: set<string>)

  /** A path and the directories above it. */
  function Ancestors(path: string): set<string> {
    {path, "."} + set i | 0 < i < |path| && path[i] == '/' :: path[..i]
  }

  predicate EndsWith(s: string, tail: string) {
    |tail| <= |s| && s[|s| - |tail|..] == tail
  }

  predicate Inside(workspace: string, path: string) {
    workspace + "/" <= path
  }

  function NamedBy(scope: Scope, quotes: map<string, set<string>>, path: string): set<string> {
    set n | n in quotes && (quotes[n] * Ancestors(path)) - scope.walkedRoots != {}
  }

  function Walkers(scope: Scope, quotes: map<string, set<string>>, path: string): set<string> {
    set n | n in quotes && quotes[n] * Ancestors(path) * scope.walkedRoots != {}
  }

  /** A path that runs every member: a run-all input, or Rust that no member holds. */
  ghost predicate RunsAll(scope: Scope, members: Members, path: string) {
    || scope.runAll(path)
    || path in scope.definition
    || (IsOwner(members, path, None) && Inside(scope.workspace, path) && EndsWith(path, ".rs"))
  }

  /** Another member's source or manifest is text to those that name it. */
  predicate IsText(path: string) {
    EndsWith(path, ".rs") || EndsWith(path, "/Cargo.toml")
  }

  /** The members one changed path affects: its owner, and those that may compile it in. */
  ghost predicate Direct(scope: Scope, members: Members, quotes: map<string, set<string>>, path: string, n: string) {
    || Owns(members, path, n)
    || (n in NamedBy(scope, quotes, path) && (IsOwner(members, path, None) || !IsText(path)))
  }

  /** The members that read it as text. */
  ghost predicate Reader(scope: Scope, members: Members, quotes: map<string, set<string>>, path: string, n: string) {
    || n in Walkers(scope, quotes, path)
    || (n in NamedBy(scope, quotes, path) && !IsOwner(members, path, None) && IsText(path))
  }

  ghost predicate DirectOf(scope: Scope, members: Members, quotes: map<string, set<string>>, changed: set<string>,
                           n: string) {
    exists path :: path in changed && Direct(scope, members, quotes, path, n)
  }

  ghost predicate ReaderOf(scope: Scope, members: Members, quotes: map<string, set<string>>, changed: set<string>,
                           n: string) {
    exists path :: path in changed && Reader(scope, members, quotes, path, n)
  }

  ghost predicate AllRun(scope: Scope, members: Members, narrows: bool, changed: Option<set<string>>) {
    !narrows || changed.None? || exists path :: path in changed.value && RunsAll(scope, members, path)
  }

  /** What the decision is, said without its loop. */
  ghost predicate Decides(scope: Scope, members: Members, quotes: map<string, set<string>>, narrows: bool,
                          changed: Option<set<string>>, answer: Answer) {
    match answer
    case All => AllRun(scope, members, narrows, changed)
    case Narrowed(selected, direct, readers) =>
      && !AllRun(scope, members, narrows, changed)
      && (forall n :: n in direct <==> DirectOf(scope, members, quotes, changed.value, n))
      && (forall n :: n in readers <==>
         ReaderOf(scope, members, quotes, changed.value, n) && !Affected(members, direct, n))
      && (forall n :: n in selected <==>
         Affected(members, direct, n) || ReaderOf(scope, members, quotes, changed.value, n))
  }

  // ---- the decision by paths, names and dependencies ----

  ghost predicate Holds(members: Members, n: string, path: string) {
    n in members && members[n].directory + "/" <= path
  }

  /** Of the members whose directories hold the path, the one with the longest; of those of one length, the greatest
      name. */
  ghost predicate OwnedBy(members: Members, path: string, n: string) {
    && Holds(members, n, path)
    && forall m :: Holds(members, m, path) ==>
         || |members[m].directory| < |members[n].directory|
         || (|members[m].directory| == |members[n].directory| && StringLe(m, n))
  }

  ghost predicate Unowned(members: Members, path: string) {
    forall m :: !Holds(members, m, path)
  }

  ghost predicate IsRust(path: string) {
    |path| >= 3 && path[|path| - 3..] == ".rs"
  }

  ghost predicate IsManifest(path: string) {
    |path| >= 11 && path[|path| - 11..] == "/Cargo.toml"
  }

  ghost predicate RunsEverything(scope: Scope, members: Members, path: string) {
    || scope.runAll(path) || path in scope.definition
    || (Unowned(members, path) && scope.workspace + "/" <= path && IsRust(path))
  }

  /** The path, the root, or a directory above the path. */
  ghost predicate AtOrAbove(q: string, path: string) {
    q == path || q == "." || (0 < |q| < |path| && q <= path && path[|q|] == '/')
  }

  /** The member's sources name the path or a directory above it, other than a folder that walks name. */
  ghost predicate NamesIt(scope: Scope, quotes: map<string, set<string>>, n: string, path: string) {
    n in quotes && exists q :: q in quotes[n] && AtOrAbove(q, path) && q !in scope.walkedRoots
  }

  ghost predicate WalksIt(scope: Scope, quotes: map<string, set<string>>, n: string, path: string) {
    n in quotes && exists q :: q in quotes[n] && AtOrAbove(q, path) && q in scope.walkedRoots
  }

  /** Another member's Rust and manifests are only read; anything else that is named may be compiled in. */
  ghost predicate ReadOnly(members: Members, path: string) {
    !Unowned(members, path) && (IsRust(path) || IsManifest(path))
  }

  ghost predicate ChangesIt(scope: Scope, members: Members, quotes: map<string, set<string>>, path: string, n: string) {
    OwnedBy(members, path, n) || (NamesIt(scope, quotes, n, path) && !ReadOnly(members, path))
  }

  ghost predicate ReadsIt(scope: Scope, members: Members, quotes: map<string, set<string>>, path: string, n: string) {
    WalksIt(scope, quotes, n, path) || (NamesIt(scope, quotes, n, path) && ReadOnly(members, path))
  }

  ghost predicate EverythingRuns(scope: Scope, members: Members, narrows: bool, changed: Option<set<string>>) {
    !narrows || changed.None? || exists path :: path in changed.value && RunsEverything(scope, members, path)
  }

  ghost predicate ChangedBy(scope: Scope, members: Members, quotes: map<string, set<string>>, changed: set<string>,
                            n: string) {
    exists path :: path in changed && ChangesIt(scope, members, quotes, path, n)
  }

  ghost predicate ReadBy(scope: Scope, members: Members, quotes: map<string, set<string>>, changed: set<string>,
                         n: string) {
    exists path :: path in changed && ReadsIt(scope, members, quotes, path, n)
  }

  /** The decision by what members hold, name and depend on. */
  ghost predicate Verifies(scope: Scope, members: Members, quotes: map<string, set<string>>, narrows: bool,
                           changed: Option<set<string>>, answer: Answer) {
    match answer
    case All => EverythingRuns(scope, members, narrows, changed)
    case Narrowed(selected, direct, readers) =>
      && !EverythingRuns(scope, members, narrows, changed)
      && (forall n :: n in direct <==> ChangedBy(scope, members, quotes, changed.value, n))
      && (forall n :: n in readers <==>
            ReadBy(scope, members, quotes, changed.value, n) && !DependsOnChange(members, direct, n))
      && (forall n :: n in selected <==>
            DependsOnChange(members, direct, n) || ReadBy(scope, members, quotes, changed.value, n))
  }

  lemma {:induction false} OwnedExactly(members: Members, path: string, n: string)
    ensures Owns(members, path, n) <==> OwnedBy(members, path, n)
    ensures IsOwner(members, path, None) <==> Unowned(members, path)
  {
    assert forall m :: Holds(members, m, path) <==> m in members && HoldsPath(members[m], path);
  }

  lemma {:induction false} AboveExactly(path: string, q: string)
    ensures q in Ancestors(path) <==> AtOrAbove(q, path)
  {
    if q in Ancestors(path) && q != path && q != "." {
      var i :| 0 < i < |path| && path[i] == '/' && q == path[..i];
    }
    if 0 < |q| < |path| && q <= path {
      assert q == path[..|q|];
    }
  }

  lemma {:induction false} NamedExactly(scope: Scope, quotes: map<string, set<string>>, path: string, n: string)
    ensures n in NamedBy(scope, quotes, path) <==> NamesIt(scope, quotes, n, path)
    ensures n in Walkers(scope, quotes, path) <==> WalksIt(scope, quotes, n, path)
  {
    if n in quotes {
      forall q ensures q in Ancestors(path) <==> AtOrAbove(q, path) {
        AboveExactly(path, q);
      }
      var here := quotes[n] * Ancestors(path);
      if q :| q in here - scope.walkedRoots {
        assert AtOrAbove(q, path) && q !in scope.walkedRoots;
      }
      if q :| q in here * scope.walkedRoots {
        assert AtOrAbove(q, path) && q in scope.walkedRoots;
      }
      if q :| q in quotes[n] && AtOrAbove(q, path) && q !in scope.walkedRoots {
        assert q in here - scope.walkedRoots;
      }
      if q :| q in quotes[n] && AtOrAbove(q, path) && q in scope.walkedRoots {
        assert q in here * scope.walkedRoots;
      }
    }
  }

  lemma {:induction false} TextExactly(path: string)
    ensures EndsWith(path, ".rs") <==> IsRust(path)
    ensures IsText(path) <==> IsRust(path) || IsManifest(path)
  {
  }

  lemma {:induction false} PathExactly(scope: Scope, members: Members, quotes: map<string, set<string>>, path: string)
    ensures RunsAll(scope, members, path) <==> RunsEverything(scope, members, path)
    ensures forall n :: Direct(scope, members, quotes, path, n) <==> ChangesIt(scope, members, quotes, path, n)
    ensures forall n :: Reader(scope, members, quotes, path, n) <==> ReadsIt(scope, members, quotes, path, n)
  {
    TextExactly(path);
    OwnedExactly(members, path, "");
    forall n
      ensures Direct(scope, members, quotes, path, n) <==> ChangesIt(scope, members, quotes, path, n)
      ensures Reader(scope, members, quotes, path, n) <==> ReadsIt(scope, members, quotes, path, n)
    {
      OwnedExactly(members, path, n);
      NamedExactly(scope, quotes, path, n);
    }
  }

  lemma {:induction false} ChangesExactly(scope: Scope, members: Members, quotes: map<string, set<string>>,
                                          changed: set<string>, n: string)
    ensures DirectOf(scope, members, quotes, changed, n) <==> ChangedBy(scope, members, quotes, changed, n)
    ensures ReaderOf(scope, members, quotes, changed, n) <==> ReadBy(scope, members, quotes, changed, n)
  {
    forall path
      ensures Direct(scope, members, quotes, path, n) <==> ChangesIt(scope, members, quotes, path, n)
      ensures Reader(scope, members, quotes, path, n) <==> ReadsIt(scope, members, quotes, path, n)
    {
      PathExactly(scope, members, quotes, path);
    }
  }

  lemma {:induction false} AllRunExactly(scope: Scope, members: Members, narrows: bool, changed: Option<set<string>>)
    ensures AllRun(scope, members, narrows, changed) <==> EverythingRuns(scope, members, narrows, changed)
  {
    forall path ensures RunsAll(scope, members, path) <==> RunsEverything(scope, members, path) {
      PathExactly(scope, members, map[], path);
    }
  }

  /** The decision is the one by what members hold, name and depend on. */
  lemma {:induction false} DecidesExactly(scope: Scope, members: Members, quotes: map<string, set<string>>,
                                          narrows: bool, changed: Option<set<string>>, answer: Answer)
    requires ValidMembers(members)
    ensures Decides(scope, members, quotes, narrows, changed, answer) <==>
            Verifies(scope, members, quotes, narrows, changed, answer)
  {
    AllRunExactly(scope, members, narrows, changed);
    if answer.Narrowed? && changed.Some? {
      forall n
        ensures DirectOf(scope, members, quotes, changed.value, n)
                <==> ChangedBy(scope, members, quotes, changed.value, n)
        ensures ReaderOf(scope, members, quotes, changed.value, n) <==> ReadBy(scope, members, quotes, changed.value, n)
        ensures Affected(members, answer.direct, n) <==> DependsOnChange(members, answer.direct, n)
      {
        ChangesExactly(scope, members, quotes, changed.value, n);
        AffectedIsChain(members, answer.direct, n);
      }
    }
  }

  method DecidePath(scope: Scope, members: Members, quotes: map<string, set<string>>, path: string)
    returns (r: Option<(set<string>, set<string>)>)
    requires quotes.Keys <= members.Keys
    ensures r.None? <==> RunsAll(scope, members, path)
    ensures r.Some? ==>
              && r.value.0 <= members.Keys
              && (forall n :: n in r.value.0 <==> Direct(scope, members, quotes, path, n))
              && (forall n :: n in r.value.1 <==> Reader(scope, members, quotes, path, n))
  {
    if scope.runAll(path) || path in scope.definition {
      return None;
    }
    var owner := OwningMember(members, path);
    forall other | IsOwner(members, path, other) ensures other == owner { OwnerIsUnique(members, path, owner, other); }
    assert forall n :: Owns(members, path, n) ==> IsOwner(members, path, Some(n));
    var direct: set<string>, readers: set<string> := {}, {};
    if owner.Some? {
      direct := {owner.value};
    } else if Inside(scope.workspace, path) && EndsWith(path, ".rs") {
      return None;
    }
    var namedBy, walkers := NamedBy(scope, quotes, path), Walkers(scope, quotes, path);
    if owner.Some? && IsText(path) {
      readers := readers + (namedBy + walkers);
    } else {
      direct := direct + namedBy;
      readers := readers + walkers;
    }
    r := Some((direct, readers));
  }

  /** The members the changed paths affect and those that read them, unless a path runs every member. */
  method DecidePaths(scope: Scope, members: Members, quotes: map<string, set<string>>, changed: set<string>)
    returns (r: Option<(set<string>, set<string>)>)
    requires quotes.Keys <= members.Keys
    ensures r.None? <==> exists path :: path in changed && RunsAll(scope, members, path)
    ensures r.Some? ==>
              && r.value.0 <= members.Keys
              && (forall n :: n in r.value.0 <==> DirectOf(scope, members, quotes, changed, n))
              && (forall n :: n in r.value.1 <==> ReaderOf(scope, members, quotes, changed, n))
  {
    var direct: set<string>, readers: set<string> := {}, {};
    var paths := changed;
    while paths != {}
      invariant paths <= changed && direct <= members.Keys
      invariant forall path :: path in changed - paths ==> !RunsAll(scope, members, path)
      invariant forall n :: n in direct <==> DirectOf(scope, members, quotes, changed - paths, n)
      invariant forall n :: n in readers <==> ReaderOf(scope, members, quotes, changed - paths, n)
      decreases |paths|
    {
      var path :| path in paths;
      var one := DecidePath(scope, members, quotes, path);
      if one.None? {
        return None;
      }
      ghost var before := changed - paths;
      paths := paths - {path};
      assert changed - paths == before + {path};
      OnePathMore(scope, members, quotes, before, path);
      direct := direct + one.value.0;
      readers := readers + one.value.1;
    }
    assert changed - paths == changed;
    r := Some((direct, readers));
  }

  /** The decision for a workspace's members. */
  method DecideCrates(scope: Scope, members: Members, quotes: map<string, set<string>>, narrows: bool,
                      changed: Option<set<string>>) returns (answer: Answer)
    requires ValidMembers(members) && quotes.Keys <= members.Keys
    ensures Decides(scope, members, quotes, narrows, changed, answer)
    ensures Verifies(scope, members, quotes, narrows, changed, answer)
  {
    DecidesExactly(scope, members, quotes, narrows, changed, All);
    if !narrows || changed.None? {
      return All;
    }
    var found := DecidePaths(scope, members, quotes, changed.value);
    if found.None? {
      return All;
    }
    var (direct, readers) := found.value;
    var selected := Closure(members, direct);
    readers := readers - selected;
    answer := Narrowed(selected + readers, direct, readers);
    DecidesExactly(scope, members, quotes, narrows, changed, answer);
  }

  lemma {:induction false} OnePathMore(scope: Scope, members: Members, quotes: map<string, set<string>>,
                                       before: set<string>, path: string)
    ensures forall n :: DirectOf(scope, members, quotes, before + {path}, n) <==>
                          DirectOf(scope, members, quotes, before, n) || Direct(scope, members, quotes, path, n)
    ensures forall n :: ReaderOf(scope, members, quotes, before + {path}, n) <==>
                          ReaderOf(scope, members, quotes, before, n) || Reader(scope, members, quotes, path, n)
  {
    assert path in before + {path} && forall q :: q in before ==> q in before + {path};
  }

  /** Nothing is missed: who holds a changed path, who names it or a directory above it, and whoever depends on the
      owner is verified, whatever the answer. */
  lemma {:induction false} NothingMissed(scope: Scope, members: Members, quotes: map<string, set<string>>,
                                         narrows: bool, changed: set<string>, answer: Answer, path: string, n: string)
    requires Verifies(scope, members, quotes, narrows, Some(changed), answer) && path in changed
    requires || OwnedBy(members, path, n)
             || (n in quotes && exists q :: q in quotes[n] && AtOrAbove(q, path))
             || (exists m :: OwnedBy(members, path, m) && DependsOnChange(members, {m}, n))
    ensures answer.All? || n in answer.selected
  {
    if answer.Narrowed? {
      if m :| OwnedBy(members, path, m) && DependsOnChange(members, {m}, n) {
        assert ChangesIt(scope, members, quotes, path, m);
        var p :| MemberChain(members, {m}, n, p);
        assert MemberChain(members, answer.direct, n, p);
      } else {
        assert ChangesIt(scope, members, quotes, path, n) || ReadsIt(scope, members, quotes, path, n);
        if n in answer.direct {
          assert MemberChain(members, answer.direct, n, [n]);
        }
      }
    }
  }

  /** The decision distributes: a union of changes verifies the union of what each verifies, and a change
      that runs every member does so in any union. */
  lemma {:induction false} DecisionDistributes(scope: Scope, members: Members, quotes: map<string, set<string>>,
                                               narrows: bool,
                                               a: set<string>, b: set<string>, x: Answer, y: Answer, both: Answer)
    requires ValidMembers(members)
    requires Verifies(scope, members, quotes, narrows, Some(a), x)
    requires Verifies(scope, members, quotes, narrows, Some(b), y)
    requires Verifies(scope, members, quotes, narrows, Some(a + b), both)
    ensures both.All? <==> x.All? || y.All?
    ensures both.Narrowed? ==>
              && both.direct == x.direct + y.direct
              && both.selected == x.selected + y.selected
              && (forall n :: n in both.readers <==>
                 n in x.readers + y.readers && !DependsOnChange(members, x.direct + y.direct, n))
  {
    if both.Narrowed? {
      assert forall path :: path in a + b <==> path in a || path in b;
      assert EverythingRuns(scope, members, narrows, Some(a)) ==> EverythingRuns(scope, members, narrows, Some(a + b));
      assert EverythingRuns(scope, members, narrows, Some(b)) ==> EverythingRuns(scope, members, narrows, Some(a + b));
      forall n
        ensures ChangedBy(scope, members, quotes, a + b, n) <==>
                ChangedBy(scope, members, quotes, a, n) || ChangedBy(scope, members, quotes, b, n)
        ensures ReadBy(scope, members, quotes, a + b, n) <==>
                ReadBy(scope, members, quotes, a, n) || ReadBy(scope, members, quotes, b, n)
      {
      }
      assert both.direct == x.direct + y.direct;
      forall n
        ensures DependsOnChange(members, both.direct, n) <==>
                DependsOnChange(members, x.direct, n) || DependsOnChange(members, y.direct, n)
      {
        AffectedIsChain(members, both.direct, n);
        AffectedIsChain(members, x.direct, n);
        AffectedIsChain(members, y.direct, n);
        ReachedUnion(Dependents(members), Never, x.direct, y.direct, n);
      }
    }
  }

  // ---- which suite files a change reaches ----

  /** The last component of a path. */
  function Basename(path: string): string {
    if '/' !in path then path else Basename(path[1..])
  }

  /** `test_*.py` in any directory. */
  predicate IsTest(path: string) {
    "test_" <= Basename(path) && EndsWith(Basename(path)[5..], ".py")
  }

  /** Files to the files they import, and to the files they quote. */
  datatype Dependencies = Dependencies(imports: Graph, quoted: Graph)

  function Sources(d: Dependencies): set<string> {
    d.imports.Keys + d.quoted.Keys
  }

  predicate DependsOn(d: Dependencies, source: string, target: string) {
    target in Next(d.imports, source) || target in Next(d.quoted, source)
  }

  function Targets(d: Dependencies): set<string> {
    Nodes(d.imports) + Nodes(d.quoted)
  }

  function DependentsOf(d: Dependencies): Graph {
    map t | t in Targets(d) :: set s | s in Sources(d) && DependsOn(d, s, t)
  }

  /** The file imports the other or names it in quotes. */
  ghost predicate Uses(d: Dependencies, source: string, target: string) {
    || (source in d.imports && target in d.imports[source])
    || (source in d.quoted && target in d.quoted[source])
  }

  /** The last component is `test_`, then anything, then `.py`. */
  ghost predicate TestFile(path: string) {
    exists above, name ::
      path == above + "test_" + name + ".py" && '/' !in name && (above != "" ==> above[|above| - 1] == '/')
  }

  /** `p` leads from a file back to a change: each file uses the one before it, none but the last a test. */
  ghost predicate DependencyChain(d: Dependencies, changed: set<string>, path: string, p: seq<string>) {
    && p != [] && p[0] in changed && p[|p| - 1] == path
    && forall i :: 0 <= i < |p| - 1 ==> Uses(d, p[i + 1], p[i]) && !TestFile(p[i])
  }

  /** A chain of uses leads from the file to a change. */
  ghost predicate LeadsToChange(d: Dependencies, changed: set<string>, path: string) {
    exists p :: DependencyChain(d, changed, path, p)
  }

  lemma {:induction false} BasenameOf(above: string, name: string)
    requires '/' !in name && (above != "" ==> above[|above| - 1] == '/')
    ensures Basename(above + name) == name
    decreases |above|
  {
    var path := above + name;
    if above == "" {
      assert path == name;
    } else {
      assert path[|above| - 1] == '/';
      assert path[1..] == above[1..] + name;
      BasenameOf(above[1..], name);
    }
  }

  lemma {:induction false} BasenameEnds(path: string) returns (above: string)
    ensures path == above + Basename(path) && '/' !in Basename(path) && (above != "" ==> above[|above| - 1] == '/')
    decreases |path|
  {
    if '/' !in path {
      above := "";
    } else {
      above := BasenameEnds(path[1..]);
      if above == "" {
        assert path[0] == '/';
      }
      above := [path[0]] + above;
      assert path == [path[0]] + path[1..];
    }
  }

  lemma {:induction false} TestSpelt(base: string) returns (name: string)
    requires "test_" <= base && EndsWith(base[5..], ".py")
    ensures base == "test_" + name + ".py"
  {
    name := base[5..|base| - 3];
    assert base == base[..5] + (base[5..][..|base| - 8] + base[5..][|base| - 8..]);
  }

  lemma {:induction false} TestRead(name: string)
    ensures var base := "test_" + name + ".py"; "test_" <= base && EndsWith(base[5..], ".py")
  {
    var base := "test_" + name + ".py";
    assert base[5..] == name + ".py";
    assert (name + ".py")[|name|..] == ".py";
  }

  lemma {:induction false} TestExactly(path: string)
    ensures IsTest(path) <==> TestFile(path)
  {
    if IsTest(path) {
      var above := BasenameEnds(path);
      var name := TestSpelt(Basename(path));
      TestJoined(above, name);
    }
    if TestFile(path) {
      var above, name :|
        path == above + "test_" + name + ".py" && '/' !in name && (above != "" ==> above[|above| - 1] == '/');
      TestJoined(above, name);
      BasenameOf(above, "test_" + name + ".py");
      TestRead(name);
    }
  }

  lemma {:induction false} TestJoined(above: string, name: string)
    ensures above + ("test_" + name + ".py") == above + "test_" + name + ".py"
    ensures '/' !in name <==> '/' !in "test_" + name + ".py"
  {
  }

  lemma {:induction false} DependsIsNext(d: Dependencies, s: string, t: string)
    ensures DependsOn(d, s, t) <==> s in Next(DependentsOf(d), t)
  {
    if DependsOn(d, s, t) {
      assert t in Targets(d) && s in Sources(d);
    }
  }

  lemma {:induction false} ChainsAgree(d: Dependencies, changed: set<string>, path: string, p: seq<string>)
    ensures DependencyChain(d, changed, path, p) <==> ChainTo(DependentsOf(d), IsTest, changed, path, p)
  {
    forall i | 0 <= i < |p| - 1
      ensures Uses(d, p[i + 1], p[i]) <==> p[i + 1] in Next(DependentsOf(d), p[i])
      ensures IsTest(p[i]) <==> TestFile(p[i])
    {
      DependsIsNext(d, p[i + 1], p[i]);
      TestExactly(p[i]);
    }
  }

  /** What is read off the tree besides the graph: the Node package directories of the workspace, and
      whether a suffix is one whose sources the graph reads. */
  datatype Tree = Tree(workspace: string, packages: set<string>, graphSource: string -> bool)

  /** A changed file of the workspace that nothing places: every suite runs. */
  predicate Unplaced(t: Tree, d: Dependencies, path: string) {
    && Inside(t.workspace, path)
    && !EndsWith(path, ".md") && !IsText(path)
    && !t.graphSource(path) && Next(DependentsOf(d), path) == {}
    && forall package | package in t.packages :: !Inside(package, path)
  }

  /** The same by the files: nothing uses it, no package holds it, and it is no text nor source. */
  ghost predicate NothingPlaces(t: Tree, d: Dependencies, path: string) {
    && t.workspace + "/" <= path
    && !(|path| >= 3 && path[|path| - 3..] == ".md") && !IsRust(path) && !IsManifest(path)
    && !t.graphSource(path) && (forall source :: !Uses(d, source, path))
    && forall package :: package in t.packages ==> !(package + "/" <= path)
  }

  lemma {:induction false} UnplacedExactly(t: Tree, d: Dependencies, path: string)
    ensures Unplaced(t, d, path) <==> NothingPlaces(t, d, path)
  {
    TextExactly(path);
    forall source ensures Uses(d, source, path) <==> source in Next(DependentsOf(d), path) {
      DependsIsNext(d, source, path);
    }
    if forall source :: !Uses(d, source, path) {
      assert forall source :: source !in Next(DependentsOf(d), path);
    }
  }

  datatype Suites = EverySuite | SomeSuites(tests: set<string>, packages: set<string>)

  method SelectSuiteModules(t: Tree, d: Dependencies, changed: set<string>) returns (answer: Suites)
    ensures answer.EverySuite? <==> exists path :: path in changed && NothingPlaces(t, d, path)
    ensures answer.SomeSuites? ==>
              forall path :: path in answer.tests <==>
                t.workspace + "/" <= path && TestFile(path) && LeadsToChange(d, changed, path)
    ensures answer.SomeSuites? ==>
              forall package :: package in answer.packages <==>
                package in t.packages &&
                exists path :: package + "/" <= path && LeadsToChange(d, changed, path)
  {
    forall path ensures IsTest(path) <==> TestFile(path) {
      TestExactly(path);
    }
    var reached := Spread(DependentsOf(d), IsTest, changed);
    forall path ensures path in reached <==> LeadsToChange(d, changed, path) {
      ReachedIsChain(d, changed, path);
    }
    var tests := set path | path in reached && Inside(t.workspace, path) && IsTest(path);
    var packages := set package | package in t.packages && exists path :: path in reached && Inside(package, path);
    var lost := AnyUnplaced(t, d, changed);
    if lost {
      return EverySuite;
    }
    answer := SomeSuites(tests, packages);
  }

  method AnyUnplaced(t: Tree, d: Dependencies, changed: set<string>) returns (lost: bool)
    ensures lost <==> exists path :: path in changed && NothingPlaces(t, d, path)
  {
    var rest := changed;
    while rest != {}
      invariant rest <= changed
      invariant forall path :: path in changed - rest ==> !NothingPlaces(t, d, path)
      decreases |rest|
    {
      var path :| path in rest;
      UnplacedExactly(t, d, path);
      if Unplaced(t, d, path) {
        return true;
      }
      rest := rest - {path};
    }
    lost := false;
  }

  lemma {:induction false} ReachedIsChain(d: Dependencies, changed: set<string>, path: string)
    ensures Reached(DependentsOf(d), IsTest, changed, path) <==> LeadsToChange(d, changed, path)
  {
    if p :| ChainTo(DependentsOf(d), IsTest, changed, path, p) {
      ChainsAgree(d, changed, path, p);
    }
    if p :| DependencyChain(d, changed, path, p) {
      ChainsAgree(d, changed, path, p);
    }
  }
}
