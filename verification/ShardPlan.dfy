/** The Spark shard planner: longest piece first onto the least loaded shard. */
module ShardPlan {

  // Durations are real numbers; a plan is a list of shards, each the list of pieces it runs.

  import opened Sorting

  datatype Piece = Piece(target: string, seconds: real)

  const SLOTS_PER_SHARD := 2
  const MIN_SPLIT_SECONDS := 60.0

  // ---- the work: files, split into pieces when longer than a slot's even share ----

  /** A file's pieces, from the test targets its source names: whole unless there are two of them. */
  function Pieces(name: string, seconds: real, targets: seq<string>): (parts: seq<Piece>)
    ensures Total(Seconds, parts) == seconds
    ensures |targets| >= 2 ==> |parts| == |targets|
  {
    if |targets| < 2 then
      SumOfOne(Piece(name, seconds));
      [Piece(name, seconds)]
    else
      var part := seconds / |targets| as real;
      var parts := seq(|targets|, i requires 0 <= i < |targets| => Piece(targets[i], part));
      SumOfEqual(parts, part);
      parts
  }

  /** A piece the table names keeps the time measured for it. */
  function Measured(p: Piece, durations: map<string, real>): Piece {
    if p.target in durations then Piece(p.target, durations[p.target]) else p
  }

  function MeasuredAll(ps: seq<Piece>, durations: map<string, real>): (r: seq<Piece>)
    ensures |r| == |ps|
    ensures forall i :: 0 <= i < |ps| ==> r[i] == Measured(ps[i], durations)
  {
    seq(|ps|, i requires 0 <= i < |ps| => Measured(ps[i], durations))
  }

  function Estimate(name: string, durations: map<string, real>, default: real): real {
    if name in durations then durations[name] else default
  }

  /** The files of `files`, each once, where it first appears: the keys of a dictionary built from it. */
  function Names(files: seq<string>): (r: seq<string>)
    ensures forall f :: f in files <==> f in r
  {
    if files == [] then []
    else
      var last := files[|files| - 1];
      var before := Names(files[..|files| - 1]);
      assert files == files[..|files| - 1] + [last];
      if last in before then before else before + [last]
  }

  function Estimates(names: seq<string>, durations: map<string, real>, default: real): seq<Piece> {
    seq(|names|, i requires 0 <= i < |names| => Piece(names[i], Estimate(names[i], durations, default)))
  }

  function FileWork(file: Piece, share: real, durations: map<string, real>,
                    targets: string -> seq<string>): seq<Piece> {
    var longest := if share > MIN_SPLIT_SECONDS then share else MIN_SPLIT_SECONDS;
    MeasuredAll(if file.seconds > longest then Pieces(file.target, file.seconds, targets(file.target)) else [file],
                durations)
  }

  function WorkOf(estimated: seq<Piece>, share: real, durations: map<string, real>,
                  targets: string -> seq<string>): seq<Piece> {
    if estimated == [] then []
    else
      WorkOf(estimated[..|estimated| - 1], share, durations, targets)
      + FileWork(estimated[|estimated| - 1], share, durations, targets)
  }

  function Share(estimated: seq<Piece>, shards: nat): real
    requires shards >= 1
  {
    Total(Seconds, estimated) / (shards * SLOTS_PER_SHARD) as real
  }

  function Work(files: seq<string>, durations: map<string, real>, default: real, shards: nat,
                targets: string -> seq<string>): seq<Piece>
    requires shards >= 1
  {
    var estimated := Estimates(Names(files), durations, default);
    WorkOf(estimated, Share(estimated, shards), durations, targets)
  }

  // ---- additive measures of a list of pieces ----

  function Seconds(p: Piece): real { p.seconds }

  function Total(f: Piece -> real, s: seq<Piece>): real {
    if s == [] then 0.0 else Total(f, s[..|s| - 1]) + f(s[|s| - 1])
  }

  function Load(shard: seq<Piece>): real { Total(Seconds, shard) }

  lemma {:induction false} SumOfOne(p: Piece)
    ensures Total(Seconds, [p]) == p.seconds
  {
    assert [p][..0] == [];
  }

  lemma {:induction false} SumOfEqual(s: seq<Piece>, x: real)
    requires forall p :: p in s ==> p.seconds == x
    ensures Total(Seconds, s) == |s| as real * x
  {
    if s != [] {
      SumOfEqual(s[..|s| - 1], x);
    }
  }

  lemma {:induction false} TotalConcat(f: Piece -> real, s: seq<Piece>, t: seq<Piece>)
    ensures Total(f, s + t) == Total(f, s) + Total(f, t)
  {
    if t == [] {
      assert s + t == s;
    } else {
      assert (s + t)[..|s + t| - 1] == s + t[..|t| - 1];
      TotalConcat(f, s, t[..|t| - 1]);
    }
  }

  lemma {:induction false} TotalRearranged(f: Piece -> real, s: seq<Piece>, t: seq<Piece>)
    requires multiset(s) == multiset(t)
    ensures Total(f, s) == Total(f, t)
    decreases |s|
  {
    if s == [] {
      SameElements(s, t);
    } else {
      var k := SameLast(s, t);
      TotalRearranged(f, s[..|s| - 1], t[..k] + t[k + 1..]);
      TakenOut(f, t, k);
    }
  }

  lemma {:induction false} TakenOut(f: Piece -> real, t: seq<Piece>, k: nat)
    requires k < |t|
    ensures Total(f, t) == Total(f, t[..k] + t[k + 1..]) + f(t[k])
  {
    assert t == t[..k] + [t[k]] + t[k + 1..];
    TotalConcat(f, t[..k], t[k + 1..]);
    TotalConcat(f, t[..k] + [t[k]], t[k + 1..]);
    assert (t[..k] + [t[k]])[..k] == t[..k];
  }

  /** `x` added up `m` times: a product the solver treats as linear. */
  function Times(m: nat, x: real): real {
    if m == 0 then 0.0 else Times(m - 1, x) + x
  }

  lemma {:induction false} TimesIsProduct(m: nat, x: real)
    ensures Times(m, x) == m as real * x
  {
    if m > 0 {
      TimesIsProduct(m - 1, x);
    }
  }

  lemma {:induction false} TimesAdds(m: nat, x: real, y: real)
    ensures Times(m, x + y) == Times(m, x) + Times(m, y)
  {
    if m > 0 {
      TimesAdds(m - 1, x, y);
    }
  }

  lemma {:induction false} TimesGrows(m: nat, x: real, y: real)
    requires m >= 1 && x <= y
    ensures Times(m, x) - x <= Times(m, y) - y
  {
    if m > 1 {
      TimesGrows(m - 1, x, y);
    }
  }

  lemma {:induction false} TimesTriple(m: nat, x: real)
    ensures Times(m, 3.0 * x) == 3.0 * Times(m, x)
  {
    if m > 0 {
      TimesTriple(m - 1, x);
    }
  }

  // ---- schedules ----

  function Flatten(a: seq<seq<Piece>>): seq<Piece> {
    if a == [] then [] else Flatten(a[..|a| - 1]) + a[|a| - 1]
  }

  /** `a` runs each piece of `work` on one of `m` shards. */
  ghost predicate Schedules(a: seq<seq<Piece>>, work: seq<Piece>, m: nat) {
    |a| == m && multiset(Flatten(a)) == multiset(work)
  }

  /** The load of the heaviest shard. */
  function Makespan(a: seq<seq<Piece>>): (r: real)
    requires a != []
    ensures forall s :: s in a ==> Load(s) <= r
    ensures exists s :: s in a && Load(s) == r
  {
    var last := a[|a| - 1];
    if |a| == 1 then
      assert last in a;
      Load(last)
    else
      var before := Makespan(a[..|a| - 1]);
      assert a == a[..|a| - 1] + [last];
      if Load(last) > before then
        assert last in a;
        Load(last)
      else
        before
  }

  lemma {:induction false} FlattenUpdate(a: seq<seq<Piece>>, k: nat, x: Piece)
    requires k < |a|
    ensures multiset(Flatten(a[k := a[k] + [x]])) == multiset(Flatten(a)) + multiset{x}
  {
    var b := a[k := a[k] + [x]];
    if k == |a| - 1 {
      assert b[..|b| - 1] == a[..|a| - 1];
    } else {
      assert b[..|b| - 1] == a[..|a| - 1][k := a[k] + [x]];
      FlattenUpdate(a[..|a| - 1], k, x);
    }
  }

  lemma {:induction false} FlattenHolds(a: seq<seq<Piece>>, s: seq<Piece>, p: Piece)
    requires s in a && p in s
    ensures p in Flatten(a)
  {
    if s != a[|a| - 1] {
      assert a == a[..|a| - 1] + [a[|a| - 1]];
      FlattenHolds(a[..|a| - 1], s, p);
    }
  }

  lemma {:induction false} FlattenFrom(a: seq<seq<Piece>>, p: Piece) returns (s: seq<Piece>)
    requires p in Flatten(a)
    ensures s in a && p in s
  {
    if p in a[|a| - 1] {
      s := a[|a| - 1];
    } else {
      s := FlattenFrom(a[..|a| - 1], p);
    }
  }

  lemma {:induction false} TotalAtMost(f: Piece -> real, a: seq<seq<Piece>>, bound: real)
    requires forall s :: s in a ==> Total(f, s) <= bound
    ensures Total(f, Flatten(a)) <= Times(|a|, bound)
  {
    if a != [] {
      TotalAtMost(f, a[..|a| - 1], bound);
      TotalConcat(f, Flatten(a[..|a| - 1]), a[|a| - 1]);
    }
  }

  lemma {:induction false} TotalAtLeast(f: Piece -> real, a: seq<seq<Piece>>, bound: real)
    requires forall s :: s in a ==> Total(f, s) >= bound
    ensures Total(f, Flatten(a)) >= Times(|a|, bound)
  {
    if a != [] {
      TotalAtLeast(f, a[..|a| - 1], bound);
      TotalConcat(f, Flatten(a[..|a| - 1]), a[|a| - 1]);
    }
  }

  // ---- the planner ----

  /** Longest first; pieces of one length by name. */
  predicate Before(a: Piece, b: Piece) {
    a.seconds > b.seconds || (a.seconds == b.seconds && StringLe(a.target, b.target))
  }

  lemma {:induction false} BeforeIsTotalOrder()
    ensures TotalOrder(Before)
  {
    StringLeIsTotalOrder();
  }

  /** The least loaded shard, the first of them on a tie. */
  function LeastLoaded(a: seq<seq<Piece>>): (k: nat)
    requires a != []
    ensures k < |a|
    ensures forall i :: 0 <= i < |a| ==> Load(a[k]) <= Load(a[i])
    ensures forall i :: 0 <= i < k ==> Load(a[k]) < Load(a[i])
  {
    var n := |a| - 1;
    if n == 0 then 0
    else
      var k := LeastLoaded(a[..n]);
      assert forall i :: 0 <= i < n ==> a[..n][i] == a[i];
      if Load(a[n]) < Load(a[k]) then n else k
  }

  function Place(a: seq<seq<Piece>>, x: Piece): seq<seq<Piece>>
    requires a != []
  {
    var k := LeastLoaded(a);
    a[k := a[k] + [x]]
  }

  /** List scheduling: each piece of `work` in turn onto the least loaded of `m` shards. */
  function Assign(work: seq<Piece>, m: nat): (a: seq<seq<Piece>>)
    requires m >= 1
    ensures |a| == m
  {
    if work == [] then
      seq(m, _ => [])
    else
      Place(Assign(work[..|work| - 1], m), work[|work| - 1])
  }

  function PlanOf(work: seq<Piece>, m: nat): (a: seq<seq<Piece>>)
    requires m >= 1
    ensures |a| == m
  {
    Assign(Sort(Before, work), m)
  }

  lemma {:induction false} FlattenEmpty(m: nat)
    ensures Flatten(seq(m, _ => [])) == []
  {
    var a: seq<seq<Piece>> := seq(m, _ => []);
    if m > 0 {
      assert a[..m - 1] == seq(m - 1, _ => []);
      FlattenEmpty(m - 1);
    }
  }

  lemma {:induction false} AssignSchedules(work: seq<Piece>, m: nat)
    requires m >= 1
    ensures Schedules(Assign(work, m), work, m)
  {
    if work == [] {
      FlattenEmpty(m);
    } else {
      var n := |work| - 1;
      AssignSchedules(work[..n], m);
      assert work == work[..n] + [work[n]];
      var a := Assign(work[..n], m);
      FlattenUpdate(a, LeastLoaded(a), work[n]);
    }
  }

  /** The plan runs every piece of the work exactly as often as the work holds it. */
  lemma {:induction false} PlanSchedules(work: seq<Piece>, m: nat)
    requires m >= 1
    ensures Schedules(PlanOf(work, m), work, m)
  {
    AssignSchedules(Sort(Before, work), m);
  }

  /** Every shard runs its pieces longest first, pieces of one length by name. */
  ghost predicate LongestFirst(a: seq<seq<Piece>>) {
    forall s: seq<Piece>, i, j :: s in a && 0 <= i < j < |s| ==>
      s[i].seconds > s[j].seconds || (s[i].seconds == s[j].seconds && StringLe(s[i].target, s[j].target))
  }

  lemma {:induction false} PlaceLongestFirst(a: seq<seq<Piece>>, x: Piece)
    requires a != [] && LongestFirst(a)
    requires forall s, p :: s in a && p in s ==> Before(p, x)
    ensures LongestFirst(Place(a, x))
  {
    var k := LeastLoaded(a);
    assert a[k] in a;
    forall s: seq<Piece>, i, j | s in Place(a, x) && 0 <= i < j < |s|
      ensures s[i].seconds > s[j].seconds || (s[i].seconds == s[j].seconds && StringLe(s[i].target, s[j].target))
    {
      if s == a[k] + [x] && j == |a[k]| {
        assert a[k][i] in a[k];
      }
    }
  }

  lemma {:induction false} AssignLongest(work: seq<Piece>, m: nat)
    requires m >= 1 && Sorted(Before, work)
    ensures LongestFirst(Assign(work, m))
  {
    if work != [] {
      var n := |work| - 1;
      var a := Assign(work[..n], m);
      AssignLongest(work[..n], m);
      AssignSchedules(work[..n], m);
      SameElements(Flatten(a), work[..n]);
      forall s, p | s in a && p in s ensures Before(p, work[n]) {
        FlattenHolds(a, s, p);
      }
      PlaceLongestFirst(a, work[n]);
    }
  }

  lemma {:induction false} PlanLongestFirst(work: seq<Piece>, m: nat)
    requires m >= 1
    ensures LongestFirst(PlanOf(work, m))
  {
    BeforeIsTotalOrder();
    SortSorted(Before, work);
    AssignLongest(Sort(Before, work), m);
  }

  // ---- Graham's bound ----

  ghost predicate Nonnegative(work: seq<Piece>) {
    forall p :: p in work ==> p.seconds >= 0.0
  }

  lemma {:induction false} LoadNonnegative(s: seq<Piece>)
    requires Nonnegative(s)
    ensures Load(s) >= 0.0
    ensures forall p :: p in s ==> p.seconds <= Load(s)
  {
    if s != [] {
      LoadNonnegative(s[..|s| - 1]);
      assert s == s[..|s| - 1] + [s[|s| - 1]];
    }
  }

  /** How much of a shard a piece fills beside a piece of `p` seconds, when more than a third of `t`
      is already much: nothing when shorter than `p`, all of it when the two exceed `t`, else half. */
  function Weight(p: real, t: real): Piece -> real {
    (x: Piece) => if x.seconds < p then 0.0 else if x.seconds + p > t then 2.0 else 1.0
  }

  lemma {:induction false} ShardHoldsTwo(s: seq<Piece>, p: real, t: real)
    requires Nonnegative(s) && 3.0 * p > t
    ensures var w := Total(Weight(p, t), s);
            || (w == 0.0 && Load(s) >= 0.0)
            || (w == 1.0 && Load(s) >= p)
            || (w == 2.0 && Load(s) + p > t)
            || (w > 2.0 && Load(s) > t)
  {
    if s != [] {
      assert s == s[..|s| - 1] + [s[|s| - 1]];
      ShardHoldsTwo(s[..|s| - 1], p, t);
    }
  }

  lemma {:induction false} WeightNonnegative(s: seq<Piece>, p: real, t: real)
    ensures Total(Weight(p, t), s) >= 0.0
  {
    if s != [] {
      WeightNonnegative(s[..|s| - 1], p, t);
    }
  }

  lemma {:induction false} WeightOfLong(s: seq<Piece>, p: real, t: real)
    requires forall x :: x in s ==> x.seconds >= p
    ensures Total(Weight(p, t), s) >= |s| as real
  {
    if s != [] {
      assert s == s[..|s| - 1] + [s[|s| - 1]];
      WeightOfLong(s[..|s| - 1], p, t);
    }
  }

  /** A shard of pieces no shorter than `p` to which `p` cannot be added is full. */
  lemma {:induction false} FullShardWeight(s: seq<Piece>, p: real, t: real)
    requires forall x :: x in s ==> x.seconds >= p
    requires p <= t < Load(s) + p
    ensures Total(Weight(p, t), s) >= 2.0
  {
    WeightOfLong(s, p, t);
    if |s| == 1 {
      assert s == [s[0]] && s[..0] == [];
      SumOfOne(s[0]);
    }
  }

  /** A moment of a run: `work` is to be run, `a` holds the pieces placed so far, `x` is next. */
  ghost predicate Placing(work: seq<Piece>, placed: seq<Piece>, x: Piece, rest: seq<Piece>,
                          a: seq<seq<Piece>>, m: nat) {
    && m >= 1
    && Nonnegative(work)
    && multiset(placed + [x] + rest) == multiset(work)
    && Schedules(a, placed, m)
  }

  /** Any additive measure of the whole work is that of the three parts of a moment. */
  lemma {:induction false} MeasureOfParts(f: Piece -> real, work: seq<Piece>, placed: seq<Piece>, x: Piece,
                                          rest: seq<Piece>,
                       a: seq<seq<Piece>>, m: nat, other: seq<seq<Piece>>)
    requires Placing(work, placed, x, rest, a, m) && Schedules(other, work, m)
    ensures Total(f, Flatten(other)) == Total(f, Flatten(a)) + f(x) + Total(f, rest)
  {
    TotalRearranged(f, Flatten(other), placed + [x] + rest);
    TotalRearranged(f, Flatten(a), placed);
    TotalConcat(f, placed + [x], rest);
    assert (placed + [x])[..|placed|] == placed;
  }

  lemma {:induction false} SchedulePieces(a: seq<seq<Piece>>, work: seq<Piece>, m: nat)
    requires Schedules(a, work, m) && Nonnegative(work)
    ensures forall s :: s in a ==> Nonnegative(s)
  {
    SameElements(Flatten(a), work);
    forall s, p | s in a && p in s ensures p.seconds >= 0.0 { FlattenHolds(a, s, p); }
  }

  lemma {:induction false} AnyPieceFitsAlone(work: seq<Piece>, m: nat, other: seq<seq<Piece>>, x: Piece, t: real)
    requires Schedules(other, work, m) && Nonnegative(work) && x in work
    requires forall s :: s in other ==> Load(s) <= t
    ensures x.seconds <= t
  {
    SchedulePieces(other, work, m);
    SameElements(Flatten(other), work);
    var home := FlattenFrom(other, x);
    LoadNonnegative(home);
  }

  /** If no shard of `a` can take a piece of `p` seconds within `t`, all of them are full. */
  lemma {:induction false} AllFull(placed: seq<Piece>, a: seq<seq<Piece>>, m: nat, p: real, t: real)
    requires Schedules(a, placed, m)
    requires forall y :: y in placed ==> y.seconds >= p
    requires p <= t && forall s :: s in a ==> t < Load(s) + p
    ensures Total(Weight(p, t), Flatten(a)) >= Times(m, 2.0)
  {
    SameElements(Flatten(a), placed);
    forall s | s in a ensures Total(Weight(p, t), s) >= 2.0 {
      forall y | y in s ensures y.seconds >= p { FlattenHolds(a, s, y); }
      FullShardWeight(s, p, t);
    }
    TotalAtLeast(Weight(p, t), a, 2.0);
  }

  /** A piece longer than a third of the best makespan fits on the least loaded shard within it: a
      shard holds two such pieces at most, so the shards cannot all be full. */
  lemma {:induction false} LongPieceFits(work: seq<Piece>, placed: seq<Piece>, x: Piece, rest: seq<Piece>,
                                         a: seq<seq<Piece>>,
                      m: nat, other: seq<seq<Piece>>, t: real)
    requires Placing(work, placed, x, rest, a, m) && Schedules(other, work, m)
    requires forall y :: y in placed ==> y.seconds >= x.seconds
    requires forall s :: s in other ==> Load(s) <= t
    requires 3.0 * x.seconds > t
    ensures Load(a[LeastLoaded(a)]) + x.seconds <= t
  {
    var p, w := x.seconds, Weight(x.seconds, t);
    SameElements(placed + [x] + rest, work);
    AnyPieceFitsAlone(work, m, other, x, t);
    if Load(a[LeastLoaded(a)]) + p > t {
      AllFull(placed, a, m, p, t);
      SchedulePieces(other, work, m);
      forall s | s in other ensures Total(w, s) <= 2.0 { ShardHoldsTwo(s, p, t); }
      TotalAtMost(w, other, 2.0);
      MeasureOfParts(w, work, placed, x, rest, a, m, other);
      WeightNonnegative(rest, p, t);
      assert false;
    }
  }

  /** The least loaded shard carries no more than an even share of what came before. */
  lemma {:induction false} LeastIsBelowAverage(work: seq<Piece>, placed: seq<Piece>, x: Piece, rest: seq<Piece>,
                                               a: seq<seq<Piece>>,
                            m: nat, other: seq<seq<Piece>>, t: real)
    requires Placing(work, placed, x, rest, a, m) && Schedules(other, work, m)
    requires forall s :: s in other ==> Load(s) <= t
    ensures Times(m, Load(a[LeastLoaded(a)])) + x.seconds <= Times(m, t)
  {
    TotalAtLeast(Seconds, a, Load(a[LeastLoaded(a)]));
    TotalAtMost(Seconds, other, t);
    MeasureOfParts(Seconds, work, placed, x, rest, a, m, other);
    SameElements(placed + [x] + rest, work);
    LoadNonnegative(rest);
  }

  /** A load within Graham's bound of `t` on `m` shards, 4/3 - 1/(3m) times `t`. */
  ghost predicate Within(m: nat, load: real, t: real) {
    3.0 * Times(m, load) <= 4.0 * Times(m, t) - t
  }

  lemma {:induction false} ShortPieceWithin(m: nat, low: real, p: real, t: real)
    requires m >= 1
    requires Times(m, low) + p <= Times(m, t)
    requires 3.0 * p <= t
    ensures Within(m, low + p, t)
  {
    TimesAdds(m, low, p);
    TimesGrows(m, 3.0 * p, t);
    TimesTriple(m, p);
  }

  lemma {:induction false} FittingWithin(m: nat, load: real, t: real)
    requires m >= 1 && load <= t && t >= 0.0
    ensures Within(m, load, t)
  {
    TimesGrows(m, load, t);
    TimesGrows(m, 0.0, t);
    TimesIsProduct(m, 0.0);
  }

  /** Every shard keeps Graham's bound after each placement of a longest-first list. */
  lemma {:induction false} AssignBound(work: seq<Piece>, sorted: seq<Piece>, rest: seq<Piece>, m: nat,
                                       other: seq<seq<Piece>>, t: real)
    requires Nonnegative(work) && m >= 1 && t >= 0.0
    requires multiset(sorted + rest) == multiset(work)
    requires Sorted(Before, sorted)
    requires Schedules(other, work, m)
    requires forall s :: s in other ==> Load(s) <= t
    ensures forall s :: s in Assign(sorted, m) ==> Within(m, Load(s), t)
    decreases |sorted|
  {
    if sorted == [] {
      FittingWithin(m, 0.0, t);
    } else {
      var n := |sorted| - 1;
      var x, placed := sorted[n], sorted[..n];
      assert placed + [x] + rest == placed + ([x] + rest) == sorted + rest;
      AssignBound(work, placed, [x] + rest, m, other, t);
      AssignSchedules(placed, m);
      var a := Assign(placed, m);
      var k := LeastLoaded(a);
      PlaceWithin(work, placed, x, rest, a, m, other, t);
      assert (a[k] + [x])[..|a[k]|] == a[k];
    }
  }

  lemma {:induction false} PlaceWithin(work: seq<Piece>, placed: seq<Piece>, x: Piece, rest: seq<Piece>,
                                       a: seq<seq<Piece>>,
                    m: nat, other: seq<seq<Piece>>, t: real)
    requires Placing(work, placed, x, rest, a, m) && Schedules(other, work, m) && t >= 0.0
    requires forall y :: y in placed ==> y.seconds >= x.seconds
    requires forall s :: s in other ==> Load(s) <= t
    ensures Within(m, Load(a[LeastLoaded(a)]) + x.seconds, t)
  {
    var low := Load(a[LeastLoaded(a)]);
    if 3.0 * x.seconds > t {
      LongPieceFits(work, placed, x, rest, a, m, other, t);
      FittingWithin(m, low + x.seconds, t);
    } else {
      LeastIsBelowAverage(work, placed, x, rest, a, m, other, t);
      ShortPieceWithin(m, low, x.seconds, t);
    }
  }

  /** `load` is at most 4/3 - 1/(3m) times `t`. */
  ghost predicate GrahamBound(m: nat, load: real, t: real) {
    3.0 * m as real * load <= (4.0 * m as real - 1.0) * t
  }

  /** Graham's bound for longest-first scheduling: the plan's heaviest shard is at most 4/3 - 1/(3m)
      times as heavy as that of any other way to run the same pieces on as many shards. */
  lemma {:induction false} PlanIsNearOptimal(work: seq<Piece>, m: nat, other: seq<seq<Piece>>)
    requires m >= 1 && Nonnegative(work) && Schedules(other, work, m)
    ensures GrahamBound(m, Makespan(PlanOf(work, m)), Makespan(other))
  {
    PlanWithin(work, m, other);
    WithinIsBound(m, Makespan(PlanOf(work, m)), Makespan(other));
  }

  lemma {:induction false} PlanWithin(work: seq<Piece>, m: nat, other: seq<seq<Piece>>)
    requires m >= 1 && Nonnegative(work) && Schedules(other, work, m)
    ensures Within(m, Makespan(PlanOf(work, m)), Makespan(other))
  {
    BeforeIsTotalOrder();
    SortSorted(Before, work);
    SchedulePieces(other, work, m);
    LoadNonnegative(other[0]);
    assert Sort(Before, work) + [] == Sort(Before, work);
    AssignBound(work, Sort(Before, work), [], m, other, Makespan(other));
  }

  lemma {:induction false} WithinIsBound(m: nat, load: real, t: real)
    requires Within(m, load, t)
    ensures GrahamBound(m, load, t)
  {
    TimesIsProduct(m, load);
    TimesIsProduct(m, t);
  }

  /** The longest piece of a list, or zero. */
  function Longest(work: seq<Piece>): (r: real)
    ensures forall p :: p in work ==> p.seconds <= r
    ensures r >= 0.0
  {
    if work == [] then 0.0
    else
      var before := Longest(work[..|work| - 1]);
      assert work == work[..|work| - 1] + [work[|work| - 1]];
      if work[|work| - 1].seconds > before then work[|work| - 1].seconds else before
  }

  lemma {:induction false} AssignBalanced(work: seq<Piece>, m: nat, longest: real)
    requires m >= 1 && longest >= 0.0
    requires forall p :: p in work ==> 0.0 <= p.seconds <= longest
    ensures forall s, r :: s in Assign(work, m) && r in Assign(work, m) ==> Load(s) - Load(r) <= longest
  {
    if work != [] {
      var n := |work| - 1;
      assert work == work[..n] + [work[n]];
      AssignBalanced(work[..n], m, longest);
      PlaceBalanced(Assign(work[..n], m), work[n], longest);
    }
  }

  /** A piece on the least loaded shard keeps the balance. */
  lemma {:induction false} PlaceBalanced(a: seq<seq<Piece>>, x: Piece, longest: real)
    requires a != [] && 0.0 <= x.seconds <= longest && Balanced(a, longest)
    ensures Balanced(Place(a, x), longest)
  {
    var b, k := Place(a, x), LeastLoaded(a);
    assert (a[k] + [x])[..|a[k]|] == a[k];
    forall i, j | 0 <= i < |a| && 0 <= j < |a| ensures Load(b[i]) - Load(b[j]) <= longest {
      assert a[i] in a && a[j] in a && a[k] in a;
    }
  }

  /** No two shards differ by more than this. */
  ghost predicate Balanced(a: seq<seq<Piece>>, most: real) {
    forall s, r :: s in a && r in a ==> Load(s) - Load(r) <= most
  }

  /** No other schedule of the same pieces beats this one by more than Graham's factor. */
  ghost predicate NearOptimal(a: seq<seq<Piece>>, work: seq<Piece>, m: nat)
    requires m >= 1 && |a| == m
  {
    forall other :: Schedules(other, work, m) ==> GrahamBound(m, Makespan(a), Makespan(other))
  }

  /** No two shards of the plan differ by more than the longest piece. */
  lemma {:induction false} PlanBalanced(work: seq<Piece>, m: nat)
    requires m >= 1 && Nonnegative(work)
    ensures Balanced(PlanOf(work, m), Longest(work))
  {
    SameElements(work, Sort(Before, work));
    AssignBalanced(Sort(Before, work), m, Longest(work));
  }

  // ---- what the whole program promises ----

  lemma {:induction false} FileWorkHolds(file: Piece, share: real, durations: map<string, real>,
                                         targets: string -> seq<string>, target: string)
    requires target in (if |targets(file.target)| >= 2 then targets(file.target) else [file.target])
    ensures exists p :: p in FileWork(file, share, durations, targets) && p.target in {file.target, target}
  {
    var work := FileWork(file, share, durations, targets);
    assert work != [];
    var longest := if share > MIN_SPLIT_SECONDS then share else MIN_SPLIT_SECONDS;
    if file.seconds > longest && |targets(file.target)| >= 2 {
      var k :| 0 <= k < |targets(file.target)| && targets(file.target)[k] == target;
      assert work[k].target == target;
    } else {
      assert work[0].target == file.target;
    }
  }

  lemma {:induction false} WorkCoversFile(estimated: seq<Piece>, share: real, durations: map<string, real>,
                                          targets: string -> seq<string>, file: Piece)
    requires file in estimated
    ensures forall p :: p in FileWork(file, share, durations, targets) ==>
            p in WorkOf(estimated, share, durations, targets)
  {
    var n := |estimated| - 1;
    assert estimated == estimated[..n] + [estimated[n]];
    if file != estimated[n] {
      WorkCoversFile(estimated[..n], share, durations, targets, file);
    }
  }

  /** Every test target of every selected file runs in some shard, by itself or with its whole file. */
  lemma {:induction false} EveryTargetRuns(files: seq<string>, durations: map<string, real>, default: real,
                                           shards: nat, targets: string -> seq<string>, name: string, target: string)
    requires shards >= 1 && name in files
    requires target in (if |targets(name)| >= 2 then targets(name) else [name])
    ensures exists s, p :: s in PlanOf(Work(files, durations, default, shards, targets), shards)
                           && p in s && p.target in {name, target}
  {
    var estimated := Estimates(Names(files), durations, default);
    var share := Share(estimated, shards);
    var i :| 0 <= i < |Names(files)| && Names(files)[i] == name;
    var file := estimated[i];
    assert file in estimated;
    FileWorkHolds(file, share, durations, targets, target);
    WorkCoversFile(estimated, share, durations, targets, file);
    var work := Work(files, durations, default, shards, targets);
    var p :| p in FileWork(file, share, durations, targets) && p.target in {name, target};
    PlanSchedules(work, shards);
    SameElements(Flatten(PlanOf(work, shards)), work);
    var s := FlattenFrom(PlanOf(work, shards), p);
  }

  // ---- which pieces the plan holds, and what each costs ----

  /** The estimates of all files, added up: the measured time of a file, else the default. */
  ghost function AllSeconds(names: seq<string>, durations: map<string, real>, default: real): real {
    if names == [] then 0.0
    else
      var last := names[|names| - 1];
      AllSeconds(names[..|names| - 1], durations, default) + if last in durations then durations[last] else default
  }

  /** A file longer than a minute and than its share of two slots a shard runs as the targets it names. */
  ghost predicate RunsSplit(seconds: real, all: real, shards: nat, parts: nat) {
    parts >= 2 && seconds > 60.0 && (2 * shards) as real * seconds > all
  }

  /** The pieces of one file: its targets at their own measured times or even parts, or the file as a whole. */
  ghost function FilePieces(name: string, all: real, durations: map<string, real>, default: real, shards: nat,
                            targets: string -> seq<string>): seq<Piece> {
    var seconds := if name in durations then durations[name] else default;
    var ts := targets(name);
    if RunsSplit(seconds, all, shards, |ts|) then
      seq(|ts|, i requires 0 <= i < |ts| =>
        Piece(ts[i], if ts[i] in durations then durations[ts[i]] else seconds / |ts| as real))
    else
      [Piece(name, seconds)]
  }

  ghost function AllPieces(names: seq<string>, all: real, durations: map<string, real>, default: real, shards: nat,
                           targets: string -> seq<string>): seq<Piece> {
    if names == [] then []
    else
      AllPieces(names[..|names| - 1], all, durations, default, shards, targets)
      + FilePieces(names[|names| - 1], all, durations, default, shards, targets)
  }

  lemma {:induction false} TotalIsAllSeconds(names: seq<string>, durations: map<string, real>, default: real)
    ensures Total(Seconds, Estimates(names, durations, default)) == AllSeconds(names, durations, default)
  {
    if names != [] {
      var n := |names| - 1;
      TotalIsAllSeconds(names[..n], durations, default);
      assert Estimates(names, durations, default)[..n] == Estimates(names[..n], durations, default);
    }
  }

  /** Above the share: the division, multiplied out. */
  lemma {:induction false} AboveShare(seconds: real, all: real, shards: nat)
    requires shards >= 1
    ensures seconds > all / (shards * SLOTS_PER_SHARD) as real <==> (2 * shards) as real * seconds > all
  {
    var slots := (shards * SLOTS_PER_SHARD) as real;
    assert slots > 0.0 && all / slots * slots == all;
    if seconds > all / slots {
      Scaled(slots, all / slots, seconds);
    } else {
      ScaledAtMost(slots, seconds, all / slots);
    }
  }

  lemma {:induction false} Scaled(k: real, x: real, y: real)
    requires k > 0.0 && x < y
    ensures k * x < k * y
  {
  }

  lemma {:induction false} ScaledAtMost(k: real, x: real, y: real)
    requires k > 0.0 && x <= y
    ensures k * x <= k * y
  {
  }

  lemma {:induction false} FileWorkIsPieces(name: string, all: real, durations: map<string, real>, default: real,
                                            shards: nat, targets: string -> seq<string>)
    requires shards >= 1
    ensures FileWork(Piece(name, Estimate(name, durations, default)), all / (shards * SLOTS_PER_SHARD) as real,
                     durations, targets)
            == FilePieces(name, all, durations, default, shards, targets)
  {
    AboveShare(Estimate(name, durations, default), all, shards);
  }

  lemma {:induction false} WorkIsPieces(names: seq<string>, all: real, durations: map<string, real>, default: real,
                                        shards: nat, targets: string -> seq<string>)
    requires shards >= 1
    ensures WorkOf(Estimates(names, durations, default), all / (shards * SLOTS_PER_SHARD) as real, durations, targets)
            == AllPieces(names, all, durations, default, shards, targets)
  {
    if names != [] {
      var n := |names| - 1;
      WorkIsPieces(names[..n], all, durations, default, shards, targets);
      assert Estimates(names, durations, default)[..n] == Estimates(names[..n], durations, default);
      FileWorkIsPieces(names[n], all, durations, default, shards, targets);
    }
  }

  /** The lists hold each file's pieces, each as often as its file calls for it, and nothing else. */
  ghost predicate HoldsPieces(lists: seq<seq<Piece>>, files: seq<string>, durations: map<string, real>, default: real,
                              shards: nat, targets: string -> seq<string>) {
    exists names :: ListsOnce(names, files) &&
      multiset(Flatten(lists))
      == multiset(AllPieces(names, AllSeconds(names, durations, default), durations, default, shards, targets))
  }

  ghost predicate ListsOnce(names: seq<string>, files: seq<string>) {
    && (forall f :: f in names <==> f in files)
    && forall i, j :: 0 <= i < j < |names| ==> names[i] != names[j]
  }

  lemma {:induction false} NamesOnce(files: seq<string>)
    ensures forall i, j :: 0 <= i < j < |Names(files)| ==> Names(files)[i] != Names(files)[j]
    decreases |files|
  {
    if files != [] {
      NamesOnce(files[..|files| - 1]);
    }
  }

  lemma {:induction false} PlanHoldsPieces(files: seq<string>, durations: map<string, real>, default: real,
                                           shards: nat, targets: string -> seq<string>)
    requires shards >= 1
    ensures HoldsPieces(PlanOf(Work(files, durations, default, shards, targets), shards),
                        files, durations, default, shards, targets)
  {
    var names := Names(files);
    NamesOnce(files);
    TotalIsAllSeconds(names, durations, default);
    WorkIsPieces(names, AllSeconds(names, durations, default), durations, default, shards, targets);
    PlanSchedules(Work(files, durations, default, shards, targets), shards);
    assert ListsOnce(names, files);
  }

  // ---- durations that are not negative ----

  ghost predicate NonnegativeDurations(durations: map<string, real>, default: real) {
    default >= 0.0 && forall name :: name in durations ==> durations[name] >= 0.0
  }

  lemma {:induction false} FileWorkNonnegative(file: Piece, share: real, durations: map<string, real>, default: real,
                                               targets: string -> seq<string>)
    requires NonnegativeDurations(durations, default) && file.seconds >= 0.0
    ensures Nonnegative(FileWork(file, share, durations, targets))
  {
    var n := |targets(file.target)|;
    assert n >= 2 ==> file.seconds / n as real >= 0.0;
  }

  lemma {:induction false} WorkOfNonnegative(estimated: seq<Piece>, share: real, durations: map<string, real>,
                                             default: real,
                                             targets: string -> seq<string>)
    requires NonnegativeDurations(durations, default) && Nonnegative(estimated)
    ensures Nonnegative(WorkOf(estimated, share, durations, targets))
    decreases |estimated|
  {
    if estimated != [] {
      var n := |estimated| - 1;
      assert estimated[n] in estimated;
      WorkOfNonnegative(estimated[..n], share, durations, default, targets);
      FileWorkNonnegative(estimated[n], share, durations, default, targets);
    }
  }

  /** Work that is estimated from such durations takes no negative time. */
  lemma {:induction false} WorkNonnegative(files: seq<string>, durations: map<string, real>, default: real, shards: nat,
                                           targets: string -> seq<string>)
    requires shards >= 1 && NonnegativeDurations(durations, default)
    ensures Nonnegative(Work(files, durations, default, shards, targets))
  {
    var estimated := Estimates(Names(files), durations, default);
    WorkOfNonnegative(estimated, Share(estimated, shards), durations, default, targets);
  }

  lemma {:induction false} FileKeepsSeconds(file: Piece, share: real, durations: map<string, real>,
                                            targets: string -> seq<string>)
    requires file.target in durations ==> durations[file.target] == file.seconds
    requires forall t :: t in targets(file.target) ==> t !in durations
    ensures Total(Seconds, FileWork(file, share, durations, targets)) == file.seconds
  {
    var longest := if share > MIN_SPLIT_SECONDS then share else MIN_SPLIT_SECONDS;
    var pieces := if file.seconds > longest then Pieces(file.target, file.seconds, targets(file.target)) else [file];
    assert forall p :: p in pieces ==> Measured(p, durations) == p;
    assert MeasuredAll(pieces, durations) == pieces;
    SumOfOne(file);
  }

  /** Splitting keeps the estimated seconds, unless a piece is measured on its own. */
  lemma {:induction false} SplitKeepsSeconds(estimated: seq<Piece>, share: real, durations: map<string, real>,
                                             targets: string -> seq<string>)
    requires forall f :: f in estimated ==> f.target in durations ==> durations[f.target] == f.seconds
    requires forall f, t :: f in estimated && t in targets(f.target) ==> t !in durations
    ensures Total(Seconds, WorkOf(estimated, share, durations, targets)) == Total(Seconds, estimated)
  {
    if estimated != [] {
      var n := |estimated| - 1;
      var file := estimated[n];
      assert estimated == estimated[..n] + [file];
      SplitKeepsSeconds(estimated[..n], share, durations, targets);
      TotalConcat(Seconds, WorkOf(estimated[..n], share, durations, targets),
        FileWork(file, share, durations, targets));
      FileKeepsSeconds(file, share, durations, targets);
    }
  }

  method BuildWork(estimated: seq<Piece>, share: real, durations: map<string, real>, targets: string -> seq<string>)
    returns (work: seq<Piece>)
    ensures work == WorkOf(estimated, share, durations, targets)
  {
    work := [];
    for i := 0 to |estimated|
      invariant work == WorkOf(estimated[..i], share, durations, targets)
    {
      assert estimated[..i + 1][..i] == estimated[..i];
      work := work + FileWork(estimated[i], share, durations, targets);
    }
    assert estimated[..|estimated|] == estimated;
  }

  method AssignLongestFirst(work: seq<Piece>, shards: nat) returns (lists: seq<seq<Piece>>)
    requires shards >= 1
    ensures lists == PlanOf(work, shards)
  {
    lists := seq(shards, _ => []);
    var sorted := Sort(Before, work);
    for i := 0 to |sorted|
      invariant lists == Assign(sorted[..i], shards)
    {
      assert sorted[..i + 1][..i] == sorted[..i];
      var least := LeastLoaded(lists);
      lists := lists[least := lists[least] + [sorted[i]]];
    }
    assert sorted[..|sorted|] == sorted;
  }

  /** The planner. A file of the work is split by the targets its source names; `default` is the median
      of the measured durations. Every piece runs in one shard; where no duration is negative, no other
      way to run the same pieces on as many shards is better by more than Graham's factor, and no two
      shards differ by more than the longest piece. */
  method Plan(files: seq<string>, durations: map<string, real>, default: real, shards: nat,
              targets: string -> seq<string>)
    returns (lists: seq<seq<Piece>>)
    requires shards >= 1
    ensures lists == PlanOf(Work(files, durations, default, shards, targets), shards)
    ensures HoldsPieces(lists, files, durations, default, shards, targets) && LongestFirst(lists)
    ensures Schedules(lists, Work(files, durations, default, shards, targets), shards)
    ensures NonnegativeDurations(durations, default) ==>
              && NearOptimal(lists, Work(files, durations, default, shards, targets), shards)
              && Balanced(lists, Longest(Work(files, durations, default, shards, targets)))
  {
    var estimated := Estimates(Names(files), durations, default);
    var work := BuildWork(estimated, Share(estimated, shards), durations, targets);
    lists := AssignLongestFirst(work, shards);
    PlanSchedules(work, shards);
    PlanHoldsPieces(files, durations, default, shards, targets);
    PlanLongestFirst(work, shards);
    if NonnegativeDurations(durations, default) {
      WorkNonnegative(files, durations, default, shards, targets);
      forall other | Schedules(other, work, shards) ensures GrahamBound(shards, Makespan(lists), Makespan(other)) {
        PlanIsNearOptimal(work, shards, other);
      }
      PlanBalanced(work, shards);
    }
  }
}
