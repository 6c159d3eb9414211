/** Every test target of a plan is executed exactly once. */
module ShardTargets {
  import opened Sorting
  import opened ShardPlan

  // ---- pieces with different targets ----

  ghost predicate TargetsOnce(s: seq<Piece>) {
    forall i, j :: 0 <= i < j < |s| ==> s[i].target != s[j].target
  }

  ghost predicate Runs(s: seq<Piece>, target: string) {
    exists i :: 0 <= i < |s| && s[i].target == target
  }

  /** One shard runs the target, once, and no other shard does. */
  ghost predicate RunsOnce(a: seq<seq<Piece>>, target: string) {
    exists k :: 0 <= k < |a| && Runs(a[k], target) && TargetsOnce(a[k])
                && forall j :: 0 <= j < |a| && j != k ==> !Runs(a[j], target)
  }

  ghost predicate RunsNever(a: seq<seq<Piece>>, target: string) {
    forall k :: 0 <= k < |a| ==> !Runs(a[k], target)
  }

  lemma {:induction false} OncePutBack(a: seq<Piece>, x: Piece, b: seq<Piece>)
    requires TargetsOnce(a + b) && !Runs(a + b, x.target)
    ensures TargetsOnce(a + [x] + b)
  {
    var s, t := a + b, a + [x] + b;
    assert forall i :: 0 <= i < |a| ==> t[i] == s[i];
    assert forall i :: |a| < i < |t| ==> t[i] == s[i - 1];
  }

  lemma {:induction false} OnceApart(s: seq<Piece>, k: nat)
    requires k < |s| && TargetsOnce(s)
    ensures TargetsOnce(s[..k]) && !Runs(s[..k], s[k].target)
  {
  }

  /** Rearranging keeps every target where it is listed once. */
  lemma {:induction false} OnceRearranged(s: seq<Piece>, t: seq<Piece>)
    requires multiset(s) == multiset(t) && TargetsOnce(s)
    ensures TargetsOnce(t)
    decreases |s|
  {
    if s == [] {
      SameElements(s, t);
    } else {
      var k := SameLast(s, t);
      var n, rest := |s| - 1, t[..k] + t[k + 1..];
      OnceApart(s, n);
      OnceRearranged(s[..n], rest);
      RunsKept(s[..n], rest, t[k].target);
      OncePutBack(t[..k], t[k], t[k + 1..]);
      CutAround(t, k);
    }
  }

  lemma {:induction false} CutAround(t: seq<Piece>, k: nat)
    requires k < |t|
    ensures t[..k] + [t[k]] + t[k + 1..] == t
  {
  }

  lemma {:induction false} FlattenOnce(a: seq<seq<Piece>>)
    requires TargetsOnce(Flatten(a))
    ensures forall k :: 0 <= k < |a| ==> TargetsOnce(a[k])
    ensures forall j, k, t :: 0 <= j < k < |a| && Runs(a[j], t) ==> !Runs(a[k], t)
    decreases |a|
  {
    if a != [] {
      var n := |a| - 1;
      OnceInParts(Flatten(a[..n]), a[n]);
      FlattenOnce(a[..n]);
      forall j, t | 0 <= j < n && Runs(a[j], t) ensures !Runs(a[n], t) {
        assert a[..n][j] == a[j];
        RunsFlat(a[..n], j, t);
      }
    }
  }

  lemma {:induction false} OnceInParts(a: seq<Piece>, b: seq<Piece>)
    requires TargetsOnce(a + b)
    ensures TargetsOnce(a) && TargetsOnce(b)
    ensures forall t :: Runs(a, t) ==> !Runs(b, t)
  {
    var all := a + b;
    assert forall i :: 0 <= i < |a| ==> a[i] == all[i];
    assert forall i :: 0 <= i < |b| ==> b[i] == all[|a| + i];
  }

  /** A schedule of pieces with different targets runs each of them once, and nothing else. */
  lemma {:induction false} ScheduledOnce(a: seq<seq<Piece>>, work: seq<Piece>, m: nat, target: string)
    requires Schedules(a, work, m) && TargetsOnce(work)
    ensures Runs(work, target) ==> RunsOnce(a, target)
    ensures !Runs(work, target) ==> RunsNever(a, target)
  {
    OnceRearranged(work, Flatten(a));
    FlattenOnce(a);
    RunsKept(Flatten(a), work, target);
    if Runs(work, target) {
      var k := RunsIn(a, target);
      forall j | 0 <= j < |a| && j != k ensures !Runs(a[j], target) {
      }
    } else {
      forall k | 0 <= k < |a| ensures !Runs(a[k], target) {
        RunsFlat(a, k, target);
      }
    }
  }

  lemma {:induction false} RunsKept(s: seq<Piece>, t: seq<Piece>, target: string)
    requires multiset(s) == multiset(t)
    ensures Runs(s, target) <==> Runs(t, target)
  {
    SameElements(s, t);
    if Runs(s, target) {
      var i :| 0 <= i < |s| && s[i].target == target;
      assert s[i] in t;
      var j :| 0 <= j < |t| && t[j] == s[i];
    }
    if Runs(t, target) {
      var i :| 0 <= i < |t| && t[i].target == target;
      assert t[i] in s;
      var j :| 0 <= j < |s| && s[j] == t[i];
    }
  }

  lemma {:induction false} RunsFlat(a: seq<seq<Piece>>, k: nat, target: string)
    requires k < |a|
    ensures Runs(a[k], target) ==> Runs(Flatten(a), target)
  {
    if Runs(a[k], target) {
      var i :| 0 <= i < |a[k]| && a[k][i].target == target;
      FlattenHolds(a, a[k], a[k][i]);
      var j :| 0 <= j < |Flatten(a)| && Flatten(a)[j] == a[k][i];
    }
  }

  lemma {:induction false} RunsIn(a: seq<seq<Piece>>, target: string) returns (k: nat)
    requires Runs(Flatten(a), target)
    ensures k < |a| && Runs(a[k], target)
  {
    var i :| 0 <= i < |Flatten(a)| && Flatten(a)[i].target == target;
    var shard := FlattenFrom(a, Flatten(a)[i]);
    k :| 0 <= k < |a| && a[k] == shard;
    var j :| 0 <= j < |shard| && shard[j] == Flatten(a)[i];
  }

  /** A file's targets are its own: each named once, by no other file, and none of them is a file. */
  ghost predicate OwnTargets(names: seq<string>, targets: string -> seq<string>) {
    && (forall n, i, j :: n in names && 0 <= i < j < |targets(n)| ==> targets(n)[i] != targets(n)[j])
    && (forall n, m, t :: n in names && m in names && n != m && t in targets(n) ==> t !in targets(m))
    && (forall n, m :: n in names && m in names ==> n !in targets(m))
  }

  /** The targets a file's work may run: itself or its own. */
  ghost predicate Belongs(name: string, targets: string -> seq<string>, target: string) {
    target == name || target in targets(name)
  }

  lemma {:induction false} FileWorkOnce(file: Piece, share: real, durations: map<string, real>,
                                        targets: string -> seq<string>)
    requires forall i, j :: 0 <= i < j < |targets(file.target)| ==> targets(file.target)[i] != targets(file.target)[j]
    ensures TargetsOnce(FileWork(file, share, durations, targets))
    ensures forall p :: p in FileWork(file, share, durations, targets) ==> Belongs(file.target, targets, p.target)
  {
  }

  lemma {:induction false} JoinedOnce(a: seq<Piece>, b: seq<Piece>)
    requires TargetsOnce(a) && TargetsOnce(b)
    requires forall p, q :: p in a && q in b ==> p.target != q.target
    ensures TargetsOnce(a + b)
  {
  }

  lemma {:induction false} WorkComesFrom(estimated: seq<Piece>, share: real, durations: map<string, real>,
                                         targets: string -> seq<string>, p: Piece) returns (k: nat)
    requires p in WorkOf(estimated, share, durations, targets)
    ensures k < |estimated| && p in FileWork(estimated[k], share, durations, targets)
    decreases |estimated|
  {
    var n := |estimated| - 1;
    if p in FileWork(estimated[n], share, durations, targets) {
      k := n;
    } else {
      k := WorkComesFrom(estimated[..n], share, durations, targets, p);
    }
  }

  lemma {:induction false} BelongsApart(names: seq<string>, targets: string -> seq<string>, n: string, m: string,
                                        t: string)
    requires OwnTargets(names, targets) && n in names && m in names && n != m && Belongs(n, targets, t)
    ensures !Belongs(m, targets, t)
  {
  }

  /** The work of the last file shares no target with that of the others. */
  lemma {:induction false} WorkApart(names: seq<string>, estimated: seq<Piece>, share: real,
                                     durations: map<string, real>, targets: string -> seq<string>, p: Piece, q: Piece)
    requires OwnTargets(names, targets) && TargetsOnce(estimated) && forall e :: e in estimated ==> e.target in names
    requires estimated != [] && p in WorkOf(estimated[..|estimated| - 1], share, durations, targets)
    requires q in FileWork(estimated[|estimated| - 1], share, durations, targets)
    ensures p.target != q.target
  {
    var n := |estimated| - 1;
    var k := WorkComesFrom(estimated[..n], share, durations, targets, p);
    assert estimated[k] in estimated && estimated[n] in estimated;
    FileWorkOnce(estimated[n], share, durations, targets);
    FileWorkOnce(estimated[k], share, durations, targets);
    BelongsApart(names, targets, estimated[k].target, estimated[n].target, p.target);
  }

  lemma {:induction false} WorkOnce(names: seq<string>, estimated: seq<Piece>, share: real,
                                    durations: map<string, real>, targets: string -> seq<string>)
    requires OwnTargets(names, targets) && TargetsOnce(estimated) && forall p :: p in estimated ==> p.target in names
    ensures TargetsOnce(WorkOf(estimated, share, durations, targets))
    decreases |estimated|
  {
    if estimated != [] {
      var n := |estimated| - 1;
      var before := WorkOf(estimated[..n], share, durations, targets);
      var last := FileWork(estimated[n], share, durations, targets);
      assert estimated[n] in estimated;
      WorkOnce(names, estimated[..n], share, durations, targets);
      FileWorkOnce(estimated[n], share, durations, targets);
      forall p, q | p in before && q in last ensures p.target != q.target {
        WorkApart(names, estimated, share, durations, targets, p, q);
      }
      JoinedOnce(before, last);
    }
  }

  /** The target runs by itself and its file does not, or the whole file runs and the target not by itself. */
  ghost predicate ExecutedOnce(a: seq<seq<Piece>>, name: string, target: string) {
    || (RunsOnce(a, name) && (target != name ==> RunsNever(a, target)))
    || (RunsOnce(a, target) && (target != name ==> RunsNever(a, name)))
  }

  /** Every test target of every selected file is executed exactly once. */
  lemma {:induction false} EveryTargetRunsOnce(files: seq<string>, durations: map<string, real>, default: real,
                                               shards: nat, targets: string -> seq<string>, name: string,
                                                 target: string)
    requires shards >= 1 && name in files && OwnTargets(Names(files), targets)
    requires target in (if |targets(name)| >= 2 then targets(name) else [name])
    ensures ExecutedOnce(PlanOf(Work(files, durations, default, shards, targets), shards), name, target)
  {
    var names := Names(files);
    var estimated := Estimates(names, durations, default);
    var share := Share(estimated, shards);
    var work := Work(files, durations, default, shards, targets);
    var i :| 0 <= i < |names| && names[i] == name;
    NamesOnce(files);
    forall p | p in estimated ensures p.target in names {
      var k :| 0 <= k < |estimated| && estimated[k] == p;
      assert p.target == names[k];
    }
    WorkOnce(names, estimated, share, durations, targets);
    PlanSchedules(work, shards);
    ScheduledOnce(PlanOf(work, shards), work, shards, name);
    ScheduledOnce(PlanOf(work, shards), work, shards, target);
    EitherInWork(names, estimated, share, durations, targets, i, target);
  }

  lemma {:induction false} EitherInWork(names: seq<string>, estimated: seq<Piece>, share: real,
                                        durations: map<string, real>, targets: string -> seq<string>, i: nat,
                                        target: string)
    requires OwnTargets(names, targets) && i < |estimated| && forall p :: p in estimated ==> p.target in names
    requires TargetsOnce(estimated)
    requires target in (if |targets(estimated[i].target)| >= 2 then targets(estimated[i].target)
             else [estimated[i].target])
    ensures var name, work := estimated[i].target, WorkOf(estimated, share, durations, targets);
            (Runs(work, name) && (target != name ==> !Runs(work, target))) ||
              (Runs(work, target) && (target != name ==> !Runs(work, name)))
  {
    var file := estimated[i];
    OwnWork(names, estimated, share, durations, targets, i, file.target);
    OwnWork(names, estimated, share, durations, targets, i, target);
    assert file in estimated;
    WholeOrPieces(file, share, durations, targets, target);
  }

  lemma {:induction false} PieceOf(s: seq<Piece>, target: string) returns (p: Piece)
    requires Runs(s, target)
    ensures p in s && p.target == target
  {
    var i :| 0 <= i < |s| && s[i].target == target;
    p := s[i];
  }

  lemma {:induction false} PieceRuns(s: seq<Piece>, p: Piece)
    requires p in s
    ensures Runs(s, p.target)
  {
    var i :| 0 <= i < |s| && s[i] == p;
  }

  /** A piece that belongs to a file comes from that file's work. */
  lemma {:induction false} OwnPiece(names: seq<string>, estimated: seq<Piece>, share: real,
                                    durations: map<string, real>, targets: string -> seq<string>, i: nat, p: Piece)
    requires OwnTargets(names, targets) && i < |estimated| && forall e :: e in estimated ==> e.target in names
    requires TargetsOnce(estimated) && Belongs(estimated[i].target, targets, p.target)
    requires p in WorkOf(estimated, share, durations, targets)
    ensures p in FileWork(estimated[i], share, durations, targets)
  {
    var j := WorkComesFrom(estimated, share, durations, targets, p);
    assert estimated[j] in estimated && estimated[i] in estimated;
    if j != i {
      FileWorkOnce(estimated[j], share, durations, targets);
      BelongsApart(names, targets, estimated[j].target, estimated[i].target, p.target);
    }
  }

  /** What belongs to a file is in the work exactly when the file's own work holds it. */
  lemma {:induction false} OwnWork(names: seq<string>, estimated: seq<Piece>, share: real, durations: map<string, real>,
                                   targets: string -> seq<string>, i: nat, t: string)
    requires OwnTargets(names, targets) && i < |estimated| && forall e :: e in estimated ==> e.target in names
    requires TargetsOnce(estimated) && Belongs(estimated[i].target, targets, t)
    ensures Runs(WorkOf(estimated, share, durations, targets), t) <==>
            Runs(FileWork(estimated[i], share, durations, targets), t)
  {
    var mine, work := FileWork(estimated[i], share, durations, targets), WorkOf(estimated, share, durations, targets);
    if Runs(mine, t) {
      var p := PieceOf(mine, t);
      WorkCoversFile(estimated, share, durations, targets, estimated[i]);
      PieceRuns(work, p);
    }
    if Runs(work, t) {
      var p := PieceOf(work, t);
      OwnPiece(names, estimated, share, durations, targets, i, p);
      PieceRuns(mine, p);
    }
  }

  lemma {:induction false} WholeOrPieces(file: Piece, share: real, durations: map<string, real>,
                                         targets: string -> seq<string>, target: string)
    requires file.target !in targets(file.target)
    requires target in (if |targets(file.target)| >= 2 then targets(file.target) else [file.target])
    ensures var mine := FileWork(file, share, durations, targets);
            || (Runs(mine, file.target) && (target != file.target ==> !Runs(mine, target)))
            || (Runs(mine, target) && (target != file.target ==> !Runs(mine, file.target)))
  {
    var mine := FileWork(file, share, durations, targets);
    var longest := if share > MIN_SPLIT_SECONDS then share else MIN_SPLIT_SECONDS;
    if file.seconds > longest && |targets(file.target)| >= 2 {
      var k :| 0 <= k < |targets(file.target)| && targets(file.target)[k] == target;
      assert mine[k].target == target;
      assert forall j :: 0 <= j < |mine| ==> mine[j].target == targets(file.target)[j];
    } else {
      assert |mine| == 1 && mine[0].target == file.target;
    }
  }

  // ---- when a file is split, and what its pieces cost ----

  ghost predicate Costs(a: seq<seq<Piece>>, target: string, seconds: real) {
    exists k, i :: 0 <= k < |a| && 0 <= i < |a[k]| && a[k][i] == Piece(target, seconds)
  }

  /** As targets: each runs once at its cost and the whole file never; or the other way round. */
  ghost predicate RunsAs(a: seq<seq<Piece>>, name: string, seconds: real, split: bool, ts: seq<string>,
                         durations: map<string, real>) {
    if split then
      && RunsNever(a, name)
      && forall t :: t in ts ==>
           RunsOnce(a, t) && Costs(a, t, if t in durations then durations[t] else seconds / |ts| as real)
    else
      RunsOnce(a, name) && Costs(a, name, seconds) && forall t :: t in ts ==> RunsNever(a, t)
  }

  lemma {:induction false} CostsInPlan(a: seq<seq<Piece>>, work: seq<Piece>, m: nat, p: Piece)
    requires Schedules(a, work, m) && p in work
    ensures Costs(a, p.target, p.seconds)
  {
    SameElements(Flatten(a), work);
    var s := FlattenFrom(a, p);
    var k :| 0 <= k < |a| && a[k] == s;
    var i :| 0 <= i < |s| && s[i] == p;
    assert a[k][i] == Piece(p.target, p.seconds);
  }

  /** Whether a target of a file, or the file, is in the plan. */
  lemma {:induction false} RunsOfFile(files: seq<string>, durations: map<string, real>, default: real, shards: nat,
                                      targets: string -> seq<string>, name: string, t: string)
    requires shards >= 1 && name in files && OwnTargets(Names(files), targets) && Belongs(name, targets, t)
    ensures var a := PlanOf(Work(files, durations, default, shards, targets), shards);
            var all := AllSeconds(Names(files), durations, default);
            var pieces := FilePieces(name, all, durations, default, shards, targets);
            && (if Runs(pieces, t) then RunsOnce(a, t) else RunsNever(a, t))
            && forall p :: p in pieces ==> Costs(a, p.target, p.seconds)
  {
    var names := Names(files);
    var estimated := Estimates(names, durations, default);
    var share, work := Share(estimated, shards), Work(files, durations, default, shards, targets);
    var i :| 0 <= i < |names| && names[i] == name;
    NamesOnce(files);
    forall p | p in estimated ensures p.target in names {
      var k :| 0 <= k < |estimated| && estimated[k] == p;
      assert p.target == names[k];
    }
    WorkOnce(names, estimated, share, durations, targets);
    PlanSchedules(work, shards);
    ScheduledOnce(PlanOf(work, shards), work, shards, t);
    OwnWork(names, estimated, share, durations, targets, i, t);
    TotalIsAllSeconds(names, durations, default);
    FileWorkIsPieces(name, AllSeconds(names, durations, default), durations, default, shards, targets);
    assert estimated[i] in estimated;
    WorkCoversFile(estimated, share, durations, targets, estimated[i]);
    forall p | p in FileWork(estimated[i], share, durations, targets)
      ensures Costs(PlanOf(work, shards), p.target, p.seconds)
    {
      CostsInPlan(PlanOf(work, shards), work, shards, p);
    }
  }

  /** A file runs as its targets, each its own piece at its measured time or an even part, exactly when it names two
      or more, is longer than a minute and longer than its share of two slots a shard; otherwise it runs whole. */
  lemma {:induction false} FileSplitsExactly(files: seq<string>, durations: map<string, real>, default: real,
                                             shards: nat, targets: string -> seq<string>, name: string)
    requires shards >= 1 && name in files && OwnTargets(Names(files), targets)
    ensures var seconds := if name in durations then durations[name] else default;
            var all := AllSeconds(Names(files), durations, default);
            var ts := targets(name);
            RunsAs(PlanOf(Work(files, durations, default, shards, targets), shards), name, seconds,
                   |ts| >= 2 && seconds > 60.0 && (2 * shards) as real * seconds > all, ts, durations)
  {
    var ts := targets(name);
    var pieces := FilePieces(name, AllSeconds(Names(files), durations, default), durations, default, shards, targets);
    var a := PlanOf(Work(files, durations, default, shards, targets), shards);
    RunsOfFile(files, durations, default, shards, targets, name, name);
    forall t | t in ts ensures t != name && AsListed(a, pieces, t) {
      RunsOfFile(files, durations, default, shards, targets, name, t);
    }
    FileRunsAs(a, name, AllSeconds(Names(files), durations, default), durations, default, shards, targets);
  }

  ghost predicate AsListed(a: seq<seq<Piece>>, pieces: seq<Piece>, t: string) {
    if Runs(pieces, t) then RunsOnce(a, t) else RunsNever(a, t)
  }

  lemma {:induction false} FileRunsAs(a: seq<seq<Piece>>, name: string, all: real, durations: map<string, real>,
                                      default: real, shards: nat, targets: string -> seq<string>)
    requires name !in targets(name)
    requires var pieces := FilePieces(name, all, durations, default, shards, targets);
             && AsListed(a, pieces, name) && (forall t :: t in targets(name) ==> AsListed(a, pieces, t))
             && forall p :: p in pieces ==> Costs(a, p.target, p.seconds)
    ensures var seconds := if name in durations then durations[name] else default;
            RunsAs(a, name, seconds, RunsSplit(seconds, all, shards, |targets(name)|), targets(name), durations)
  {
    var pieces := FilePieces(name, all, durations, default, shards, targets);
    PiecesCost(name, all, durations, default, shards, targets);
  }

  lemma {:induction false} PiecesCost(name: string, all: real, durations: map<string, real>, default: real,
                                      shards: nat, targets: string -> seq<string>)
    ensures var seconds := if name in durations then durations[name] else default;
            var ts, pieces := targets(name), FilePieces(name, all, durations, default, shards, targets);
            if RunsSplit(seconds, all, shards, |ts|) then
              && (name !in ts ==> !Runs(pieces, name))
              && forall t :: t in ts ==>
                   Piece(t, if t in durations then durations[t] else seconds / |ts| as real) in pieces
            else
              pieces == [Piece(name, seconds)] && Runs(pieces, name)
  {
    var seconds := if name in durations then durations[name] else default;
    var ts, pieces := targets(name), FilePieces(name, all, durations, default, shards, targets);
    if RunsSplit(seconds, all, shards, |ts|) {
      forall t | t in ts
        ensures Piece(t, if t in durations then durations[t] else seconds / |ts| as real) in pieces
      {
        var k :| 0 <= k < |ts| && ts[k] == t;
        assert pieces[k] == Piece(t, if t in durations then durations[t] else seconds / |ts| as real);
      }
      assert forall i :: 0 <= i < |pieces| ==> pieces[i].target == ts[i];
    } else {
      assert pieces[0].target == name;
    }
  }
}
