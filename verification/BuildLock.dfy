/** The lock a release build holds against the host's registered jobs. */
module BuildLock {

  // A build opens the lock file (creating it), takes the lock exclusively without waiting, and only then asks
  // systemd about every registered job. A job's unit counts as running from the moment it is being activated,
  // and its first act is to ask whether a build holds the lock: no lock file means no build; otherwise it
  // takes the lock shared without waiting and closes the file again at once.
  //
  // The steps of all builders, all jobs and all onlookers are interleaved in every possible way. systemd
  // answers for one job at a time, and any process may end at any moment, which closes its lock file.

  import opened Wrappers

  datatype Process = Builder(id: string) | Job(id: string) | Watcher(id: string)

  /** `flock` on the lock file: at most one exclusive holder, or any number of shared ones. */
  datatype Flock = Flock(exclusive: Option<Process>, shared: set<Process>)

  /** A build holding the lock has found some jobs stopped and some running so far. */
  datatype Build = Outside | Opened | Holding(stopped: set<string>, running: set<string>) | Building

  /** A job's unit: starting, its lock file opened, the lock held shared, admitted, at work. */
  datatype Service = Stopped | Starting | Reading | Probing | Admitted | Working

  /** The scheduler's question whether a build runs, which starts nothing. */
  datatype Watch = Away | Looking | Asking

  datatype Host = Host(file: bool, lock: Flock, builds: map<string, Build>, jobs: map<string, Service>,
                       watches: map<string, Watch>)

  datatype Event =
    | BuildOpens(id: string) | BuildLocks(id: string) | BuildLooks(id: string, job: string)
    | BuildDecides(id: string) | BuildEnds(id: string)
    | JobStarts(id: string) | JobFindsFile(id: string) | JobProbes(id: string) | JobCloses(id: string)
    | JobWorks(id: string) | JobEnds(id: string)
    | WatchFindsFile(id: string) | WatchProbes(id: string) | WatchEnds(id: string)
    | Reboot

  predicate Free(lock: Flock) {
    lock.exclusive.None? && lock.shared == {}
  }

  function Released(lock: Flock, p: Process): Flock {
    Flock(if lock.exclusive == Some(p) then None else lock.exclusive, lock.shared - {p})
  }

  function WithBuild(h: Host, id: string, b: Build): Host {
    h.(builds := h.builds[id := b])
  }

  function WithJob(h: Host, id: string, j: Service): Host {
    h.(jobs := h.jobs[id := j])
  }

  function WithWatch(h: Host, id: string, w: Watch): Host {
    h.(watches := h.watches[id := w])
  }

  /** One step of one build, where it may take that step. */
  function BuildStep(h: Host, e: Event): Option<Host>
    requires e.BuildOpens? || e.BuildLocks? || e.BuildLooks? || e.BuildDecides? || e.BuildEnds?
  {
    if e.id !in h.builds then None else
    var b := h.builds[e.id];
    match e
    case BuildOpens(id) =>
      if b != Outside then None else Some(WithBuild(h.(file := true), id, Opened))
    case BuildLocks(id) =>
      if b != Opened then None
      else if Free(h.lock) then
        Some(WithBuild(h.(lock := h.lock.(exclusive := Some(Builder(id)))), id, Holding({}, {})))
      else Some(WithBuild(h, id, Outside))
    case BuildLooks(id, job) =>
      if !b.Holding? || job !in h.jobs then None
      else if h.jobs[job] == Stopped then Some(WithBuild(h, id, b.(stopped := b.stopped + {job})))
      else Some(WithBuild(h, id, b.(running := b.running + {job})))
    case BuildDecides(id) =>
      if !b.Holding? || b.stopped + b.running != h.jobs.Keys then None
      else if b.running == {} then Some(WithBuild(h, id, Building))
      else Some(WithBuild(h.(lock := Released(h.lock, Builder(id))), id, Outside))
    case BuildEnds(id) =>
      Some(WithBuild(h.(lock := Released(h.lock, Builder(id))), id, Outside))
  }

  /** One step of one job's unit. */
  function JobStep(h: Host, e: Event): Option<Host>
    requires e.JobStarts? || e.JobFindsFile? || e.JobProbes? || e.JobCloses? || e.JobWorks? || e.JobEnds?
  {
    if e.id !in h.jobs then None else
    var j := h.jobs[e.id];
    match e
    case JobStarts(id) =>
      if j != Stopped then None else Some(WithJob(h, id, Starting))
    case JobFindsFile(id) =>
      if j != Starting then None else Some(WithJob(h, id, if h.file then Reading else Admitted))
    case JobProbes(id) =>
      if j != Reading then None
      else if h.lock.exclusive.Some? then Some(WithJob(h, id, Stopped))
      else Some(WithJob(h.(lock := h.lock.(shared := h.lock.shared + {Job(id)})), id, Probing))
    case JobCloses(id) =>
      if j != Probing then None else Some(WithJob(h.(lock := Released(h.lock, Job(id))), id, Admitted))
    case JobWorks(id) =>
      if j != Admitted then None else Some(WithJob(h, id, Working))
    case JobEnds(id) =>
      Some(WithJob(h.(lock := Released(h.lock, Job(id))), id, Stopped))
  }

  /** One step of one onlooker. */
  function WatchStep(h: Host, e: Event): Option<Host>
    requires e.WatchFindsFile? || e.WatchProbes? || e.WatchEnds?
  {
    if e.id !in h.watches then None else
    var w := h.watches[e.id];
    match e
    case WatchFindsFile(id) =>
      if w != Away then None else Some(WithWatch(h, id, if h.file then Looking else Away))
    case WatchProbes(id) =>
      if w != Looking then None
      else if h.lock.exclusive.Some? then Some(WithWatch(h, id, Away))
      else Some(WithWatch(h.(lock := h.lock.(shared := h.lock.shared + {Watcher(id)})), id, Asking))
    case WatchEnds(id) =>
      Some(WithWatch(h.(lock := Released(h.lock, Watcher(id))), id, Away))
  }

  predicate OfBuild(e: Event) {
    e.BuildOpens? || e.BuildLocks? || e.BuildLooks? || e.BuildDecides? || e.BuildEnds?
  }

  predicate OfWatch(e: Event) {
    e.WatchFindsFile? || e.WatchProbes? || e.WatchEnds?
  }

  /** `/run` is a tmpfs: a reboot ends every process and removes the lock file. */
  function Rebooted(h: Host): Host {
    Host(false, Flock(None, {}), map b | b in h.builds :: Outside, map j | j in h.jobs :: Stopped,
         map w | w in h.watches :: Away)
  }

  function Step(h: Host, e: Event): Option<Host> {
    if e == Reboot then Some(Rebooted(h)) else if OfBuild(e) then BuildStep(h, e)
      else if OfWatch(e) then WatchStep(h, e) else JobStep(h, e)
  }

  /** The host after the events in order, where every one of them may happen. */
  function Run(h: Host, es: seq<Event>): Option<Host>
    decreases es
  {
    if es == [] then Some(h) else
    match Step(h, es[0])
    case None => None
    case Some(next) => Run(next, es[1..])
  }

  /** Nothing is under way; the lock file may be left over from an earlier build. */
  ghost predicate Initial(h: Host) {
    && h.lock == Flock(None, {})
    && (forall b :: b in h.builds ==> h.builds[b] == Outside)
    && (forall j :: j in h.jobs ==> h.jobs[j] == Stopped)
    && (forall w :: w in h.watches ==> h.watches[w] == Away)
  }

  // ---- What every step keeps ----

  ghost predicate Holds(b: Build) {
    b.Holding? || b.Building?
  }

  /** A unit that still has to ask, and finds the lock file when it does. */
  ghost predicate Quiet(j: Service) {
    j == Stopped || j == Starting || j == Reading
  }

  ghost predicate ExclusiveIsTrue(h: Host) {
    && (forall p :: h.lock.exclusive == Some(p) ==> p.Builder? && p.id in h.builds && Holds(h.builds[p.id]))
    && (forall b :: b in h.builds && Holds(h.builds[b]) ==> h.lock.exclusive == Some(Builder(b)))
    && (h.lock.exclusive.Some? ==> h.lock.shared == {})
  }

  ghost predicate SharedIsTrue(h: Host) {
    && (forall p :: p in h.lock.shared ==>
         || (p.Job? && p.id in h.jobs && h.jobs[p.id] == Probing)
         || (p.Watcher? && p.id in h.watches && h.watches[p.id] == Asking))
    && (forall j :: j in h.jobs && h.jobs[j] == Probing ==> Job(j) in h.lock.shared)
    && (forall w :: w in h.watches && h.watches[w] == Asking ==> Watcher(w) in h.lock.shared)
  }

  ghost predicate FileIsThere(h: Host) {
    forall b :: b in h.builds && h.builds[b] != Outside ==> h.file
  }

  ghost predicate SeenStayQuiet(h: Host) {
    && (forall b, j :: b in h.builds && h.builds[b].Holding? && j in h.builds[b].stopped && j in h.jobs ==>
       Quiet(h.jobs[j]))
    && (forall b, j :: b in h.builds && h.builds[b].Building? && j in h.jobs ==> Quiet(h.jobs[j]))
  }

  ghost predicate Inv(h: Host) {
    ExclusiveIsTrue(h) && SharedIsTrue(h) && FileIsThere(h) && SeenStayQuiet(h)
  }

  lemma {:induction false} BuildKeepsExclusive(h: Host, e: Event)
    requires Inv(h) && OfBuild(e) && BuildStep(h, e).Some?
    ensures ExclusiveIsTrue(BuildStep(h, e).value)
  {
    match e
    case BuildOpens(_) =>
    case BuildLocks(_) =>
    case BuildLooks(_, _) =>
    case BuildDecides(_) =>
    case BuildEnds(_) =>
  }

  lemma {:induction false} BuildKeepsShared(h: Host, e: Event)
    requires Inv(h) && OfBuild(e) && BuildStep(h, e).Some?
    ensures SharedIsTrue(BuildStep(h, e).value)
  {
    match e
    case BuildOpens(_) =>
    case BuildLocks(_) =>
    case BuildLooks(_, _) =>
    case BuildDecides(_) =>
    case BuildEnds(_) =>
  }

  lemma {:induction false} BuildKeepsQuiet(h: Host, e: Event)
    requires Inv(h) && OfBuild(e) && BuildStep(h, e).Some?
    ensures SeenStayQuiet(BuildStep(h, e).value)
  {
    match e
    case BuildOpens(_) =>
    case BuildLocks(_) =>
    case BuildLooks(_, _) =>
    case BuildDecides(_) =>
    case BuildEnds(_) =>
  }

  lemma {:induction false} JobKeepsExclusive(h: Host, e: Event)
    requires Inv(h) && !OfBuild(e) && !OfWatch(e) && e != Reboot && JobStep(h, e).Some?
    ensures ExclusiveIsTrue(JobStep(h, e).value)
  {
    match e
    case JobStarts(_) =>
    case JobFindsFile(_) =>
    case JobProbes(_) =>
    case JobCloses(_) =>
    case JobWorks(_) =>
    case JobEnds(_) =>
  }

  lemma {:induction false} JobKeepsShared(h: Host, e: Event)
    requires Inv(h) && !OfBuild(e) && !OfWatch(e) && e != Reboot && JobStep(h, e).Some?
    ensures SharedIsTrue(JobStep(h, e).value)
  {
    match e
    case JobStarts(_) =>
    case JobFindsFile(_) =>
    case JobProbes(_) =>
    case JobCloses(_) =>
    case JobWorks(_) =>
    case JobEnds(_) =>
  }

  lemma {:induction false} JobKeepsQuiet(h: Host, e: Event)
    requires Inv(h) && !OfBuild(e) && !OfWatch(e) && e != Reboot && JobStep(h, e).Some?
    ensures SeenStayQuiet(JobStep(h, e).value)
  {
    match e
    case JobStarts(_) =>
    case JobFindsFile(_) =>
    case JobProbes(_) =>
    case JobCloses(_) =>
    case JobWorks(_) =>
    case JobEnds(_) =>
  }

  lemma {:induction false} WatchKeepsExclusive(h: Host, e: Event)
    requires Inv(h) && OfWatch(e) && WatchStep(h, e).Some?
    ensures ExclusiveIsTrue(WatchStep(h, e).value)
  {
    match e
    case WatchFindsFile(_) =>
    case WatchProbes(_) =>
    case WatchEnds(_) =>
  }

  lemma {:induction false} WatchKeepsShared(h: Host, e: Event)
    requires Inv(h) && OfWatch(e) && WatchStep(h, e).Some?
    ensures SharedIsTrue(WatchStep(h, e).value)
  {
    match e
    case WatchFindsFile(_) =>
    case WatchProbes(_) =>
    case WatchEnds(_) =>
  }

  lemma {:induction false} WatchKeepsQuiet(h: Host, e: Event)
    requires Inv(h) && OfWatch(e) && WatchStep(h, e).Some?
    ensures SeenStayQuiet(WatchStep(h, e).value)
  {
    match e
    case WatchFindsFile(_) =>
    case WatchProbes(_) =>
    case WatchEnds(_) =>
  }

  lemma {:induction false} StepKeepsFile(h: Host, e: Event)
    requires Inv(h) && Step(h, e).Some?
    ensures FileIsThere(Step(h, e).value)
  {
  }

  lemma {:induction false} StepKeepsInv(h: Host, e: Event)
    requires Inv(h) && Step(h, e).Some?
    ensures Inv(Step(h, e).value)
  {
    StepKeepsFile(h, e);
    if OfBuild(e) {
      BuildKeepsExclusive(h, e);
      BuildKeepsShared(h, e);
      BuildKeepsQuiet(h, e);
    } else if OfWatch(e) {
      WatchKeepsExclusive(h, e);
      WatchKeepsShared(h, e);
      WatchKeepsQuiet(h, e);
    } else if e != Reboot {
      JobKeepsExclusive(h, e);
      JobKeepsShared(h, e);
      JobKeepsQuiet(h, e);
    }
  }

  lemma {:induction false} RunKeepsInv(h: Host, es: seq<Event>)
    requires Inv(h) && Run(h, es).Some?
    ensures Inv(Run(h, es).value)
    decreases es
  {
    if es != [] {
      StepKeepsInv(h, es[0]);
      RunKeepsInv(Step(h, es[0]).value, es[1..]);
    }
  }

  // ---- Safety over every run ----

  /** Whatever happened: at most one build works, and while it works no job is at work or admitted. */
  lemma {:induction false} BuildWorksAlone(h: Host, es: seq<Event>, b: string)
    requires Initial(h) && Run(h, es).Some? && b in Run(h, es).value.builds && Run(h, es).value.builds[b] == Building
    ensures forall c :: c in Run(h, es).value.builds && Holds(Run(h, es).value.builds[c]) ==> c == b
    ensures forall j :: j in Run(h, es).value.jobs ==> Run(h, es).value.jobs[j] !in {Probing, Admitted, Working}
  {
    RunKeepsInv(h, es);
  }

  /** From the moment a build works until it ends, no unit starts its work. */
  lemma {:induction false} JobsWaitForBuild(h: Host, es: seq<Event>, b: string, more: seq<Event>, j: string)
    requires Initial(h) && Run(h, es).Some? && b in Run(h, es).value.builds && Run(h, es).value.builds[b] == Building
    requires Run(Run(h, es).value, more).Some? && BuildEnds(b) !in more && Reboot !in more
    ensures JobWorks(j) !in more
  {
    RunKeepsInv(h, es);
    NoJobWorks(Run(h, es).value, b, more, j);
  }

  lemma {:induction false} NoJobWorks(h: Host, b: string, more: seq<Event>, j: string)
    requires Inv(h) && b in h.builds && h.builds[b] == Building
    requires Run(h, more).Some? && BuildEnds(b) !in more && Reboot !in more
    ensures JobWorks(j) !in more
    decreases more
  {
    if more != [] {
      assert more == [more[0]] + more[1..];
      assert more[0] in more;
      StepKeepsInv(h, more[0]);
      StaysBuilding(h, b, more[0]);
      NoJobWorks(Step(h, more[0]).value, b, more[1..], j);
    }
  }

  lemma {:induction false} StaysBuilding(h: Host, b: string, e: Event)
    requires Inv(h) && b in h.builds && h.builds[b] == Building
    requires Step(h, e).Some? && e != BuildEnds(b) && e != Reboot
    ensures b in Step(h, e).value.builds && Step(h, e).value.builds[b] == Building && !e.JobWorks?
  {
  }

  // ---- What a refusal means ----

  /** A build is refused the lock exactly while another build holds it, or a job or onlooker is asking. */
  lemma {:induction false} LockRefusedExactly(h: Host, es: seq<Event>, b: string)
    requires Initial(h) && Run(h, es).Some? && Step(Run(h, es).value, BuildLocks(b)).Some?
    ensures Step(Run(h, es).value, BuildLocks(b)).value.builds[b] == Outside <==>
            || (exists c :: c in Run(h, es).value.builds && Holds(Run(h, es).value.builds[c]))
            || (exists j :: j in Run(h, es).value.jobs && Run(h, es).value.jobs[j] == Probing)
            || (exists w :: w in Run(h, es).value.watches && Run(h, es).value.watches[w] == Asking)
  {
    RunKeepsInv(h, es);
    var now := Run(h, es).value;
    if now.lock.exclusive.Some? {
      assert Holds(now.builds[now.lock.exclusive.value.id]);
    }
    if p :| p in now.lock.shared {
      assert (p.Job? && now.jobs[p.id] == Probing) || (p.Watcher? && now.watches[p.id] == Asking);
    }
  }

  /** A starting job is refused exactly while some build holds the lock. */
  lemma {:induction false} JobRefusedExactly(h: Host, es: seq<Event>, j: string)
    requires Initial(h) && Run(h, es).Some? && Step(Run(h, es).value, JobProbes(j)).Some?
    ensures Step(Run(h, es).value, JobProbes(j)).value.jobs[j] == Stopped <==>
            exists c :: c in Run(h, es).value.builds && Holds(Run(h, es).value.builds[c])
  {
    RunKeepsInv(h, es);
    var now := Run(h, es).value;
    if now.lock.exclusive.Some? {
      assert Holds(now.builds[now.lock.exclusive.value.id]);
    }
  }

  ghost predicate WatchIs(h: Option<Host>, id: string, w: Watch) {
    h.Some? && id in h.value.watches && h.value.watches[id] == w
  }

  /** An onlooker learns whether a build holds the lock, and leaves everything as it found it. */
  lemma {:induction false} OnlookerLearns(h: Host, es: seq<Event>, w: string)
    requires Initial(h) && Run(h, es).Some? && WatchIs(Run(h, es), w, Away)
    ensures var now := Run(h, es).value;
            var found, asked := [WatchFindsFile(w)], [WatchFindsFile(w), WatchProbes(w)];
            if !now.file then Run(now, found) == Some(now)
            else if exists b :: b in now.builds && Holds(now.builds[b]) then Run(now, asked) == Some(now)
            else WatchIs(Run(now, asked), w, Asking) && Run(now, asked + [WatchEnds(w)]) == Some(now)
  {
    RunKeepsInv(h, es);
    var now := Run(h, es).value;
    if now.file {
      LooksThenAsks(now, w);
      if now.lock.exclusive.Some? {
        assert Holds(now.builds[now.lock.exclusive.value.id]);
      } else {
        NoneHolds(now);
        AskedAndLeft(now, w);
        RunAppends(now, [WatchFindsFile(w), WatchProbes(w)], [WatchEnds(w)]);
      }
    } else {
      RunOne(now, WatchFindsFile(w));
      assert now.watches[w := Away] == now.watches;
    }
  }

  lemma {:induction false} LooksThenAsks(h: Host, w: string)
    requires h.file && w in h.watches && h.watches[w] == Away
    ensures Run(h, [WatchFindsFile(w), WatchProbes(w)])
            == if h.lock.exclusive.Some? then Some(h) else Step(WithWatch(h, w, Looking), WatchProbes(w))
  {
    var looking := WithWatch(h, w, Looking);
    RunMore(h, WatchFindsFile(w), [WatchProbes(w)]);
    assert [WatchFindsFile(w)] + [WatchProbes(w)] == [WatchFindsFile(w), WatchProbes(w)];
    RunOne(looking, WatchProbes(w));
    assert looking.watches[w := Away] == h.watches;
  }

  lemma {:induction false} NoneHolds(h: Host)
    requires Inv(h) && h.lock.exclusive.None?
    ensures !exists b :: b in h.builds && Holds(h.builds[b])
  {
  }

  lemma {:induction false} AskedAndLeft(h: Host, w: string)
    requires Inv(h) && h.lock.exclusive.None? && w in h.watches && h.watches[w] == Away
    ensures var asking := Step(WithWatch(h, w, Looking), WatchProbes(w));
            WatchIs(asking, w, Asking) && Run(asking.value, [WatchEnds(w)]) == Some(h)
  {
    var asking := Step(WithWatch(h, w, Looking), WatchProbes(w)).value;
    RunOne(asking, WatchEnds(w));
    assert Watcher(w) !in h.lock.shared;
    assert h.lock.shared + {Watcher(w)} - {Watcher(w)} == h.lock.shared;
    assert asking.watches[w := Away] == h.watches;
  }

  /** After a reboot the host is at rest, without a lock file, with the same builds, jobs and onlookers. */
  lemma {:induction false} RebootRests(h: Host, es: seq<Event>)
    requires Run(h, es).Some?
    ensures var r, now := Run(h, es + [Reboot]), Run(h, es).value;
            && r.Some? && Initial(r.value) && !r.value.file && r.value.builds.Keys == now.builds.Keys
            && r.value.jobs.Keys == now.jobs.Keys && r.value.watches.Keys == now.watches.Keys
  {
    RunAppends(h, es, [Reboot]);
    RunOne(Run(h, es).value, Reboot);
  }

  ghost predicate BuildIs(h: Option<Host>, id: string, b: Build) {
    h.Some? && id in h.value.builds && h.value.builds[id] == b
  }

  ghost predicate JobIs(h: Option<Host>, id: string, j: Service) {
    h.Some? && id in h.value.jobs && h.value.jobs[id] == j
  }

  /** On a host at rest a build gets to work, so the exclusion above is not bought by refusing everything. */
  lemma {:induction false} BuildGetsThrough(h: Host, b: string) returns (es: seq<Event>)
    requires Initial(h) && b in h.builds
    ensures BuildIs(Run(h, es), b, Building)
  {
    var ready := WithBuild(h.(file := true), b, Opened);
    var locked := Step(ready, BuildLocks(b)).value;
    var looks := LooksAtAll(locked, b, h.jobs.Keys);
    assert {} + h.jobs.Keys == h.jobs.Keys;
    DecidesToBuild(locked, b, looks);
    var rest := looks + [BuildDecides(b)];
    RunMore(ready, BuildLocks(b), rest);
    RunMore(h, BuildOpens(b), [BuildLocks(b)] + rest);
    es := [BuildOpens(b)] + ([BuildLocks(b)] + rest);
  }

  lemma {:induction false} DecidesToBuild(h: Host, b: string, looks: seq<Event>)
    requires b in h.builds && Run(h, looks) == Some(WithBuild(h, b, Holding(h.jobs.Keys, {})))
    ensures BuildIs(Run(h, looks + [BuildDecides(b)]), b, Building)
  {
    var looked := Run(h, looks).value;
    assert looked.builds[b] == Holding(h.jobs.Keys, {}) && h.jobs.Keys + {} == h.jobs.Keys;
    RunOne(looked, BuildDecides(b));
    RunAppends(h, looks, [BuildDecides(b)]);
  }

  lemma {:induction false} RunOne(h: Host, e: Event)
    ensures Run(h, [e]) == Step(h, e)
  {
    assert [e][1..] == [];
  }

  lemma {:induction false} RunMore(h: Host, e: Event, es: seq<Event>)
    requires Step(h, e).Some?
    ensures Run(h, [e] + es) == Run(Step(h, e).value, es)
  {
    assert ([e] + es)[1..] == es;
  }

  lemma {:induction false} LooksAtAll(h: Host, b: string, rest: set<string>) returns (es: seq<Event>)
    requires b in h.builds && h.builds[b].Holding? && h.builds[b].running == {} && rest <= h.jobs.Keys
    requires forall j :: j in h.jobs ==> h.jobs[j] == Stopped
    ensures Run(h, es) == Some(WithBuild(h, b, Holding(h.builds[b].stopped + rest, {})))
    decreases rest
  {
    if j :| j in rest {
      var next := Step(h, BuildLooks(b, j)).value;
      var more := LooksAtAll(next, b, rest - {j});
      es := [BuildLooks(b, j)] + more;
      RunMore(h, BuildLooks(b, j), more);
      assert h.builds[b].stopped + {j} + (rest - {j}) == h.builds[b].stopped + rest;
      assert next.builds[b] == Holding(h.builds[b].stopped + {j}, {});
      var last := Holding(h.builds[b].stopped + rest, {});
      assert next.builds[b := last] == h.builds[b := last];
    } else {
      es := [];
      assert h.builds[b].stopped + rest == h.builds[b].stopped;
      assert h.builds[b] == Holding(h.builds[b].stopped + rest, {});
      assert h.builds[b := h.builds[b]] == h.builds;
    }
  }

  /** A job that starts while no build holds the lock gets to work, whatever else is under way. */
  lemma {:induction false} JobGetsThrough(h: Host, es: seq<Event>, j: string) returns (more: seq<Event>)
    requires Initial(h) && Run(h, es).Some? && JobIs(Run(h, es), j, Stopped)
    requires forall b :: b in Run(h, es).value.builds ==> !Holds(Run(h, es).value.builds[b])
    ensures JobIs(Run(Run(h, es).value, more), j, Working)
  {
    RunKeepsInv(h, es);
    var now := Run(h, es).value;
    NoneHeld(now);
    more := JobWorksFrom(now, j);
  }

  lemma {:induction false} JobWorksFrom(now: Host, j: string) returns (more: seq<Event>)
    requires now.lock.exclusive.None? && JobIs(Some(now), j, Stopped)
    ensures JobIs(Run(now, more), j, Working)
  {
    var started := WithJob(now, j, Starting);
    if now.file {
      more := JobAsks(started, j);
    } else {
      more := JobFindsNone(started, j);
    }
    RunMore(now, JobStarts(j), more);
    more := [JobStarts(j)] + more;
  }

  lemma {:induction false} JobFindsNone(h: Host, j: string) returns (es: seq<Event>)
    requires !h.file && j in h.jobs && h.jobs[j] == Starting
    ensures JobIs(Run(h, es), j, Working)
  {
    var admitted := WithJob(h, j, Admitted);
    RunOne(admitted, JobWorks(j));
    RunMore(h, JobFindsFile(j), [JobWorks(j)]);
    es := [JobFindsFile(j)] + [JobWorks(j)];
  }

  lemma {:induction false} NoneHeld(h: Host)
    requires Inv(h) && forall b :: b in h.builds ==> !Holds(h.builds[b])
    ensures h.lock.exclusive.None?
  {
  }

  lemma {:induction false} JobAsks(h: Host, j: string) returns (es: seq<Event>)
    requires h.file && h.lock.exclusive.None? && j in h.jobs && h.jobs[j] == Starting
    ensures JobIs(Run(h, es), j, Working)
  {
    var reading := WithJob(h, j, Reading);
    var probing := Step(reading, JobProbes(j)).value;
    JobAdmitted(probing, j);
    RunMore(reading, JobProbes(j), [JobCloses(j)] + [JobWorks(j)]);
    RunMore(h, JobFindsFile(j), [JobProbes(j)] + ([JobCloses(j)] + [JobWorks(j)]));
    es := [JobFindsFile(j)] + ([JobProbes(j)] + ([JobCloses(j)] + [JobWorks(j)]));
  }

  lemma {:induction false} JobAdmitted(h: Host, j: string)
    requires j in h.jobs && h.jobs[j] == Probing
    ensures JobIs(Run(h, [JobCloses(j)] + [JobWorks(j)]), j, Working)
  {
    RunMore(h, JobCloses(j), [JobWorks(j)]);
    RunOne(Step(h, JobCloses(j)).value, JobWorks(j));
  }

  /** Both sides can be refused at once: a job asks while a build that will refuse because of it holds the lock. */
  lemma {:induction false} BothMayBeRefused(h: Host, b: string, j: string)
    requires Initial(h) && b in h.builds && h.jobs.Keys == {j}
    ensures var es := [JobStarts(j), BuildOpens(b), BuildLocks(b), BuildLooks(b, j)] +
            [JobFindsFile(j), JobProbes(j), BuildDecides(b)];
            BuildIs(Run(h, es), b, Outside) && JobIs(Run(h, es), j, Stopped)
  {
    var first := [JobStarts(j), BuildOpens(b), BuildLocks(b), BuildLooks(b, j)];
    JobStartsBuildLooks(h, b, j);
    RunAppends(h, first, [JobFindsFile(j), JobProbes(j), BuildDecides(b)]);
    BothRefused(Run(h, first).value, b, j);
  }

  /** The build holds the lock and has found the starting job running. */
  ghost predicate Meets(h: Host, b: string, j: string) {
    && h.file && h.lock == Flock(Some(Builder(b)), {}) && b in h.builds && h.builds[b] == Holding({}, {j})
    && h.jobs.Keys == {j} && h.jobs[j] == Starting
  }

  lemma {:induction false} JobStartsBuildLooks(h: Host, b: string, j: string)
    requires Initial(h) && b in h.builds && h.jobs.Keys == {j}
    ensures var es := [JobStarts(j), BuildOpens(b), BuildLocks(b), BuildLooks(b, j)];
            Run(h, es).Some? && Meets(Run(h, es).value, b, j)
  {
    var h1 := WithJob(h, j, Starting);
    var h2 := WithBuild(h1.(file := true), b, Opened);
    LockTaken(h2, b, j);
    RunMore(h1, BuildOpens(b), [BuildLocks(b), BuildLooks(b, j)]);
    RunMore(h, JobStarts(j), [BuildOpens(b)] + [BuildLocks(b), BuildLooks(b, j)]);
    FourInARow(JobStarts(j), BuildOpens(b), BuildLocks(b), BuildLooks(b, j));
  }

  lemma {:induction false} FourInARow(a: Event, b: Event, c: Event, d: Event)
    ensures [a] + ([b] + [c, d]) == [a, b, c, d]
  {
  }

  lemma {:induction false} LockTaken(h: Host, b: string, j: string)
    requires h.file && h.lock == Flock(None, {}) && b in h.builds && h.builds[b] == Opened
    requires h.jobs.Keys == {j} && h.jobs[j] == Starting
    ensures var es := [BuildLocks(b), BuildLooks(b, j)];
            Run(h, es).Some? && Meets(Run(h, es).value, b, j)
  {
    var locked := Step(h, BuildLocks(b)).value;
    assert locked.builds[b] == Holding({}, {}) && {} + {j} == {j};
    RunOne(locked, BuildLooks(b, j));
    RunMore(h, BuildLocks(b), [BuildLooks(b, j)]);
    assert [BuildLocks(b)] + [BuildLooks(b, j)] == [BuildLocks(b), BuildLooks(b, j)];
  }

  lemma {:induction false} BothRefused(h: Host, b: string, j: string)
    requires Meets(h, b, j)
    ensures var es := [JobFindsFile(j), JobProbes(j), BuildDecides(b)];
            BuildIs(Run(h, es), b, Outside) && JobIs(Run(h, es), j, Stopped)
  {
    var h1 := WithJob(h, j, Reading);
    var h2 := WithJob(h1, j, Stopped);
    RunOne(h2, BuildDecides(b));
    assert h2.builds[b].stopped + h2.builds[b].running == h2.jobs.Keys;
    RunMore(h1, JobProbes(j), [BuildDecides(b)]);
    RunMore(h, JobFindsFile(j), [JobProbes(j)] + [BuildDecides(b)]);
    assert [JobFindsFile(j)] + ([JobProbes(j)] + [BuildDecides(b)]) == [JobFindsFile(j), JobProbes(j), BuildDecides(b)];
  }

  // ---- Onlookers can only cause a refusal ----

  function Jobs(ps: set<Process>): set<Process> {
    set p | p in ps && p.Job?
  }

  /** The host without its onlookers. */
  function Unwatched(h: Host): Host {
    h.(lock := h.lock.(shared := Jobs(h.lock.shared)), watches := map w | w in h.watches :: Away)
  }

  /** The same step without onlookers: theirs vanish, and a build they refuse gives up by itself. */
  function WithoutWatch(h: Host, e: Event): seq<Event> {
    if OfWatch(e) then []
    else if e.BuildLocks? && !Free(h.lock) then [BuildEnds(e.id)]
    else [e]
  }

  function WithoutWatches(h: Host, es: seq<Event>): seq<Event>
    requires Run(h, es).Some?
    decreases es
  {
    if es == [] then [] else WithoutWatch(h, es[0]) + WithoutWatches(Step(h, es[0]).value, es[1..])
  }

  lemma {:induction false} BuildUnwatched(h: Host, e: Event)
    requires Inv(h) && OfBuild(e) && Step(h, e).Some?
    ensures Step(Unwatched(h), WithoutWatch(h, e)[0]) == Some(Unwatched(Step(h, e).value))
  {
    if e.BuildLocks? && !Free(h.lock) {
      assert h.lock.exclusive != Some(Builder(e.id));
      assert Jobs(h.lock.shared) - {Builder(e.id)} == Jobs(h.lock.shared);
    } else if e.BuildLocks? {
      assert Jobs(h.lock.shared) == {};
    } else if e.BuildDecides? || e.BuildEnds? {
      assert Jobs(h.lock.shared - {Builder(e.id)}) == Jobs(h.lock.shared) - {Builder(e.id)};
    }
  }

  lemma {:induction false} JobUnwatched(h: Host, e: Event)
    requires Inv(h) && !OfBuild(e) && !OfWatch(e) && e != Reboot && Step(h, e).Some?
    ensures Step(Unwatched(h), e) == Some(Unwatched(Step(h, e).value))
  {
    assert Jobs(h.lock.shared - {Job(e.id)}) == Jobs(h.lock.shared) - {Job(e.id)};
    assert Jobs(h.lock.shared + {Job(e.id)}) == Jobs(h.lock.shared) + {Job(e.id)};
  }

  lemma {:induction false} WatchUnwatched(h: Host, e: Event)
    requires Inv(h) && OfWatch(e) && Step(h, e).Some?
    ensures Unwatched(Step(h, e).value) == Unwatched(h)
  {
    var p := Watcher(e.id);
    assert Jobs(h.lock.shared - {p}) == Jobs(h.lock.shared);
    assert Jobs(h.lock.shared + {p}) == Jobs(h.lock.shared);
  }

  lemma {:induction false} StepUnwatched(h: Host, e: Event)
    requires Inv(h) && Step(h, e).Some?
    ensures Run(Unwatched(h), WithoutWatch(h, e)) == Some(Unwatched(Step(h, e).value))
  {
    if OfWatch(e) {
      WatchUnwatched(h, e);
    } else {
      var d := WithoutWatch(h, e)[0];
      assert WithoutWatch(h, e) == [d] && [d][1..] == [];
      if OfBuild(e) {
        BuildUnwatched(h, e);
      } else if e == Reboot {
        assert Rebooted(Unwatched(h)) == Unwatched(Rebooted(h));
      } else {
        JobUnwatched(h, e);
      }
    }
  }

  lemma {:induction false} RunAppends(h: Host, a: seq<Event>, b: seq<Event>)
    requires Run(h, a).Some?
    ensures Run(h, a + b) == Run(Run(h, a).value, b)
    decreases a
  {
    if a == [] {
      assert a + b == b;
    } else {
      assert (a + b)[1..] == a[1..] + b;
      RunAppends(Step(h, a[0]).value, a[1..], b);
    }
  }

  /**
    * Every run with onlookers reaches the same builds, jobs and lock file as a run in which nobody looks
    * on: their shared lock changes nothing but that a build may be refused.
    */
  lemma {:induction false} WatchingOnlyRefuses(h: Host, es: seq<Event>)
    requires Inv(h) && Run(h, es).Some?
    ensures Run(Unwatched(h), WithoutWatches(h, es)) == Some(Unwatched(Run(h, es).value))
    ensures forall e :: e in WithoutWatches(h, es) ==> !OfWatch(e)
    decreases es
  {
    if es != [] {
      var next := Step(h, es[0]).value;
      StepKeepsInv(h, es[0]);
      StepUnwatched(h, es[0]);
      WatchingOnlyRefuses(next, es[1..]);
      RunAppends(Unwatched(h), WithoutWatch(h, es[0]), WithoutWatches(next, es[1..]));
    }
  }
}
