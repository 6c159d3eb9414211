/** The group of every item, from what the items already say: the rule by which a split scatters them. */
module DefinitionGroups {
  import opened Wrappers
  import opened Definitions
  import opened DefinitionFiles

  // ---- what the items say ----

  function Replaced(s: string, from: char, to: char): (r: string)
    ensures |r| == |s| && forall k :: 0 <= k < |s| ==> r[k] == if s[k] == from then to else s[k]
  {
    seq(|s|, k requires 0 <= k < |s| => if s[k] == from then to else s[k])
  }

  function Kebab(name: string): string {
    Replaced(name, '_', '-')
  }

  const PREFIX := "foundation-platform."

  function WithoutPrefix(s: string): string {
    if PREFIX <= s then s[|PREFIX|..] else s
  }

  /** The items of a collection by id; of an id listed twice the last item. */
  function ById(es: seq<Entry>): (r: map<string, Item>)
    ensures forall id :: id in r <==> exists k :: 0 <= k < |es| && es[k].id == id
    decreases es
  {
    if es == [] then map[]
    else
      var n := |es| - 1;
      assert forall k :: 0 <= k < n ==> es[..n][k] == es[k];
      ById(es[..n])[es[n].id := es[n].item]
  }

  predicate IsFirst(ids: seq<string>, passes: string -> bool, k: nat) {
    k < |ids| && passes(ids[k]) && forall j | 0 <= j < k :: !passes(ids[j])
  }

  /** The first of the ids that passes. */
  function First(ids: seq<string>, passes: string -> bool): (r: Option<string>)
    ensures r.Some? ==> exists k :: 0 <= k < |ids| && ids[k] == r.value && IsFirst(ids, passes, k)
    ensures r.None? ==> forall k :: 0 <= k < |ids| ==> !passes(ids[k])
    decreases ids
  {
    if ids == [] then None
    else
      var n := |ids| - 1;
      assert forall k :: 0 <= k < n ==> ids[..n][k] == ids[k];
      match First(ids[..n], passes)
      case Some(id) => Some(id)
      case None => if passes(ids[n]) then Some(ids[n]) else None
  }

  /** The serving node and the Gold node of a lane. */
  predicate Serves(lane: string, node: string) {
    node == lane + "-by-pnu-section-packs" || node == "gold-" + lane
  }

  datatype Facts = Facts(lanes: seq<string>, nodeIds: seq<string>, edgeIds: seq<string>, edges: map<string, Item>,
                         jobIds: seq<string>, jobs: map<string, Item>, memory: seq<string>, subjects: seq<string>)

  predicate HasTo(edge: Item) {
    "to" in edge && edge["to"].Str?
  }

  predicate Carries(job: Item) {
    "pipeline_graph_edges" in job ==> Elements(job["pipeline_graph_edges"]).Some?
  }

  /** The members the rule reads have their shape. */
  predicate Sound(f: Facts) {
    && (forall e | e in f.edgeIds :: e in f.edges)
    && (forall e | e in f.edges :: HasTo(f.edges[e]))
    && (forall j | j in f.jobIds :: j in f.jobs)
    && (forall j | j in f.jobs :: Carries(f.jobs[j]))
  }

  /** The edges a job says it carries, of those there are. */
  function Carried(f: Facts, job: string): seq<string>
    requires Sound(f) && job in f.jobs
  {
    if "pipeline_graph_edges" in f.jobs[job] then
      Known(f.edges, Elements(f.jobs[job]["pipeline_graph_edges"]).value)
    else
      []
  }

  function Known(edges: map<string, Item>, ids: seq<string>): (r: seq<string>)
    ensures forall e :: e in r <==> e in ids && e in edges
  {
    if ids == [] then [] else (if ids[0] in edges then [ids[0]] else []) + Known(edges, ids[1..])
  }

  function EndOf(edges: map<string, Item>, id: string): string
    requires id in edges && HasTo(edges[id])
  {
    edges[id]["to"].s
  }

  function Ends(edges: map<string, Item>, ids: seq<string>): (r: seq<string>)
    requires forall k :: 0 <= k < |ids| ==> ids[k] in edges && HasTo(edges[ids[k]])
    ensures |r| == |ids| && forall k :: 0 <= k < |ids| ==> r[k] == EndOf(edges, ids[k])
  {
    seq(|ids|, k requires 0 <= k < |ids| => EndOf(edges, ids[k]))
  }

  /** The nodes a job writes: where the edges it carries end. */
  function Writes(f: Facts, job: string): seq<string>
    requires Sound(f) && job in f.jobs
  {
    Ends(f.edges, Carried(f, job))
  }

  // ---- the rule ----

  function LaneOf(f: Facts, lanes: seq<string>, node: string): Option<string> {
    if node in f.nodeIds then First(lanes, lane => Serves(lane, node)) else None
  }

  /** A job joins the lane of the first node it writes that has one. */
  function JobGroup(f: Facts, job: string): string
    requires Sound(f) && job in f.jobs
  {
    match First(Writes(f, job), node => LaneOf(f, f.lanes, node).Some?)
    case Some(node) =>
      assert exists k :: 0 <= k < |Writes(f, job)| && Writes(f, job)[k] == node && LaneOf(f, f.lanes, node).Some?;
      LaneOf(f, f.lanes, node).value
    case None => Kebab(job)
  }

  predicate WritesIn(f: Facts, job: string, node: string)
    requires Sound(f)
  {
    job in f.jobs && node in Writes(f, job)
  }

  predicate CarriesIn(f: Facts, job: string, edge: string)
    requires Sound(f)
  {
    job in f.jobs && edge in Carried(f, job)
  }

  /** A lane's node is the lane's, another the first job's that writes it. */
  function NodeClaim(f: Facts, jobs: seq<string>, node: string): Option<string>
    requires Sound(f) && forall j :: j in jobs ==> j in f.jobs
  {
    match LaneOf(f, f.lanes, node)
    case Some(lane) => Some(lane)
    case None =>
      match First(jobs, job => Sound(f) && WritesIn(f, job, node))
      case Some(job) => Some(JobGroup(f, job))
      case None => None
  }

  function EdgeClaim(f: Facts, jobs: seq<string>, edge: string): Option<string>
    requires Sound(f) && forall j :: j in jobs ==> j in f.jobs
  {
    match First(jobs, job => Sound(f) && CarriesIn(f, job, edge))
    case Some(job) => Some(JobGroup(f, job))
    case None => None
  }

  function NodeGroup(f: Facts, node: string): string
    requires Sound(f)
  {
    match NodeClaim(f, f.jobIds, node)
    case Some(group) => group
    case None => node
  }

  function EdgeGroup(f: Facts, edge: string): string
    requires Sound(f) && edge in f.edges
  {
    match EdgeClaim(f, f.jobIds, edge)
    case Some(group) => group
    case None => NodeGroup(f, EndOf(f.edges, edge))
  }

  function SubjectOf(lane: string): string {
    PREFIX + Replaced(lane, '-', '_') + "_by_pnu"
  }

  /** The last lane whose schema has this name. */
  function LaneOfSubject(lanes: seq<string>, subject: string): (r: Option<string>)
    ensures r.Some? ==> r.value in lanes && SubjectOf(r.value) == subject
    ensures r.None? ==> forall lane :: lane in lanes ==> SubjectOf(lane) != subject
    decreases lanes
  {
    if lanes == [] then None
    else
      var n := |lanes| - 1;
      assert lanes == lanes[..n] + [lanes[n]];
      if SubjectOf(lanes[n]) == subject then Some(lanes[n]) else LaneOfSubject(lanes[..n], subject)
  }

  function SubjectGroup(f: Facts, subject: string): string {
    match LaneOfSubject(f.lanes, subject)
    case Some(lane) => lane
    case None => Replaced(WithoutPrefix(subject), '_', '-')
  }

  function MemoryGroup(f: Facts, job: string): string
    requires Sound(f)
  {
    if job in f.jobIds then JobGroup(f, job) else Kebab(job)
  }

  function IdsIn(f: Facts, slot: Slot): seq<string> {
    match slot
    case Jobs => f.jobIds
    case Nodes => f.nodeIds
    case Edges => f.edgeIds
    case Lanes => f.lanes
    case Memory => f.memory
    case Subjects => f.subjects
  }

  /** The group of an item: a lane is its own, and the others follow the lanes or the jobs. */
  function GroupOf(f: Facts, slot: Slot, id: string): string
    requires Sound(f) && id in IdsIn(f, slot)
  {
    match slot
    case Jobs => JobGroup(f, id)
    case Nodes => NodeGroup(f, id)
    case Edges => EdgeGroup(f, id)
    case Lanes => id
    case Memory => MemoryGroup(f, id)
    case Subjects => SubjectGroup(f, id)
  }

  ghost predicate Follows(f: Facts, slot: Slot, m: map<string, string>)
    requires Sound(f)
  {
    forall id :: id in IdsIn(f, slot) ==> id in m && m[id] == GroupOf(f, slot, id)
  }

  /** The groups are the rule's, for every item there is. */
  ghost predicate ByRule(f: Facts, groups: Groups)
    requires Sound(f) && Complete(groups)
  {
    forall slot: Slot :: Follows(f, slot, groups[slot])
  }

  // ---- the rule by the members of the items ----

  /** `g` is `s` with a dash for every underscore. */
  ghost predicate Dashed(s: string, g: string) {
    |g| == |s| && forall k :: 0 <= k < |s| ==> g[k] == if s[k] == '_' then '-' else s[k]
  }

  ghost predicate LaneNode(f: Facts, lane: string, node: string) {
    node in f.nodeIds && (node == "gold-" + lane || node == lane + "-by-pnu-section-packs")
  }

  ghost predicate HasLane(f: Facts, node: string) {
    exists lane :: lane in f.lanes && LaneNode(f, lane, node)
  }

  ghost predicate FirstLane(f: Facts, node: string, lane: string) {
    exists i :: 0 <= i < |f.lanes| && f.lanes[i] == lane && LaneNode(f, lane, node)
                && forall k :: 0 <= k < i ==> !LaneNode(f, f.lanes[k], node)
  }

  ghost predicate EndsAt(f: Facts, edge: string, node: string) {
    edge in f.edges && "to" in f.edges[edge] && f.edges[edge]["to"] == Str(node)
  }

  /** The edges the job lists, those there are not included. */
  ghost function ListedEdges(job: Item): seq<string> {
    if "pipeline_graph_edges" in job then
      match job["pipeline_graph_edges"]
      case Str(s) => seq(|s|, i requires 0 <= i < |s| => [s[i]])
      case Other(_, _, Some(es)) => es
      case Other(_, _, None) => []
    else
      []
  }

  ghost predicate EndsInLane(f: Facts, edge: string) {
    exists node :: EndsAt(f, edge, node) && HasLane(f, node)
  }

  /** The edge at `i` is the first listed that ends at a lane's node, and the lane is `g`. */
  ghost predicate JoinsAt(f: Facts, es: seq<string>, i: nat, g: string) {
    && i < |es| && (forall k :: 0 <= k < i ==> !EndsInLane(f, es[k]))
    && exists node :: EndsAt(f, es[i], node) && FirstLane(f, node, g)
  }

  ghost predicate JobPlaced(f: Facts, job: string, g: string)
    requires job in f.jobs
  {
    var es := ListedEdges(f.jobs[job]);
    if exists i :: 0 <= i < |es| && EndsInLane(f, es[i]) then exists i: nat :: JoinsAt(f, es, i, g) else Dashed(job, g)
  }

  ghost predicate WritesNode(f: Facts, job: string, node: string) {
    job in f.jobs && exists k :: 0 <= k < |ListedEdges(f.jobs[job])| && EndsAt(f, ListedEdges(f.jobs[job])[k], node)
  }

  ghost predicate ListsEdge(f: Facts, job: string, edge: string) {
    job in f.jobs && edge in f.edges && edge in ListedEdges(f.jobs[job])
  }

  /** The first of the jobs that does so has the group. */
  ghost predicate FirstJobHas(f: Facts, does: string -> bool, jobs: map<string, string>, g: string) {
    exists i :: 0 <= i < |f.jobIds| && does(f.jobIds[i]) && f.jobIds[i] in jobs && g == jobs[f.jobIds[i]]
                && forall k :: 0 <= k < i ==> !does(f.jobIds[k])
  }

  /** A lane's node has the lane, another the group of the first job that writes it, another is its own. */
  ghost predicate NodePlaced(f: Facts, jobs: map<string, string>, node: string, g: string) {
    if HasLane(f, node) then FirstLane(f, node, g)
    else if exists j :: j in f.jobIds && WritesNode(f, j, node) then
      FirstJobHas(f, j => WritesNode(f, j, node), jobs, g)
    else g == node
  }

  /** An edge has the group of the first job that lists it, another that of the node where it ends. */
  ghost predicate EdgePlaced(f: Facts, jobs: map<string, string>, edge: string, g: string) {
    if exists j :: j in f.jobIds && ListsEdge(f, j, edge) then FirstJobHas(f, j => ListsEdge(f, j, edge), jobs, g)
    else exists node :: EndsAt(f, edge, node) && NodePlaced(f, jobs, node, g)
  }

  /** The name of a lane's schema. */
  ghost predicate NamesSchema(lane: string, subject: string) {
    exists name :: |name| == |lane| && subject == "foundation-platform." + name + "_by_pnu"
                   && forall k :: 0 <= k < |lane| ==> name[k] == if lane[k] == '-' then '_' else lane[k]
  }

  /** A schema has the last lane it is named for, another its name without the platform's. */
  ghost predicate SubjectPlaced(f: Facts, subject: string, g: string) {
    if exists l :: l in f.lanes && NamesSchema(l, subject) then
      exists i :: 0 <= i < |f.lanes| && f.lanes[i] == g && NamesSchema(g, subject)
                  && forall k :: i < k < |f.lanes| ==> !NamesSchema(f.lanes[k], subject)
    else if "foundation-platform." <= subject then
      exists rest :: subject == "foundation-platform." + rest && Dashed(rest, g)
    else
      Dashed(subject, g)
  }

  /** A memory entry goes with its job. */
  ghost predicate MemoryPlaced(f: Facts, jobs: map<string, string>, entry: string, g: string) {
    if entry in f.jobIds then entry in jobs && g == jobs[entry] else Dashed(entry, g)
  }

  ghost predicate JobsPlaced(f: Facts, jobs: map<string, string>) {
    forall j :: j in f.jobIds ==> j in f.jobs && j in jobs && JobPlaced(f, j, jobs[j])
  }

  ghost predicate NodesPlaced(f: Facts, jobs: map<string, string>, nodes: map<string, string>) {
    forall n :: n in f.nodeIds ==> n in nodes && NodePlaced(f, jobs, n, nodes[n])
  }

  ghost predicate EdgesPlaced(f: Facts, jobs: map<string, string>, edges: map<string, string>) {
    forall e :: e in f.edgeIds ==> e in edges && EdgePlaced(f, jobs, e, edges[e])
  }

  ghost predicate MemoriesPlaced(f: Facts, jobs: map<string, string>, memory: map<string, string>) {
    forall m :: m in f.memory ==> m in memory && MemoryPlaced(f, jobs, m, memory[m])
  }

  ghost predicate SubjectsPlaced(f: Facts, subjects: map<string, string>) {
    forall s :: s in f.subjects ==> s in subjects && SubjectPlaced(f, s, subjects[s])
  }

  /** Where every item goes, by what the items say. */
  ghost predicate Placed(f: Facts, groups: Groups)
    requires Complete(groups)
  {
    && JobsPlaced(f, groups[Jobs]) && NodesPlaced(f, groups[Jobs], groups[Nodes])
    && EdgesPlaced(f, groups[Jobs], groups[Edges]) && MemoriesPlaced(f, groups[Jobs], groups[Memory])
    && SubjectsPlaced(f, groups[Subjects])
    && forall l :: l in f.lanes ==> l in groups[Lanes] && groups[Lanes][l] == l
  }

  lemma {:induction false} LaneOfExactly(f: Facts, node: string)
    ensures LaneOf(f, f.lanes, node).Some? <==> HasLane(f, node)
    ensures LaneOf(f, f.lanes, node).Some? ==> FirstLane(f, node, LaneOf(f, f.lanes, node).value)
  {
    var serves := lane => Serves(lane, node);
    if node in f.nodeIds {
      if First(f.lanes, serves).Some? {
        var k :| 0 <= k < |f.lanes| && f.lanes[k] == First(f.lanes, serves).value && IsFirst(f.lanes, serves, k);
        assert serves(f.lanes[k]) && LaneNode(f, f.lanes[k], node);
        assert forall j :: 0 <= j < k ==> !serves(f.lanes[j]);
      } else {
        assert forall k :: 0 <= k < |f.lanes| ==> !serves(f.lanes[k]);
      }
    }
  }

  lemma {:induction false} EndExactly(f: Facts, edge: string)
    requires Sound(f) && edge in f.edges
    ensures forall node :: EndsAt(f, edge, node) <==> node == EndOf(f.edges, edge)
  {
  }

  lemma {:induction false} CarriedListed(f: Facts, job: string)
    requires Sound(f) && job in f.jobs
    ensures Carried(f, job) == Known(f.edges, ListedEdges(f.jobs[job]))
    ensures forall e :: e in Carried(f, job) <==> e in ListedEdges(f.jobs[job]) && e in f.edges
  {
  }

  lemma {:induction false} WritesExactly(f: Facts, job: string, node: string)
    requires Sound(f)
    ensures WritesIn(f, job, node) <==> WritesNode(f, job, node)
  {
    if job in f.jobs {
      CarriedListed(f, job);
      var carried, es := Carried(f, job), ListedEdges(f.jobs[job]);
      if node in Writes(f, job) {
        var k :| 0 <= k < |carried| && Writes(f, job)[k] == node;
        assert carried[k] in es;
        var i :| 0 <= i < |es| && es[i] == carried[k];
        EndExactly(f, es[i]);
        assert EndsAt(f, es[i], node);
      }
      if k :| 0 <= k < |es| && EndsAt(f, es[k], node) {
        EndExactly(f, es[k]);
        assert es[k] in carried;
        var i :| 0 <= i < |carried| && carried[i] == es[k];
        assert Writes(f, job)[i] == node;
      }
    }
  }

  /** The first of listed edges that is there and whose end passes. */
  ghost predicate FirstPassing(f: Facts, es: seq<string>, passes: string -> bool, i: nat)
    requires Sound(f)
  {
    && i <= |es| && (forall k :: 0 <= k < i ==> !EndPasses(f, es[k], passes))
    && (i < |es| ==> EndPasses(f, es[i], passes))
  }

  lemma {:induction false} FirstEnd(f: Facts, es: seq<string>, passes: string -> bool) returns (i: nat)
    requires Sound(f)
    ensures FirstPassing(f, es, passes, i)
    ensures First(Ends(f.edges, Known(f.edges, es)), passes) == if i < |es| then Some(EndOf(f.edges, es[i])) else None
    decreases |es|
  {
    i := 0;
    if es != [] {
      FirstEndStep(f, es, passes);
      if !EndPasses(f, es[0], passes) {
        i := FirstEnd(f, es[1..], passes);
        PassingNext(f, es, passes, i);
        i := i + 1;
      }
    }
  }

  lemma {:induction false} PassingNext(f: Facts, es: seq<string>, passes: string -> bool, i: nat)
    requires Sound(f) && es != [] && !EndPasses(f, es[0], passes) && FirstPassing(f, es[1..], passes, i)
    ensures FirstPassing(f, es, passes, i + 1)
  {
    forall k | 0 <= k < i + 1 ensures !EndPasses(f, es[k], passes) {
      assert k > 0 ==> es[k] == es[1..][k - 1];
    }
  }

  lemma {:induction false} FirstEndStep(f: Facts, es: seq<string>, passes: string -> bool)
    requires Sound(f) && es != []
    ensures First(Ends(f.edges, Known(f.edges, es)), passes)
            == if EndPasses(f, es[0], passes) then Some(EndOf(f.edges, es[0]))
               else First(Ends(f.edges, Known(f.edges, es[1..])), passes)
  {
    EndsHead(f, es);
    if es[0] in f.edges {
      FirstOfMore(EndOf(f.edges, es[0]), Ends(f.edges, Known(f.edges, es[1..])), passes);
    }
  }

  lemma {:induction false} EndsHead(f: Facts, es: seq<string>)
    requires Sound(f) && es != []
    ensures var more := Ends(f.edges, Known(f.edges, es[1..]));
            Ends(f.edges, Known(f.edges, es)) == if es[0] in f.edges then [EndOf(f.edges, es[0])] + more else more
  {
  }

  ghost predicate EndPasses(f: Facts, edge: string, passes: string -> bool)
    requires Sound(f)
  {
    edge in f.edges && passes(EndOf(f.edges, edge))
  }

  lemma {:induction false} FirstOfMore(id: string, ids: seq<string>, passes: string -> bool)
    ensures First([id] + ids, passes) == if passes(id) then Some(id) else First(ids, passes)
    decreases |ids|
  {
    var all, n := [id] + ids, |ids|;
    assert all[..n] == if n == 0 then [] else [id] + ids[..n - 1];
    if n > 0 {
      FirstOfMore(id, ids[..n - 1], passes);
    }
  }

  lemma {:induction false} JobIsPlaced(f: Facts, job: string)
    requires Sound(f) && job in f.jobs
    ensures JobPlaced(f, job, JobGroup(f, job))
  {
    var es := ListedEdges(f.jobs[job]);
    var passes := node => LaneOf(f, f.lanes, node).Some?;
    CarriedListed(f, job);
    forall i | 0 <= i < |es| ensures EndPasses(f, es[i], passes) <==> EndsInLane(f, es[i]) {
      EndInLane(f, es[i]);
    }
    var i := FirstEnd(f, es, passes);
    if i < |es| {
      var node := EndOf(f.edges, es[i]);
      EndExactly(f, es[i]);
      LaneOfExactly(f, node);
      assert JoinsAt(f, es, i, JobGroup(f, job));
    }
  }

  lemma {:induction false} EndInLane(f: Facts, edge: string)
    requires Sound(f)
    ensures EndPasses(f, edge, node => LaneOf(f, f.lanes, node).Some?) <==> EndsInLane(f, edge)
  {
    if edge in f.edges {
      EndExactly(f, edge);
      LaneOfExactly(f, EndOf(f.edges, edge));
    }
  }

  lemma {:induction false} FirstJobIs(f: Facts, passes: string -> bool, does: string -> bool, jobs: map<string, string>)
    requires Sound(f) && JobsByRule(f, jobs)
    requires forall j :: j in f.jobIds ==> (passes(j) <==> does(j))
    ensures First(f.jobIds, passes).Some? <==> exists j :: j in f.jobIds && does(j)
    ensures First(f.jobIds, passes).Some? ==> First(f.jobIds, passes).value in f.jobs
    ensures First(f.jobIds, passes).Some? ==> FirstJobHas(f, does, jobs, JobGroup(f, First(f.jobIds, passes).value))
  {
    if First(f.jobIds, passes).Some? {
      var k :| 0 <= k < |f.jobIds| && f.jobIds[k] == First(f.jobIds, passes).value && IsFirst(f.jobIds, passes, k);
      assert f.jobIds[k] in f.jobIds && does(f.jobIds[k]);
      forall i | 0 <= i < k ensures !does(f.jobIds[i]) {
        assert f.jobIds[i] in f.jobIds;
      }
    } else {
      forall j | j in f.jobIds ensures !does(j) {
        var k :| 0 <= k < |f.jobIds| && f.jobIds[k] == j;
        assert !passes(f.jobIds[k]);
      }
    }
  }

  lemma {:induction false} NodeIsPlaced(f: Facts, jobs: map<string, string>, node: string)
    requires Sound(f) && JobsByRule(f, jobs)
    ensures NodePlaced(f, jobs, node, NodeGroup(f, node))
  {
    LaneOfExactly(f, node);
    forall j | j in f.jobIds ensures WritesIn(f, j, node) <==> WritesNode(f, j, node) {
      WritesExactly(f, j, node);
    }
    FirstJobIs(f, j => Sound(f) && WritesIn(f, j, node), j => WritesNode(f, j, node), jobs);
  }

  lemma {:induction false} EdgeIsPlaced(f: Facts, jobs: map<string, string>, edge: string)
    requires Sound(f) && edge in f.edges && JobsByRule(f, jobs)
    ensures EdgePlaced(f, jobs, edge, EdgeGroup(f, edge))
  {
    forall j | j in f.jobIds ensures CarriesIn(f, j, edge) <==> ListsEdge(f, j, edge) {
      CarriedListed(f, j);
    }
    FirstJobIs(f, j => Sound(f) && CarriesIn(f, j, edge), j => ListsEdge(f, j, edge), jobs);
    EndExactly(f, edge);
    NodeIsPlaced(f, jobs, EndOf(f.edges, edge));
  }

  lemma {:induction false} SchemaOf(lane: string, subject: string)
    ensures SubjectOf(lane) == subject <==> NamesSchema(lane, subject)
  {
    var name := Replaced(lane, '-', '_');
    if NamesSchema(lane, subject) {
      var other :| |other| == |lane| && subject == "foundation-platform." + other + "_by_pnu"
                   && forall k :: 0 <= k < |lane| ==> other[k] == if lane[k] == '-' then '_' else lane[k];
      assert other == name;
    }
  }

  ghost predicate LastNamed(lanes: seq<string>, subject: string, i: nat) {
    i < |lanes| && SubjectOf(lanes[i]) == subject && forall k :: i < k < |lanes| ==> SubjectOf(lanes[k]) != subject
  }

  lemma {:induction false} LastSchema(lanes: seq<string>, subject: string) returns (i: nat)
    requires LaneOfSubject(lanes, subject).Some?
    ensures LastNamed(lanes, subject, i) && LaneOfSubject(lanes, subject) == Some(lanes[i])
  {
    i := |lanes| - 1;
    if SubjectOf(lanes[i]) != subject {
      var n := i;
      i := LastSchema(lanes[..n], subject);
      assert forall k :: 0 <= k < n ==> lanes[k] == lanes[..n][k];
    }
  }

  lemma {:induction false} SubjectIsPlaced(f: Facts, subject: string)
    ensures SubjectPlaced(f, subject, SubjectGroup(f, subject))
  {
    if LaneOfSubject(f.lanes, subject).Some? {
      var i := LastSchema(f.lanes, subject);
      assert f.lanes[i] in f.lanes;
      forall k | i <= k < |f.lanes| ensures SubjectOf(f.lanes[k]) == subject <==> NamesSchema(f.lanes[k], subject) {
        SchemaOf(f.lanes[k], subject);
      }
    } else {
      forall l | l in f.lanes ensures !NamesSchema(l, subject) {
        SchemaOf(l, subject);
      }
      var prefix := "foundation-platform.";
      if prefix <= subject {
        assert subject == prefix + subject[|prefix|..];
      }
    }
  }

  ghost predicate JobsByRule(f: Facts, jobs: map<string, string>)
    requires Sound(f)
  {
    forall j :: j in f.jobIds ==> j in jobs && jobs[j] == JobGroup(f, j)
  }

  lemma {:induction false} AllJobsPlaced(f: Facts, jobs: map<string, string>)
    requires Sound(f) && Follows(f, Jobs, jobs)
    ensures JobsByRule(f, jobs) && JobsPlaced(f, jobs)
  {
    forall j | j in f.jobIds ensures j in jobs && jobs[j] == JobGroup(f, j) && JobPlaced(f, j, jobs[j]) {
      assert j in IdsIn(f, Jobs);
      JobIsPlaced(f, j);
    }
  }

  lemma {:induction false} AllNodesPlaced(f: Facts, jobs: map<string, string>, nodes: map<string, string>)
    requires Sound(f) && JobsByRule(f, jobs) && Follows(f, Nodes, nodes)
    ensures NodesPlaced(f, jobs, nodes)
  {
    forall n | n in f.nodeIds ensures n in nodes && NodePlaced(f, jobs, n, nodes[n]) {
      assert n in IdsIn(f, Nodes);
      NodeIsPlaced(f, jobs, n);
    }
  }

  lemma {:induction false} AllEdgesPlaced(f: Facts, jobs: map<string, string>, edges: map<string, string>)
    requires Sound(f) && JobsByRule(f, jobs) && Follows(f, Edges, edges)
    ensures EdgesPlaced(f, jobs, edges)
  {
    forall e | e in f.edgeIds ensures e in edges && EdgePlaced(f, jobs, e, edges[e]) {
      assert e in IdsIn(f, Edges);
      EdgeIsPlaced(f, jobs, e);
    }
  }

  lemma {:induction false} OthersPlaced(f: Facts, jobs: map<string, string>, memory: map<string, string>,
                                        subjects: map<string, string>)
    requires Sound(f) && JobsByRule(f, jobs) && Follows(f, Memory, memory) && Follows(f, Subjects, subjects)
    ensures MemoriesPlaced(f, jobs, memory) && SubjectsPlaced(f, subjects)
  {
    forall m | m in f.memory ensures m in memory && MemoryPlaced(f, jobs, m, memory[m]) {
      assert m in IdsIn(f, Memory);
    }
    forall s | s in f.subjects ensures s in subjects && SubjectPlaced(f, s, subjects[s]) {
      assert s in IdsIn(f, Subjects);
      SubjectIsPlaced(f, s);
    }
  }

  /** The rule places every item by what the items say. */
  lemma {:induction false} RuleIsPlaced(f: Facts, groups: Groups)
    requires Sound(f) && Complete(groups) && ByRule(f, groups)
    ensures Placed(f, groups)
  {
    assert forall slot: Slot :: Follows(f, slot, groups[slot]);
    AllJobsPlaced(f, groups[Jobs]);
    AllNodesPlaced(f, groups[Jobs], groups[Nodes]);
    AllEdgesPlaced(f, groups[Jobs], groups[Edges]);
    OthersPlaced(f, groups[Jobs], groups[Memory], groups[Subjects]);
    assert forall l :: l in f.lanes ==> l in IdsIn(f, Lanes);
  }

  // ---- the loops ----

  /** `setdefault(key, value)` for each key. */
  method SetDefaults(m: map<string, string>, keys: seq<string>, value: string) returns (r: map<string, string>)
    ensures forall k :: k in r <==> k in m || k in keys
    ensures forall k :: k in r ==> r[k] == if k in m then m[k] else value
  {
    r := m;
    for i := 0 to |keys|
      invariant forall k :: k in r <==> k in m || k in keys[..i]
      invariant forall k :: k in r ==> r[k] == if k in m then m[k] else value
    {
      assert keys[..i + 1] == keys[..i] + [keys[i]];
      if keys[i] !in r {
        r := r[keys[i] := value];
      }
    }
    assert keys[..|keys|] == keys;
  }

  /** The map holds exactly what these lanes claim. */
  ghost predicate LaneClaims(f: Facts, lanes: seq<string>, m: map<string, string>) {
    forall n :: if n in m then LaneOf(f, lanes, n) == Some(m[n]) else LaneOf(f, lanes, n) == None
  }

  lemma {:induction false} LaneClaimsMore(f: Facts, lanes: seq<string>, lane: string, m: map<string, string>,
                                          more: map<string, string>)
    requires LaneClaims(f, lanes, m)
    requires forall k :: k in more <==> k in m || (k in f.nodeIds && Serves(lane, k))
    requires forall k :: k in more ==> more[k] == if k in m then m[k] else lane
    ensures LaneClaims(f, lanes + [lane], more)
  {
    assert (lanes + [lane])[..|lanes|] == lanes;
    forall n
      ensures if n in more then LaneOf(f, lanes + [lane], n) == Some(more[n]) else LaneOf(f, lanes + [lane], n) == None
    {
      assert if n in m then LaneOf(f, lanes, n) == Some(m[n]) else LaneOf(f, lanes, n) == None;
    }
  }

  method LaneNodes(f: Facts) returns (m: map<string, string>)
    ensures LaneClaims(f, f.lanes, m)
  {
    m := map[];
    for i := 0 to |f.lanes|
      invariant LaneClaims(f, f.lanes[..i], m)
    {
      var lane := f.lanes[i];
      assert f.lanes[..i + 1] == f.lanes[..i] + [lane];
      var packs, gold := lane + "-by-pnu-section-packs", "gold-" + lane;
      ghost var before := m;
      m := SetDefaults(m, (if packs in f.nodeIds then [packs] else []) +
        (if gold in f.nodeIds then [gold] else []), lane);
      LaneClaimsMore(f, f.lanes[..i], lane, before, m);
    }
    assert f.lanes[..|f.lanes|] == f.lanes;
  }

  /** The first node a job writes that a lane has claimed. */
  method FindClaimed(written: seq<string>, nodeGroup: map<string, string>) returns (k: nat)
    ensures k <= |written| && (forall j :: 0 <= j < k ==> written[j] !in nodeGroup) &&
            (k < |written| ==> written[k] in nodeGroup)
  {
    k := 0;
    while k < |written| && written[k] !in nodeGroup
      invariant 0 <= k <= |written|
      invariant forall j :: 0 <= j < k ==> written[j] !in nodeGroup
    {
      k := k + 1;
    }
  }

  method JobGroups(f: Facts, nodeGroup: map<string, string>) returns (m: map<string, string>)
    requires Sound(f) && LaneClaims(f, f.lanes, nodeGroup)
    ensures forall j :: j in m <==> j in f.jobIds
    ensures forall j :: j in f.jobIds ==> m[j] == JobGroup(f, j)
  {
    m := map[];
    for i := 0 to |f.jobIds|
      invariant forall j :: j in m <==> j in f.jobIds[..i]
      invariant forall j :: j in m ==> j in f.jobIds && m[j] == JobGroup(f, j)
    {
      var job := f.jobIds[i];
      assert f.jobIds[..i + 1] == f.jobIds[..i] + [job];
      var written := Writes(f, job);
      var k := FindClaimed(written, nodeGroup);
      JobJoins(f, nodeGroup, job, k);
      m := m[job := if k < |written| then nodeGroup[written[k]] else Kebab(job)];
    }
    assert f.jobIds[..|f.jobIds|] == f.jobIds;
  }

  lemma {:induction false} JobJoins(f: Facts, nodeGroup: map<string, string>, job: string, k: nat)
    requires Sound(f) && LaneClaims(f, f.lanes, nodeGroup) && job in f.jobs && k <= |Writes(f, job)|
    requires forall j :: 0 <= j < k ==> Writes(f, job)[j] !in nodeGroup
    requires k < |Writes(f, job)| ==> Writes(f, job)[k] in nodeGroup
    ensures JobGroup(f, job) == if k < |Writes(f, job)| then nodeGroup[Writes(f, job)[k]] else Kebab(job)
  {
    var written := Writes(f, job);
    forall j | 0 <= j < |written| ensures LaneOf(f, f.lanes, written[j]).Some? <==> written[j] in nodeGroup {
    }
    FirstIs(written, node => LaneOf(f, f.lanes, node).Some?, k);
  }

  lemma {:induction false} FirstIs(ids: seq<string>, passes: string -> bool, k: nat)
    requires k <= |ids| && (forall j :: 0 <= j < k ==> !passes(ids[j])) && (k < |ids| ==> passes(ids[k]))
    ensures First(ids, passes) == if k < |ids| then Some(ids[k]) else None
    decreases ids
  {
    if ids != [] {
      var n := |ids| - 1;
      FirstIs(ids[..n], passes, if k < n then k else n);
    }
  }

  /** The map holds exactly what the lanes and then these jobs claim. */
  ghost predicate NodeClaims(f: Facts, jobs: seq<string>, m: map<string, string>)
    requires Sound(f) && forall j :: j in jobs ==> j in f.jobs
  {
    forall n :: if n in m then NodeClaim(f, jobs, n) == Some(m[n]) else NodeClaim(f, jobs, n) == None
  }

  ghost predicate EdgeClaims(f: Facts, jobs: seq<string>, m: map<string, string>)
    requires Sound(f) && forall j :: j in jobs ==> j in f.jobs
  {
    forall e :: if e in m then EdgeClaim(f, jobs, e) == Some(m[e]) else EdgeClaim(f, jobs, e) == None
  }

  lemma {:induction false} NodeClaimsMore(f: Facts, jobs: seq<string>, job: string, m: map<string, string>,
                                          more: map<string, string>)
    requires Sound(f) && job in f.jobs && (forall j :: j in jobs ==> j in f.jobs) && NodeClaims(f, jobs, m)
    requires forall k :: k in more <==> k in m || k in Writes(f, job)
    requires forall k :: k in more ==> more[k] == if k in m then m[k] else JobGroup(f, job)
    ensures (forall j :: j in jobs + [job] ==> j in f.jobs) && NodeClaims(f, jobs + [job], more)
  {
    assert (jobs + [job])[..|jobs|] == jobs;
    forall n ensures NodeClaim(f, jobs + [job], n) == if n in more then Some(more[n]) else None {
      assert if n in m then NodeClaim(f, jobs, n) == Some(m[n]) else NodeClaim(f, jobs, n) == None;
    }
  }

  lemma {:induction false} EdgeClaimNext(f: Facts, jobs: seq<string>, job: string, e: string)
    requires Sound(f) && job in f.jobs && (forall j :: j in jobs ==> j in f.jobs)
    ensures (forall j :: j in jobs + [job] ==> j in f.jobs)
    ensures EdgeClaim(f, jobs + [job], e) == if EdgeClaim(f, jobs, e).Some? then EdgeClaim(f, jobs, e)
                                             else if e in Carried(f, job) then Some(JobGroup(f, job)) else None
  {
    assert (jobs + [job])[..|jobs|] == jobs;
  }

  lemma {:induction false} EdgeClaimsMore(f: Facts, jobs: seq<string>, job: string, m: map<string, string>,
                                          more: map<string, string>)
    requires Sound(f) && job in f.jobs && (forall j :: j in jobs ==> j in f.jobs) && EdgeClaims(f, jobs, m)
    requires forall k :: k in more <==> k in m || k in Carried(f, job)
    requires forall k :: k in more ==> more[k] == if k in m then m[k] else JobGroup(f, job)
    ensures (forall j :: j in jobs + [job] ==> j in f.jobs) && EdgeClaims(f, jobs + [job], more)
  {
    forall e ensures EdgeClaim(f, jobs + [job], e) == if e in more then Some(more[e]) else None {
      EdgeClaimNext(f, jobs, job, e);
      assert if e in m then EdgeClaim(f, jobs, e) == Some(m[e]) else EdgeClaim(f, jobs, e) == None;
    }
  }

  method ClaimNodes(f: Facts, lanes: map<string, string>, jobGroup: map<string, string>)
    returns (m: map<string, string>)
    requires Sound(f) && LaneClaims(f, f.lanes, lanes)
    requires forall j :: j in f.jobIds ==> j in jobGroup && jobGroup[j] == JobGroup(f, j)
    ensures NodeClaims(f, f.jobIds, m)
  {
    m := lanes;
    assert f.jobIds[..0] == [];
    for i := 0 to |f.jobIds|
      invariant NodeClaims(f, f.jobIds[..i], m)
    {
      var job := f.jobIds[i];
      assert f.jobIds[..i + 1] == f.jobIds[..i] + [job];
      ghost var before := m;
      m := SetDefaults(m, Writes(f, job), jobGroup[job]);
      NodeClaimsMore(f, f.jobIds[..i], job, before, m);
    }
    assert f.jobIds[..|f.jobIds|] == f.jobIds;
  }

  method ClaimEdges(f: Facts, jobGroup: map<string, string>) returns (m: map<string, string>)
    requires Sound(f)
    requires forall j :: j in f.jobIds ==> j in jobGroup && jobGroup[j] == JobGroup(f, j)
    ensures EdgeClaims(f, f.jobIds, m)
  {
    m := map[];
    assert f.jobIds[..0] == [];
    for i := 0 to |f.jobIds|
      invariant EdgeClaims(f, f.jobIds[..i], m)
    {
      var job := f.jobIds[i];
      assert f.jobIds[..i + 1] == f.jobIds[..i] + [job];
      ghost var before := m;
      m := SetDefaults(m, Carried(f, job), jobGroup[job]);
      EdgeClaimsMore(f, f.jobIds[..i], job, before, m);
    }
    assert f.jobIds[..|f.jobIds|] == f.jobIds;
  }

  lemma {:induction false} FollowsJobs(f: Facts, jobs: map<string, string>)
    requires Sound(f)
    ensures Follows(f, Jobs, jobs) <==> forall j :: j in f.jobIds ==> j in jobs && jobs[j] == JobGroup(f, j)
  {
    forall j | j in f.jobIds ensures GroupOf(f, Jobs, j) == JobGroup(f, j) {
    }
  }

  /** A node that is not in the map is its own group. */
  ghost predicate DefaultsToItself(f: Facts, nodes: map<string, string>)
    requires Sound(f)
  {
    forall n :: if n in nodes then nodes[n] == NodeGroup(f, n) else NodeGroup(f, n) == n
  }

  method EdgeGroups(f: Facts, jobs: map<string, string>, nodes: map<string, string>)
    returns (edges: map<string, string>)
    requires Sound(f)
    requires Follows(f, Jobs, jobs) && DefaultsToItself(f, nodes)
    ensures Follows(f, Edges, edges)
  {
    FollowsJobs(f, jobs);
    edges := ClaimEdges(f, jobs);
    ghost var claimed := edges;
    for i := 0 to |f.edgeIds|
      invariant forall e :: e in edges <==> e in claimed || e in f.edgeIds[..i]
      invariant forall e :: e in edges && e in f.edges ==> edges[e] == EdgeGroup(f, e)
    {
      var e := f.edgeIds[i];
      assert f.edgeIds[..i + 1] == f.edgeIds[..i] + [e];
      var to := EndOf(f.edges, e);
      edges := SetDefaults(edges, [e], if to in nodes then nodes[to] else to);
    }
    assert f.edgeIds[..|f.edgeIds|] == f.edgeIds;
  }

  method NodeGroups(f: Facts, lanes: map<string, string>, jobs: map<string, string>)
    returns (nodes: map<string, string>)
    requires Sound(f) && LaneClaims(f, f.lanes, lanes)
    requires forall j :: j in f.jobIds ==> j in jobs && jobs[j] == JobGroup(f, j)
    ensures forall n :: n in f.nodeIds ==> n in nodes
    ensures DefaultsToItself(f, nodes)
  {
    nodes := ClaimNodes(f, lanes, jobs);
    ghost var claimed := nodes;
    for i := 0 to |f.nodeIds|
      invariant forall n :: n in nodes <==> n in claimed || n in f.nodeIds[..i]
      invariant DefaultsToItself(f, nodes)
    {
      assert f.nodeIds[..i + 1] == f.nodeIds[..i] + [f.nodeIds[i]];
      nodes := SetDefaults(nodes, [f.nodeIds[i]], f.nodeIds[i]);
    }
    assert f.nodeIds[..|f.nodeIds|] == f.nodeIds;
  }

  /** The group of every item, by what the documents' items say. */
  method GroupsOf(f: Facts) returns (groups: Groups)
    requires Sound(f)
    ensures Complete(groups) && ByRule(f, groups) && Placed(f, groups)
  {
    var jobs, nodes := JobAndNodeGroups(f);
    var edges := EdgeGroups(f, jobs, nodes);
    var lanes, subjects := LaneAndSubjectGroups(f);
    var memory := MemoryGroups(f, jobs);
    groups := map[Jobs := jobs, Nodes := nodes, Edges := edges, Lanes := lanes, Memory := memory, Subjects := subjects];
    SixByRule(f, jobs, nodes, edges, lanes, memory, subjects, groups);
    RuleIsPlaced(f, groups);
  }

  method LaneAndSubjectGroups(f: Facts) returns (lanes: map<string, string>, subjects: map<string, string>)
    requires Sound(f)
    ensures Follows(f, Lanes, lanes) && Follows(f, Subjects, subjects)
  {
    lanes := map lane | lane in f.lanes :: lane;
    subjects := map s | s in f.subjects :: SubjectGroup(f, s);
  }

  lemma {:induction false} SixByRule(f: Facts, jobs: map<string, string>, nodes: map<string, string>,
                                     edges: map<string, string>, lanes: map<string, string>,
                                     memory: map<string, string>, subjects: map<string, string>, groups: Groups)
    requires Sound(f)
    requires Follows(f, Jobs, jobs) && Follows(f, Nodes, nodes) && Follows(f, Edges, edges)
    requires Follows(f, Lanes, lanes) && Follows(f, Memory, memory) && Follows(f, Subjects, subjects)
    requires groups == map[Jobs := jobs, Nodes := nodes, Edges := edges, Lanes := lanes, Memory := memory,
                           Subjects := subjects]
    ensures Complete(groups) && ByRule(f, groups)
  {
    assert groups[Jobs] == jobs && groups[Nodes] == nodes && groups[Edges] == edges;
    assert groups[Lanes] == lanes && groups[Memory] == memory && groups[Subjects] == subjects;
    EachByRule(f, groups);
  }

  lemma {:induction false} EachByRule(f: Facts, groups: Groups)
    requires Sound(f)
    requires forall slot :: slot in SLOTS ==> slot in groups && Follows(f, slot, groups[slot])
    ensures Complete(groups) && ByRule(f, groups)
  {
    AllSlots();
    assert SLOTS[..|SLOTS|] == SLOTS;
  }

  method MemoryGroups(f: Facts, jobs: map<string, string>) returns (memory: map<string, string>)
    requires Sound(f)
    requires (forall j :: j in jobs <==> j in f.jobIds) && Follows(f, Jobs, jobs)
    ensures Follows(f, Memory, memory)
  {
    memory := map job | job in f.memory :: if job in jobs then jobs[job] else Kebab(job);
    forall job | job in f.memory ensures memory[job] == MemoryGroup(f, job) {
      assert job in f.jobIds ==> job in IdsIn(f, Jobs) && jobs[job] == GroupOf(f, Jobs, job);
    }
  }

  method JobAndNodeGroups(f: Facts) returns (jobs: map<string, string>, nodes: map<string, string>)
    requires Sound(f)
    ensures forall j :: j in jobs <==> j in f.jobIds
    ensures Follows(f, Jobs, jobs) && Follows(f, Nodes, nodes)
    ensures DefaultsToItself(f, nodes)
  {
    var lanes := LaneNodes(f);
    jobs := JobGroups(f, lanes);
    FollowsJobs(f, jobs);
    nodes := NodeGroups(f, lanes, jobs);
  }

  // ---- what the rule gives ----

  function FactsOf(docs: Documents): Facts
    requires Complete(docs.slots) && forall slot: Slot :: Shaped(slot, docs.slots[slot])
  {
    var nodes, edges := Entries(Nodes, docs.slots[Nodes]), Entries(Edges, docs.slots[Edges]);
    var jobs := Entries(Jobs, docs.slots[Jobs]);
    Facts(Ids(Entries(Lanes, docs.slots[Lanes])), Ids(nodes), Ids(edges), ById(edges), Ids(jobs), ById(jobs),
          Ids(Entries(Memory, docs.slots[Memory])), Ids(Entries(Subjects, docs.slots[Subjects])))
  }

  /** Every item of the documents has a group, so a split finds one for each. */
  lemma {:induction false} EveryItemHasGroup(docs: Documents, groups: Groups)
    requires Complete(docs.slots) && forall slot: Slot :: Shaped(slot, docs.slots[slot])
    requires Sound(FactsOf(docs)) && Complete(groups) && ByRule(FactsOf(docs), groups)
    ensures Grouped(docs, groups)
  {
    forall slot: Slot, i | 0 <= i < |Entries(slot, docs.slots[slot])|
      ensures Entries(slot, docs.slots[slot])[i].id in groups[slot]
    {
      assert Ids(Entries(slot, docs.slots[slot]))[i] in IdsIn(FactsOf(docs), slot);
      assert Follows(FactsOf(docs), slot, groups[slot]);
    }
  }

  ghost predicate AllShaped(docs: Documents) {
    Complete(docs.slots) && forall slot: Slot :: Shaped(slot, docs.slots[slot])
  }

  /** Generating from the definitions gives these documents and no others. */
  ghost predicate GeneratesOnly(p: Platform, defs: Definitions, docs: Documents) {
    && Generates(p, defs, true, docs)
    && forall other :: Generates(p, defs, true, other) ==> other == docs
  }

  lemma {:induction false} AllSplittableShaped(docs: Documents)
    requires AllSplittable(docs)
    ensures AllShaped(docs)
  {
    assert forall slot: Slot :: SlotSplittable(slot, docs.slots[slot]);
  }

  method CheckShapes(docs: Documents) returns (ok: bool)
    requires Complete(docs.slots)
    ensures ok <==> AllShaped(docs)
  {
    for k := 0 to |SLOTS|
      invariant forall slot :: slot in SLOTS[..k] ==> Shaped(slot, docs.slots[slot])
    {
      assert SLOTS[..k + 1] == SLOTS[..k] + [SLOTS[k]];
      if !Shaped(SLOTS[k], docs.slots[SLOTS[k]]) {
        return false;
      }
    }
    AllSlots();
    ok := true;
  }

  // ---- what is split, by the members of the documents ----

  /** The ids of a list and its items by id. */
  ghost predicate Indexed(key: string, c: Contents, ids: seq<string>, items: map<string, Item>) {
    && IdsOf(key, c, ids)
    && (forall i :: 0 <= i < |ids| ==> ids[i] in items && items[ids[i]] == c.items[i])
    && forall id :: id in items ==> id in ids
  }

  ghost predicate IdsOf(key: string, c: Contents, ids: seq<string>) {
    && c.AsList? && |ids| == |c.items|
    && forall i :: 0 <= i < |ids| ==> key in c.items[i] && c.items[i][key] == Str(ids[i])
  }

  ghost predicate NamesOf(c: Contents, names: seq<string>) {
    c.AsMap? && |names| == |c.entries| && forall i :: 0 <= i < |names| ==> names[i] == c.entries[i].id
  }

  /** The facts the rule reads off the documents. */
  ghost predicate Says(docs: Documents, f: Facts)
    requires Complete(docs.slots)
  {
    && NamesOf(docs.slots[Lanes], f.lanes) && NamesOf(docs.slots[Memory], f.memory)
    && IdsOf("id", docs.slots[Nodes], f.nodeIds) && IdsOf("subject", docs.slots[Subjects], f.subjects)
    && Indexed("id", docs.slots[Edges], f.edgeIds, f.edges) && Indexed("id", docs.slots[Jobs], f.jobIds, f.jobs)
  }

  ghost predicate EndsNamed(c: Contents) {
    c.AsList? && forall i :: 0 <= i < |c.items| ==> "to" in c.items[i] && c.items[i]["to"].Str?
  }

  ghost predicate CanBeIterated(job: Item) {
    "pipeline_graph_edges" in job ==> job["pipeline_graph_edges"].Str? || job["pipeline_graph_edges"].elements.Some?
  }

  /** Every edge ends at a named node, and what a job carries can be iterated over. */
  ghost predicate GroupsSaid(docs: Documents)
    requires Complete(docs.slots)
  {
    && EndsNamed(docs.slots[Edges])
    && docs.slots[Jobs].AsList?
    && forall i :: 0 <= i < |docs.slots[Jobs].items| ==> CanBeIterated(docs.slots[Jobs].items[i])
  }

  ghost predicate AllTaken(docs: Documents) {
    Complete(docs.slots) && forall slot: Slot :: Taken(slot, docs.slots[slot])
  }

  lemma {:induction false} TakenDocuments(docs: Documents)
    ensures AllTaken(docs) <==> AllSplittable(docs)
  {
    if Complete(docs.slots) {
      forall slot: Slot ensures Taken(slot, docs.slots[slot]) <==> SlotSplittable(slot, docs.slots[slot]) {
        TakenExactly(slot, docs.slots[slot]);
      }
    }
  }

  lemma {:induction false} ByIdOnce(es: seq<Entry>, i: nat)
    requires IdsOnce(es) && i < |es|
    ensures es[i].id in ById(es) && ById(es)[es[i].id] == es[i].item
  {
    var n := |es| - 1;
    if i < n {
      assert forall k :: 0 <= k < n ==> es[..n][k] == es[k];
      ByIdOnce(es[..n], i);
    }
  }

  lemma {:induction false} IdsListed(slot: Slot, c: Contents)
    requires Key(slot).Some? && Shaped(slot, c)
    ensures IdsOf(Key(slot).value, c, Ids(Entries(slot, c)))
    ensures forall i :: 0 <= i < |c.items| ==> Entries(slot, c)[i].item == c.items[i]
  {
  }

  lemma {:induction false} ByIdAll(es: seq<Entry>)
    requires IdsOnce(es)
    ensures forall i :: 0 <= i < |es| ==> Ids(es)[i] in ById(es) && ById(es)[Ids(es)[i]] == es[i].item
    ensures forall id :: id in ById(es) ==> id in Ids(es)
  {
    forall i | 0 <= i < |es| ensures es[i].id in ById(es) && ById(es)[es[i].id] == es[i].item {
      ByIdOnce(es, i);
    }
    forall id | id in ById(es) ensures id in Ids(es) {
      var k :| 0 <= k < |es| && es[k].id == id;
      assert Ids(es)[k] == id;
    }
  }

  lemma {:induction false} IndexedOnce(slot: Slot, c: Contents)
    requires Key(slot).Some? && SlotSplittable(slot, c)
    ensures Indexed(Key(slot).value, c, Ids(Entries(slot, c)), ById(Entries(slot, c)))
  {
    IdsListed(slot, c);
    ByIdAll(Entries(slot, c));
  }

  lemma {:induction false} FactsIndexed(docs: Documents)
    requires AllSplittable(docs) && AllShaped(docs)
    ensures var f := FactsOf(docs);
            && Indexed("id", docs.slots[Edges], f.edgeIds, f.edges)
            && Indexed("id", docs.slots[Jobs], f.jobIds, f.jobs)
  {
    IndexedOnce(Edges, docs.slots[Edges]);
    IndexedOnce(Jobs, docs.slots[Jobs]);
  }

  lemma {:induction false} NamedAs(slot: Slot, c: Contents)
    requires Key(slot).None? && Shaped(slot, c)
    ensures NamesOf(c, Ids(Entries(slot, c)))
  {
  }

  lemma {:induction false} NodesSaid(docs: Documents)
    requires AllSplittable(docs) && AllShaped(docs)
    ensures IdsOf("id", docs.slots[Nodes], FactsOf(docs).nodeIds)
  {
    IndexedOnce(Nodes, docs.slots[Nodes]);
  }

  lemma {:induction false} SubjectsSaid(docs: Documents)
    requires AllSplittable(docs) && AllShaped(docs)
    ensures IdsOf("subject", docs.slots[Subjects], FactsOf(docs).subjects)
  {
    IndexedOnce(Subjects, docs.slots[Subjects]);
  }

  lemma {:induction false} NamesSaid(docs: Documents)
    requires AllSplittable(docs) && AllShaped(docs)
    ensures NamesOf(docs.slots[Lanes], FactsOf(docs).lanes) && NamesOf(docs.slots[Memory], FactsOf(docs).memory)
  {
    NamedAs(Lanes, docs.slots[Lanes]);
    NamedAs(Memory, docs.slots[Memory]);
  }

  lemma {:induction false} FactsSay(docs: Documents)
    requires AllSplittable(docs) && AllShaped(docs)
    ensures Says(docs, FactsOf(docs))
  {
    FactsIndexed(docs);
    NodesSaid(docs);
    SubjectsSaid(docs);
    NamesSaid(docs);
  }

  lemma {:induction false} EndsSaid(c: Contents, ids: seq<string>, edges: map<string, Item>)
    requires Indexed("id", c, ids, edges)
    ensures (forall e :: e in edges ==> HasTo(edges[e])) <==> EndsNamed(c)
    ensures forall i :: 0 <= i < |ids| ==> ids[i] in edges
  {
    if forall e :: e in edges ==> HasTo(edges[e]) {
      forall i | 0 <= i < |c.items| ensures HasTo(c.items[i]) {
        assert HasTo(edges[ids[i]]);
      }
    }
    if EndsNamed(c) {
      forall e | e in edges ensures HasTo(edges[e]) {
        var i :| 0 <= i < |ids| && ids[i] == e;
      }
    }
  }

  lemma {:induction false} JobsSaid(c: Contents, ids: seq<string>, jobs: map<string, Item>)
    requires Indexed("id", c, ids, jobs)
    ensures (forall j :: j in jobs ==> Carries(jobs[j])) <==>
            forall i :: 0 <= i < |c.items| ==> CanBeIterated(c.items[i])
    ensures forall i :: 0 <= i < |ids| ==> ids[i] in jobs
  {
    forall i | 0 <= i < |c.items| ensures CanBeIterated(c.items[i]) <==> Carries(c.items[i]) {
    }
    if forall j :: j in jobs ==> Carries(jobs[j]) {
      forall i | 0 <= i < |c.items| ensures Carries(c.items[i]) {
        assert Carries(jobs[ids[i]]);
      }
    }
    if forall i :: 0 <= i < |c.items| ==> CanBeIterated(c.items[i]) {
      forall j | j in jobs ensures Carries(jobs[j]) {
        var i :| 0 <= i < |ids| && ids[i] == j;
      }
    }
  }

  lemma {:induction false} SoundSaid(docs: Documents)
    requires AllSplittable(docs) && AllShaped(docs)
    ensures Sound(FactsOf(docs)) <==> GroupsSaid(docs)
  {
    var f := FactsOf(docs);
    FactsIndexed(docs);
    EndsSaid(docs.slots[Edges], f.edgeIds, f.edges);
    JobsSaid(docs.slots[Jobs], f.jobIds, f.jobs);
  }

  /** Every item lies in the definition of the group it goes to by what the items say. */
  ghost predicate PutByRule(docs: Documents, defs: Definitions)
    requires AllSplittable(docs)
  {
    exists f, groups :: Complete(groups) && Says(docs, f) && Placed(f, groups) && Lies(docs, groups, defs)
  }

  /** The split of committed documents. It succeeds exactly when every collection is splittable and the
      items say their groups, and then the definitions generate the documents they were split from. */
  method SplitDocuments(docs: Documents) returns (r: Result<(Platform, Definitions)>)
    requires Complete(docs.slots)
    ensures r.Ok? <==> AllSplittable(docs) && AllShaped(docs) && Sound(FactsOf(docs))
    ensures r.Ok? <==> AllTaken(docs) && GroupsSaid(docs)
    ensures r.Ok? ==> PutByRule(docs, r.value.1) && GeneratesOnly(r.value.0, r.value.1, docs)
  {
    TakenDocuments(docs);
    if AllSplittable(docs) {
      AllSplittableShaped(docs);
      SoundSaid(docs);
    }
    var shaped := CheckShapes(docs);
    if !shaped || !Sound(FactsOf(docs)) {
      return Err;
    }
    var groups := GroupsOf(FactsOf(docs));
    EveryItemHasGroup(docs, groups);
    r := Split(docs, groups);
    if r.Ok? {
      SplitThenGenerate(docs, groups, r.value.0, r.value.1);
      SplitLies(docs, groups, r.value.0, r.value.1);
      FactsSay(docs);
    }
  }
}
