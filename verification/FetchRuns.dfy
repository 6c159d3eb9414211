/** Fetching every workflow run of an interval through a query that reports at most 1,000 of them at once. */
module FetchRuns {

  // An interval whose query matches too many runs is split in half and both halves are fetched again. Times
  // are microseconds, and a query names whole seconds, so a half's bounds are cut to the second.

  import opened Sequences
  import opened Wrappers

  const RESULT_CAP: int := 1000
  const PAGE_SIZE: int := 100
  const SECOND: int := 1_000_000
  const HOUR: int := 3600 * SECOND

  /** A completed run of a pull request, created in some second. */
  datatype Run = Run(id: int, created: int, info: string)

  /** What is kept of a run, under its id. */
  datatype Entry = Entry(id: int, info: string)

  /** The seconds from `first` up to but not including `end`. */
  datatype Range = Range(first: int, end: int)

  datatype Body = Body(total: int, runs: seq<Run>)

  /** The server's answer for the seconds `first` to `last`, both included, and a page from 1 on. */
  type Server = (int, int, int) -> Body

  function Cut(t: int): int {
    t / SECOND
  }

  /** Python divides a time difference by two rounding a half to the even microsecond. */
  function Half(d: int): int {
    if d % 2 == 1 && (d / 2) % 2 == 1 then d / 2 + 1 else d / 2
  }

  function Middle(low: int, high: int): int {
    low + Half(high - low)
  }

  // ---- What an honest server answers ----

  /** The runs created from the second `first` up to but not including `end`. */
  function Matching(db: seq<Run>, first: int, end: int): seq<Run> {
    if db == [] then []
    else (if first <= db[0].created < end then [db[0]] else []) + Matching(db[1..], first, end)
  }

  function Min(a: int, b: int): int {
    if a < b then a else b
  }

  function PageOf(m: seq<Run>, page: int): seq<Run>
    requires page >= 1
  {
    m[Min((page - 1) * PAGE_SIZE, |m|)..Min(page * PAGE_SIZE, |m|)]
  }

  ghost predicate UniqueIds(db: seq<Run>) {
    forall i, j :: 0 <= i < j < |db| ==> db[i].id != db[j].id
  }

  /** The server's runs do not change meanwhile, and it counts and pages them truthfully. */
  ghost predicate Honest(ask: Server, db: seq<Run>) {
    && UniqueIds(db)
    && forall first, last, page :: page >= 1 ==>
         ask(first, last, page) == Body(|Matching(db, first, last + 1)|, PageOf(Matching(db, first, last + 1), page))
  }

  // ---- What is collected ----

  function Found(db: seq<Run>, low: int, high: int): seq<Run> {
    Matching(db, Cut(low), Cut(high))
  }

  /** Every interval the fetch ends at is within the cap. */
  ghost predicate Fetchable(db: seq<Run>, low: int, high: int)
    decreases if high - low > HOUR then high - low else 0
  {
    || |Found(db, low, high)| <= RESULT_CAP
    || (high - low > HOUR && Fetchable(db, Middle(low, high), high) && Fetchable(db, low, Middle(low, high)))
  }

  /** The runs in the order the fetch meets them: the later half first. */
  ghost function Collected(db: seq<Run>, low: int, high: int): seq<Run>
    decreases if high - low > HOUR then high - low else 0
  {
    if |Found(db, low, high)| <= RESULT_CAP then Found(db, low, high)
    else if high - low <= HOUR then []
    else Collected(db, Middle(low, high), high) + Collected(db, low, Middle(low, high))
  }

  function Entries(runs: seq<Run>): seq<Entry> {
    if runs == [] then [] else [Entry(runs[0].id, runs[0].info)] + Entries(runs[1..])
  }

  lemma {:induction false} EntriesAt(runs: seq<Run>, k: int)
    requires 0 <= k < |runs|
    ensures |Entries(runs)| == |runs| && Entries(runs)[k] == Entry(runs[k].id, runs[k].info)
    decreases runs
  {
    if |runs| > 1 {
      EntriesAt(runs[1..], if k > 0 then k - 1 else 0);
    } else {
      assert Entries(runs[1..]) == [];
    }
  }

  lemma {:induction false} EntriesAppend(a: seq<Run>, b: seq<Run>)
    ensures Entries(a + b) == Entries(a) + Entries(b)
    decreases a
  {
    if a == [] {
      assert a + b == b;
    } else {
      EntriesAppend(a[1..], b);
      assert (a + b)[0] == a[0] && (a + b)[1..] == a[1..] + b;
      Assoc([Entry(a[0].id, a[0].info)], Entries(a[1..]), Entries(b));
    }
  }

  lemma {:induction false} MatchingIn(db: seq<Run>, first: int, end: int, k: int)
    requires 0 <= k < |Matching(db, first, end)|
    ensures Matching(db, first, end)[k] in db && first <= Matching(db, first, end)[k].created < end
    decreases db
  {
    var d := if first <= db[0].created < end then 1 else 0;
    if k >= d {
      MatchingIn(db[1..], first, end, k - d);
      assert Matching(db, first, end)[k] == Matching(db[1..], first, end)[k - d];
    }
  }

  lemma {:induction false} MatchingUnique(db: seq<Run>, first: int, end: int)
    requires UniqueIds(db)
    ensures UniqueIds(Matching(db, first, end))
    decreases db
  {
    if db != [] {
      var rest := Matching(db[1..], first, end);
      MatchingUnique(db[1..], first, end);
      forall k | 0 <= k < |rest| ensures rest[k].id != db[0].id {
        MatchingIn(db[1..], first, end, k);
      }
    }
  }

  /** The same runs, each as often. */
  ghost predicate SameRuns(a: seq<Run>, b: seq<Run>) {
    multiset(a) == multiset(b)
  }

  ghost predicate Joins(all: seq<Run>, a: seq<Run>, b: seq<Run>) {
    multiset(all) == multiset(a) + multiset(b)
  }

  /** A query over adjoining ranges of seconds finds what the two queries find. */
  lemma {:induction false} MatchingSplits(db: seq<Run>, first: int, middle: int, end: int)
    requires first <= middle <= end
    ensures Joins(Matching(db, first, end), Matching(db, first, middle), Matching(db, middle, end))
    decreases db
  {
    if db != [] {
      MatchingSplits(db[1..], first, middle, end);
      MatchingStep(db, first, end);
      MatchingStep(db, first, middle);
      MatchingStep(db, middle, end);
    }
  }

  lemma {:induction false} MatchingStep(db: seq<Run>, first: int, end: int)
    requires db != []
    ensures multiset(Matching(db, first, end))
            == (if first <= db[0].created < end then multiset{db[0]} else multiset{}) +
              multiset(Matching(db[1..], first, end))
  {
    assert multiset([db[0]]) == multiset{db[0]};
  }

  lemma {:induction false} CutMiddle(low: int, high: int)
    requires high - low > HOUR
    ensures low < Middle(low, high) < high && Cut(low) <= Cut(Middle(low, high)) <= Cut(high)
  {
  }

  /** What is collected is what one uncapped query would have found, each run once. */
  lemma {:induction false} CollectedExactly(db: seq<Run>, low: int, high: int)
    requires Fetchable(db, low, high)
    ensures SameRuns(Collected(db, low, high), Found(db, low, high))
    decreases if high - low > HOUR then high - low else 0
  {
    if |Found(db, low, high)| > RESULT_CAP {
      var middle := Middle(low, high);
      CutMiddle(low, high);
      FoundSplits(db, low, middle, high);
      CollectedExactly(db, middle, high);
      CollectedExactly(db, low, middle);
      JoinedHalves(Collected(db, middle, high), Collected(db, low, middle), Found(db, middle, high),
        Found(db, low, middle),
                   Found(db, low, high));
    }
  }

  lemma {:induction false} FoundSplits(db: seq<Run>, low: int, middle: int, high: int)
    requires Cut(low) <= Cut(middle) <= Cut(high)
    ensures Joins(Found(db, low, high), Found(db, low, middle), Found(db, middle, high))
  {
    MatchingSplits(db, Cut(low), Cut(middle), Cut(high));
  }

  lemma {:induction false} JoinedHalves(a: seq<Run>, b: seq<Run>, c: seq<Run>, d: seq<Run>, all: seq<Run>)
    requires SameRuns(a, c) && SameRuns(b, d) && Joins(all, d, c)
    ensures SameRuns(a + b, all)
  {
  }

  lemma {:induction false} CollectedIn(db: seq<Run>, low: int, high: int, r: Run)
    requires r in Collected(db, low, high)
    ensures r in db && Cut(low) <= r.created < Cut(high)
    decreases if high - low > HOUR then high - low else 0
  {
    if |Found(db, low, high)| <= RESULT_CAP {
      var k :| 0 <= k < |Found(db, low, high)| && Found(db, low, high)[k] == r;
      MatchingIn(db, Cut(low), Cut(high), k);
    } else if high - low > HOUR {
      var middle := Middle(low, high);
      CutMiddle(low, high);
      if r in Collected(db, middle, high) {
        CollectedIn(db, middle, high, r);
      } else {
        CollectedIn(db, low, middle, r);
      }
    }
  }

  /** No run is collected twice, so no entry is ever overwritten. */
  lemma {:induction false} CollectedUnique(db: seq<Run>, low: int, high: int)
    requires UniqueIds(db)
    ensures UniqueIds(Collected(db, low, high))
    decreases if high - low > HOUR then high - low else 0
  {
    if |Found(db, low, high)| <= RESULT_CAP {
      MatchingUnique(db, Cut(low), Cut(high));
    } else if high - low > HOUR {
      var middle := Middle(low, high);
      CutMiddle(low, high);
      CollectedUnique(db, middle, high);
      CollectedUnique(db, low, middle);
      var a, b := Collected(db, middle, high), Collected(db, low, middle);
      forall i, j | 0 <= i < |a| && 0 <= j < |b| ensures a[i].id != b[j].id {
        CollectedIn(db, middle, high, a[i]);
        CollectedIn(db, low, middle, b[j]);
      }
    }
  }

  // ---- Which intervals are queried ----

  /** The whole seconds of the intervals the fetch ends at, in the order it comes to them: the latest first. */
  ghost function Leaves(db: seq<Run>, low: int, high: int): seq<Range>
    decreases if high - low > HOUR then high - low else 0
  {
    if |Found(db, low, high)| <= RESULT_CAP || high - low <= HOUR then [Range(Cut(low), Cut(high))]
    else Leaves(db, Middle(low, high), high) + Leaves(db, low, Middle(low, high))
  }

  /** Each range ends in the second where the one before it begins. */
  ghost predicate Chain(rs: seq<Range>, first: int, end: int) {
    && |rs| > 0 && rs[0].end == end && rs[|rs| - 1].first == first
    && (forall k :: 0 <= k < |rs| ==> rs[k].first <= rs[k].end)
    && (forall k :: 0 < k < |rs| ==> rs[k].end == rs[k - 1].first)
  }

  lemma {:induction false} LeavesAreChain(db: seq<Run>, low: int, high: int)
    requires low <= high
    ensures Chain(Leaves(db, low, high), Cut(low), Cut(high))
    decreases if high - low > HOUR then high - low else 0
  {
    if |Found(db, low, high)| > RESULT_CAP && high - low > HOUR {
      CutMiddle(low, high);
      LeavesAreChain(db, low, Middle(low, high));
      LeavesAreChain(db, Middle(low, high), high);
    }
  }

  /** What is collected is what the queries that count find. */
  function FoundBy(db: seq<Run>, rs: seq<Range>): seq<Run>
    decreases rs
  {
    if rs == [] then [] else Matching(db, rs[0].first, rs[0].end) + FoundBy(db, rs[1..])
  }

  lemma {:induction false} FoundByBoth(db: seq<Run>, a: seq<Range>, b: seq<Range>)
    ensures FoundBy(db, a + b) == FoundBy(db, a) + FoundBy(db, b)
    decreases a
  {
    if a == [] {
      assert a + b == b;
    } else {
      assert (a + b)[0] == a[0] && (a + b)[1..] == a[1..] + b;
      FoundByBoth(db, a[1..], b);
      Assoc(Matching(db, a[0].first, a[0].end), FoundBy(db, a[1..]), FoundBy(db, b));
    }
  }

  lemma {:induction false} FoundByOne(db: seq<Run>, r: Range)
    ensures FoundBy(db, [r]) == Matching(db, r.first, r.end)
  {
    assert [r][1..] == [] && FoundBy(db, []) == [];
  }

  /** The runs collected are those of the intervals the fetch ends at, in their order. */
  lemma {:induction false} CollectedByLeaves(db: seq<Run>, low: int, high: int)
    requires Fetchable(db, low, high)
    ensures Collected(db, low, high) == FoundBy(db, Leaves(db, low, high))
    decreases if high - low > HOUR then high - low else 0
  {
    if |Found(db, low, high)| <= RESULT_CAP {
      FoundByOne(db, Range(Cut(low), Cut(high)));
    } else {
      CutMiddle(low, high);
      CollectedByLeaves(db, Middle(low, high), high);
      CollectedByLeaves(db, low, Middle(low, high));
      FoundByBoth(db, Leaves(db, Middle(low, high), high), Leaves(db, low, Middle(low, high)));
    }
  }

  lemma {:induction false} ChainGrows(rs: seq<Range>, first: int, end: int, i: int, j: int)
    requires Chain(rs, first, end) && 0 <= i < j < |rs|
    ensures rs[j].end <= rs[i].first
    decreases j - i
  {
    if i + 1 < j {
      ChainGrows(rs, first, end, i + 1, j);
    }
  }

  lemma {:induction false} ChainFinds(rs: seq<Range>, first: int, end: int, t: int, n: int) returns (k: int)
    requires Chain(rs, first, end) && first <= t && 0 <= n < |rs| && t < rs[n].end
    ensures n <= k < |rs| && rs[k].first <= t < rs[k].end
    decreases |rs| - n
  {
    if rs[n].first <= t {
      k := n;
    } else {
      k := ChainFinds(rs, first, end, t, n + 1);
    }
  }

  ghost predicate InOneRange(rs: seq<Range>, t: int) {
    exists k :: 0 <= k < |rs| && rs[k].first <= t < rs[k].end
      && forall j :: 0 <= j < |rs| && rs[j].first <= t < rs[j].end ==> j == k
  }

  ghost predicate InNoRange(rs: seq<Range>, t: int) {
    forall k :: 0 <= k < |rs| ==> !(rs[k].first <= t < rs[k].end)
  }

  /** Every second from `first` to `end` lies in exactly one range, every other second in none. */
  ghost predicate Partition(rs: seq<Range>, first: int, end: int) {
    forall t :: if first <= t < end then InOneRange(rs, t) else InNoRange(rs, t)
  }

  /** Every second of the interval is asked about in exactly one of the queries that count, and no other second is. */
  lemma {:induction false} LeavesPartition(db: seq<Run>, low: int, high: int)
    requires low <= high
    ensures Partition(Leaves(db, low, high), Cut(low), Cut(high))
  {
    LeavesAreChain(db, low, high);
    ChainPartitions(Leaves(db, low, high), Cut(low), Cut(high));
  }

  lemma {:induction false} ChainPartitions(rs: seq<Range>, first: int, end: int)
    requires Chain(rs, first, end)
    ensures Partition(rs, first, end)
  {
    forall k | 0 <= k < |rs| ensures first <= rs[k].first && rs[k].end <= end {
      if k > 0 {
        ChainGrows(rs, first, end, 0, k);
      }
      if k < |rs| - 1 {
        ChainGrows(rs, first, end, k, |rs| - 1);
      }
    }
    forall t | first <= t < end ensures InOneRange(rs, t) {
      var k := ChainFinds(rs, first, end, t, 0);
      forall j | 0 <= j < |rs| && rs[j].first <= t < rs[j].end ensures j == k {
        if j < k {
          ChainGrows(rs, first, end, j, k);
        } else if k < j {
          ChainGrows(rs, first, end, k, j);
        }
      }
    }
  }

  /** How many runs an hour of whole seconds from `s` on holds. */
  function Crowd(db: seq<Run>, s: int): nat {
    |Matching(db, s, s + 3600)|
  }

  /** The middle is half way, to the microsecond; a half goes to the even one. */
  lemma {:induction false} MiddleHalves(low: int, high: int)
    ensures var h := Middle(low, high) - low;
            2 * h == high - low || (h % 2 == 0 && (2 * h == high - low - 1 || 2 * h == high - low + 1))
  {
    HalfExactly(high - low);
  }

  lemma {:induction false} HalfExactly(d: int)
    ensures 2 * Half(d) == d || (Half(d) % 2 == 0 && (2 * Half(d) == d - 1 || 2 * Half(d) == d + 1))
  {
    var q := d / 2;
    assert d == 2 * q + d % 2;
  }

  /** What is collected are the runs of the whole seconds of the interval. */
  lemma {:induction false} CollectedBetween(db: seq<Run>, low: int, high: int)
    requires Fetchable(db, low, high)
    ensures forall r :: r in Collected(db, low, high) <==>
              r in db && low / 1_000_000 <= r.created < high / 1_000_000
  {
    CollectedExactly(db, low, high);
    forall r
      ensures r in Collected(db, low, high) <==> r in db && low / 1_000_000 <= r.created < high / 1_000_000
    {
      MatchingMember(db, Cut(low), Cut(high), r);
      assert r in multiset(Collected(db, low, high)) <==> r in multiset(Found(db, low, high));
    }
  }

  lemma {:induction false} MatchingMember(db: seq<Run>, first: int, end: int, r: Run)
    ensures r in Matching(db, first, end) <==> r in db && first <= r.created < end
    decreases db
  {
    if db != [] {
      MatchingMember(db[1..], first, end, r);
      assert r in db <==> r == db[0] || r in db[1..];
    }
  }

  /** A fetch is refused only for an hour or less that holds more than a thousand runs. */
  lemma {:induction false} CrowdedHour(db: seq<Run>, low: int, high: int) returns (l: int, h: int)
    requires low <= high && !Fetchable(db, low, high)
    ensures low <= l <= h <= high && h - l <= 3_600_000_000
    ensures |Matching(db, l / 1_000_000, h / 1_000_000)| > 1000
    decreases if high - low > HOUR then high - low else 0
  {
    if high - low <= HOUR {
      l, h := low, high;
    } else {
      CutMiddle(low, high);
      if !Fetchable(db, Middle(low, high), high) {
        l, h := CrowdedHour(db, Middle(low, high), high);
      } else {
        l, h := CrowdedHour(db, low, Middle(low, high));
      }
    }
  }

  /** It is enough that no 3,600 seconds in a row hold more than a thousand runs. */
  lemma {:induction false} QuietHoursFetch(db: seq<Run>, low: int, high: int)
    requires forall s :: Crowd(db, s) <= 1000
    ensures Fetchable(db, low, high)
    decreases if high - low > HOUR then high - low else 0
  {
    if high - low <= HOUR {
      assert Crowd(db, Cut(low)) <= 1000;
      assert Cut(high) <= Cut(low) + 3600;
      NarrowMatchesLess(db, Cut(low), Cut(high), Cut(low) + 3600);
    } else {
      CutMiddle(low, high);
      QuietHoursFetch(db, low, Middle(low, high));
      QuietHoursFetch(db, Middle(low, high), high);
    }
  }

  lemma {:induction false} NarrowMatchesLess(db: seq<Run>, first: int, end: int, wider: int)
    requires end <= wider
    ensures |Matching(db, first, end)| <= |Matching(db, first, wider)|
    decreases db
  {
    if db != [] {
      NarrowMatchesLess(db[1..], first, end, wider);
    }
  }

  // ---- The fetch ----

  /** `runs[id] = ...` of an insertion-ordered dictionary. */
  function Put(runs: seq<Entry>, e: Entry): seq<Entry> {
    if runs == [] then [e]
    else if runs[0].id == e.id then [e] + runs[1..]
    else [runs[0]] + Put(runs[1..], e)
  }

  /** A run with a new id comes last; one whose id is there takes that place, and no other run moves. */
  lemma {:induction false} PutExactly(runs: seq<Entry>, e: Entry, k: nat)
    requires k <= |runs| && forall i :: 0 <= i < k ==> runs[i].id != e.id
    requires k < |runs| ==> runs[k].id == e.id
    ensures Put(runs, e) == if k == |runs| then runs + [e] else runs[k := e]
    decreases runs
  {
    if k == 0 {
      assert runs != [] ==> [e] + runs[1..] == runs[0 := e];
    } else {
      PutExactly(runs[1..], e, k - 1);
      PutBehind(runs, e, k);
    }
  }

  lemma {:induction false} PutBehind(runs: seq<Entry>, e: Entry, k: nat)
    requires 0 < k <= |runs|
    ensures [runs[0]] + (if k == |runs| then runs[1..] + [e] else runs[1..][k - 1 := e])
            == if k == |runs| then runs + [e] else runs[k := e]
  {
  }

  ghost predicate UniqueEntries(es: seq<Entry>) {
    forall i, j :: 0 <= i < j < |es| ==> es[i].id != es[j].id
  }

  method PutAll(runs: seq<Entry>, more: seq<Run>) returns (r: seq<Entry>)
    ensures UniqueEntries(runs + Entries(more)) ==> r == runs + Entries(more)
  {
    r := runs;
    var k := 0;
    while k < |more|
      invariant 0 <= k <= |more|
      invariant UniqueEntries(runs + Entries(more)) ==> r == runs + Entries(more[..k])
    {
      var e := Entry(more[k].id, more[k].info);
      if UniqueEntries(runs + Entries(more)) {
        NextIsNew(runs, more, k);
        PutExactly(r, e, |r|);
        assert more[..k + 1] == more[..k] + [more[k]];
        EntriesAppend(more[..k], [more[k]]);
        assert Entries([more[k]]) == [e] by { assert Entries([more[k]][1..]) == []; }
        assert r + [e] == runs + Entries(more[..k + 1]);
      }
      r := Put(r, e);
      k := k + 1;
    }
    assert more[..k] == more;
  }

  lemma {:induction false} NextIsNew(runs: seq<Entry>, more: seq<Run>, k: int)
    requires 0 <= k < |more| && UniqueEntries(runs + Entries(more))
    ensures forall i :: 0 <= i < |runs + Entries(more[..k])| ==> (runs + Entries(more[..k]))[i].id != more[k].id
  {
    var all := runs + Entries(more);
    EntriesAt(more, k);
    assert more[..k] + more[k..] == more;
    EntriesAppend(more[..k], more[k..]);
    if k > 0 {
      EntriesAt(more[..k], 0);
    }
    assert all[|runs| + k].id == more[k].id;
    forall i | 0 <= i < |runs + Entries(more[..k])| ensures (runs + Entries(more[..k]))[i] == all[i] && i < |runs| + k {
    }
  }

  /** The pages of one interval, unless the query matches too many runs. */
  method FetchPages(ask: Server, low: int, high: int, known: seq<Entry>, ghost db: seq<Run>)
    returns (over: bool, runs: seq<Entry>)
    ensures Honest(ask, db) ==> over == (|Found(db, low, high)| > RESULT_CAP)
    ensures Honest(ask, db) && over ==> runs == known
    ensures Honest(ask, db) && !over && UniqueEntries(known + Entries(Found(db, low, high)))
            ==> runs == known + Entries(Found(db, low, high))
  {
    var first, last := Cut(low), Cut(high) - 1;
    ghost var m := Found(db, low, high);
    var page, seen := 1, 0;
    runs := known;
    assert m[..0] == [];
    while true
      invariant page >= 1 && 0 <= seen && (seen == 0 || seen < RESULT_CAP)
      invariant Honest(ask, db) ==> seen == (page - 1) * PAGE_SIZE && seen <= |m|
      invariant Honest(ask, db) && UniqueEntries(known + Entries(m)) ==> runs == known + Entries(m[..seen])
      invariant Honest(ask, db) && seen == 0 ==> runs == known
      invariant Honest(ask, db) && seen > 0 ==> |m| <= RESULT_CAP
      decreases RESULT_CAP - seen
    {
      var body := ask(first, last, page);
      if body.total > RESULT_CAP {
        return true, runs;
      }
      ghost var from := seen;
      ghost var before := runs;
      runs := PutAll(runs, body.runs);
      seen := seen + |body.runs|;
      if Honest(ask, db) {
        PageJoins(known, m, page, from, seen, before, body.runs);
      }
      if |body.runs| == 0 || seen >= body.total {
        assert Honest(ask, db) ==> m[..seen] == m;
        return false, runs;
      }
      page := page + 1;
    }
  }

  /** What is known grows by the next page. */
  lemma {:induction false} PageJoins(known: seq<Entry>, m: seq<Run>, page: int, from: int, to: int, before: seq<Entry>,
                                     more: seq<Run>)
    requires page >= 1 && from == (page - 1) * PAGE_SIZE && from <= |m| && more == PageOf(m, page) &&
             to == from + |more|
    ensures to == Min(page * PAGE_SIZE, |m|)
    ensures UniqueEntries(known + Entries(m)) && before == known + Entries(m[..from]) ==>
              UniqueEntries(before + Entries(more)) && before + Entries(more) == known + Entries(m[..to])
  {
    assert m[..to] == m[..from] + more;
    EntriesAppend(m[..from], more);
    Assoc(known, Entries(m[..from]), Entries(more));
    assert m == m[..to] + m[to..];
    EntriesAppend(m[..to], m[to..]);
    Assoc(known, Entries(m[..to]), Entries(m[to..]));
    if UniqueEntries(known + Entries(m)) {
      PrefixUnique(known + Entries(m[..to]), Entries(m[to..]));
    }
  }

  lemma {:induction false} PrefixUnique(a: seq<Entry>, b: seq<Entry>)
    requires UniqueEntries(a + b)
    ensures UniqueEntries(a)
  {
    forall i, j | 0 <= i < j < |a| ensures a[i].id != a[j].id {
      assert (a + b)[i] == a[i] && (a + b)[j] == a[j];
    }
  }

  datatype Interval = Interval(low: int, high: int)

  /** What the intervals still pending will bring, the last of them first. */
  ghost function Pending(db: seq<Run>, todo: seq<Interval>): seq<Run>
    decreases todo
  {
    if todo == [] then []
    else Collected(db, todo[|todo| - 1].low, todo[|todo| - 1].high) + Pending(db, todo[..|todo| - 1])
  }

  ghost predicate AllFetchable(db: seq<Run>, todo: seq<Interval>) {
    forall k :: 0 <= k < |todo| ==> Fetchable(db, todo[k].low, todo[k].high)
  }

  /** How many intervals one interval can at most lead to. */
  function Weight(i: Interval): nat {
    if i.high <= i.low then 1 else 2 * (i.high - i.low) - 1
  }

  function Weights(todo: seq<Interval>): nat
    decreases todo
  {
    if todo == [] then 0 else Weight(todo[|todo| - 1]) + Weights(todo[..|todo| - 1])
  }

  function Infos(es: seq<Entry>): (r: seq<string>)
    ensures |r| == |es| && forall k :: 0 <= k < |es| ==> r[k] == es[k].info
  {
    seq(|es|, k requires 0 <= k < |es| => es[k].info)
  }

  /** Every run created in [start, end), or the refusal of an hour that holds too many. `asked` holds the seconds
      of the queries that count, those read to their last page: whatever the server answers, they partition the
      seconds of the interval. */
  method FetchRuns(ask: Server, start: int, end: int, ghost db: seq<Run>)
    returns (r: Result<seq<string>>, ghost asked: seq<Range>)
    ensures r.Ok? && start <= end ==> Partition(asked, Cut(start), Cut(end))
    ensures Honest(ask, db) ==> (r.Ok? <==> Fetchable(db, start, end))
    ensures Honest(ask, db) && r.Ok? ==> asked == Leaves(db, start, end)
    ensures Honest(ask, db) && r.Ok? ==> r.value == Infos(Entries(Collected(db, start, end)))
  {
    asked := [];
    var runs: seq<Entry> := [];
    var pending := [Interval(start, end)];
    if Honest(ask, db) {
      Starts(db, start, end);
    }
    AsksStart(db, start, end);
    while pending != []
      invariant Honest(ask, db) ==> OnTrack(db, start, end, runs, pending)
      invariant start <= end ==> Covers(asked, pending, start, end)
      invariant Honest(ask, db) ==> Asks(db, asked, pending, start, end)
      decreases Weights(pending)
    {
      var next, rest := pending[|pending| - 1], pending[..|pending| - 1];
      assert pending == rest + [next];
      ghost var known := runs;
      var over;
      if Honest(ask, db) {
        LeafIsNew(db, start, end, runs, next, rest);
      }
      over, runs := FetchPages(ask, next.low, next.high, runs, db);
      if !over {
        WeightsLast(rest, next);
        AsksLeaf(db, asked, rest, next, start, end);
        asked := asked + [RangeOf(next)];
        pending := rest;
      } else if next.high - next.low <= HOUR {
        if Honest(ask, db) {
          HourRefused(db, start, end, known, next, rest);
        }
        return Err, asked;
      } else {
        var middle := Middle(next.low, next.high);
        AsksSplit(db, asked, rest, next, start, end);
        SplitIsLighter(rest, Interval(next.low, middle), Interval(middle, next.high), next);
        pending := rest + [Interval(next.low, middle), Interval(middle, next.high)];
        if Honest(ask, db) {
          SplitStays(db, start, end, runs, next, rest, middle);
        }
      }
    }
    if Honest(ask, db) {
      Ends(db, start, end, runs);
    }
    AsksEnd(db, asked, start, end);
    r := Ok(Infos(runs));
  }

  // ---- What the fetch asks ----

  function RangeOf(i: Interval): Range {
    Range(Cut(i.low), Cut(i.high))
  }

  /** The seconds of the pending intervals, the last of them first. */
  function Ranges(todo: seq<Interval>): seq<Range>
    decreases todo
  {
    if todo == [] then [] else [RangeOf(todo[|todo| - 1])] + Ranges(todo[..|todo| - 1])
  }

  ghost function PendingLeaves(db: seq<Run>, todo: seq<Interval>): seq<Range>
    decreases todo
  {
    if todo == [] then []
    else Leaves(db, todo[|todo| - 1].low, todo[|todo| - 1].high) + PendingLeaves(db, todo[..|todo| - 1])
  }

  /** What has been asked and what is pending cover the interval without a gap or an overlap. */
  ghost predicate Covers(asked: seq<Range>, pending: seq<Interval>, start: int, end: int) {
    && Chain(asked + Ranges(pending), Cut(start), Cut(end))
    && forall k :: 0 <= k < |pending| ==> pending[k].low <= pending[k].high
  }

  ghost predicate Asks(db: seq<Run>, asked: seq<Range>, pending: seq<Interval>, start: int, end: int) {
    asked + PendingLeaves(db, pending) == Leaves(db, start, end)
  }

  lemma {:induction false} RangesLast(db: seq<Run>, rest: seq<Interval>, i: Interval)
    ensures Ranges(rest + [i]) == [RangeOf(i)] + Ranges(rest)
    ensures PendingLeaves(db, rest + [i]) == Leaves(db, i.low, i.high) + PendingLeaves(db, rest)
  {
    assert (rest + [i])[..|rest|] == rest;
  }

  lemma {:induction false} AsksStart(db: seq<Run>, start: int, end: int)
    ensures start <= end ==> Covers([], [Interval(start, end)], start, end)
    ensures Asks(db, [], [Interval(start, end)], start, end)
  {
    var i := Interval(start, end);
    assert [] + [i] == [i] && Ranges([]) == [] && PendingLeaves(db, []) == [];
    RangesLast(db, [], i);
    assert [] + ([RangeOf(i)] + []) == [RangeOf(i)];
    assert [] + (Leaves(db, start, end) + []) == Leaves(db, start, end);
  }

  lemma {:induction false} AsksLeaf(db: seq<Run>, asked: seq<Range>, rest: seq<Interval>, next: Interval, start: int,
                                    end: int)
    ensures Covers(asked, rest + [next], start, end) ==> Covers(asked + [RangeOf(next)], rest, start, end)
    ensures Asks(db, asked, rest + [next], start, end) && |Found(db, next.low, next.high)| <= RESULT_CAP ==>
              Asks(db, asked + [RangeOf(next)], rest, start, end)
  {
    RangesLast(db, rest, next);
    Assoc(asked, [RangeOf(next)], Ranges(rest));
    Assoc(asked, [RangeOf(next)], PendingLeaves(db, rest));
    if Covers(asked, rest + [next], start, end) {
      forall k | 0 <= k < |rest| ensures rest[k].low <= rest[k].high {
        assert (rest + [next])[k] == rest[k];
      }
    }
  }

  /** Cutting one range in two keeps the chain. */
  lemma {:induction false} ChainSplits(a: seq<Range>, r: Range, middle: int, b: seq<Range>, first: int, end: int)
    requires Chain(a + ([r] + b), first, end) && r.first <= middle <= r.end
    ensures Chain(a + ([Range(middle, r.end)] + ([Range(r.first, middle)] + b)), first, end)
  {
    var old_, new_ := a + ([r] + b), a + ([Range(middle, r.end)] + ([Range(r.first, middle)] + b));
    var n := |a|;
    assert old_[n] == r && new_[n] == Range(middle, r.end) && new_[n + 1] == Range(r.first, middle);
    forall k | 0 <= k < n ensures new_[k] == old_[k] {
    }
    forall k | n + 2 <= k < |new_| ensures new_[k] == old_[k - 1] {
    }
  }

  lemma {:induction false} AsksSplit(db: seq<Run>, asked: seq<Range>, rest: seq<Interval>, next: Interval, start: int,
                                     end: int)
    requires next.high - next.low > HOUR
    ensures var middle := Middle(next.low, next.high);
            var both := rest + [Interval(next.low, middle), Interval(middle, next.high)];
            && (Covers(asked, rest + [next], start, end) ==> Covers(asked, both, start, end))
            && (Asks(db, asked, rest + [next], start, end) && |Found(db, next.low, next.high)| > RESULT_CAP ==>
                  Asks(db, asked, both, start, end))
  {
    var middle := Middle(next.low, next.high);
    var a, b := Interval(next.low, middle), Interval(middle, next.high);
    CutMiddle(next.low, next.high);
    RangesLast(db, rest, next);
    RangesLast(db, rest, a);
    RangesLast(db, rest + [a], b);
    TwoMore(rest, a, b);
    Assoc(Leaves(db, b.low, b.high), Leaves(db, a.low, a.high), PendingLeaves(db, rest));
    if Covers(asked, rest + [next], start, end) {
      ChainSplits(asked, RangeOf(next), Cut(middle), Ranges(rest), Cut(start), Cut(end));
      forall k | 0 <= k < |rest| ensures rest[k].low <= rest[k].high {
        assert (rest + [next])[k] == rest[k];
      }
    }
  }

  lemma {:induction false} TwoMore(rest: seq<Interval>, a: Interval, b: Interval)
    ensures rest + [a] + [b] == rest + [a, b]
  {
  }

  lemma {:induction false} AsksEnd(db: seq<Run>, asked: seq<Range>, start: int, end: int)
    ensures Covers(asked, [], start, end) ==> Partition(asked, Cut(start), Cut(end))
    ensures Asks(db, asked, [], start, end) ==> asked == Leaves(db, start, end)
  {
    assert Ranges([]) == [] && PendingLeaves(db, []) == [] && asked + [] == asked;
    if Covers(asked, [], start, end) {
      ChainPartitions(asked, Cut(start), Cut(end));
    }
  }

  /** What is collected and what is pending make up the whole, no run comes twice, and nothing was refused yet. */
  ghost predicate OnTrack(db: seq<Run>, start: int, end: int, runs: seq<Entry>, pending: seq<Interval>) {
    && Reaches(db, runs, pending, Entries(Collected(db, start, end)))
    && (Fetchable(db, start, end) <==> AllFetchable(db, pending))
  }

  lemma {:induction false} Starts(db: seq<Run>, start: int, end: int)
    requires UniqueIds(db)
    ensures OnTrack(db, start, end, [], [Interval(start, end)])
  {
    StartsWithAll(db, start, end);
    assert [Interval(start, end)][0] == Interval(start, end);
  }

  lemma {:induction false} Ends(db: seq<Run>, start: int, end: int, runs: seq<Entry>)
    requires OnTrack(db, start, end, runs, [])
    ensures runs == Entries(Collected(db, start, end)) && Fetchable(db, start, end)
  {
    assert Entries(Pending(db, [])) == [];
  }

  lemma {:induction false} HourRefused(db: seq<Run>, start: int, end: int, runs: seq<Entry>, next: Interval,
                                       rest: seq<Interval>)
    requires OnTrack(db, start, end, runs, rest + [next])
    requires |Found(db, next.low, next.high)| > RESULT_CAP && next.high - next.low <= HOUR
    ensures !Fetchable(db, start, end)
  {
    PendingLast(db, rest, next);
  }

  lemma {:induction false} SplitStays(db: seq<Run>, start: int, end: int, runs: seq<Entry>, next: Interval,
                                      rest: seq<Interval>, middle: int)
    requires OnTrack(db, start, end, runs, rest + [next]) && middle == Middle(next.low, next.high)
    requires |Found(db, next.low, next.high)| > RESULT_CAP && next.high - next.low > HOUR
    ensures OnTrack(db, start, end, runs, rest + [Interval(next.low, middle), Interval(middle, next.high)])
  {
    SplitKeepsPending(db, rest, Interval(next.low, middle), Interval(middle, next.high), next);
  }

  ghost predicate Reaches(db: seq<Run>, runs: seq<Entry>, pending: seq<Interval>, goal: seq<Entry>) {
    UniqueEntries(goal) && runs + Entries(Pending(db, pending)) == goal
  }

  lemma {:induction false} StartsWithAll(db: seq<Run>, start: int, end: int)
    requires UniqueIds(db)
    ensures Reaches(db, [], [Interval(start, end)], Entries(Collected(db, start, end)))
  {
    var all := Collected(db, start, end);
    assert [Interval(start, end)][..0] == [];
    assert all + [] == all;
    assert Pending(db, [Interval(start, end)]) == all;
    CollectedUnique(db, start, end);
    EntriesUnique(all);
    assert [] + Entries(all) == Entries(all);
  }

  lemma {:induction false} EntriesUnique(runs: seq<Run>)
    requires UniqueIds(runs)
    ensures UniqueEntries(Entries(runs))
  {
    if runs != [] {
      EntriesAt(runs, 0);
    }
    forall i, j | 0 <= i < j < |Entries(runs)| ensures Entries(runs)[i].id != Entries(runs)[j].id {
      EntriesAt(runs, i);
      EntriesAt(runs, j);
    }
  }

  /** An interval within the cap brings the next entries of the whole. */
  lemma {:induction false} LeafIsNew(db: seq<Run>, start: int, end: int, runs: seq<Entry>, next: Interval,
                                     rest: seq<Interval>)
    requires OnTrack(db, start, end, runs, rest + [next])
    ensures |Found(db, next.low, next.high)| <= RESULT_CAP ==>
              && UniqueEntries(runs + Entries(Found(db, next.low, next.high)))
              && OnTrack(db, start, end, runs + Entries(Found(db, next.low, next.high)), rest)
  {
    var c := Collected(db, next.low, next.high);
    PendingLast(db, rest, next);
    EntriesAppend(c, Pending(db, rest));
    Assoc(runs, Entries(c), Entries(Pending(db, rest)));
    PrefixUnique(runs + Entries(c), Entries(Pending(db, rest)));
  }

  lemma {:induction false} SplitIsLighter(rest: seq<Interval>, a: Interval, b: Interval, next: Interval)
    requires a == Interval(next.low, Middle(next.low, next.high)) &&
             b == Interval(Middle(next.low, next.high), next.high)
    requires next.high - next.low > HOUR
    ensures Weights(rest + [a, b]) < Weights(rest + [next])
  {
    CutMiddle(next.low, next.high);
    WeightsLast(rest, next);
    WeightsLast(rest, a);
    WeightsLast(rest + [a], b);
    assert rest + [a] + [b] == rest + [a, b];
  }

  lemma {:induction false} WeightsLast(rest: seq<Interval>, i: Interval)
    ensures Weights(rest + [i]) == Weight(i) + Weights(rest)
  {
    assert (rest + [i])[..|rest|] == rest;
  }

  lemma {:induction false} PendingLast(db: seq<Run>, rest: seq<Interval>, i: Interval)
    ensures Pending(db, rest + [i]) == Collected(db, i.low, i.high) + Pending(db, rest)
    ensures AllFetchable(db, rest + [i]) <==> Fetchable(db, i.low, i.high) && AllFetchable(db, rest)
  {
    var all := rest + [i];
    assert all[..|rest|] == rest;
    if AllFetchable(db, all) {
      assert all[|rest|] == i;
      forall k | 0 <= k < |rest| ensures Fetchable(db, rest[k].low, rest[k].high) {
        assert all[k] == rest[k];
      }
    }
  }

  /** Halving an interval over the cap changes neither what will be collected nor whether it can be. */
  lemma {:induction false} SplitKeepsPending(db: seq<Run>, rest: seq<Interval>, a: Interval, b: Interval,
                                             next: Interval)
    requires a == Interval(next.low, Middle(next.low, next.high)) &&
             b == Interval(Middle(next.low, next.high), next.high)
    requires next.high - next.low > HOUR && |Found(db, next.low, next.high)| > RESULT_CAP
    ensures Pending(db, rest + [a, b]) == Pending(db, rest + [next])
    ensures AllFetchable(db, rest + [a, b]) <==> AllFetchable(db, rest + [next])
  {
    PendingLast(db, rest, next);
    PendingLast(db, rest, a);
    PendingLast(db, rest + [a], b);
    assert rest + [a] + [b] == rest + [a, b];
    HalvesTogether(db, a, b, next);
    Assoc(Collected(db, b.low, b.high), Collected(db, a.low, a.high), Pending(db, rest));
  }

  lemma {:induction false} HalvesTogether(db: seq<Run>, a: Interval, b: Interval, next: Interval)
    requires a == Interval(next.low, Middle(next.low, next.high)) &&
             b == Interval(Middle(next.low, next.high), next.high)
    requires next.high - next.low > HOUR && |Found(db, next.low, next.high)| > RESULT_CAP
    ensures Collected(db, next.low, next.high) == Collected(db, b.low, b.high) + Collected(db, a.low, a.high)
    ensures Fetchable(db, next.low, next.high) <==> Fetchable(db, a.low, a.high) && Fetchable(db, b.low, b.high)
  {
  }
}
