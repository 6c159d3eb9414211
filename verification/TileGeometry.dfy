/** The geometry commands a feature is held to: what is accepted, exactly. */
module TileGeometry {

  // Section 4.3 of the Mapbox Vector Tile Specification 2.1: a stream is accepted exactly when it is the printing
  // of a list of parts, which it determines.

  import opened Sequences
  import opened Wrappers

  type u32 = x: int | 0 <= x < 0x1_0000_0000

  const MAX_COUNT := 0x1fff_ffff
  const MOVE_TO := 1
  const LINE_TO := 2
  const CLOSE_PATH := 7

  datatype GeometryType = Point | LineString | Polygon

  datatype Delta = Delta(dx: u32, dy: u32)

  const STILL := Delta(0, 0)

  datatype Part =
    | Points(deltas: seq<Delta>)
    | Line(start: Delta, deltas: seq<Delta>)
    | Ring(start: Delta, deltas: seq<Delta>)

  // ---- printing ----

  function Command(id: nat, count: nat): (c: u32)
    requires id < 8 && count <= MAX_COUNT
    ensures c % 8 == id && c / 8 == count
  {
    count * 8 + id
  }

  function PrintDeltas(ds: seq<Delta>): (g: seq<u32>)
    ensures |g| == 2 * |ds|
  {
    if ds == [] then [] else [ds[0].dx, ds[0].dy] + PrintDeltas(ds[1..])
  }

  /** A part the grammar admits: counts from one, a ring of two segments at least beside its closing,
      and no segment of zero length. */
  predicate Admissible(p: Part) {
    && 1 <= |p.deltas| <= MAX_COUNT
    && (p.Line? || p.Ring? ==> STILL !in p.deltas)
    && (p.Ring? ==> |p.deltas| >= 2)
  }

  function PrintPart(p: Part): (g: seq<u32>)
    requires Admissible(p)
    ensures g != []
  {
    match p
    case Points(deltas) => [Command(MOVE_TO, |deltas|)] + PrintDeltas(deltas)
    case Line(start, deltas) =>
      [Command(MOVE_TO, 1), start.dx, start.dy, Command(LINE_TO, |deltas|)] + PrintDeltas(deltas)
    case Ring(start, deltas) =>
      [Command(MOVE_TO, 1), start.dx, start.dy, Command(LINE_TO, |deltas|)] + PrintDeltas(deltas) +
        [Command(CLOSE_PATH, 1)]
  }

  predicate PartOf(t: GeometryType, p: Part) {
    && Admissible(p)
    && match t
       case Point => p.Points?
       case LineString => p.Line?
       case Polygon => p.Ring?
  }

  predicate PartsOf(t: GeometryType, parts: seq<Part>) {
    forall p | p in parts :: PartOf(t, p)
  }

  /** One MoveTo for a point; any number of lines or of rings. */
  predicate GeometryOf(t: GeometryType, parts: seq<Part>) {
    && PartsOf(t, parts)
    && (t.Point? ==> |parts| == 1)
  }

  function Print(parts: seq<Part>): seq<u32>
    requires forall p :: p in parts ==> Admissible(p)
  {
    if parts == [] then [] else PrintPart(parts[0]) + Print(parts[1..])
  }

  // ---- parsing ----

  function CommandAt(g: seq<u32>, id: nat): (r: Result<nat>)
    ensures r.Ok? ==> g != [] && 1 <= r.value <= MAX_COUNT
  {
    if g == [] || g[0] / 8 == 0 || g[0] % 8 != id then Err else Ok(g[0] / 8)
  }

  function DeltasOf(g: seq<u32>): (ds: seq<Delta>)
    requires |g| % 2 == 0
    ensures 2 * |ds| == |g|
  {
    if g == [] then [] else [Delta(g[0], g[1])] + DeltasOf(g[2..])
  }

  function DeltasAt(g: seq<u32>, count: nat, rejectStill: bool): (r: Result<seq<Delta>>)
    ensures r.Ok? ==> |r.value| == count && 2 * count <= |g|
  {
    if |g| < 2 * count then Err
    else
      var ds := DeltasOf(g[..2 * count]);
      if rejectStill && STILL in ds then Err else Ok(ds)
  }

  function PartAt(t: GeometryType, g: seq<u32>): (r: Result<(Part, nat)>)
    ensures r.Ok? ==> 1 <= r.value.1 <= |g|
  {
    var moves :- CommandAt(g, MOVE_TO);
    if t.Point? then
      var deltas :- DeltasAt(g[1..], moves, false);
      Ok((Points(deltas), 1 + 2 * moves))
    else if moves != 1 then
      Err
    else
      var start :- DeltasAt(g[1..], 1, false);
      var lines :- CommandAt(g[3..], LINE_TO);
      if t.Polygon? && lines < 2 then
        Err
      else
        var deltas :- DeltasAt(g[4..], lines, true);
        var end := 4 + 2 * lines;
        if t.LineString? then
          Ok((Line(start[0], deltas), end))
        else
          var closes :- CommandAt(g[end..], CLOSE_PATH);
          if closes != 1 then Err else Ok((Ring(start[0], deltas), end + 1))
  }

  function PartsAt(t: GeometryType, g: seq<u32>): Result<seq<Part>>
    decreases |g|
  {
    if g == [] then
      Ok([])
    else
      var (part, n) :- PartAt(t, g);
      var rest :- PartsAt(t, g[n..]);
      Ok([part] + rest)
  }

  /** The parts `validate_geometry` walks through. */
  function Parse(t: GeometryType, g: seq<u32>): Result<seq<Part>> {
    if t.Point? then
      var (part, n) :- PartAt(t, g);
      if n != |g| then Err else Ok([part])
    else
      PartsAt(t, g)
  }

  // ---- a stream and its parts determine each other ----

  lemma {:induction false} DeltasPrinted(ds: seq<Delta>)
    ensures DeltasOf(PrintDeltas(ds)) == ds
  {
    if ds != [] {
      assert PrintDeltas(ds)[2..] == PrintDeltas(ds[1..]);
      DeltasPrinted(ds[1..]);
      assert ds == [ds[0]] + ds[1..];
    }
  }

  lemma {:induction false} DeltasPrint(g: seq<u32>)
    requires |g| % 2 == 0
    ensures PrintDeltas(DeltasOf(g)) == g
  {
    if g != [] {
      DeltasPrint(g[2..]);
      assert DeltasOf(g)[1..] == DeltasOf(g[2..]);
      assert g == [g[0], g[1]] + g[2..];
    }
  }

  lemma {:induction false} DeltasAtPrinted(ds: seq<Delta>, rest: seq<u32>, rejectStill: bool)
    requires rejectStill ==> STILL !in ds
    ensures DeltasAt(PrintDeltas(ds) + rest, |ds|, rejectStill) == Ok(ds)
  {
    assert (PrintDeltas(ds) + rest)[..2 * |ds|] == PrintDeltas(ds);
    DeltasPrinted(ds);
  }

  lemma {:induction false} OneDelta(d: Delta, rest: seq<u32>)
    ensures DeltasAt([d.dx, d.dy] + rest, 1, false) == Ok([d])
  {
    DeltasAtPrinted([d], rest, false);
    assert PrintDeltas([d]) == [d.dx, d.dy] + PrintDeltas([d][1..]) == [d.dx, d.dy];
  }

  lemma {:induction false} PathPrinted(g: seq<u32>, start: Delta, deltas: seq<Delta>, tail: seq<u32>)
    requires 1 <= |deltas| <= MAX_COUNT && STILL !in deltas
    requires g == [Command(MOVE_TO, 1), start.dx, start.dy, Command(LINE_TO, |deltas|)] + PrintDeltas(deltas) + tail
    ensures CommandAt(g, MOVE_TO) == Ok(1) && DeltasAt(g[1..], 1, false) == Ok([start])
    ensures CommandAt(g[3..], LINE_TO) == Ok(|deltas|) && DeltasAt(g[4..], |deltas|, true) == Ok(deltas)
    ensures g[4 + 2 * |deltas|..] == tail
  {
    assert g[1..] == [start.dx, start.dy] + g[3..];
    OneDelta(start, g[3..]);
    assert g[4..] == PrintDeltas(deltas) + tail;
    DeltasAtPrinted(deltas, tail, true);
  }

  lemma {:induction false} HeadApart(head: u32, tail: seq<u32>, rest: seq<u32>)
    ensures ([head] + tail + rest)[0] == head && ([head] + tail + rest)[1..] == tail + rest
  {
  }

  lemma {:induction false} PointsPrinted(p: Part, rest: seq<u32>)
    requires PartOf(Point, p)
    ensures PartAt(Point, PrintPart(p) + rest) == Ok((p, |PrintPart(p)|))
  {
    HeadApart(Command(MOVE_TO, |p.deltas|), PrintDeltas(p.deltas), rest);
    DeltasAtPrinted(p.deltas, rest, false);
  }

  lemma {:induction false} LinePrinted(p: Part, rest: seq<u32>)
    requires PartOf(LineString, p)
    ensures PartAt(LineString, PrintPart(p) + rest) == Ok((p, |PrintPart(p)|))
  {
    PathPrinted(PrintPart(p) + rest, p.start, p.deltas, rest);
  }

  lemma {:induction false} RingPrinted(p: Part, rest: seq<u32>)
    requires PartOf(Polygon, p)
    ensures PartAt(Polygon, PrintPart(p) + rest) == Ok((p, |PrintPart(p)|))
  {
    var g, tail := PrintPart(p) + rest, [Command(CLOSE_PATH, 1)] + rest;
    assert g == [Command(MOVE_TO, 1), p.start.dx, p.start.dy, Command(LINE_TO, |p.deltas|)]
                + PrintDeltas(p.deltas) + tail;
    PathPrinted(g, p.start, p.deltas, tail);
    assert CommandAt(tail, CLOSE_PATH) == Ok(1);
  }

  lemma {:induction false} PartPrinted(t: GeometryType, p: Part, rest: seq<u32>)
    requires PartOf(t, p)
    ensures PartAt(t, PrintPart(p) + rest) == Ok((p, |PrintPart(p)|))
  {
    match t
    case Point => PointsPrinted(p, rest);
    case LineString => LinePrinted(p, rest);
    case Polygon => RingPrinted(p, rest);
  }

  lemma {:induction false} HeadOfFour(g: seq<u32>, k: nat, n: nat)
    requires 4 + 2 * k <= n <= |g|
    ensures g[..n] == [g[0], g[1], g[2], g[3]] + g[4..][..2 * k] + g[4 + 2 * k..n]
  {
  }

  lemma {:induction false} OneDeltaRead(g: seq<u32>)
    requires |g| >= 3
    ensures DeltasOf(g[1..][..2]) == [Delta(g[1], g[2])]
  {
    assert g[1..][..2] == [g[1], g[2]];
    assert DeltasOf([g[1], g[2]]) == [Delta(g[1], g[2])] + DeltasOf([g[1], g[2]][2..]);
  }

  lemma {:induction false} PointsPrint(g: seq<u32>)
    requires PartAt(Point, g).Ok?
    ensures var (p, n) := PartAt(Point, g).value; PartOf(Point, p) && PrintPart(p) == g[..n]
  {
    var (p, n) := PartAt(Point, g).value;
    DeltasPrint(g[1..][..2 * |p.deltas|]);
    assert g[..n] == [g[0]] + g[1..][..2 * |p.deltas|];
  }

  lemma {:induction false} PathPrints(t: GeometryType, g: seq<u32>)
    requires !t.Point? && PartAt(t, g).Ok?
    ensures var (p, n) := PartAt(t, g).value; PartOf(t, p) && PrintPart(p) == g[..n]
  {
    var (p, n) := PartAt(t, g).value;
    var k := |p.deltas|;
    OneDeltaRead(g);
    DeltasPrint(g[4..][..2 * k]);
    HeadOfFour(g, k, n);
    assert g[0] == Command(MOVE_TO, 1) && g[3] == Command(LINE_TO, k);
    if t.Polygon? {
      assert g[4 + 2 * k..n] == [Command(CLOSE_PATH, 1)];
    } else {
      assert g[4 + 2 * k..n] == [];
    }
  }

  lemma {:induction false} PartPrints(t: GeometryType, g: seq<u32>)
    requires PartAt(t, g).Ok?
    ensures var (p, n) := PartAt(t, g).value; PartOf(t, p) && PrintPart(p) == g[..n]
  {
    if t.Point? {
      PointsPrint(g);
    } else {
      PathPrints(t, g);
    }
  }

  lemma {:induction false} PartsAtFolds(t: GeometryType, g: seq<u32>, p: Part, n: nat, ps: seq<Part>)
    requires g != [] && PartAt(t, g) == Ok((p, n)) && PartsAt(t, g[n..]) == Ok(ps)
    ensures PartsAt(t, g) == Ok([p] + ps)
  {
  }

  lemma {:induction false} PartsPrinted(t: GeometryType, parts: seq<Part>)
    requires PartsOf(t, parts)
    ensures PartsAt(t, Print(parts)) == Ok(parts)
    decreases |parts|
  {
    if parts != [] {
      var p, ps := parts[0], parts[1..];
      assert PartsOf(t, ps);
      PartPrinted(t, p, Print(ps));
      PartsPrinted(t, ps);
      CutApart(PrintPart(p), Print(ps));
      PartsAtFolds(t, PrintPart(p) + Print(ps), p, |PrintPart(p)|, ps);
      HeadJoined(parts);
    }
  }

  lemma {:induction false} PartsAtUnfolds(t: GeometryType, g: seq<u32>)
    requires g != [] && PartsAt(t, g).Ok?
    ensures PartAt(t, g).Ok? && PartsAt(t, g[PartAt(t, g).value.1..]).Ok?
    ensures PartsAt(t, g).value == [PartAt(t, g).value.0] + PartsAt(t, g[PartAt(t, g).value.1..]).value
  {
  }

  lemma {:induction false} PrintsFirst(t: GeometryType, p: Part, ps: seq<Part>)
    requires PartOf(t, p) && PartsOf(t, ps)
    ensures PartsOf(t, [p] + ps) && Print([p] + ps) == PrintPart(p) + Print(ps)
  {
    assert ([p] + ps)[1..] == ps;
  }

  lemma {:induction false} PartsPrint(t: GeometryType, g: seq<u32>)
    requires PartsAt(t, g).Ok?
    ensures PartsOf(t, PartsAt(t, g).value)
    ensures Print(PartsAt(t, g).value) == g
    decreases |g|
  {
    if g != [] {
      PartsAtUnfolds(t, g);
      PartPrints(t, g);
      var (p, n) := PartAt(t, g).value;
      PartsPrint(t, g[n..]);
      PrintsFirst(t, p, PartsAt(t, g[n..]).value);
      CutJoined(g, n);
    }
  }

  /** The printing of a geometry is read back as that geometry. */
  lemma {:induction false} ParsePrinted(t: GeometryType, parts: seq<Part>)
    requires GeometryOf(t, parts)
    ensures Parse(t, Print(parts)) == Ok(parts)
  {
    if t.Point? {
      PartPrinted(t, parts[0], []);
      assert Print(parts) == PrintPart(parts[0]) + [];
      assert parts == [parts[0]];
    } else {
      PartsPrinted(t, parts);
    }
  }

  /** What is read is a geometry, and prints as the stream. */
  lemma {:induction false} ParsePrints(t: GeometryType, g: seq<u32>)
    requires Parse(t, g).Ok?
    ensures GeometryOf(t, Parse(t, g).value) && Print(Parse(t, g).value) == g
  {
    if t.Point? {
      PartPrints(t, g);
      var p := PartAt(t, g).value.0;
      assert g[..|g|] == g;
      assert Print([p]) == PrintPart(p) + Print([p][1..]) == g;
    } else {
      PartsPrint(t, g);
    }
  }

  /** A stream is accepted exactly when it prints some geometry of the type, and it prints only one. */
  lemma {:induction false} AcceptsExactlyPrintings(t: GeometryType, g: seq<u32>)
    ensures Parse(t, g).Ok? <==> exists parts :: GeometryOf(t, parts) && Print(parts) == g
    ensures forall p, q :: GeometryOf(t, p) && GeometryOf(t, q) && Print(p) == Print(q) ==> p == q
  {
    if Parse(t, g).Ok? {
      ParsePrints(t, g);
    }
    forall parts | GeometryOf(t, parts) ensures Parse(t, Print(parts)) == Ok(parts) {
      ParsePrinted(t, parts);
    }
  }

  // ---- the decoder's walk ----

  /** The number at `position` is some count of the command. */
  ghost predicate IsCommand(geometry: seq<u32>, position: nat, id: nat) {
    position < |geometry| && id < 8 && exists n :: 1 <= n <= MAX_COUNT && geometry[position] == Command(id, n)
  }

  method ExpectGeometryCommand(geometry: seq<u32>, position: nat, id: nat) returns (r: Result<nat>)
    requires position <= |geometry|
    ensures r.Ok? <==> IsCommand(geometry, position, id)
    ensures r.Ok? ==> 1 <= r.value <= MAX_COUNT && geometry[position] == Command(id, r.value)
    ensures r == CommandAt(geometry[position..], id)
  {
    if position == |geometry| {
      return Err;
    }
    var encoded := geometry[position];
    var count := encoded / 8;
    if count == 0 {
      return Err;
    }
    if encoded % 8 != id {
      return Err;
    }
    assert encoded == Command(id, count);
    r := Ok(count);
  }

  method HasStill(deltas: seq<u32>) returns (found: bool)
    requires |deltas| % 2 == 0
    ensures found <==> STILL in DeltasOf(deltas)
  {
    var i := 0;
    while i < |deltas|
      invariant i % 2 == 0 && i <= |deltas|
      invariant STILL in DeltasOf(deltas) <==> STILL in DeltasOf(deltas[i..])
    {
      assert deltas[i..][2..] == deltas[i + 2..];
      if deltas[i] == 0 && deltas[i + 1] == 0 {
        assert DeltasOf(deltas[i..])[0] == STILL;
        return true;
      }
      i := i + 2;
    }
    found := false;
  }

  /** The position behind the parameters. */
  method ConsumeCoordinateParameters(geometry: seq<u32>, position: nat, count: nat, rejectStill: bool)
    returns (r: Result<nat>)
    requires position <= |geometry|
    ensures r.Ok? <==> DeltasAt(geometry[position..], count, rejectStill).Ok?
    ensures r.Ok? ==> r.value == position + 2 * count <= |geometry|
  {
    var remaining := |geometry| - position;
    if remaining < 2 * count {
      return Err;
    }
    assert geometry[position..][..2 * count] == geometry[position..position + 2 * count];
    if rejectStill {
      var still := HasStill(geometry[position..position + 2 * count]);
      if still {
        return Err;
      }
    }
    r := Ok(position + 2 * count);
  }

  method ConsumePart(t: GeometryType, geometry: seq<u32>, start: nat) returns (r: Result<nat>)
    requires start <= |geometry|
    ensures PartRead(t, geometry, start, r)
  {
    ghost var g := geometry[start..];
    var position := start;
    var moves :- ExpectGeometryCommand(geometry, position, MOVE_TO);
    position := position + 1;
    assert geometry[position..] == g[1..];
    if t.Point? {
      position :- ConsumeCoordinateParameters(geometry, position, moves, false);
      return Ok(position);
    }
    if moves != 1 {
      return Err;
    }
    position :- ConsumeCoordinateParameters(geometry, position, moves, false);
    assert geometry[position..] == g[3..];
    var lines :- ExpectGeometryCommand(geometry, position, LINE_TO);
    position := position + 1;
    assert geometry[position..] == g[4..];
    if t.Polygon? && lines < 2 {
      return Err;
    }
    position :- ConsumeCoordinateParameters(geometry, position, lines, true);
    assert geometry[position..] == g[4 + 2 * lines..];
    if t.Polygon? {
      var closes :- ExpectGeometryCommand(geometry, position, CLOSE_PATH);
      position := position + 1;
      if closes != 1 {
        return Err;
      }
    }
    r := Ok(position);
  }

  lemma {:induction false} PartsStep(t: GeometryType, g: seq<u32>)
    requires g != []
    ensures PartAt(t, g).Err? ==> PartsAt(t, g).Err?
    ensures PartAt(t, g).Ok? ==> (PartsAt(t, g).Ok? <==> PartsAt(t, g[PartAt(t, g).value.1..]).Ok?)
  {
  }

  /** What reading one part of `g` came to: how many numbers it takes, or a refusal. */
  ghost predicate PartTaken(t: GeometryType, g: seq<u32>, r: Result<nat>) {
    match PartAt(t, g)
    case Err => r.Err?
    case Ok(part) => r == Ok(part.1)
  }

  /** What reading one part at `position` came to: where it ends, or a refusal. */
  ghost predicate PartRead(t: GeometryType, g: seq<u32>, position: nat, r: Result<nat>) {
    position <= |g| &&
    match PartAt(t, g[position..])
    case Err => r.Err?
    case Ok(part) => r == Ok(position + part.1)
  }

  /** The parts of `rest` decide whether `all` are accepted. */
  ghost predicate Decides(all: bool, t: GeometryType, rest: seq<u32>) {
    all <==> PartsAt(t, rest).Ok?
  }

  lemma {:induction false} DecidesNext(all: bool, t: GeometryType, rest: seq<u32>, r: Result<nat>)
    requires rest != [] && Decides(all, t, rest) && PartTaken(t, rest, r)
    ensures r.Err? ==> !all
    ensures r.Ok? ==> 1 <= r.value <= |rest| && Decides(all, t, rest[r.value..])
  {
    PartsStep(t, rest);
  }

  lemma {:induction false} TakenFrom(t: GeometryType, g: seq<u32>, position: nat, r: Result<nat>)
    requires PartRead(t, g, position, r)
    ensures r.Ok? ==> position <= r.value <= |g| && PartTaken(t, g[position..], Ok(r.value - position))
    ensures r.Err? ==> PartTaken(t, g[position..], Err)
  {
  }

  lemma {:induction false} TailOfTail(g: seq<u32>, m: nat, n: nat)
    requires m <= n <= |g|
    ensures g[m..][n - m..] == g[n..]
  {
  }

  method ConsumeParts(t: GeometryType, geometry: seq<u32>) returns (r: Result<()>)
    ensures r.Ok? <==> PartsAt(t, geometry).Ok?
  {
    var position := 0;
    ghost var all, rest := PartsAt(t, geometry).Ok?, geometry;
    while position < |geometry|
      invariant position <= |geometry| && rest == geometry[position..] && Decides(all, t, rest)
      decreases |geometry| - position
    {
      var next := ConsumePart(t, geometry, position);
      TakenFrom(t, geometry, position, next);
      if next.Err? {
        DecidesNext(all, t, rest, Err);
        return Err;
      }
      DecidesNext(all, t, rest, Ok(next.value - position));
      TailOfTail(geometry, position, next.value);
      rest, position := geometry[next.value..], next.value;
    }
    r := Ok(());
  }

  method ValidateGeometry(t: GeometryType, geometry: seq<u32>) returns (r: Result<()>)
    ensures r.Ok? <==> Parse(t, geometry).Ok?
  {
    if t.Point? {
      assert geometry[0..] == geometry;
      var position :- ConsumePart(t, geometry, 0);
      if position != |geometry| {
        return Err;
      }
      r := Ok(());
    } else {
      r := ConsumeParts(t, geometry);
    }
  }
}
