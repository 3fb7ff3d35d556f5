/**
 * What one direction of a circuit does, by the answers of its outside: its legs and laps,
 * the failures and marks they leave, and the answer that ended it early.
 */
module Journey {
  import opened Prelude
  import opened CanonicalEqual

  datatype Format = Hson | Json | Html

  datatype Direction = Cw | Ccw

  datatype Phase = Conversion | Closure

  datatype Stage = PrepareStage | SerializeStage | ParseStage | CompareStage | CancelStage

  datatype Fault =
    | Stopped(stage: Stage, terminal: bool)
    | Differs(kind: Kind, terminal: bool)
    | MissingMark(terminal: bool)

  datatype Checkpoint =
    | BeforeDirection(direction: Direction)
    | BeforeOppositeDirection
    | BeforeLeg(direction: Direction, lap: nat, leg: nat)
    | BetweenLaps(direction: Direction, lap: nat)
    | BeforeFinalComparison

  /**
   * The caller's transforms and cancellation. Each answer may depend on how many calls went
   * before it. A parse that throws, or whose node the invariant check refuses, answers None.
   */
  datatype Outside = Outside(
    serialize: (nat, Format, Thing) -> Option<string>,
    parse: (nat, Format, string) -> Option<Thing>,
    cancel: (nat, Checkpoint) -> bool)

  datatype Representation = Representation(format: Format, text: string, node: Thing)

  datatype Mark = Mark(key: Key, node: Thing)

  datatype Key = Key(lap: nat, format: Format, phase: Phase)

  datatype Counts = Counts(parses: nat, serializations: nat, comparisons: nat, laps: nat, directions: nat)

  datatype CompletedDirection = CompletedDirection(
    completedLaps: nat,
    completed: bool,
    ok: bool,
    final: Representation,
    failures: seq<Fault>,
    checkpoints: seq<Mark>)

  // ---------------------------------------------------------------- the ring

  function Ring(direction: Direction): (r: seq<Format>)
    ensures |r| == 3
  {
    if direction == Cw then [Json, Html, Hson] else [Json, Hson, Html]
  }

  function IndexIn(ring: seq<Format>, entry: Format): (i: nat)
    requires entry in ring
    ensures i < |ring| && ring[i] == entry
  {
    if ring[0] == entry then 0 else 1 + IndexIn(ring[1..], entry)
  }

  function DirectionPath(entry: Format, direction: Direction): (path: seq<Format>)
    ensures |path| == 4
  {
    var ring := Ring(direction);
    RingIsFull(direction, entry);
    var index := IndexIn(ring, entry);
    ring[index..] + ring[..index] + [entry]
  }

  lemma {:induction false} RingIsFull(direction: Direction, entry: Format)
    ensures entry in Ring(direction)
  {
    assert Ring(direction)[0] == Json;
    assert Ring(direction)[1] == if direction == Cw then Html else Hson;
    assert Ring(direction)[2] == if direction == Cw then Hson else Html;
  }

  /** A lap starts and closes at the entry format and crosses each format once. */
  predicate RoundTrip(entry: Format, path: seq<Format>) {
    |path| == 4 && path[0] == path[3] == entry && path[0] != path[1] && path[1] != path[2] && path[2] != path[0]
  }

  /** Either way round, a lap is a round trip; the two ways mirror each other. */
  lemma {:induction false} PathLaw(entry: Format)
    ensures var cw, ccw := DirectionPath(entry, Cw), DirectionPath(entry, Ccw);
            RoundTrip(entry, cw) && RoundTrip(entry, ccw) && cw[1] == ccw[2] && cw[2] == ccw[1]
  {
    assert Ring(Cw) == [Json, Html, Hson] && Ring(Ccw) == [Json, Hson, Html];
    match entry
    case Json =>
      assert DirectionPath(entry, Cw) == [Json, Html, Hson, Json];
      assert DirectionPath(entry, Ccw) == [Json, Hson, Html, Json];
    case Html =>
      assert DirectionPath(entry, Cw) == [Html, Hson, Json, Html];
      assert DirectionPath(entry, Ccw) == [Html, Json, Hson, Html];
    case Hson =>
      assert DirectionPath(entry, Cw) == [Hson, Json, Html, Hson];
      assert DirectionPath(entry, Ccw) == [Hson, Html, Json, Hson];
  }

  function PhaseOf(leg: nat): Phase {
    if leg == 3 then Closure else Conversion
  }

  // ---------------------------------------------------------------- what the outside answers

  /** One direction with what it runs against. */
  datatype Run = Run(outside: Outside, entry: Format, direction: Direction, paranoid: bool, stopOnFirstFail: bool)

  function PathOf(run: Run): (path: seq<Format>)
    ensures |path| == 4
  {
    DirectionPath(run.entry, run.direction)
  }

  /** The node a leg takes from the outside: its source, written out in the target format and parsed again. */
  function Answer(outside: Outside, clock: nat, target: Format, source: Thing): Option<Thing> {
    match outside.serialize(clock, target, source)
    case None => None
    case Some(text) => outside.parse(clock + 1, target, text)
  }

  /** The node leg number n starts from. */
  function Source(start: Thing, nodes: seq<Thing>, n: nat): Thing
    requires n <= |nodes|
  {
    if n == 0 then start else nodes[n - 1]
  }

  function LegFaults(source: Thing, node: Thing, stopOnFirstFail: bool): seq<Fault> {
    match Difference(source, node, true)
    case None => []
    case Some(kind) => [Differs(kind, stopOnFirstFail)]
  }

  /** The faults of the legs whose node came back different, in order. */
  function Differing(start: Thing, nodes: seq<Thing>, stopOnFirstFail: bool): seq<Fault> {
    if nodes == [] then []
    else
      var last := |nodes| - 1;
      Differing(start, nodes[..last], stopOnFirstFail)
        + LegFaults(Source(start, nodes, last), nodes[last], stopOnFirstFail)
  }

  predicate Cancelled(failures: seq<Fault>) {
    Stopped(CancelStage, true) in failures
  }

  predicate Same(nodes: seq<Thing>, node: Thing) {
    forall i | 0 <= i < |nodes| :: nodes[i] == node
  }

  lemma {:induction false} SameSteps(nodes: seq<Thing>, node: Thing, all: Thing)
    ensures Same(nodes + [node], all) <==> Same(nodes, all) && node == all
  {
    assert (nodes + [node])[|nodes|] == node;
    assert forall i | 0 <= i < |nodes| :: (nodes + [node])[i] == nodes[i];
  }

  lemma {:induction false} SameJoined(a: seq<Thing>, b: seq<Thing>, node: Thing)
    ensures Same(a + b, node) <==> Same(a, node) && Same(b, node)
  {
    if Same(a + b, node) {
      assert forall i | 0 <= i < |a| :: a[i] == (a + b)[i];
      assert forall i | 0 <= i < |b| :: b[i] == (a + b)[|a| + i];
    }
  }

  lemma {:induction false} DifferingIsSame(start: Thing, nodes: seq<Thing>, stopOnFirstFail: bool)
    ensures var faults := Differing(start, nodes, stopOnFirstFail);
            && (faults == [] <==> Same(nodes, start))
            && forall i | 0 <= i < |faults| :: faults[i].Differs? && faults[i].terminal == stopOnFirstFail
  {
    if nodes != [] {
      var last := |nodes| - 1;
      DifferingIsSame(start, nodes[..last], stopOnFirstFail);
      NoDifferenceIffEqual(Source(start, nodes, last), nodes[last], true);
      SameSteps(nodes[..last], nodes[last], start);
      assert nodes[..last] + [nodes[last]] == nodes;
    }
  }

  lemma {:induction false} DifferingNext(start: Thing, nodes: seq<Thing>, node: Thing, stopOnFirstFail: bool)
    ensures Differing(start, nodes + [node], stopOnFirstFail) ==
            Differing(start, nodes, stopOnFirstFail) + LegFaults(Source(start, nodes, |nodes|), node, stopOnFirstFail)
  {
    assert (nodes + [node])[..|nodes|] == nodes;
  }

  /** The last of these legs ended the run: it differed, and the first failure stops. */
  predicate EndsTheRun(start: Thing, nodes: seq<Thing>, stopOnFirstFail: bool) {
    nodes != [] && stopOnFirstFail && Source(start, nodes, |nodes| - 1) != nodes[|nodes| - 1]
  }

  // ---------------------------------------------------------------- the run, leg by leg

  /** Where a run is: the last representation reached, the failures so far and the marks left. */
  datatype Standing = Standing(current: Representation, failures: seq<Fault>, marks: seq<Mark>)

  /**
   * A direction under way: where it stands, the nodes its legs parsed, the outside calls made and
   * the laps completed. It stopped with these faults, none when a difference stopped it, or goes on.
   */
  datatype Progress = Progress(at: Standing, nodes: seq<Thing>, clock: nat, laps: nat, stop: Option<seq<Fault>>)

  function Halted(p: Progress, fault: Fault, calls: nat): Progress {
    p.(at := p.at.(failures := p.at.failures + [fault]), clock := p.clock + calls, stop := Some([fault]))
  }

  /** A leg that took its answer. */
  function Taken(run: Run, lap: nat, n: nat, p: Progress, next: Representation): Progress {
    var faults := LegFaults(p.at.current.node, next.node, run.stopOnFirstFail);
    var marks := if run.paranoid then [Mark(Key(lap, next.format, PhaseOf(n)), next.node)] else [];
    Progress(Standing(next, p.at.failures + faults, p.at.marks + marks), p.nodes + [next.node], p.clock + 3, p.laps,
             if run.stopOnFirstFail && faults != [] then Some([]) else None)
  }

  function LegOf(run: Run, lap: nat, n: nat, p: Progress): (r: Progress)
    requires n < 4
    ensures r.laps == p.laps && |p.nodes| <= |r.nodes|
  {
    var target := PathOf(run)[n];
    if run.outside.cancel(p.clock, BeforeLeg(run.direction, lap, n)) then Halted(p, Stopped(CancelStage, true), 1)
    else match run.outside.serialize(p.clock + 1, target, p.at.current.node)
      case None => Halted(p, Stopped(SerializeStage, true), 2)
      case Some(text) => match run.outside.parse(p.clock + 2, target, text)
        case None => Halted(p, Stopped(ParseStage, true), 3)
        case Some(node) => Taken(run, lap, n, p, Representation(target, text, node))
  }

  function LapOf(run: Run, lap: nat, n: nat, p: Progress): (r: Progress)
    requires n <= 4
    ensures r.laps == p.laps && |p.nodes| <= |r.nodes|
    decreases 4 - n
  {
    if n == 4 || p.stop.Some? then p else LapOf(run, lap, n + 1, LegOf(run, lap, n, p))
  }

  /** The run when a lap begins: asked whether to go on, except before the first lap. */
  function Asked(p: Progress): Progress {
    if p.laps > 0 then p.(clock := p.clock + 1) else p
  }

  /** The next lap, unless the run is cancelled before it. */
  function NextLapOf(run: Run, p: Progress): (r: Progress)
    ensures r.stop.None? ==> r.laps == p.laps + 1
    ensures r.stop.Some? ==> r.laps == p.laps
    ensures |p.nodes| <= |r.nodes|
  {
    if p.laps > 0 && run.outside.cancel(p.clock, BetweenLaps(run.direction, p.laps)) then
      Halted(p, Stopped(CancelStage, true), 1)
    else
      var lapped := LapOf(run, p.laps, 0, Asked(p));
      if lapped.stop.Some? then lapped else lapped.(laps := p.laps + 1)
  }

  function LapsOf(run: Run, times: nat, p: Progress): (r: Progress)
    requires p.laps <= times
    ensures p.laps <= r.laps && |p.nodes| <= |r.nodes|
    decreases if p.stop.Some? then 0 else 1, times - p.laps
  {
    if p.stop.Some? || p.laps == times then p else LapsOf(run, times, NextLapOf(run, p))
  }

  function Begun(prepared: Representation, clock: nat): Progress {
    Progress(Standing(prepared, [], []), [], clock, 0, None)
  }

  // ---------------------------------------------------------------- what a run did, by the outside's answers

  /** The outside calls before leg number k of a direction: three a leg, and one between laps. */
  function ClockAt(began: nat, k: nat): nat {
    began + 13 * (k / 4) + 3 * (k % 4)
  }

  predicate CancelledBetween(run: Run, began: nat, k: nat) {
    k > 0 && k % 4 == 0 && run.outside.cancel(ClockAt(began, k) - 1, BetweenLaps(run.direction, k / 4))
  }

  /**
   * Leg number k of a direction: nothing had ended the run, it was not cancelled between laps or
   * before the leg, and its node is the outside's answer in the next format of the path.
   */
  predicate LegAnswered(run: Run, began: nat, start: Thing, nodes: seq<Thing>, k: nat)
    requires k < |nodes|
  {
    && !EndsTheRun(start, nodes[..k], run.stopOnFirstFail)
    && !CancelledBetween(run, began, k)
    && !run.outside.cancel(ClockAt(began, k), BeforeLeg(run.direction, k / 4, k % 4))
    && Answer(run.outside, ClockAt(began, k) + 1, PathOf(run)[k % 4], Source(start, nodes, k)) == Some(nodes[k])
  }

  predicate AllAnswered(run: Run, began: nat, start: Thing, nodes: seq<Thing>) {
    forall k: nat | k < |nodes| :: LegAnswered(run, began, start, nodes, k)
  }

  /** One mark a leg, named by lap, format and phase. */
  function MarksFor(path: seq<Format>, nodes: seq<Thing>): (r: seq<Mark>)
    requires |path| == 4
    ensures |r| == |nodes|
  {
    seq(|nodes|, (k: nat) requires k < |nodes| => Mark(Key(k / 4, path[k % 4], PhaseOf(k % 4)), nodes[k]))
  }

  function RunMarks(run: Run, nodes: seq<Thing>): seq<Mark> {
    if run.paranoid then MarksFor(PathOf(run), nodes) else []
  }

  /** The prepared representation, or the last text the outside wrote and the node it read from it. */
  predicate Arrived(run: Run, began: nat, prepared: Representation, nodes: seq<Thing>, current: Representation) {
    if nodes == [] then current == prepared
    else
      var last := |nodes| - 1;
      && current.node == nodes[last] && current.format == PathOf(run)[last % 4]
      && run.outside.serialize(ClockAt(began, last) + 1, current.format, Source(prepared.node, nodes, last)) == Some(current.text)
  }

  /** After these legs the outside's next answer ended the run, or their last difference did. */
  predicate StoppedBy(run: Run, began: nat, start: Thing, nodes: seq<Thing>, faults: seq<Fault>, clock: nat) {
    var k, now := |nodes|, ClockAt(began, |nodes|);
    if EndsTheRun(start, nodes, run.stopOnFirstFail) then faults == [] && clock == ClockAt(began, k - 1) + 3
    else if CancelledBetween(run, began, k) then faults == [Stopped(CancelStage, true)] && clock == now
    else if run.outside.cancel(now, BeforeLeg(run.direction, k / 4, k % 4)) then
      faults == [Stopped(CancelStage, true)] && clock == now + 1
    else match run.outside.serialize(now + 1, PathOf(run)[k % 4], Source(start, nodes, k))
      case None => faults == [Stopped(SerializeStage, true)] && clock == now + 2
      case Some(text) =>
        && run.outside.parse(now + 2, PathOf(run)[k % 4], text).None?
        && faults == [Stopped(ParseStage, true)] && clock == now + 3
  }

  /** The laps these legs completed; a difference that stops leaves its lap incomplete. */
  function LapsDone(run: Run, start: Thing, nodes: seq<Thing>): nat {
    if EndsTheRun(start, nodes, run.stopOnFirstFail) then (|nodes| - 1) / 4 else |nodes| / 4
  }

  function StopFaults(p: Progress): seq<Fault> {
    if p.stop.Some? then p.stop.value else []
  }

  /** Everything a direction did so far, by the outside's answers. */
  predicate Answered(run: Run, began: nat, prepared: Representation, p: Progress) {
    && AllAnswered(run, began, prepared.node, p.nodes)
    && Arrived(run, began, prepared, p.nodes, p.at.current)
    && p.at.failures == Differing(prepared.node, p.nodes, run.stopOnFirstFail) + StopFaults(p)
    && p.at.marks == RunMarks(run, p.nodes)
    && (p.stop.None? ==> !EndsTheRun(prepared.node, p.nodes, run.stopOnFirstFail))
    && (p.stop.Some? ==> StoppedBy(run, began, prepared.node, p.nodes, p.stop.value, p.clock))
  }

  // ---------------------------------------------------------------- every step keeps that account

  lemma {:induction false} AnsweredNext(run: Run, began: nat, start: Thing, nodes: seq<Thing>, node: Thing)
    requires AllAnswered(run, began, start, nodes) && !EndsTheRun(start, nodes, run.stopOnFirstFail)
    requires var k := |nodes|;
             && !CancelledBetween(run, began, k)
             && !run.outside.cancel(ClockAt(began, k), BeforeLeg(run.direction, k / 4, k % 4))
             && Answer(run.outside, ClockAt(began, k) + 1, PathOf(run)[k % 4], Source(start, nodes, k)) == Some(node)
    ensures AllAnswered(run, began, start, nodes + [node])
  {
    var all := nodes + [node];
    forall k: nat | k < |all| ensures LegAnswered(run, began, start, all, k) {
      assert all[..k] == nodes[..k] && Source(start, all, k) == Source(start, nodes, k);
      if k < |nodes| {
        assert LegAnswered(run, began, start, nodes, k);
      } else {
        assert nodes[..k] == nodes;
      }
    }
  }

  lemma {:induction false} MarksNext(path: seq<Format>, nodes: seq<Thing>, node: Thing)
    requires |path| == 4
    ensures var k := |nodes|;
            MarksFor(path, nodes + [node]) == MarksFor(path, nodes) + [Mark(Key(k / 4, path[k % 4], PhaseOf(k % 4)), node)]
  {
  }

  lemma {:induction false} EndsNext(start: Thing, nodes: seq<Thing>, node: Thing, stopOnFirstFail: bool)
    ensures EndsTheRun(start, nodes + [node], stopOnFirstFail) <==> stopOnFirstFail && Source(start, nodes, |nodes|) != node
  {
  }

  lemma {:induction false} ArrivedIsLast(run: Run, began: nat, prepared: Representation, nodes: seq<Thing>, current: Representation)
    requires Arrived(run, began, prepared, nodes, current)
    ensures current.node == Source(prepared.node, nodes, |nodes|)
  {
  }

  lemma {:induction false} ArrivesNext(run: Run, began: nat, prepared: Representation, nodes: seq<Thing>, next: Representation)
    requires var k := |nodes|;
             && next.format == PathOf(run)[k % 4]
             && run.outside.serialize(ClockAt(began, k) + 1, next.format, Source(prepared.node, nodes, k)) == Some(next.text)
    ensures Arrived(run, began, prepared, nodes + [next.node], next)
  {
    assert Source(prepared.node, nodes + [next.node], |nodes|) == Source(prepared.node, nodes, |nodes|);
  }

  lemma {:induction false} LegFaultsTerminal(source: Thing, node: Thing, stopOnFirstFail: bool)
    ensures forall i | 0 <= i < |LegFaults(source, node, stopOnFirstFail)| ::
              LegFaults(source, node, stopOnFirstFail)[i].Differs? && LegFaults(source, node, stopOnFirstFail)[i].terminal == stopOnFirstFail
  {
  }

  lemma {:induction false} LegFaultsIff(source: Thing, node: Thing, stopOnFirstFail: bool)
    ensures LegFaults(source, node, stopOnFirstFail) == [] <==> source == node
  {
    NoDifferenceIffEqual(source, node, true);
  }

  /** A leg whose answer the outside gave: not cancelled, written and read again. */
  predicate Gave(run: Run, lap: nat, n: nat, p: Progress, next: Representation)
    requires n < 4
  {
    && !run.outside.cancel(p.clock, BeforeLeg(run.direction, lap, n)) && next.format == PathOf(run)[n]
    && run.outside.serialize(p.clock + 1, next.format, p.at.current.node) == Some(next.text)
    && run.outside.parse(p.clock + 2, next.format, next.text) == Some(next.node)
  }

  lemma {:induction false} TakenAnswers(run: Run, began: nat, start: Thing, lap: nat, n: nat, p: Progress, next: Representation)
    requires n < 4 && |p.nodes| == 4 * lap + n && p.at.current.node == Source(start, p.nodes, |p.nodes|)
    requires AllAnswered(run, began, start, p.nodes) && !EndsTheRun(start, p.nodes, run.stopOnFirstFail)
    requires p.clock == ClockAt(began, 4 * lap + n) && !CancelledBetween(run, began, 4 * lap + n) && Gave(run, lap, n, p, next)
    ensures AllAnswered(run, began, start, p.nodes + [next.node])
  {
    assert (4 * lap + n) / 4 == lap && (4 * lap + n) % 4 == n;
    AnsweredNext(run, began, start, p.nodes, next.node);
  }

  lemma {:induction false} TakenArrives(run: Run, began: nat, prepared: Representation, lap: nat, n: nat, p: Progress,
                                        next: Representation)
    requires n < 4 && |p.nodes| == 4 * lap + n && p.at.current.node == Source(prepared.node, p.nodes, |p.nodes|)
    requires p.clock == ClockAt(began, 4 * lap + n) && Gave(run, lap, n, p, next)
    ensures Arrived(run, began, prepared, p.nodes + [next.node], next)
  {
    var k := |p.nodes|;
    assert k % 4 == n && p.clock + 1 == ClockAt(began, k) + 1;
    ArrivesNext(run, began, prepared, p.nodes, next);
  }

  lemma {:induction false} TakenKeeps(run: Run, began: nat, prepared: Representation, lap: nat, n: nat, p: Progress,
                                      next: Representation)
    requires Answered(run, began, prepared, p) && p.stop.None? && n < 4 && |p.nodes| == 4 * lap + n
    requires p.clock == ClockAt(began, 4 * lap + n) && !CancelledBetween(run, began, 4 * lap + n) && Gave(run, lap, n, p, next)
    ensures Answered(run, began, prepared, Taken(run, lap, n, p, next))
  {
    var taken := Taken(run, lap, n, p, next);
    ArrivedIsLast(run, began, prepared, p.nodes, p.at.current);
    TakenAnswers(run, began, prepared.node, lap, n, p, next);
    TakenArrives(run, began, prepared, lap, n, p, next);
    TakenMarks(run, lap, n, p.nodes, next.node);
    TakenFailures(run, prepared.node, p, taken);
    TakenStops(run, began, prepared.node, lap, n, p, next);
    Assembled(run, began, prepared, taken);
  }

  lemma {:induction false} Assembled(run: Run, began: nat, prepared: Representation, p: Progress)
    requires AllAnswered(run, began, prepared.node, p.nodes) && Arrived(run, began, prepared, p.nodes, p.at.current)
    requires p.at.failures == Differing(prepared.node, p.nodes, run.stopOnFirstFail) + StopFaults(p)
    requires p.at.marks == RunMarks(run, p.nodes)
    requires p.stop.Some? <==> EndsTheRun(prepared.node, p.nodes, run.stopOnFirstFail)
    requires p.stop.Some? ==> StoppedBy(run, began, prepared.node, p.nodes, p.stop.value, p.clock)
    ensures Answered(run, began, prepared, p)
  {
  }

  lemma {:induction false} TakenStops(run: Run, began: nat, start: Thing, lap: nat, n: nat, p: Progress, next: Representation)
    requires n < 4 && |p.nodes| == 4 * lap + n && p.at.current.node == Source(start, p.nodes, |p.nodes|)
    requires p.clock == ClockAt(began, 4 * lap + n)
    ensures var taken := Taken(run, lap, n, p, next);
            && (taken.stop.Some? <==> EndsTheRun(start, taken.nodes, run.stopOnFirstFail))
            && (taken.stop.Some? ==> StoppedBy(run, began, start, taken.nodes, [], taken.clock) && taken.stop == Some([]))
  {
    EndsNext(start, p.nodes, next.node, run.stopOnFirstFail);
    LegFaultsIff(p.at.current.node, next.node, run.stopOnFirstFail);
  }

  lemma {:induction false} TakenMarks(run: Run, lap: nat, n: nat, nodes: seq<Thing>, node: Thing)
    requires n < 4 && |nodes| == 4 * lap + n
    ensures RunMarks(run, nodes + [node]) ==
            RunMarks(run, nodes) + if run.paranoid then [Mark(Key(lap, PathOf(run)[n], PhaseOf(n)), node)] else []
  {
    assert |nodes| / 4 == lap && |nodes| % 4 == n;
    MarksNext(PathOf(run), nodes, node);
  }

  lemma {:induction false} TakenFailures(run: Run, start: Thing, p: Progress, r: Progress)
    requires p.stop.None? && p.at.failures == Differing(start, p.nodes, run.stopOnFirstFail) + StopFaults(p)
    requires r.at.failures == p.at.failures + LegFaults(p.at.current.node, r.at.current.node, run.stopOnFirstFail)
    requires StopFaults(r) == [] && p.at.current.node == Source(start, p.nodes, |p.nodes|)
    requires r.nodes == p.nodes + [r.at.current.node]
    ensures r.at.failures == Differing(start, r.nodes, run.stopOnFirstFail) + StopFaults(r)
  {
    DifferingNext(start, p.nodes, r.at.current.node, run.stopOnFirstFail);
  }

  lemma {:induction false} HaltedKeeps(run: Run, began: nat, prepared: Representation, p: Progress, fault: Fault, calls: nat)
    requires Answered(run, began, prepared, p) && p.stop.None?
    requires StoppedBy(run, began, prepared.node, p.nodes, [fault], p.clock + calls)
    ensures Answered(run, began, prepared, Halted(p, fault, calls))
  {
  }

  lemma {:induction false} LegNumber(began: nat, lap: nat, n: nat)
    requires n < 4
    ensures (4 * lap + n) / 4 == lap && (4 * lap + n) % 4 == n && ClockAt(began, 4 * lap + n) == ClockAt(began, 4 * lap) + 3 * n
  {
  }

  /** The outside calls after whole laps. */
  function LapsClock(began: nat, laps: nat): nat {
    if laps == 0 then began else ClockAt(began, 4 * laps) - 1
  }

  /** A run stands before leg n of a lap, and its account holds. */
  ghost predicate Before(account: Progress -> bool, began: nat, lap: nat, n: nat, p: Progress) {
    account(p) && p.stop.None? && |p.nodes| == 4 * lap + n && p.clock == ClockAt(began, 4 * lap) + 3 * n
  }

  /** A run stands between laps. */
  ghost predicate Between(account: Progress -> bool, began: nat, p: Progress) {
    account(p) && p.stop.None? && |p.nodes| == 4 * p.laps && p.clock == LapsClock(began, p.laps)
  }

  /** What a leg keeps: the account, and where the run then stands or which lap it stopped in. */
  ghost predicate Kept(account: Progress -> bool, done: seq<Thing> -> nat, began: nat, lap: nat, n: nat, r: Progress) {
    && account(r)
    && (r.stop.None? ==> Before(account, began, lap, n + 1, r))
    && (r.stop.Some? ==> done(r.nodes) == lap)
  }

  /** An account that every leg and every question between laps keeps, and that is not about clock and laps until it stops. */
  ghost predicate KeptByLegs(run: Run, began: nat, account: Progress -> bool, done: seq<Thing> -> nat) {
    && (forall lap: nat, n: nat, p: Progress |
          n < 4 && Before(account, began, lap, n, p) && !CancelledBetween(run, began, 4 * lap + n) ::
          Kept(account, done, began, lap, n, LegOf(run, lap, n, p)))
    && (forall p: Progress | Between(account, began, p) && CancelledBetween(run, began, 4 * p.laps) ::
          account(Halted(p, Stopped(CancelStage, true), 1)) && done(p.nodes) == p.laps)
    && (forall p: Progress, clock: nat | account(p) && p.stop.None? :: account(p.(clock := clock)))
    && (forall p: Progress, laps: nat | account(p) && p.stop.None? :: account(p.(laps := laps)))
  }

  lemma {:induction false} LapKeeps(run: Run, began: nat, account: Progress -> bool, done: seq<Thing> -> nat,
                                    lap: nat, n: nat, p: Progress)
    requires KeptByLegs(run, began, account, done)
    requires n <= 4 && Before(account, began, lap, n, p) && (n == 0 ==> !CancelledBetween(run, began, 4 * lap))
    ensures var r := LapOf(run, lap, n, p);
            && account(r)
            && (r.stop.None? ==> Before(account, began, lap, 4, r))
            && (r.stop.Some? ==> done(r.nodes) == lap)
    decreases 4 - n
  {
    if n < 4 {
      LegNumber(began, lap, n);
      var next := LegOf(run, lap, n, p);
      assert Kept(account, done, began, lap, n, next);
      if next.stop.None? { LapKeeps(run, began, account, done, lap, n + 1, next); }
    }
  }

  /** A direction so far: between laps, or stopped in the lap after those it completed. */
  ghost predicate UnderWay(account: Progress -> bool, done: seq<Thing> -> nat, began: nat, p: Progress) {
    if p.stop.None? then Between(account, began, p) else account(p) && p.laps == done(p.nodes)
  }

  lemma {:induction false} LapStarts(run: Run, began: nat, account: Progress -> bool, done: seq<Thing> -> nat, p: Progress)
    requires KeptByLegs(run, began, account, done) && Between(account, began, p)
    ensures Before(account, began, p.laps, 0, Asked(p))
    ensures CancelledBetween(run, began, 4 * p.laps) <==>
              p.laps > 0 && run.outside.cancel(p.clock, BetweenLaps(run.direction, p.laps))
  {
    LegNumber(began, p.laps, 0);
  }

  lemma {:induction false} LapEnds(run: Run, began: nat, account: Progress -> bool, done: seq<Thing> -> nat, p: Progress)
    requires KeptByLegs(run, began, account, done) && Before(account, began, p.laps, 4, p)
    ensures Between(account, began, p.(laps := p.laps + 1))
  {
    LegNumber(began, p.laps, 0);
    LegNumber(began, p.laps + 1, 0);
  }

  lemma {:induction false} NextLapKeeps(run: Run, began: nat, account: Progress -> bool, done: seq<Thing> -> nat, p: Progress)
    requires KeptByLegs(run, began, account, done) && Between(account, began, p)
    ensures UnderWay(account, done, began, NextLapOf(run, p))
  {
    LapStarts(run, began, account, done, p);
    if !CancelledBetween(run, began, 4 * p.laps) {
      LapKeeps(run, began, account, done, p.laps, 0, Asked(p));
      var lapped := LapOf(run, p.laps, 0, Asked(p));
      if lapped.stop.None? { LapEnds(run, began, account, done, lapped); }
    }
  }

  lemma {:induction false} LapsKeep(run: Run, began: nat, account: Progress -> bool, done: seq<Thing> -> nat, times: nat, p: Progress)
    requires KeptByLegs(run, began, account, done)
    requires UnderWay(account, done, began, p) && p.laps <= times && (p.stop.Some? ==> p.laps < times)
    ensures var r := LapsOf(run, times, p);
            UnderWay(account, done, began, r) && r.laps <= times && (r.stop.None? <==> r.laps == times)
    decreases if p.stop.Some? then 0 else 1, times - p.laps
  {
    if p.stop.None? && p.laps < times {
      NextLapKeeps(run, began, account, done, p);
      LapsKeep(run, began, account, done, times, NextLapOf(run, p));
    }
  }

  // ---------------------------------------------------------------- the account is kept

  /** A run under way before a leg, with everything so far answered. */
  predicate Ready(run: Run, began: nat, prepared: Representation, lap: nat, n: nat, p: Progress) {
    && n < 4 && Answered(run, began, prepared, p) && p.stop.None? && |p.nodes| == 4 * lap + n
    && p.clock == ClockAt(began, 4 * lap) + 3 * n && !CancelledBetween(run, began, 4 * lap + n)
  }

  lemma {:induction false} ReadyClock(run: Run, began: nat, prepared: Representation, lap: nat, n: nat, p: Progress)
    requires Ready(run, began, prepared, lap, n, p)
    ensures p.clock == ClockAt(began, |p.nodes|) && |p.nodes| / 4 == lap && |p.nodes| % 4 == n
    ensures !EndsTheRun(prepared.node, p.nodes, run.stopOnFirstFail) && !CancelledBetween(run, began, |p.nodes|)
    ensures LapsDone(run, prepared.node, p.nodes) == lap
    ensures p.at.current.node == Source(prepared.node, p.nodes, |p.nodes|)
  {
    LegNumber(began, lap, n);
    ArrivedIsLast(run, began, prepared, p.nodes, p.at.current);
  }

  lemma {:induction false} LegCancelled(run: Run, began: nat, prepared: Representation, lap: nat, n: nat, p: Progress)
    requires Ready(run, began, prepared, lap, n, p)
    requires run.outside.cancel(p.clock, BeforeLeg(run.direction, lap, n))
    ensures Answered(run, began, prepared, Halted(p, Stopped(CancelStage, true), 1))
  {
    ReadyClock(run, began, prepared, lap, n, p);
    HaltedKeeps(run, began, prepared, p, Stopped(CancelStage, true), 1);
  }

  lemma {:induction false} LegUnwritten(run: Run, began: nat, prepared: Representation, lap: nat, n: nat, p: Progress)
    requires Ready(run, began, prepared, lap, n, p)
    requires !run.outside.cancel(p.clock, BeforeLeg(run.direction, lap, n))
    requires run.outside.serialize(p.clock + 1, PathOf(run)[n], p.at.current.node).None?
    ensures Answered(run, began, prepared, Halted(p, Stopped(SerializeStage, true), 2))
  {
    ReadyClock(run, began, prepared, lap, n, p);
    HaltedKeeps(run, began, prepared, p, Stopped(SerializeStage, true), 2);
  }

  lemma {:induction false} LegUnread(run: Run, began: nat, prepared: Representation, lap: nat, n: nat, p: Progress)
    requires Ready(run, began, prepared, lap, n, p)
    requires !run.outside.cancel(p.clock, BeforeLeg(run.direction, lap, n))
    requires var text := run.outside.serialize(p.clock + 1, PathOf(run)[n], p.at.current.node);
             text.Some? && run.outside.parse(p.clock + 2, PathOf(run)[n], text.value).None?
    ensures Answered(run, began, prepared, Halted(p, Stopped(ParseStage, true), 3))
  {
    ReadyClock(run, began, prepared, lap, n, p);
    HaltedKeeps(run, began, prepared, p, Stopped(ParseStage, true), 3);
  }

  lemma {:induction false} TakenGoes(run: Run, start: Thing, lap: nat, n: nat, p: Progress, next: Representation)
    requires n < 4 && |p.nodes| == 4 * lap + n && p.at.current.node == Source(start, p.nodes, |p.nodes|)
    ensures var r := Taken(run, lap, n, p, next);
            && |r.nodes| == 4 * lap + n + 1 && r.clock == p.clock + 3
            && (r.stop.Some? ==> LapsDone(run, start, r.nodes) == lap)
  {
    EndsNext(start, p.nodes, next.node, run.stopOnFirstFail);
    LegFaultsIff(p.at.current.node, next.node, run.stopOnFirstFail);
  }

  /** The same account after a leg, and where the run then stands or which lap it stopped in. */
  predicate LegKept(run: Run, began: nat, prepared: Representation, lap: nat, n: nat, p: Progress, r: Progress) {
    && Answered(run, began, prepared, r)
    && (r.stop.None? ==> |r.nodes| == 4 * lap + n + 1 && r.clock == p.clock + 3)
    && (r.stop.Some? ==> LapsDone(run, prepared.node, r.nodes) == lap)
  }

  lemma {:induction false} LegTaken(run: Run, began: nat, prepared: Representation, lap: nat, n: nat, p: Progress,
                                    next: Representation)
    requires Ready(run, began, prepared, lap, n, p) && Gave(run, lap, n, p, next)
    ensures LegKept(run, began, prepared, lap, n, p, Taken(run, lap, n, p, next))
  {
    ReadyClock(run, began, prepared, lap, n, p);
    TakenKeeps(run, began, prepared, lap, n, p, next);
    TakenGoes(run, prepared.node, lap, n, p, next);
  }

  lemma {:induction false} LegHalted(run: Run, began: nat, prepared: Representation, lap: nat, n: nat, p: Progress,
                                     fault: Fault, calls: nat)
    requires Ready(run, began, prepared, lap, n, p) && Answered(run, began, prepared, Halted(p, fault, calls))
    ensures LegKept(run, began, prepared, lap, n, p, Halted(p, fault, calls))
  {
    ReadyClock(run, began, prepared, lap, n, p);
  }

  lemma {:induction false} LegAsks(run: Run, lap: nat, n: nat, p: Progress)
    requires n < 4
    ensures run.outside.cancel(p.clock, BeforeLeg(run.direction, lap, n)) ==>
              LegOf(run, lap, n, p) == Halted(p, Stopped(CancelStage, true), 1)
    ensures !run.outside.cancel(p.clock, BeforeLeg(run.direction, lap, n))
            && run.outside.serialize(p.clock + 1, PathOf(run)[n], p.at.current.node).None? ==>
              LegOf(run, lap, n, p) == Halted(p, Stopped(SerializeStage, true), 2)
  {
  }

  /** What the outside's answers make of one leg, and what holds after it. */
  lemma {:induction false} LegKeeps(run: Run, began: nat, prepared: Representation, lap: nat, n: nat, p: Progress)
    requires Ready(run, began, prepared, lap, n, p)
    ensures LegKept(run, began, prepared, lap, n, p, LegOf(run, lap, n, p))
  {
    var target, source := PathOf(run)[n], p.at.current.node;
    LegAsks(run, lap, n, p);
    if run.outside.cancel(p.clock, BeforeLeg(run.direction, lap, n)) {
      LegCancelled(run, began, prepared, lap, n, p);
      LegHalted(run, began, prepared, lap, n, p, Stopped(CancelStage, true), 1);
    } else if run.outside.serialize(p.clock + 1, target, source).None? {
      LegUnwritten(run, began, prepared, lap, n, p);
      LegHalted(run, began, prepared, lap, n, p, Stopped(SerializeStage, true), 2);
    } else {
      LegWritten(run, began, prepared, lap, n, p, run.outside.serialize(p.clock + 1, target, source).value);
    }
  }

  lemma {:induction false} LegReads(run: Run, lap: nat, n: nat, p: Progress, text: string)
    requires n < 4 && !run.outside.cancel(p.clock, BeforeLeg(run.direction, lap, n))
    requires run.outside.serialize(p.clock + 1, PathOf(run)[n], p.at.current.node) == Some(text)
    ensures var node := run.outside.parse(p.clock + 2, PathOf(run)[n], text);
            LegOf(run, lap, n, p) ==
            if node.None? then Halted(p, Stopped(ParseStage, true), 3)
            else Taken(run, lap, n, p, Representation(PathOf(run)[n], text, node.value))
  {
  }

  lemma {:induction false} LegWritten(run: Run, began: nat, prepared: Representation, lap: nat, n: nat, p: Progress, text: string)
    requires Ready(run, began, prepared, lap, n, p)
    requires !run.outside.cancel(p.clock, BeforeLeg(run.direction, lap, n))
    requires run.outside.serialize(p.clock + 1, PathOf(run)[n], p.at.current.node) == Some(text)
    ensures LegKept(run, began, prepared, lap, n, p, LegOf(run, lap, n, p))
  {
    var node := run.outside.parse(p.clock + 2, PathOf(run)[n], text);
    LegReads(run, lap, n, p, text);
    if node.None? {
      LegUnread(run, began, prepared, lap, n, p);
      LegHalted(run, began, prepared, lap, n, p, Stopped(ParseStage, true), 3);
    } else {
      LegTaken(run, began, prepared, lap, n, p, Representation(PathOf(run)[n], text, node.value));
    }
  }

  lemma {:induction false} BetweenStops(run: Run, began: nat, prepared: Representation, p: Progress)
    requires Answered(run, began, prepared, p) && p.stop.None? && |p.nodes| == 4 * p.laps && p.laps > 0
    requires p.clock == ClockAt(began, 4 * p.laps) - 1 && CancelledBetween(run, began, 4 * p.laps)
    ensures Answered(run, began, prepared, Halted(p, Stopped(CancelStage, true), 1))
    ensures LapsDone(run, prepared.node, p.nodes) == p.laps
  {
    HaltedKeeps(run, began, prepared, p, Stopped(CancelStage, true), 1);
  }

  lemma {:induction false} AnsweredIsKept(run: Run, began: nat, prepared: Representation)
    ensures KeptByLegs(run, began, p => Answered(run, began, prepared, p), nodes => LapsDone(run, prepared.node, nodes))
  {
    var account: Progress -> bool := p => Answered(run, began, prepared, p);
    var done: seq<Thing> -> nat := nodes => LapsDone(run, prepared.node, nodes);
    forall lap: nat, n: nat, p: Progress |
      n < 4 && Before(account, began, lap, n, p) && !CancelledBetween(run, began, 4 * lap + n)
      ensures Kept(account, done, began, lap, n, LegOf(run, lap, n, p))
    {
      LegKeeps(run, began, prepared, lap, n, p);
    }
    forall p: Progress | Between(account, began, p) && CancelledBetween(run, began, 4 * p.laps)
      ensures account(Halted(p, Stopped(CancelStage, true), 1)) && done(p.nodes) == p.laps
    {
      BetweenStops(run, began, prepared, p);
    }
  }

  /** A whole direction. */
  function DirectionOf(run: Run, began: nat, prepared: Representation, times: nat): Progress {
    LapsOf(run, times, Begun(prepared, began))
  }

  /**
   * What one direction does is what the outside answers: leg by leg in the order of the path, each
   * from the node of the one before, until all laps are done or an answer ends the run.
   */
  lemma {:induction false} DirectionIsAnswered(run: Run, began: nat, prepared: Representation, times: nat)
    ensures var r := DirectionOf(run, began, prepared, times);
            && Answered(run, began, prepared, r) && r.laps <= times && (r.stop.None? <==> r.laps == times)
            && r.laps == LapsDone(run, prepared.node, r.nodes)
            && (r.stop.None? ==> |r.nodes| == 4 * times && r.clock == LapsClock(began, times))
  {
    assert Differing(prepared.node, [], run.stopOnFirstFail) + [] == [];
    AnsweredIsKept(run, began, prepared);
    LapsKeep(run, began, p => Answered(run, began, prepared, p), nodes => LapsDone(run, prepared.node, nodes),
             times, Begun(prepared, began));
  }

  /** The marks a run leaves for the nodes it parsed: one for every leg, named by lap, format and phase. */
  function MarksOf(path: seq<Format>, lap: nat, parsed: seq<Thing>): (r: seq<Mark>)
    requires |parsed| <= |path|
    ensures |r| == |parsed|
  {
    seq(|parsed|, (k: nat) requires k < |parsed| => Mark(Key(lap, path[k], PhaseOf(k)), parsed[k]))
  }

  // ---------------------------------------------------------------- marks by key

  /** The marks by key; a later mark of one key replaces an earlier one. */
  function Keyed(marks: seq<Mark>): map<Key, Thing> {
    if marks == [] then map[]
    else
      var last := |marks| - 1;
      Keyed(marks[..last])[marks[last].key := marks[last].node]
  }

  lemma {:induction false} KeyedConcat(a: seq<Mark>, b: seq<Mark>)
    ensures Keyed(a + b) == Keyed(a) + Keyed(b)
  {
    if b == [] {
      assert a + b == a;
    } else {
      var last := |b| - 1;
      assert (a + b)[..|a + b| - 1] == a + b[..last];
      KeyedConcat(a, b[..last]);
    }
  }

  /** The keys of completed laps: every format once on the way, and the entry again at the close. */
  predicate IsLapKey(key: Key, entry: Format, laps: nat) {
    key.lap < laps && (key.phase == Conversion || key.format == entry)
  }

  predicate HoldsOnly(m: map<Key, Thing>, node: Thing) {
    forall key | key in m :: m[key] == node
  }

  lemma {:induction false} LapMarks(entry: Format, path: seq<Format>, lap: nat, parsed: seq<Thing>, node: Thing)
    requires RoundTrip(entry, path) && |parsed| == 4
    ensures var m := Keyed(MarksOf(path, lap, parsed));
            && (forall key :: key in m <==> key.lap == lap && IsLapKey(key, entry, lap + 1))
            && |m.Keys| == 4
            && (Same(parsed, node) ==> HoldsOnly(m, node))
  {
    var marks := MarksOf(path, lap, parsed);
    var m1 := map[marks[0].key := marks[0].node];
    assert marks[..1] == [marks[0]] && marks[..2][..1] == marks[..1];
    assert marks[..3][..2] == marks[..2] && marks[..4] == marks && marks[..4][..3] == marks[..3];
    assert Keyed(marks[..1]) == m1;
    assert Keyed(marks[..2]) == m1[marks[1].key := marks[1].node];
    var m3 := m1[marks[1].key := marks[1].node][marks[2].key := marks[2].node];
    assert Keyed(marks[..3]) == m3 && |m3.Keys| == 3;
    forall key: Key ensures key in m3 <==> key.lap == lap && key.phase == Conversion {
      match key.format { case Json => case Html => case Hson => }
      match path[0] { case Json => case Html => case Hson => }
    }
    assert Keyed(marks) == m3[marks[3].key := marks[3].node];
  }

  lemma {:induction false} SameParts(parsed: seq<Thing>, n: nat, node: Thing)
    requires n <= |parsed| && Same(parsed, node)
    ensures Same(parsed[..n], node) && Same(parsed[n..], node)
  {
  }

  lemma {:induction false} HoldsOnlyJoined(a: seq<Mark>, b: seq<Mark>, node: Thing)
    ensures HoldsOnly(Keyed(a), node) && HoldsOnly(Keyed(b), node) ==> HoldsOnly(Keyed(a + b), node)
  {
    KeyedConcat(a, b);
  }

  lemma {:induction false} LapsMarksNext(path: seq<Format>, laps: nat, parsed: seq<Thing>)
    requires laps > 0 && |path| == 4 && |parsed| == 4 * laps
    ensures MarksFor(path, parsed) ==
            MarksFor(path, parsed[..4 * laps - 4]) + MarksOf(path, laps - 1, parsed[4 * laps - 4..])
  {
    var a, b := MarksFor(path, parsed[..4 * laps - 4]), MarksOf(path, laps - 1, parsed[4 * laps - 4..]);
    forall k: nat | k < 4 * laps ensures MarksFor(path, parsed)[k] == (a + b)[k] {
      if k >= 4 * laps - 4 { assert k / 4 == laps - 1 && k % 4 == k - (4 * laps - 4); }
    }
  }

  /** The marks have exactly the keys of these laps. */
  ghost predicate KeysAre(entry: Format, laps: nat, marks: seq<Mark>) {
    (forall key :: key in Keyed(marks) <==> IsLapKey(key, entry, laps)) && |Keyed(marks).Keys| == 4 * laps
  }

  lemma {:induction false} DisjointCount(a: set<Key>, b: set<Key>)
    requires a !! b
    ensures |a + b| == |a| + |b|
  {
  }

  lemma {:induction false} KeysJoined(entry: Format, lap: nat, a: seq<Mark>, b: seq<Mark>)
    requires KeysAre(entry, lap, a)
    requires forall key :: key in Keyed(b) <==> key.lap == lap && IsLapKey(key, entry, lap + 1)
    requires |Keyed(b).Keys| == 4
    ensures KeysAre(entry, lap + 1, a + b)
  {
    KeyedConcat(a, b);
    DisjointCount(Keyed(a).Keys, Keyed(b).Keys);
    assert Keyed(a + b).Keys == Keyed(a).Keys + Keyed(b).Keys;
  }

  /** A completed direction leaves the same keys whichever way it went round. */
  lemma {:induction false} LapsKeys(entry: Format, path: seq<Format>, laps: nat, parsed: seq<Thing>)
    requires RoundTrip(entry, path) && |parsed| == 4 * laps
    ensures KeysAre(entry, laps, MarksFor(path, parsed))
  {
    if laps > 0 {
      var before, lapped := parsed[..4 * laps - 4], parsed[4 * laps - 4..];
      var a, b := MarksFor(path, before), MarksOf(path, laps - 1, lapped);
      LapsMarksNext(path, laps, parsed);
      LapsKeys(entry, path, laps - 1, before);
      LapMarks(entry, path, laps - 1, lapped, lapped[0]);
      KeysJoined(entry, laps - 1, a, b);
    }
  }

  /** Equal nodes leave equal marks. */
  lemma {:induction false} LapsHold(entry: Format, path: seq<Format>, laps: nat, parsed: seq<Thing>, node: Thing)
    requires RoundTrip(entry, path) && |parsed| == 4 * laps && Same(parsed, node)
    ensures HoldsOnly(Keyed(MarksFor(path, parsed)), node)
  {
    if laps > 0 {
      var before, lapped := parsed[..4 * laps - 4], parsed[4 * laps - 4..];
      var a, b := MarksFor(path, before), MarksOf(path, laps - 1, lapped);
      LapsMarksNext(path, laps, parsed);
      SameParts(parsed, 4 * laps - 4, node);
      LapsHold(entry, path, laps - 1, before, node);
      LapMarks(entry, path, laps - 1, lapped, node);
      HoldsOnlyJoined(a, b, node);
    }
  }
}
