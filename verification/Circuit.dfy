/**
 * The circuit engine: laps over the ring of formats, each leg serializing, parsing and comparing,
 * in one or both directions, with failures, cancellation, counters and a final comparison.
 */
module Circuit {
  import opened Prelude
  import opened CanonicalEqual
  import opened Journey

  datatype Leg = Leg(next: Option<Representation>, failure: Option<Fault>)

  /** What n compared legs cost, and one more that stopped before its comparison with this fault. */
  function LegsCost(before: Counts, n: nat, faults: seq<Fault>): Counts {
    var parsed := faults == [Stopped(ParseStage, true)];
    Counts(before.parses + n + (if parsed then 1 else 0),
           before.serializations + n + (if parsed || faults == [Stopped(SerializeStage, true)] then 1 else 0),
           before.comparisons + n, before.laps, before.directions)
  }

  /** What a stretch of a run cost. */
  function Cost(before: Counts, from: Progress, to: Progress): Counts
    requires |from.nodes| <= |to.nodes| && from.laps <= to.laps
  {
    LegsCost(before, |to.nodes| - |from.nodes|, StopFaults(to)).(laps := before.laps + to.laps - from.laps)
  }

  class Context {
    const outside: Outside
    const paranoid: bool
    const stopOnFirstFail: bool
    var counts: Counts
    /** How many outside calls were made. */
    var clock: nat

    constructor (outside: Outside, paranoid: bool, stopOnFirstFail: bool)
      ensures this.outside == outside && this.paranoid == paranoid && this.stopOnFirstFail == stopOnFirstFail
      ensures counts == Counts(0, 0, 0, 0, 0) && clock == 0
    {
      this.outside, this.paranoid, this.stopOnFirstFail := outside, paranoid, stopOnFirstFail;
      counts, clock := Counts(0, 0, 0, 0, 0), 0;
    }

    /** One direction of this context. */
    function RunOf(entry: Format, direction: Direction): Run {
      Run(outside, entry, direction, paranoid, stopOnFirstFail)
    }

    ghost predicate Serves(run: Run) {
      run.outside == outside && run.paranoid == paranoid && run.stopOnFirstFail == stopOnFirstFail
    }

    /** The context is where this run is. */
    ghost predicate IsAt(p: Progress, at: Standing)
      reads this
    {
      p.at == at && p.clock == clock
    }

    method IsCancelled(checkpoint: Checkpoint) returns (cancelled: bool)
      modifies this`clock
      ensures cancelled == outside.cancel(old(clock), checkpoint) && clock == old(clock) + 1
    {
      cancelled := outside.cancel(clock, checkpoint);
      clock := clock + 1;
    }

    /** One counted strict comparison. */
    method Compare(left: Thing, right: Thing) returns (difference: Option<Kind>)
      modifies this`counts
      ensures difference == Difference(left, right, true) && (difference.None? <==> left == right)
      ensures counts == old(counts).(comparisons := old(counts.comparisons) + 1)
    {
      counts := counts.(comparisons := counts.comparisons + 1);
      difference := GraphDifference(left, right);
    }

    /**
     * One leg: it moves on to the node the outside reads from the text the outside wrote, and is clean
     * iff that node equals the one it started from; without a text or a node it stops.
     */
    method ExecuteLeg(current: Representation, target: Format) returns (leg: Leg)
      modifies this
      ensures var text := outside.serialize(old(clock), target, current.node);
              && (text.None? ==>
                    && leg == Leg(None, Some(Stopped(SerializeStage, true))) && clock == old(clock) + 1
                    && counts == LegsCost(old(counts), 0, [Stopped(SerializeStage, true)]))
              && (text.Some? ==>
                    var node := outside.parse(old(clock) + 1, target, text.value);
                    && clock == old(clock) + 2
                    && (node.None? ==>
                          && leg == Leg(None, Some(Stopped(ParseStage, true)))
                          && counts == LegsCost(old(counts), 0, [Stopped(ParseStage, true)]))
                    && (node.Some? ==>
                          && leg.next == Some(Representation(target, text.value, node.value))
                          && counts == LegsCost(old(counts), 1, [])
                          && (leg.failure.None? <==> node.value == current.node)
                          && LegFaults(current.node, node.value, stopOnFirstFail) ==
                             if leg.failure.None? then [] else [leg.failure.value]))
    {
      counts := counts.(serializations := counts.serializations + 1);
      var text := outside.serialize(clock, target, current.node);
      clock := clock + 1;
      if text.None? { return Leg(None, Some(Stopped(SerializeStage, true))); }
      counts := counts.(parses := counts.parses + 1);
      var parsed := outside.parse(clock, target, text.value);
      clock := clock + 1;
      if parsed.None? { return Leg(None, Some(Stopped(ParseStage, true))); }
      var difference := Compare(current.node, parsed.value);
      var next := Representation(target, text.value, parsed.value);
      leg := Leg(Some(next), if difference.None? then None else Some(Differs(difference.value, stopOnFirstFail)));
    }

    /** One leg of a lap, unless the run is cancelled before it. */
    method NextLeg(run: Run, lap: nat, leg: nat, at: Standing, ghost p: Progress)
      returns (next: Standing, goesOn: bool, ghost q: Progress)
      requires Serves(run) && leg < 4 && IsAt(p, at) && p.stop.None?
      modifies this
      ensures q == LegOf(run, lap, leg, p) && IsAt(q, next) && (goesOn <==> q.stop.None?)
      ensures counts == Cost(old(counts), p, q)
    {
      q, goesOn := LegOf(run, lap, leg, p), false;
      var stop := IsCancelled(BeforeLeg(run.direction, lap, leg));
      if stop {
        next := at.(failures := at.failures + [Stopped(CancelStage, true)]);
        return;
      }
      var target := PathOf(run)[leg];
      var done := ExecuteLeg(at.current, target);
      if done.next.None? {
        next := at.(failures := at.failures + [done.failure.value]);
        return;
      }
      next := Standing(done.next.value,
                       at.failures + (if done.failure.None? then [] else [done.failure.value]),
                       at.marks + (if paranoid then [Mark(Key(lap, target, PhaseOf(leg)), done.next.value.node)] else []));
      goesOn := !(done.failure.Some? && done.failure.value.terminal);
      LegFaultsTerminal(at.current.node, done.next.value.node, stopOnFirstFail);
    }

    /** The legs of one lap, until an answer of the outside, or a difference when the first failure stops, ends the run. */
    method ExecuteLap(run: Run, lap: nat, start: Standing, ghost p: Progress)
      returns (at: Standing, completed: bool, ghost q: Progress)
      requires Serves(run) && IsAt(p, start) && p.stop.None?
      modifies this
      ensures q == LapOf(run, lap, 0, p) && IsAt(q, at) && (completed <==> q.stop.None?)
      ensures counts == Cost(old(counts), p, q)
    {
      at, completed, q := start, true, p;
      for leg := 0 to 4
        invariant completed && q.stop.None? && IsAt(q, at) && LapOf(run, lap, 0, p) == LapOf(run, lap, leg, q)
        invariant |p.nodes| <= |q.nodes| && q.laps == p.laps && counts == Cost(old(counts), p, q)
      {
        ghost var before := q;
        at, completed, q := NextLeg(run, lap, leg, at, before);
        if !completed { return; }
      }
    }

    /** One more lap, unless the run is cancelled between laps. */
    method NextLap(run: Run, lap: nat, at: Standing, ghost p: Progress)
      returns (next: Standing, completed: bool, ghost q: Progress)
      requires Serves(run) && IsAt(p, at) && p.stop.None? && p.laps == lap
      modifies this
      ensures q == NextLapOf(run, p) && IsAt(q, next) && (completed <==> q.stop.None?)
      ensures counts == Cost(old(counts), p, q)
    {
      if lap > 0 {
        var stop := IsCancelled(BetweenLaps(run.direction, lap));
        if stop {
          next, completed := at.(failures := at.failures + [Stopped(CancelStage, true)]), false;
          q := NextLapOf(run, p);
          return;
        }
      }
      next, completed, q := ExecuteLap(run, lap, at, Asked(p));
      if completed {
        counts := counts.(laps := counts.laps + 1);
        q := q.(laps := lap + 1);
      }
    }

    /** The laps of one direction, until one does not complete or the run is cancelled between laps. */
    method RunLaps(run: Run, prepared: Representation, times: nat)
      returns (laps: nat, at: Standing, ghost p: Progress)
      requires Serves(run)
      modifies this
      ensures p == DirectionOf(run, old(clock), prepared, times) && IsAt(p, at) && laps == p.laps
      ensures counts == Cost(old(counts), Begun(prepared, old(clock)), p)
    {
      laps, at, p := 0, Standing(prepared, [], []), Begun(prepared, clock);
      while laps < times
        invariant laps == p.laps <= times && p.stop.None? && IsAt(p, at)
        invariant DirectionOf(run, old(clock), prepared, times) == LapsOf(run, times, p)
        invariant counts == Cost(old(counts), Begun(prepared, old(clock)), p)
        decreases times - laps
      {
        var completed;
        ghost var before := p;
        at, completed, p := NextLap(run, laps, at, before);
        if !completed { return; }
        laps := laps + 1;
      }
    }

    /** One direction, exactly as the outside answered it. */
    method ExecuteDirection(prepared: Representation, direction: Direction, times: nat)
      returns (r: CompletedDirection, cancelled: bool, ghost p: Progress)
      modifies this
      ensures p == DirectionOf(RunOf(prepared.format, direction), old(clock), prepared, times) && clock == p.clock
      ensures r == Summary(p, times) && (cancelled <==> Cancelled(r.failures))
      ensures counts == Spending(old(counts), p)
    {
      counts := counts.(directions := counts.directions + 1);
      var laps, at;
      laps, at, p := RunLaps(RunOf(prepared.format, direction), prepared, times);
      var completed := laps == times;
      r := CompletedDirection(laps, completed, completed && at.failures == [], at.current, at.failures, at.marks);
      cancelled := Stopped(CancelStage, true) in at.failures;
    }

    /** One key's nodes differ in this way. */
    ghost predicate MarksDiffer(left: map<Key, Thing>, right: map<Key, Thing>, key: Key, kind: Kind) {
      key in left && key in right && Difference(left[key], right[key], true) == Some(kind)
    }

    /** A fault of the paranoid pass is a key only one side has, or the difference of one key's nodes. */
    ghost predicate FaultOfMarks(left: map<Key, Thing>, right: map<Key, Thing>, fault: Fault) {
      match fault
      case MissingMark(terminal) => terminal == stopOnFirstFail && left.Keys != right.Keys
      case Differs(kind, terminal) => terminal == stopOnFirstFail && exists key :: MarksDiffer(left, right, key, kind)
      case Stopped(_, _) => false
    }

    /** The paranoid pass over both directions' marks, key by key. */
    method CompareMarks(cw: seq<Mark>, ccw: seq<Mark>) returns (fault: Option<Fault>, compared: nat)
      modifies this`counts
      ensures fault.None? <==> Keyed(cw) == Keyed(ccw)
      ensures Keyed(cw).Keys == Keyed(ccw).Keys && (fault.None? || !stopOnFirstFail) ==> compared == |Keyed(cw).Keys|
      ensures fault.Some? ==> FaultOfMarks(Keyed(cw), Keyed(ccw), fault.value)
      ensures counts == old(counts).(comparisons := old(counts.comparisons) + compared)
    {
      var cwKeys, left := KeyMarks(cw);
      var ccwKeys, right := KeyMarks(ccw);
      var keys := UnionKeys(cwKeys, ccwKeys);
      fault, compared := None, 0;
      for n := 0 to |keys|
        invariant fault.None? <==> AgreeOn(keys[..n], left, right)
        invariant fault.Some? ==> FaultOfMarks(left, right, fault.value)
        invariant fault.None? || !stopOnFirstFail
        invariant left.Keys == right.Keys ==> compared == n
        invariant counts == old(counts).(comparisons := old(counts.comparisons) + compared)
      {
        var key := keys[n];
        AgreeNext(keys, n, left, right);
        if key !in left || key !in right {
          fault := Some(MissingMark(stopOnFirstFail));
        } else {
          compared := compared + 1;
          var difference := Compare(left[key], right[key]);
          if difference.Some? {
            fault := Some(Differs(difference.value, stopOnFirstFail));
            assert MarksDiffer(left, right, key, difference.value);
          }
        }
        if stopOnFirstFail && fault.Some? {
          DisagreeBy(keys, n + 1, left, right);
          return;
        }
      }
      assert keys[..|keys|] == keys;
      AgreeAll(keys, left, right);
      if left.Keys == right.Keys { DistinctCount(keys, left.Keys); }
    }

    /** Comparing completed directions: no failure iff they end equal and, in paranoid mode, left equal marks. */
    method CompareDirections(cw: CompletedDirection, ccw: CompletedDirection) returns (r: DualComparison)
      modifies this`counts
      ensures r.performed <==> cw.completed && ccw.completed
      ensures !r.performed ==> r.failure.None? && counts == old(counts)
      ensures r.performed ==>
                && (r.failure.None? <==>
                      cw.final.node == ccw.final.node && (paranoid ==> Keyed(cw.checkpoints) == Keyed(ccw.checkpoints)))
                && counts == old(counts).(comparisons := old(counts.comparisons) + 1 + r.paranoidComparisons)
      ensures !paranoid ==> r.paranoidComparisons == 0
      ensures r.performed && paranoid && (r.failure.None? || !stopOnFirstFail)
              && Keyed(cw.checkpoints).Keys == Keyed(ccw.checkpoints).Keys ==>
                r.paranoidComparisons == |Keyed(cw.checkpoints).Keys|
      ensures r.performed && cw.final.node != ccw.final.node ==>
                r.failure.Some? && LegFaults(cw.final.node, ccw.final.node, stopOnFirstFail) == [r.failure.value]
      ensures r.performed && cw.final.node == ccw.final.node && r.failure.Some? ==>
                FaultOfMarks(Keyed(cw.checkpoints), Keyed(ccw.checkpoints), r.failure.value)
    {
      if !cw.completed || !ccw.completed { return DualComparison(false, None, 0); }
      var difference := Compare(cw.final.node, ccw.final.node);
      var failure := if difference.None? then None else Some(Differs(difference.value, stopOnFirstFail));
      var paranoidFailure, paranoidComparisons := None, 0;
      if paranoid && !(stopOnFirstFail && failure.Some?) {
        paranoidFailure, paranoidComparisons := CompareMarks(cw.checkpoints, ccw.checkpoints);
      }
      r := DualComparison(true, if failure.Some? then failure else paranoidFailure, paranoidComparisons);
    }
  }

  /** A direction as its caller sees it: ok iff all its laps completed without a failure. */
  function Summary(p: Progress, times: nat): CompletedDirection {
    CompletedDirection(p.laps, p.laps == times, p.laps == times && p.at.failures == [],
                       p.at.current, p.at.failures, p.at.marks)
  }

  /** What a direction adds to the counters. */
  function Spending(before: Counts, p: Progress): Counts {
    LegsCost(before, |p.nodes|, StopFaults(p)).(laps := before.laps + p.laps, directions := before.directions + 1)
  }

  datatype DualComparison = DualComparison(performed: bool, failure: Option<Fault>, paranoidComparisons: nat)

  predicate Distinct(keys: seq<Key>) {
    forall i, j | 0 <= i < j < |keys| :: keys[i] != keys[j]
  }

  /** Building the keyed marks, with the keys in the order of their first appearance. */
  method KeyMarks(marks: seq<Mark>) returns (keys: seq<Key>, nodes: map<Key, Thing>)
    ensures nodes == Keyed(marks)
    ensures Distinct(keys) && forall key :: key in keys <==> key in nodes
  {
    keys, nodes := [], map[];
    for n := 0 to |marks|
      invariant nodes == Keyed(marks[..n])
      invariant Distinct(keys) && forall key :: key in keys <==> key in nodes
    {
      assert marks[..n + 1][..n] == marks[..n];
      if marks[n].key !in nodes { keys := keys + [marks[n].key]; }
      nodes := nodes[marks[n].key := marks[n].node];
    }
    assert marks[..|marks|] == marks;
  }

  method UnionKeys(left: seq<Key>, right: seq<Key>) returns (keys: seq<Key>)
    requires Distinct(left) && Distinct(right)
    ensures Distinct(keys) && forall key :: key in keys <==> key in left || key in right
  {
    keys := left;
    for n := 0 to |right|
      invariant Distinct(keys)
      invariant forall key :: key in keys <==> key in left || key in right[..n]
    {
      assert right[..n + 1] == right[..n] + [right[n]];
      if right[n] !in keys { keys := keys + [right[n]]; }
    }
    assert right[..|right|] == right;
  }

  lemma {:induction false} DistinctCount(keys: seq<Key>, all: set<Key>)
    requires Distinct(keys) && forall key :: key in keys <==> key in all
    ensures |keys| == |all|
  {
    if keys != [] {
      var last := |keys| - 1;
      assert keys == keys[..last] + [keys[last]];
      DistinctCount(keys[..last], all - {keys[last]});
    } else {
      assert all == {};
    }
  }

  /** On these keys both sides hold the same node. */
  predicate AgreeOn(keys: seq<Key>, left: map<Key, Thing>, right: map<Key, Thing>) {
    forall i | 0 <= i < |keys| :: keys[i] in left && keys[i] in right && left[keys[i]] == right[keys[i]]
  }

  lemma {:induction false} AgreeNext(keys: seq<Key>, n: nat, left: map<Key, Thing>, right: map<Key, Thing>)
    requires n < |keys|
    ensures AgreeOn(keys[..n + 1], left, right) <==>
              AgreeOn(keys[..n], left, right) && keys[n] in left && keys[n] in right && left[keys[n]] == right[keys[n]]
  {
    assert keys[..n + 1] == keys[..n] + [keys[n]];
    if AgreeOn(keys[..n + 1], left, right) {
      assert forall i | 0 <= i < n :: keys[..n][i] == keys[..n + 1][i];
      assert keys[..n + 1][n] == keys[n];
    }
  }

  lemma {:induction false} DisagreeBy(keys: seq<Key>, n: nat, left: map<Key, Thing>, right: map<Key, Thing>)
    requires n <= |keys| && !AgreeOn(keys[..n], left, right)
    ensures left != right || exists key :: key in keys && key !in left && key !in right
  {
    var i :| 0 <= i < n && !(keys[i] in left && keys[i] in right && left[keys[i]] == right[keys[i]]);
    assert keys[i] in keys;
  }

  lemma {:induction false} AgreeAll(keys: seq<Key>, left: map<Key, Thing>, right: map<Key, Thing>)
    requires forall key :: key in keys <==> key in left || key in right
    ensures AgreeOn(keys, left, right) <==> left == right
  {
    if AgreeOn(keys, left, right) {
      forall key | key in left || key in right ensures key in left && key in right && left[key] == right[key] {
        assert key in keys;
      }
    }
  }

  // ---------------------------------------------------------------- completed directions

  /** A completed direction came back equal throughout, or left failures; either way it parsed four nodes a lap. */
  predicate WellRun(run: Run, began: nat, prepared: Representation, times: nat, p: Progress) {
    var r := Summary(p, times);
    && (r.ok <==> r.completed && Same(p.nodes, prepared.node))
    && (r.completed ==>
          && |p.nodes| == 4 * times && p.clock == LapsClock(began, times) && StopFaults(p) == []
          && r.final.node == Source(prepared.node, p.nodes, |p.nodes|) && r.checkpoints == RunMarks(run, p.nodes))
    && (run.stopOnFirstFail && r.completed ==> r.ok)
    && (Cancelled(r.failures) ==> !r.completed)
  }

  lemma {:induction false} DirectionOk(run: Run, began: nat, prepared: Representation, times: nat)
    ensures WellRun(run, began, prepared, times, DirectionOf(run, began, prepared, times))
  {
    var p := DirectionOf(run, began, prepared, times);
    DirectionIsAnswered(run, began, prepared, times);
    DifferingIsSame(prepared.node, p.nodes, run.stopOnFirstFail);
    if p.stop.None? {
      ArrivedIsLast(run, began, prepared, p.nodes, p.at.current);
      if run.stopOnFirstFail { StoppingIsSame(run, began, prepared.node, p.nodes, |p.nodes|); }
      assert p.nodes[..|p.nodes|] == p.nodes;
    }
  }

  /** When the first failure stops, a run that was not ended by a difference came back equal throughout. */
  lemma {:induction false} StoppingIsSame(run: Run, began: nat, start: Thing, nodes: seq<Thing>, n: nat)
    requires run.stopOnFirstFail && AllAnswered(run, began, start, nodes) && !EndsTheRun(start, nodes, true) && n <= |nodes|
    ensures Same(nodes[..n], start)
    decreases n
  {
    if n > 0 {
      StoppingIsSame(run, began, start, nodes, n - 1);
      assert nodes[..n] == nodes[..n - 1] + [nodes[n - 1]];
      if n < |nodes| {
        assert LegAnswered(run, began, start, nodes, n);
        assert nodes[..n][n - 1] == nodes[n - 1] && Source(start, nodes[..n], n - 1) == Source(start, nodes, n - 1);
      }
      assert n > 1 ==> nodes[..n - 1][n - 2] == nodes[n - 2];
      SameSteps(nodes[..n - 1], nodes[n - 1], start);
    }
  }

  /** Completed directions never miss a mark of each other. */
  lemma {:induction false} NoMarkMissing(entry: Format, times: nat, cw: Run, a: seq<Thing>, ccw: Run, b: seq<Thing>)
    requires cw.entry == ccw.entry == entry && cw.direction == Cw && ccw.direction == Ccw && cw.paranoid == ccw.paranoid
    requires |a| == |b| == 4 * times
    ensures var left, right := Keyed(RunMarks(cw, a)), Keyed(RunMarks(ccw, b));
            left.Keys == right.Keys && |left.Keys| == if cw.paranoid then 4 * times else 0
  {
    PathLaw(entry);
    if cw.paranoid {
      LapsKeys(entry, PathOf(cw), times, a);
      LapsKeys(entry, PathOf(ccw), times, b);
    }
  }

  /** When both directions came back equal throughout, neither the final nor any paranoid comparison can fail. */
  lemma {:induction false} FinalAgrees(entry: Format, times: nat, node: Thing, cw: Run, a: seq<Thing>, ccw: Run, b: seq<Thing>)
    requires cw.entry == ccw.entry == entry && cw.direction == Cw && ccw.direction == Ccw && cw.paranoid == ccw.paranoid
    requires |a| == |b| == 4 * times && Same(a, node) && Same(b, node)
    ensures Source(node, a, |a|) == Source(node, b, |b|)
    ensures Keyed(RunMarks(cw, a)) == Keyed(RunMarks(ccw, b))
  {
    NoMarkMissing(entry, times, cw, a, ccw, b);
    PathLaw(entry);
    if cw.paranoid {
      LapsHold(entry, PathOf(cw), times, a, node);
      LapsHold(entry, PathOf(ccw), times, b, node);
    }
  }

  // ---------------------------------------------------------------- the whole circuit

  datatype CircuitResult = CircuitResult(
    ok: bool,
    prepared: Option<Representation>,
    cancelledAt: Option<Checkpoint>,
    directions: seq<CompletedDirection>,
    finalComparison: Option<DualComparison>,
    operations: Counts)

  /** What a caller asks for. */
  datatype Request = Request(entry: Format, text: string, times: nat, dual: bool, direction: Direction,
                             paranoid: bool, stopOnFirstFail: bool)

  /** A direction after which a dual run stops. */
  predicate Halts(q: Request, d: CompletedDirection) {
    Cancelled(d.failures) || (q.stopOnFirstFail && !d.ok)
  }

  /** A result that came to no comparison. */
  function Unfinished(prepared: Option<Representation>, cancelledAt: Option<Checkpoint>, directions: seq<CompletedDirection>,
                      operations: Counts): CircuitResult
  {
    CircuitResult(false, prepared, cancelledAt, directions, None, operations)
  }

  function RunFor(outside: Outside, q: Request, direction: Direction): Run {
    Run(outside, q.entry, direction, q.paranoid, q.stopOnFirstFail)
  }

  function FirstOf(q: Request): Direction {
    if q.dual then Cw else q.direction
  }

  /** The first direction a request asks for, over the prepared node, after the entry's parse and one question. */
  function FirstTrip(outside: Outside, q: Request, prepared: Representation): Progress {
    DirectionOf(RunFor(outside, q, FirstOf(q)), 2, prepared, q.times)
  }

  /** The opposite direction, after one more question. */
  function SecondTrip(outside: Outside, q: Request, prepared: Representation): Progress {
    DirectionOf(RunFor(outside, q, Ccw), FirstTrip(outside, q, prepared).clock + 1, prepared, q.times)
  }

  /** A final comparison compares completed directions: their last nodes and, in paranoid mode, their marks. */
  predicate Compared(r: DualComparison, cw: CompletedDirection, ccw: CompletedDirection, paranoid: bool) {
    && (r.performed <==> cw.completed && ccw.completed)
    && (r.failure.None? <==>
          !r.performed
          || (cw.final.node == ccw.final.node && (paranoid ==> Keyed(cw.checkpoints) == Keyed(ccw.checkpoints))))
    && (!paranoid ==> r.paranoidComparisons == 0)
    && (r.performed && paranoid && r.failure.None? ==> r.paranoidComparisons == |Keyed(cw.checkpoints).Keys|)
  }

  /** A dual run that came to its comparison. */
  predicate Concluded(r: CircuitResult, prepared: Representation, first: CompletedDirection, second: CompletedDirection,
                      paranoid: bool, spent: Counts)
  {
    && r.prepared == Some(prepared) && r.cancelledAt.None? && r.directions == [first, second] && r.finalComparison.Some?
    && var final := r.finalComparison.value;
       && Compared(final, first, second, paranoid)
       && r.operations == spent.(comparisons := spent.comparisons + if final.performed then 1 + final.paranoidComparisons else 0)
       && (r.ok <==> first.ok && second.ok && final.performed && final.failure.None?)
  }

  /** The end of a dual run whose directions both ran: stopped, cancelled, or compared. */
  predicate SecondTold(outside: Outside, q: Request, prepared: Representation, one: CompletedDirection, spent: Counts,
                       second: Progress, r: CircuitResult)
  {
    var two, total := Summary(second, q.times), Spending(spent, second);
    if Halts(q, two) then r == Unfinished(Some(prepared), None, [one, two], total)
    else if outside.cancel(second.clock, BeforeFinalComparison) then
      r == Unfinished(Some(prepared), Some(BeforeFinalComparison), [one, two], total)
    else Concluded(r, prepared, one, two, q.paranoid, total)
  }

  /** The opposite direction of a dual run and its comparison, by the outside's answers. */
  predicate DualTold(outside: Outside, q: Request, prepared: Representation, r: CircuitResult) {
    var first := FirstTrip(outside, q, prepared);
    var one, spent := Summary(first, q.times), Spending(Counts(1, 0, 0, 0, 0), first);
    if Halts(q, one) then r == Unfinished(Some(prepared), None, [one], spent)
    else if outside.cancel(first.clock, BeforeOppositeDirection) then
      r == Unfinished(Some(prepared), Some(BeforeOppositeDirection), [one], spent)
    else SecondTold(outside, q, prepared, one, spent, SecondTrip(outside, q, prepared), r)
  }

  /**
   * A whole circuit as the outside answered it: the entry text parsed, the questions asked before
   * each direction and before the final comparison, and every direction travelled.
   */
  predicate Told(outside: Outside, q: Request, r: CircuitResult) {
    match outside.parse(0, q.entry, q.text)
    case None => r == Unfinished(None, None, [], Counts(1, 0, 0, 0, 0))
    case Some(node) =>
      var prepared := Representation(q.entry, q.text, node);
      if outside.cancel(1, BeforeDirection(FirstOf(q))) then
        r == Unfinished(Some(prepared), Some(BeforeDirection(FirstOf(q))), [], Counts(1, 0, 0, 0, 0))
      else if q.dual then DualTold(outside, q, prepared, r)
      else
        var first := FirstTrip(outside, q, prepared);
        r == CircuitResult(Summary(first, q.times).ok, Some(prepared), None, [Summary(first, q.times)], None,
                           Spending(Counts(1, 0, 0, 0, 0), first))
  }

  // ---------------------------------------------------------------- what a told circuit promises

  /** Two directions of one request, completed and equal throughout, compare without a failure. */
  predicate Agreeing(q: Request, node: Thing, first: Progress, second: Progress) {
    var one, two := Summary(first, q.times), Summary(second, q.times);
    && (one.ok <==> one.completed && Same(first.nodes, node))
    && (two.ok <==> two.completed && Same(second.nodes, node))
    && (one.ok && two.ok ==> one.final.node == two.final.node && Keyed(one.checkpoints) == Keyed(two.checkpoints))
  }

  lemma {:induction false} RunsAgree(q: Request, prepared: Representation, cw: Run, a: nat, first: Progress,
                                     ccw: Run, b: nat, second: Progress)
    requires cw.entry == ccw.entry && cw.direction == Cw && ccw.direction == Ccw && cw.paranoid == ccw.paranoid
    requires WellRun(cw, a, prepared, q.times, first) && WellRun(ccw, b, prepared, q.times, second)
    ensures Agreeing(q, prepared.node, first, second)
  {
    if Summary(first, q.times).ok && Summary(second, q.times).ok {
      FinalAgrees(cw.entry, q.times, prepared.node, cw, first.nodes, ccw, second.nodes);
    }
  }

  lemma {:induction false} FirstIsWellRun(outside: Outside, q: Request, prepared: Representation)
    ensures WellRun(RunFor(outside, q, FirstOf(q)), 2, prepared, q.times, FirstTrip(outside, q, prepared))
  {
    DirectionOk(RunFor(outside, q, FirstOf(q)), 2, prepared, q.times);
  }

  lemma {:induction false} SecondIsWellRun(outside: Outside, q: Request, prepared: Representation)
    ensures WellRun(RunFor(outside, q, Ccw), FirstTrip(outside, q, prepared).clock + 1, prepared, q.times,
                    SecondTrip(outside, q, prepared))
  {
    DirectionOk(RunFor(outside, q, Ccw), FirstTrip(outside, q, prepared).clock + 1, prepared, q.times);
  }

  lemma {:induction false} TripsAgree(outside: Outside, q: Request, prepared: Representation)
    requires q.dual && prepared.format == q.entry
    ensures Agreeing(q, prepared.node, FirstTrip(outside, q, prepared), SecondTrip(outside, q, prepared))
  {
    var first, second := FirstTrip(outside, q, prepared), SecondTrip(outside, q, prepared);
    FirstIsWellRun(outside, q, prepared);
    SecondIsWellRun(outside, q, prepared);
    RunsAgree(q, prepared, RunFor(outside, q, Cw), 2, first, RunFor(outside, q, Ccw), first.clock + 1, second);
  }

  /** A dual run either came to its comparison, or is not ok. */
  lemma {:induction false} DualCases(outside: Outside, q: Request, prepared: Representation, r: CircuitResult)
    requires DualTold(outside, q, prepared, r)
    ensures var first, second := FirstTrip(outside, q, prepared), SecondTrip(outside, q, prepared);
            && (r.finalComparison.None? ==> !r.ok)
            && (r.finalComparison.Some? ==>
                  Concluded(r, prepared, Summary(first, q.times), Summary(second, q.times), q.paranoid,
                            Spending(Spending(Counts(1, 0, 0, 0, 0), first), second)))
  {
  }

  /** Everything a request asks for was done, and every node parsed on the way equals the prepared one. */
  predicate AllDone(outside: Outside, q: Request, prepared: Representation) {
    var first := FirstTrip(outside, q, prepared);
    && first.laps == q.times && Same(first.nodes, prepared.node)
    && (q.dual ==>
          var second := SecondTrip(outside, q, prepared);
          && second.laps == q.times && Same(second.nodes, prepared.node))
  }

  lemma {:induction false} ConcludedIsSound(q: Request, prepared: Representation, r: CircuitResult, first: Progress, second: Progress,
                                            spent: Counts)
    requires Concluded(r, prepared, Summary(first, q.times), Summary(second, q.times), q.paranoid, spent)
    requires Agreeing(q, prepared.node, first, second)
    ensures r.ok <==> first.laps == q.times && Same(first.nodes, prepared.node)
                      && second.laps == q.times && Same(second.nodes, prepared.node)
  {
  }

  /**
   * A circuit is ok iff its entry parsed, nobody cancelled it, all its laps were done in every
   * direction asked for, and every node parsed on the way equals the prepared one: the final
   * comparison of a dual run can then not fail, and nothing else makes a circuit fail.
   */
  lemma {:induction false} ToldIsSound(outside: Outside, q: Request, r: CircuitResult)
    requires Told(outside, q, r)
    ensures r.ok <==>
              && r.prepared.Some? && r.directions != [] && (q.dual ==> r.finalComparison.Some?)
              && AllDone(outside, q, r.prepared.value)
  {
    ToldCases(outside, q, r);
    if r.prepared.Some? && r.directions != [] {
      if q.dual { DualIsSound(outside, q, r.prepared.value, r); } else { SingleIsSound(outside, q, r.prepared.value, r); }
    }
  }

  lemma {:induction false} ToldCases(outside: Outside, q: Request, r: CircuitResult)
    requires Told(outside, q, r)
    ensures r.prepared.None? || r.directions == [] ==> !r.ok
    ensures r.prepared.Some? && r.directions != [] ==>
              && r.prepared.value.format == q.entry
              && (q.dual ==> DualTold(outside, q, r.prepared.value, r))
              && (!q.dual ==> r.ok == Summary(FirstTrip(outside, q, r.prepared.value), q.times).ok)
  {
  }

  lemma {:induction false} SingleIsSound(outside: Outside, q: Request, prepared: Representation, r: CircuitResult)
    requires !q.dual && r.ok == Summary(FirstTrip(outside, q, prepared), q.times).ok
    ensures r.ok <==> AllDone(outside, q, prepared)
  {
    FirstIsWellRun(outside, q, prepared);
  }

  lemma {:induction false} DualIsSound(outside: Outside, q: Request, prepared: Representation, r: CircuitResult)
    requires q.dual && prepared.format == q.entry && DualTold(outside, q, prepared, r)
    ensures r.ok <==> r.finalComparison.Some? && AllDone(outside, q, prepared)
  {
    var first, second := FirstTrip(outside, q, prepared), SecondTrip(outside, q, prepared);
    DualCases(outside, q, prepared, r);
    TripsAgree(outside, q, prepared);
    if r.finalComparison.Some? {
      ConcludedIsSound(q, prepared, r, first, second, Spending(Spending(Counts(1, 0, 0, 0, 0), first), second));
    }
  }

  /** What the operations of a finished dual run add up to. */
  function DualCost(times: nat, paranoid: bool): Counts {
    Counts(8 * times + 1, 8 * times, 8 * times + 1 + if paranoid then 4 * times else 0, 2 * times, 2)
  }

  /** Two completed directions leave the same keys, and parsed four nodes a lap each. */
  predicate Complete(q: Request, first: Progress, second: Progress) {
    var one, two := Summary(first, q.times), Summary(second, q.times);
    one.completed && two.completed ==>
      && |first.nodes| == |second.nodes| == 4 * q.times && StopFaults(first) == StopFaults(second) == []
      && Keyed(one.checkpoints).Keys == Keyed(two.checkpoints).Keys
      && |Keyed(one.checkpoints).Keys| == (if q.paranoid then 4 * q.times else 0)
      && (q.stopOnFirstFail ==> one.ok && two.ok)
  }

  lemma {:induction false} RunsComplete(q: Request, prepared: Representation, cw: Run, a: nat, first: Progress,
                                        ccw: Run, b: nat, second: Progress)
    requires cw.entry == ccw.entry && cw.direction == Cw && ccw.direction == Ccw && cw.paranoid == ccw.paranoid == q.paranoid
    requires cw.stopOnFirstFail == ccw.stopOnFirstFail == q.stopOnFirstFail
    requires WellRun(cw, a, prepared, q.times, first) && WellRun(ccw, b, prepared, q.times, second)
    ensures Complete(q, first, second)
  {
    if first.laps == q.times && second.laps == q.times {
      NoMarkMissing(cw.entry, q.times, cw, first.nodes, ccw, second.nodes);
    }
  }

  lemma {:induction false} CompletedTrips(outside: Outside, q: Request, prepared: Representation)
    requires q.dual && prepared.format == q.entry
    ensures Complete(q, FirstTrip(outside, q, prepared), SecondTrip(outside, q, prepared))
  {
    var first, second := FirstTrip(outside, q, prepared), SecondTrip(outside, q, prepared);
    FirstIsWellRun(outside, q, prepared);
    SecondIsWellRun(outside, q, prepared);
    RunsComplete(q, prepared, RunFor(outside, q, Cw), 2, first, RunFor(outside, q, Ccw), first.clock + 1, second);
  }

  /**
   * A dual run that compared two completed directions: no mark was missing, it can have failed only
   * when the first failure does not stop, and a comparison without failure cost exactly this.
   */
  lemma {:induction false} DualAccounts(outside: Outside, q: Request, prepared: Representation, r: CircuitResult)
    requires prepared.format == q.entry && q.dual && DualTold(outside, q, prepared, r)
    requires r.finalComparison.Some? && r.finalComparison.value.performed
    ensures |r.directions| == 2
    ensures Keyed(r.directions[0].checkpoints).Keys == Keyed(r.directions[1].checkpoints).Keys
    ensures q.stopOnFirstFail ==> r.finalComparison.value.failure.None?
    ensures r.finalComparison.value.failure.None? ==> r.operations == DualCost(q.times, q.paranoid)
  {
    DualCases(outside, q, prepared, r);
    CompletedTrips(outside, q, prepared);
    TripsAgree(outside, q, prepared);
  }

  // ---------------------------------------------------------------- faithful transforms

  /** Nobody cancels, and every transform brings this node back. */
  ghost predicate Returns(outside: Outside, node: Thing) {
    && (forall clock, checkpoint :: !outside.cancel(clock, checkpoint))
    && forall clock, format :: Answer(outside, clock, format, node) == Some(node)
  }

  lemma {:induction false} LegsReturn(run: Run, began: nat, node: Thing, nodes: seq<Thing>, n: nat)
    requires Returns(run.outside, node) && AllAnswered(run, began, node, nodes) && n <= |nodes|
    ensures Same(nodes[..n], node)
    decreases n
  {
    if n > 0 {
      LegsReturn(run, began, node, nodes, n - 1);
      assert LegAnswered(run, began, node, nodes, n - 1);
      assert n > 1 ==> nodes[..n - 1][n - 2] == nodes[n - 2];
      SameSteps(nodes[..n - 1], nodes[n - 1], node);
      assert nodes[..n] == nodes[..n - 1] + [nodes[n - 1]];
    }
  }

  lemma {:induction false} NothingStops(run: Run, began: nat, node: Thing, nodes: seq<Thing>, faults: seq<Fault>, clock: nat)
    requires Returns(run.outside, node) && Same(nodes, node)
    ensures !StoppedBy(run, began, node, nodes, faults, clock)
  {
    var k := |nodes|;
    assert Source(node, nodes, k) == node;
    assert Answer(run.outside, ClockAt(began, k) + 1, PathOf(run)[k % 4], node) == Some(node);
  }

  lemma {:induction false} FaithfulDirection(run: Run, began: nat, prepared: Representation, times: nat)
    requires Returns(run.outside, prepared.node)
    ensures var r := Summary(DirectionOf(run, began, prepared, times), times); r.ok && !Cancelled(r.failures)
  {
    var p := DirectionOf(run, began, prepared, times);
    DirectionIsAnswered(run, began, prepared, times);
    LegsReturn(run, began, prepared.node, p.nodes, |p.nodes|);
    assert p.nodes[..|p.nodes|] == p.nodes;
    if p.stop.Some? { NothingStops(run, began, prepared.node, p.nodes, p.stop.value, p.clock); }
    DirectionOk(run, began, prepared, times);
  }

  /** Over transforms that bring the entry's node back, and without cancellation, every circuit is ok. */
  lemma {:induction false} FaithfulIsOk(outside: Outside, q: Request, r: CircuitResult)
    requires Told(outside, q, r) && outside.parse(0, q.entry, q.text).Some?
    requires Returns(outside, outside.parse(0, q.entry, q.text).value)
    ensures r.ok
  {
    var prepared := Representation(q.entry, q.text, outside.parse(0, q.entry, q.text).value);
    FaithfulDirection(RunFor(outside, q, FirstOf(q)), 2, prepared, q.times);
    if q.dual {
      FaithfulDirection(RunFor(outside, q, Ccw), FirstTrip(outside, q, prepared).clock + 1, prepared, q.times);
      FaithfulConcludes(outside, q, prepared, r);
      TripsAgree(outside, q, prepared);
    }
  }

  lemma {:induction false} FaithfulConcludes(outside: Outside, q: Request, prepared: Representation, r: CircuitResult)
    requires DualTold(outside, q, prepared, r) && Returns(outside, prepared.node)
    requires !Halts(q, Summary(FirstTrip(outside, q, prepared), q.times))
    requires !Halts(q, Summary(SecondTrip(outside, q, prepared), q.times))
    ensures r.finalComparison.Some?
    ensures Concluded(r, prepared, Summary(FirstTrip(outside, q, prepared), q.times), Summary(SecondTrip(outside, q, prepared), q.times),
                      q.paranoid, Spending(Spending(Counts(1, 0, 0, 0, 0), FirstTrip(outside, q, prepared)), SecondTrip(outside, q, prepared)))
  {
  }

  // ---------------------------------------------------------------- running it

  /** The opposite direction of a dual run, and what follows it. */
  method ConcludeDual(context: Context, q: Request, prepared: Representation, first: CompletedDirection, ghost spent: Counts)
    returns (r: CircuitResult)
    requires prepared.format == q.entry && context.paranoid == q.paranoid && context.stopOnFirstFail == q.stopOnFirstFail
    requires context.counts == spent
    modifies context
    ensures SecondTold(context.outside, q, prepared, first, spent,
                       DirectionOf(RunFor(context.outside, q, Ccw), old(context.clock), prepared, q.times), r)
  {
    var second, cancelled;
    ghost var trip;
    second, cancelled, trip := context.ExecuteDirection(prepared, Ccw, q.times);
    if cancelled || (context.stopOnFirstFail && !second.ok) {
      return CircuitResult(false, Some(prepared), None, [first, second], None, context.counts);
    }
    var stop := context.IsCancelled(BeforeFinalComparison);
    if stop {
      return CircuitResult(false, Some(prepared), Some(BeforeFinalComparison), [first, second], None, context.counts);
    }
    var final := context.CompareDirections(first, second);
    var ok := first.ok && second.ok && final.performed && final.failure.None?;
    r := CircuitResult(ok, Some(prepared), None, [first, second], Some(final), context.counts);
  }

  /** The rest of a dual run, after its first direction. */
  method FinishDual(context: Context, q: Request, prepared: Representation, first: CompletedDirection, cancelled: bool)
    returns (r: CircuitResult)
    requires prepared.format == q.entry && context.paranoid == q.paranoid && context.stopOnFirstFail == q.stopOnFirstFail
    requires var trip := FirstTrip(context.outside, q, prepared);
             first == Summary(trip, q.times) && context.clock == trip.clock && context.counts == Spending(Counts(1, 0, 0, 0, 0), trip)
    requires cancelled <==> Cancelled(first.failures)
    modifies context
    ensures DualTold(context.outside, q, prepared, r)
  {
    ghost var trip, spent := FirstTrip(context.outside, q, prepared), context.counts;
    if cancelled || (context.stopOnFirstFail && !first.ok) {
      return CircuitResult(false, Some(prepared), None, [first], None, context.counts);
    }
    var stop := context.IsCancelled(BeforeOppositeDirection);
    if stop {
      return CircuitResult(false, Some(prepared), Some(BeforeOppositeDirection), [first], None, context.counts);
    }
    assert context.clock == trip.clock + 1;
    r := ConcludeDual(context, q, prepared, first, spent);
    assert SecondTold(context.outside, q, prepared, first, spent, SecondTrip(context.outside, q, prepared), r);
  }

  /** A whole circuit: what it answers is what the outside told it, question by question. */
  method ExecuteCircuit(outside: Outside, q: Request) returns (r: CircuitResult)
    ensures Told(outside, q, r)
  {
    var context := new Context(outside, q.paranoid, q.stopOnFirstFail);
    context.counts := context.counts.(parses := 1);
    var node := outside.parse(0, q.entry, q.text);
    context.clock := 1;
    if node.None? { return CircuitResult(false, None, None, [], None, context.counts); }
    var prepared := Representation(q.entry, q.text, node.value);
    var firstDirection := if q.dual then Cw else q.direction;
    var stop := context.IsCancelled(BeforeDirection(firstDirection));
    if stop {
      return CircuitResult(false, Some(prepared), Some(BeforeDirection(firstDirection)), [], None, context.counts);
    }
    var first, cancelled;
    ghost var trip;
    first, cancelled, trip := context.ExecuteDirection(prepared, firstDirection, q.times);
    if q.dual {
      r := FinishDual(context, q, prepared, first, cancelled);
    } else {
      r := CircuitResult(first.ok, Some(prepared), None, [first], None, context.counts);
    }
  }
}
