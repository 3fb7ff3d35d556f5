/** What each planned write does to the carrier and records, stated on reads, positions and evidence. */
module StepLaws {
  import opened Prelude
  import opened OrderedValue
  import opened ValueMutation
  import opened ValueLaws
  import opened Planner
  import opened PlannerLaws

  /** Reading an array, or an object's entries, at a path. */
  predicate HoldsArray(v: Value, path: Path) {
    At(v, path).Some? && At(v, path).value.Arr?
  }

  predicate HoldsObject(v: Value, path: Path) {
    At(v, path).Some? && At(v, path).value.Obj?
  }

  // ---------------------------------------------------------------- set, replace, delete

  /** A set needs its endpoint, or the object it is a new key of; it records itself iff it changes the endpoint. */
  lemma SetPlans(v: Value, path: Path, x: Value)
    ensures var step := Step(v, SetOp(path, x));
            && (step.Success? <==> path != [] && Writable(v, path, true))
            && (step.Success? ==>
                  && At(step.value.value, path) == Some(x)
                  && (At(v, path) == Some(x) ==> step.value == Planned(v, []))
                  && (At(v, path) != Some(x) ==> step.value.ops == [TSet(path, At(v, path), x)]))
  {
    WriteSucceedsIff(v, path, x, true);
    if path != [] && Writable(v, path, true) {
      ReadAfterWrite(v, path, x, true);
      if At(v, path) == Some(x) { WriteBackIsIdentity(v, path, true); }
    }
  }

  lemma ReplacePlans(v: Value, path: Path, x: Value)
    ensures var step := Step(v, ReplaceOp(path, x));
            && (step.Success? <==> At(v, path).Some?)
            && (step.Success? ==>
                  && At(step.value.value, path) == Some(x)
                  && (At(v, path) == Some(x) ==> step.value == Planned(v, []))
                  && (At(v, path) != Some(x) ==> step.value.ops == [TReplace(path, At(v, path), x)]))
  {
    WriteSucceedsIff(v, path, x, false);
    if At(v, path).Some? { ReadAfterReplace(v, path, x); }
  }

  lemma DeletePlans(v: Value, path: Path)
    requires WellFormed(v)
    ensures var step := Step(v, DeleteOp(path));
            && (step.Success? <==> path != [] && At(v, path).Some? && path[|path| - 1].Key?)
            && (step.Success? ==> At(step.value.value, path).None? && step.value.ops == [TDelete(path, At(v, path))])
  {
    if path != [] {
      DeleteLaw(v, path, []);
      if At(v, path).Some? { ParentOf(v, path); }
    }
  }

  /** A part that resolves is a key below an object or an index below an array. */
  lemma {:induction false} ParentOf(v: Value, path: Path)
    requires path != [] && At(v, path).Some?
    ensures var parent := At(v, path[..|path| - 1]);
            parent.Some? && (path[|path| - 1].Key? <==> parent.value.Obj?) && (path[|path| - 1].Index? <==> parent.value.Arr?)
    decreases |path|
  {
    if |path| > 1 {
      ParentOf(Child(v, path[0]).value, path[1..]);
      assert path[..|path| - 1][0] == path[0] && path[..|path| - 1][1..] == path[1..][..|path| - 2];
    } else {
      assert path[1..] == [] && path[..0] == [];
    }
  }

  // ---------------------------------------------------------------- splice, rename, move

  /** The items before the start stay, the inserted ones follow, and those after the removed ones close up. */
  predicate IsSplice(before: seq<Value>, start: int, count: int, items: seq<Value>, after: seq<Value>)
    requires 0 <= start && 0 <= count && start + count <= |before|
  {
    && |after| == |before| - count + |items|
    && (forall i | 0 <= i < start :: after[i] == before[i])
    && (forall i | 0 <= i < |items| :: after[start + i] == items[i])
    && (forall i | start + count <= i < |before| :: after[i - count + |items|] == before[i])
  }

  lemma SplicedIsSplice(before: seq<Value>, start: int, count: int, items: seq<Value>)
    requires 0 <= start && 0 <= count && start + count <= |before|
    ensures IsSplice(before, start, count, items, Spliced(before, start, count, items))
  {
  }

  /** Whether a splice names an array and a window inside it. */
  predicate InRange(v: Value, path: Path, start: int, count: int) {
    HoldsArray(v, path) && 0 <= start && 0 <= count && start + count <= |At(v, path).value.items|
  }

  lemma ArrayReplaced(v: Value, path: Path, after: seq<Value>)
    requires HoldsArray(v, path)
    ensures Replace(v, path, Arr(after)).Success? && At(Replace(v, path, Arr(after)).value, path) == Some(Arr(after))
    ensures after == At(v, path).value.items ==> Replace(v, path, Arr(after)).value == v
  {
    WriteSucceedsIff(v, path, Arr(after), false);
    ReadAfterReplace(v, path, Arr(after));
  }

  /** The step of a splice, by the array before it and the value it writes. */
  lemma SpliceIs(v: Value, path: Path, start: int, count: int, items: seq<Value>, before: seq<Value>, w: Value)
    requires At(v, path) == Some(Arr(before)) && 0 <= start && 0 <= count && start + count <= |before|
    requires Replace(v, path, Arr(Spliced(before, start, count, items))) == Success(w)
    requires At(w, path) == Some(Arr(Spliced(before, start, count, items)))
    ensures var after := Spliced(before, start, count, items);
            Step(v, SpliceOp(path, start, count, items)) ==
            Success(Planned(w, if after == before then []
                               else [TSplice(path, start, before[start..start + count], items, before, after)]))
  {
  }

  lemma SpliceStep(v: Value, path: Path, start: int, count: int, items: seq<Value>)
    requires InRange(v, path, start, count)
    ensures var before := At(v, path).value.items;
            var after := Spliced(before, start, count, items);
            var w := Replace(v, path, Arr(after));
            && w.Success? && At(w.value, path) == Some(Arr(after)) && (after == before ==> w.value == v)
            && Step(v, SpliceOp(path, start, count, items)) ==
               Success(Planned(w.value, if after == before then []
                                        else [TSplice(path, start, before[start..start + count], items, before, after)]))
  {
    var before := At(v, path).value.items;
    var after := Spliced(before, start, count, items);
    ArrayReplaced(v, path, after);
    SpliceIs(v, path, start, count, items, before, Replace(v, path, Arr(after)).value);
  }

  /** A splice in range replaces its window, and its record holds what was taken out and what was put in. */
  lemma SplicePlans(v: Value, path: Path, start: int, count: int, items: seq<Value>)
    ensures var step := Step(v, SpliceOp(path, start, count, items));
            && (step.Success? <==> InRange(v, path, start, count))
            && (step.Success? ==>
                  var before := At(v, path).value.items;
                  && HoldsArray(step.value.value, path)
                  && var after := At(step.value.value, path).value.items;
                     && IsSplice(before, start, count, items, after)
                     && (after == before ==> step.value == Planned(v, []))
                     && (after != before ==>
                           step.value.ops == [TSplice(path, start, before[start..start + count], items, before, after)]))
  {
    if InRange(v, path, start, count) {
      SplicedIsSplice(At(v, path).value.items, start, count, items);
      SpliceStep(v, path, start, count, items);
    }
  }

  /** The entries without the one of this key. */
  function Retired(entries: seq<Entry>, key: string): seq<Entry> {
    match FindKey(entries, key)
    case None => entries
    case Some(i) => entries[..i] + entries[i + 1..]
  }

  /** The renamed entry keeps its value and its place; an old entry of the new key goes; nothing else changes. */
  predicate IsRename(before: seq<Entry>, from: string, to: string, after: seq<Entry>) {
    var kept := Retired(before, to);
    |after| == |kept| &&
    forall i | 0 <= i < |after| :: after[i] == Entry(if kept[i].key == from then to else kept[i].key, kept[i].value)
  }

  lemma RenamedIsRename(entries: seq<Entry>, from: string, to: string)
    requires UniqueKeys(entries) && from != to
    ensures IsRename(entries, from, to, RenamedEntries(entries, from, to))
  {
    RenamedInPlace(entries, from, to);
    match FindKey(entries, to)
    case None => WithoutAbsent(entries, to);
    case Some(i) => WithoutRemoves(entries, to, i);
  }

  lemma RenamePlans(v: Value, path: Path, from: string, to: string)
    requires WellFormed(v)
    ensures var step := Step(v, RenameOp(path, from, to));
            && (step.Success? <==> HoldsObject(v, path) && FindKey(At(v, path).value.entries, from).Some?)
            && (step.Success? && from == to ==> step.value == Planned(v, []))
            && (step.Success? && from != to ==>
                  var before := At(v, path).value.entries;
                  && HoldsObject(step.value.value, path)
                  && var after := At(step.value.value, path).value.entries;
                     && IsRename(before, from, to, after)
                     && step.value.ops == [TRename(path, from, to, before, after)])
  {
    if HoldsObject(v, path) && from != to {
      var before := At(v, path).value.entries;
      WellFormedAt(v, path);
      RenamedIsRename(before, from, to);
      WriteSucceedsIff(v, path, Obj(RenamedEntries(before, from, to)), false);
      if FindKey(before, from).Some? { ReadAfterReplace(v, path, Obj(RenamedEntries(before, from, to))); }
    }
  }

  /** The item at `from` is at `to`, and the others keep their order. */
  predicate IsMove(before: seq<Value>, from: int, to: int, after: seq<Value>)
    requires 0 <= from < |before| && 0 <= to < |before|
  {
    && |after| == |before|
    && after[to] == before[from]
    && after[..to] + after[to + 1..] == before[..from] + before[from + 1..]
  }

  lemma MovedIsMove(before: seq<Value>, from: int, to: int)
    requires 0 <= from < |before| && 0 <= to < |before|
    ensures IsMove(before, from, to, Moved(before, from, to))
  {
    MoveBack(before, from, to);
  }

  predicate Movable(v: Value, path: Path, from: int, to: int) {
    HoldsArray(v, path) && 0 <= from < |At(v, path).value.items| && 0 <= to < |At(v, path).value.items|
  }

  /** The step of a move, by the array before it and the value it writes. */
  lemma MoveIs(v: Value, path: Path, from: int, to: int, before: seq<Value>, w: Value)
    requires At(v, path) == Some(Arr(before)) && 0 <= from < |before| && 0 <= to < |before| && from != to
    requires Replace(v, path, Arr(Moved(before, from, to))) == Success(w) && At(w, path) == Some(Arr(Moved(before, from, to)))
    ensures Step(v, MoveOp(path, from, to)) == Success(Planned(w, [TMove(path, from, to, before, Moved(before, from, to))]))
  {
  }

  lemma MoveStep(v: Value, path: Path, from: int, to: int)
    requires Movable(v, path, from, to) && from != to
    ensures var before := At(v, path).value.items;
            var after := Moved(before, from, to);
            var w := Replace(v, path, Arr(after));
            && w.Success? && At(w.value, path) == Some(Arr(after))
            && Step(v, MoveOp(path, from, to)) == Success(Planned(w.value, [TMove(path, from, to, before, after)]))
  {
    var before := At(v, path).value.items;
    var after := Moved(before, from, to);
    ArrayReplaced(v, path, after);
    MoveIs(v, path, from, to, before, Replace(v, path, Arr(after)).value);
  }

  lemma MovePlans(v: Value, path: Path, from: int, to: int)
    ensures var step := Step(v, MoveOp(path, from, to));
            && (step.Success? <==> Movable(v, path, from, to))
            && (step.Success? && from == to ==> step.value == Planned(v, []))
            && (step.Success? && from != to ==>
                  var before := At(v, path).value.items;
                  && HoldsArray(step.value.value, path)
                  && var after := At(step.value.value, path).value.items;
                     IsMove(before, from, to, after) && step.value.ops == [TMove(path, from, to, before, after)])
  {
    if Movable(v, path, from, to) && from != to {
      MovedIsMove(At(v, path).value.items, from, to);
      MoveStep(v, path, from, to);
    }
  }

  // ---------------------------------------------------------------- constructive set

  lemma {:induction false} EachPlans(v: Value, path: Path, patch: seq<Entry>)
    requires HoldsObject(v, path)
    ensures PlanEach(v, path, patch).Success?
    decreases |patch|
  {
    if patch != [] {
      var key, x := patch[0].key, patch[0].value;
      LastOf(v, path, Key(key));
      SetPlans(v, path + [Key(key)], x);
      SetKeepsKeyOrder(v, path, key, x);
      EachPlans(PlanSet(v, path + [Key(key)], x).value.value, path, patch[1..]);
    }
  }

  lemma LastOf(v: Value, path: Path, part: Part)
    ensures (path + [part])[..|path| + 1 - 1] == path && (path + [part])[|path|] == part
  {
  }

  /** A constructive set goes through exactly over an object, and lays its patch over the object's keys. */
  lemma ConstructivePlans(v: Value, path: Path, patch: seq<Entry>, key: string)
    requires UniqueKeys(patch)
    ensures var step := Step(v, ConstructiveOp(path, patch));
            && (step.Success? <==> HoldsObject(v, path))
            && (step.Success? ==>
                  At(step.value.value, path + [Key(key)]) == Overlaid(patch, key, At(v, path + [Key(key)])))
  {
    if HoldsObject(v, path) {
      EachPlans(v, path, patch);
      ConstructiveIsMerge(v, path, patch);
      MergeReads(v, path, patch, key);
    }
  }

  // ---------------------------------------------------------------- faults

  /** The first part of this path that does not resolve. */
  predicate BreaksAt(v: Value, path: Path, n: nat) {
    n < |path| && At(v, path[..n]).Some? && At(v, path[..n + 1]).None?
  }

  lemma {:induction false} WriteFaults(v: Value, path: Path, x: Value, allow: bool) returns (n: nat)
    requires WriteAt(v, path, x, allow).Failure?
    ensures BreaksAt(v, path, n)
    ensures WriteAt(v, path, x, allow).error == if path[n].Index? then ArrayPathUnresolved else ObjectPathUnresolved
    decreases |path|
  {
    assert path[..0] == [] && path[..1] == [path[0]] && [path[0]][1..] == [];
    if Child(v, path[0]).None? {
      n := 0;
    } else {
      n := WriteFaults(Child(v, path[0]).value, path[1..], x, allow);
      assert path[..n + 1][0] == path[0] && path[..n + 1][1..] == path[1..][..n];
      assert path[..n + 2][0] == path[0] && path[..n + 2][1..] == path[1..][..n + 1];
      n := n + 1;
    }
  }

  /** Why an intent that does not plan is refused, by what its path reads. */
  ghost predicate FaultFits(v: Value, op: WriteOp, fault: Fault) {
    var current := At(v, op.path);
    match op
    case SetOp(path, _) =>
      if path == [] then fault == CannotSetRoot
      else exists n: nat | BreaksAt(v, path, n) :: fault == if path[n].Index? then ArrayPathUnresolved else ObjectPathUnresolved
    case ReplaceOp(_, _) => fault == PathUnresolved
    case DeleteOp(path) => fault == if current.None? then PathUnresolved else if path == [] then CannotDeleteRoot else CannotDeleteIndex
    case SpliceOp(_, start, _, _) =>
      fault == if current.None? then PathUnresolved else if !current.value.Arr? then EndpointNotArray
               else if 0 <= start <= |current.value.items| then SpliceCountInvalid else SpliceStartInvalid
    case RenameOp(_, _, _) => fault == if HoldsObject(v, op.path) then RenameSourceMissing else EndpointNotObject
    case MoveOp(_, from, _) =>
      fault == if !HoldsArray(v, op.path) then EndpointNotArray
               else if 0 <= from < |current.value.items| then MoveDestinationInvalid else MoveSourceInvalid
    case ConstructiveOp(_, _) => fault == if current.None? then PathUnresolved else EndpointNotObject
  }

  lemma StepFaults(v: Value, op: WriteOp)
    requires WellFormed(v) && Step(v, op).Failure?
    ensures FaultFits(v, op, Step(v, op).error)
  {
    match op
    case SetOp(path, x) => if path != [] { var n := WriteFaults(v, path, x, true); }
    case ReplaceOp(path, x) => ReplacePlans(v, path, x);
    case DeleteOp(path) =>
      if path != [] && At(v, path).Some? {
        ParentOf(v, path);
        DeletePlans(v, path);
      }
    case SpliceOp(path, start, count, items) => if InRange(v, path, start, count) { SpliceStep(v, path, start, count, items); }
    case RenameOp(path, from, to) => RenamePlans(v, path, from, to);
    case MoveOp(path, from, to) => MovePlans(v, path, from, to);
    case ConstructiveOp(path, patch) => if HoldsObject(v, path) { EachPlans(v, path, patch); }
  }

  // ---------------------------------------------------------------- frames

  lemma {:induction false} DivergeBelow(path: Path, part: Part, other: Path)
    requires Diverge(path, other)
    ensures Diverge(path + [part], other)
    decreases |path|
  {
    assert (path + [part])[1..] == path[1..] + [part];
    if path[0] == other[0] { DivergeBelow(path[1..], part, other[1..]); }
  }

  lemma ReplaceFrame(v: Value, path: Path, x: Value, other: Path)
    requires Replace(v, path, x).Success? && Diverge(path, other)
    ensures At(Replace(v, path, x).value, other) == At(v, other)
  {
    WriteFrame(v, path, x, false, other);
  }

  lemma {:induction false} EachFrame(v: Value, path: Path, patch: seq<Entry>, other: Path)
    requires PlanEach(v, path, patch).Success? && Diverge(path, other)
    ensures At(PlanEach(v, path, patch).value.value, other) == At(v, other)
    decreases |patch|
  {
    if patch != [] {
      var first := path + [Key(patch[0].key)];
      DivergeBelow(path, Key(patch[0].key), other);
      WriteFrame(v, first, patch[0].value, true, other);
      EachFrame(PlanSet(v, first, patch[0].value).value.value, path, patch[1..], other);
    }
  }

  /** Whatever one write intent does, every path that parts from its own reads as before. */
  lemma StepFrame(v: Value, op: WriteOp, other: Path)
    requires WellFormed(v) && Step(v, op).Success? && Diverge(op.path, other)
    ensures At(Step(v, op).value.value, other) == At(v, other)
  {
    match op
    case ConstructiveOp(path, patch) => EachFrame(v, path, patch, other);
    case SetOp(path, value) => WriteFrame(v, path, value, true, other);
    case ReplaceOp(path, value) => ReplaceFrame(v, path, value, other);
    case DeleteOp(path) => DeleteLaw(v, path, other);
    case SpliceOp(path, start, count, items) =>
      ReplaceFrame(v, path, Arr(Spliced(At(v, path).value.items, start, count, items)), other);
    case RenameOp(path, from, to) =>
      if from != to { ReplaceFrame(v, path, Obj(RenamedEntries(At(v, path).value.entries, from, to)), other); }
    case MoveOp(path, from, to) =>
      if from != to { ReplaceFrame(v, path, Arr(Moved(At(v, path).value.items, from, to)), other); }
  }

  predicate AllDiverge(ops: seq<WriteOp>, other: Path) {
    forall i | 0 <= i < |ops| :: Diverge(ops[i].path, other)
  }

  /** So does a whole plan, for a path that parts from all of its intents. */
  lemma {:induction false} PlanFrame(v: Value, ops: seq<WriteOp>, other: Path)
    requires WellFormed(v) && AdmittedOps(ops) && Plan(v, ops).Success? && AllDiverge(ops, other)
    ensures At(Plan(v, ops).value.value, other) == At(v, other)
    decreases |ops|
  {
    if ops != [] {
      StepFrame(v, ops[0], other);
      StepKeepsWellFormed(v, ops[0]);
      PlanFrame(Step(v, ops[0]).value.value, ops[1..], other);
    }
  }

  // ---------------------------------------------------------------- records

  /** A recorded operation did something: its endpoint changed, or an item or key went elsewhere. */
  predicate Effective(op: TransportOp) {
    match op
    case TRename(_, from, to, _, _) => from != to
    case TMove(_, from, to, _, _) => from != to
    case _ => Prev(op) != Next(op)
  }

  predicate AllEffective(ops: seq<TransportOp>) {
    forall i | 0 <= i < |ops| :: Effective(ops[i])
  }

  lemma {:induction false} EachRecordsEffects(v: Value, path: Path, patch: seq<Entry>)
    requires PlanEach(v, path, patch).Success?
    ensures AllEffective(PlanEach(v, path, patch).value.ops)
    decreases |patch|
  {
    if patch != [] {
      EachRecordsEffects(PlanSet(v, path + [Key(patch[0].key)], patch[0].value).value.value, path, patch[1..]);
    }
  }

  lemma StepRecordsEffects(v: Value, op: WriteOp)
    requires WellFormed(v) && Step(v, op).Success?
    ensures AllEffective(Step(v, op).value.ops)
  {
    match op
    case ConstructiveOp(path, patch) => EachRecordsEffects(v, path, patch);
    case SetOp(path, value) => SetPlans(v, path, value);
    case ReplaceOp(path, value) => ReplacePlans(v, path, value);
    case DeleteOp(path) => DeletePlans(v, path);
    case SpliceOp(path, start, count, items) => SplicePlans(v, path, start, count, items);
    case RenameOp(path, from, to) => RenamePlans(v, path, from, to);
    case MoveOp(path, from, to) => MovePlans(v, path, from, to);
  }

  /** A plan records effective operations only, so an unchanged commit is one without any. */
  lemma {:induction false} PlanRecordsEffects(v: Value, ops: seq<WriteOp>)
    requires WellFormed(v) && AdmittedOps(ops) && Plan(v, ops).Success?
    ensures AllEffective(Plan(v, ops).value.ops)
    decreases |ops|
  {
    if ops != [] {
      StepRecordsEffects(v, ops[0]);
      StepKeepsWellFormed(v, ops[0]);
      PlanRecordsEffects(Step(v, ops[0]).value.value, ops[1..]);
    }
  }
}
