/** Batch, replay, delta and undo laws of the planner. */
module PlannerLaws {
  import opened Prelude
  import opened OrderedValue
  import opened ValueMutation
  import opened ValueLaws
  import opened Planner

  // ---------------------------------------------------------------- batch is the sequential fold

  /** Planning a ++ b is planning a, then b on the result, with the operations concatenated. */
  lemma {:induction false} PlanAppend(v: Value, a: seq<WriteOp>, b: seq<WriteOp>)
    ensures Plan(v, a + b) ==
            var first := Plan(v, a);
            if first.Failure? then first else After(first.value.ops, Plan(first.value.value, b))
    decreases |a|
  {
    if a == [] {
      assert a + b == b;
      AfterNested([], [], Plan(v, b));
    } else {
      assert (a + b)[0] == a[0] && (a + b)[1..] == a[1..] + b;
      var step := Step(v, a[0]);
      if step.Success? {
        PlanAppend(step.value.value, a[1..], b);
        var middle := Plan(step.value.value, a[1..]);
        if middle.Success? {
          AfterNested(step.value.ops, middle.value.ops, Plan(middle.value.value, b));
        }
      }
    }
  }

  /** The constructive plan goes through exactly where the merge does, and reaches the merged value. */
  lemma {:induction false} ConstructiveIsMerge(v: Value, path: Path, patch: seq<Entry>)
    ensures var planned, merged := PlanEach(v, path, patch), SetEach(v, path, patch);
            if merged.Success? then planned.Success? && planned.value.value == merged.value
            else planned == Failure(merged.error)
    decreases |patch|
  {
    if patch != [] {
      var first := Set(v, path + [Key(patch[0].key)], patch[0].value);
      if first.Success? { ConstructiveIsMerge(first.value, path, patch[1..]); }
    }
  }

  lemma PlanOne(v: Value, op: WriteOp)
    ensures Plan(v, [op]) == Step(v, op)
  {
    var step := Step(v, op);
    if step.Success? { assert step.value.ops + [] == step.value.ops; }
  }

  // ---------------------------------------------------------------- well-formedness of plans

  predicate WellFormedItems(items: seq<Value>) {
    forall i | 0 <= i < |items| :: WellFormed(items[i])
  }

  predicate WellFormedPatch(patch: seq<Entry>) {
    forall i | 0 <= i < |patch| :: WellFormed(patch[i].value)
  }

  /** The carriers inside a write intent are admitted carriers. */
  predicate AdmittedOp(op: WriteOp) {
    match op
    case SetOp(_, value) => WellFormed(value)
    case ReplaceOp(_, value) => WellFormed(value)
    case SpliceOp(_, _, _, items) => WellFormedItems(items)
    case ConstructiveOp(_, patch) => WellFormedPatch(patch)
    case _ => true
  }

  predicate AdmittedOps(ops: seq<WriteOp>) {
    forall i | 0 <= i < |ops| :: AdmittedOp(ops[i])
  }

  lemma ReplaceKeepsWellFormed(v: Value, path: Path, x: Value)
    requires WellFormed(v) && WellFormed(x) && Replace(v, path, x).Success?
    ensures WellFormed(Replace(v, path, x).value)
  {
    if path != [] { WriteKeepsWellFormed(v, path, x, false); }
  }

  lemma {:induction false} PlanEachKeepsWellFormed(v: Value, path: Path, patch: seq<Entry>)
    requires WellFormed(v) && WellFormedPatch(patch) && PlanEach(v, path, patch).Success?
    ensures WellFormed(PlanEach(v, path, patch).value.value)
    decreases |patch|
  {
    if patch != [] {
      var childPath := path + [Key(patch[0].key)];
      WriteKeepsWellFormed(v, childPath, patch[0].value, true);
      PlanEachKeepsWellFormed(Set(v, childPath, patch[0].value).value, path, patch[1..]);
    }
  }

  lemma SpliceKeepsWellFormed(v: Value, path: Path, start: int, count: int, items: seq<Value>)
    requires WellFormed(v) && WellFormedItems(items) && Splice(v, path, start, count, items).Success?
    ensures WellFormed(Splice(v, path, start, count, items).value.value)
  {
    WellFormedAt(v, path);
    ReplaceKeepsWellFormed(v, path, Arr(Spliced(At(v, path).value.items, start, count, items)));
  }

  lemma RenameKeepsWellFormed(v: Value, path: Path, from: string, to: string)
    requires WellFormed(v) && Rename(v, path, from, to).Success?
    ensures WellFormed(Rename(v, path, from, to).value)
  {
    WellFormedAt(v, path);
    if from != to {
      var entries := At(v, path).value.entries;
      RenamedKeepsWellFormed(entries, from, to);
      ReplaceKeepsWellFormed(v, path, Obj(RenamedEntries(entries, from, to)));
    }
  }

  lemma MoveKeepsWellFormed(v: Value, path: Path, from: int, to: int)
    requires WellFormed(v) && Move(v, path, from, to).Success?
    ensures WellFormed(Move(v, path, from, to).value)
  {
    WellFormedAt(v, path);
    if from != to {
      var items := At(v, path).value.items;
      MoveBack(items, from, to);
      forall i | 0 <= i < |items| ensures WellFormed(Moved(items, from, to)[i]) {
        assert Moved(items, from, to)[i] in multiset(Moved(items, from, to));
      }
      ReplaceKeepsWellFormed(v, path, Arr(Moved(items, from, to)));
    }
  }

  /** One planned write keeps keys unique, so the carrier constructors never reject its candidate. */
  lemma StepKeepsWellFormed(v: Value, op: WriteOp)
    requires WellFormed(v) && AdmittedOp(op) && Step(v, op).Success?
    ensures WellFormed(Step(v, op).value.value)
  {
    match op
    case ConstructiveOp(path, patch) => PlanEachKeepsWellFormed(v, path, patch);
    case SetOp(path, value) => WriteKeepsWellFormed(v, path, value, true);
    case ReplaceOp(path, value) => ReplaceKeepsWellFormed(v, path, value);
    case DeleteOp(path) => DeleteKeepsWellFormed(v, path);
    case SpliceOp(path, start, count, items) => SpliceKeepsWellFormed(v, path, start, count, items);
    case RenameOp(path, from, to) => if from != to { RenameKeepsWellFormed(v, path, from, to); }
    case MoveOp(path, from, to) => if from != to { MoveKeepsWellFormed(v, path, from, to); }
  }

  lemma {:induction false} PlanKeepsWellFormed(v: Value, ops: seq<WriteOp>)
    requires WellFormed(v) && AdmittedOps(ops) && Plan(v, ops).Success?
    ensures WellFormed(Plan(v, ops).value.value)
    decreases |ops|
  {
    if ops != [] {
      StepKeepsWellFormed(v, ops[0]);
      PlanKeepsWellFormed(Step(v, ops[0]).value.value, ops[1..]);
    }
  }

  /** The carriers inside recorded operations. */
  predicate AdmittedRecord(ops: seq<TransportOp>) {
    forall i | 0 <= i < |ops| :: AdmittedOp(FromTransport(ops[i]))
  }

  lemma {:induction false} EachRecordsAdmitted(v: Value, path: Path, patch: seq<Entry>)
    requires WellFormedPatch(patch) && PlanEach(v, path, patch).Success?
    ensures AdmittedRecord(PlanEach(v, path, patch).value.ops)
    decreases |patch|
  {
    if patch != [] {
      EachRecordsAdmitted(PlanSet(v, path + [Key(patch[0].key)], patch[0].value).value.value, path, patch[1..]);
    }
  }

  lemma StepRecordsAdmitted(v: Value, op: WriteOp)
    requires AdmittedOp(op) && Step(v, op).Success?
    ensures AdmittedRecord(Step(v, op).value.ops)
  {
    if op.ConstructiveOp? { EachRecordsAdmitted(v, op.path, op.patch); } else { StepRecordsItself(v, op); }
  }

  /** Every other intent records nothing, or one operation that compiles back to it. */
  lemma StepRecordsItself(v: Value, op: WriteOp)
    requires !op.ConstructiveOp? && Step(v, op).Success?
    ensures var ops := Step(v, op).value.ops; |ops| <= 1 && (ops != [] ==> FromTransport(ops[0]) == op)
  {
  }

  lemma {:induction false} PlanRecordsAdmitted(v: Value, ops: seq<WriteOp>)
    requires AdmittedOps(ops) && Plan(v, ops).Success?
    ensures AdmittedRecord(Plan(v, ops).value.ops)
    decreases |ops|
  {
    if ops != [] {
      StepRecordsAdmitted(v, ops[0]);
      PlanRecordsAdmitted(Step(v, ops[0]).value.value, ops[1..]);
    }
  }

  // ---------------------------------------------------------------- replay

  /** One recorded operation leads from v to w: its evidence matches and it re-plans to itself. */
  predicate Replays(v: Value, op: TransportOp, w: Value) {
    && Prev(op) == At(v, op.path)
    && Next(op) == At(w, op.path)
    && Step(v, FromTransport(op)) == Success(Planned(w, [op]))
  }

  predicate ReplaysAll(v: Value, ops: seq<TransportOp>, w: Value)
    decreases |ops|
  {
    if ops == [] then v == w
    else
      var step := Step(v, FromTransport(ops[0]));
      step.Success? && Replays(v, ops[0], step.value.value) && ReplaysAll(step.value.value, ops[1..], w)
  }

  lemma ReplaysFirst(v: Value, ops: seq<TransportOp>, w: Value) returns (next: Value)
    requires ops != [] && ReplaysAll(v, ops, w)
    ensures Replays(v, ops[0], next) && ReplaysAll(next, ops[1..], w)
  {
    next := Step(v, FromTransport(ops[0])).value.value;
  }

  lemma ReplaysThen(v: Value, op: TransportOp, next: Value, ops: seq<TransportOp>, w: Value)
    requires Replays(v, op, next) && ReplaysAll(next, ops, w)
    ensures ReplaysAll(v, [op] + ops, w)
  {
    assert ([op] + ops)[1..] == ops;
  }

  lemma {:induction false} ReplaysConcat(v: Value, a: seq<TransportOp>, m: Value, b: seq<TransportOp>, w: Value)
    requires ReplaysAll(v, a, m) && ReplaysAll(m, b, w)
    ensures ReplaysAll(v, a + b, w)
    decreases |a|
  {
    if a == [] {
      assert a + b == b;
    } else {
      FirstOfConcat(a, b);
      var next := ReplaysFirst(v, a, m);
      ReplaysConcat(next, a[1..], m, b, w);
      ReplaysThen(v, a[0], next, a[1..] + b, w);
    }
  }

  lemma FirstOfConcat(a: seq<TransportOp>, b: seq<TransportOp>)
    requires a != []
    ensures [a[0]] + (a[1..] + b) == a + b
  {
  }

  lemma SetReplays(v: Value, path: Path, value: Value)
    requires PlanSet(v, path, value).Success?
    ensures var p := PlanSet(v, path, value).value; ReplaysAll(v, p.ops, p.value)
  {
    ReadAfterWrite(v, path, value, true);
    if At(v, path) == Some(value) {
      WriteBackIsIdentity(v, path, true);
    } else {
      assert Replays(v, TSet(path, At(v, path), value), WriteAt(v, path, value, true).value);
    }
  }

  lemma {:induction false} EachReplays(v: Value, path: Path, patch: seq<Entry>)
    requires PlanEach(v, path, patch).Success?
    ensures var p := PlanEach(v, path, patch).value; ReplaysAll(v, p.ops, p.value)
    decreases |patch|
  {
    if patch != [] {
      var first := PlanSet(v, path + [Key(patch[0].key)], patch[0].value).value;
      SetReplays(v, path + [Key(patch[0].key)], patch[0].value);
      EachReplays(first.value, path, patch[1..]);
      var rest := PlanEach(first.value, path, patch[1..]).value;
      ReplaysConcat(v, first.ops, first.value, rest.ops, rest.value);
    }
  }

  lemma ReadAfterReplace(v: Value, path: Path, x: Value)
    requires Replace(v, path, x).Success?
    ensures At(Replace(v, path, x).value, path) == Some(x)
    ensures At(v, path) == Some(x) ==> Replace(v, path, x).value == v
  {
    if path != [] {
      ReadAfterWrite(v, path, x, false);
      if At(v, path) == Some(x) { WriteBackIsIdentity(v, path, false); }
    }
  }

  lemma ReplaysSingle(v: Value, op: TransportOp, w: Value)
    requires Replays(v, op, w)
    ensures ReplaysAll(v, [op], w)
  {
    assert [op][1..] == [];
  }

  lemma SpliceReplays(v: Value, path: Path, start: int, count: int, items: seq<Value>)
    requires Step(v, SpliceOp(path, start, count, items)).Success?
    ensures var p := Step(v, SpliceOp(path, start, count, items)).value; ReplaysAll(v, p.ops, p.value)
  {
    var p := Step(v, SpliceOp(path, start, count, items)).value;
    var before := At(v, path).value.items;
    ReadAfterReplace(v, path, Arr(Spliced(before, start, count, items)));
    if p.ops != [] {
      assert |before[start..start + count]| == count;
      ReplaysSingle(v, p.ops[0], p.value);
    }
  }

  lemma RenameReplays(v: Value, path: Path, from: string, to: string)
    requires Step(v, RenameOp(path, from, to)).Success?
    ensures var p := Step(v, RenameOp(path, from, to)).value; ReplaysAll(v, p.ops, p.value)
  {
    var p := Step(v, RenameOp(path, from, to)).value;
    if from != to {
      ReadAfterReplace(v, path, Obj(RenamedEntries(At(v, path).value.entries, from, to)));
      ReplaysSingle(v, p.ops[0], p.value);
    }
  }

  lemma MoveReplays(v: Value, path: Path, from: int, to: int)
    requires Step(v, MoveOp(path, from, to)).Success?
    ensures var p := Step(v, MoveOp(path, from, to)).value; ReplaysAll(v, p.ops, p.value)
  {
    var p := Step(v, MoveOp(path, from, to)).value;
    if from != to {
      ReadAfterReplace(v, path, Arr(Moved(At(v, path).value.items, from, to)));
      ReplaysSingle(v, p.ops[0], p.value);
    }
  }

  lemma ReplaceReplays(v: Value, path: Path, value: Value)
    requires Step(v, ReplaceOp(path, value)).Success?
    ensures var p := Step(v, ReplaceOp(path, value)).value; ReplaysAll(v, p.ops, p.value)
  {
    var p := Step(v, ReplaceOp(path, value)).value;
    ReadAfterReplace(v, path, value);
    if p.ops != [] { ReplaysSingle(v, p.ops[0], p.value); }
  }

  lemma DeleteReplays(v: Value, path: Path)
    requires WellFormed(v) && Step(v, DeleteOp(path)).Success?
    ensures var p := Step(v, DeleteOp(path)).value; ReplaysAll(v, p.ops, p.value)
  {
    DeleteLaw(v, path, []);
    var p := Step(v, DeleteOp(path)).value;
    ReplaysSingle(v, p.ops[0], p.value);
  }

  /** Whatever one write intent records replays from its base to its result. */
  lemma StepReplays(v: Value, op: WriteOp)
    requires WellFormed(v) && Step(v, op).Success?
    ensures var p := Step(v, op).value; ReplaysAll(v, p.ops, p.value)
  {
    match op
    case ConstructiveOp(path, patch) => EachReplays(v, path, patch);
    case SetOp(path, value) => SetReplays(v, path, value);
    case ReplaceOp(path, value) => ReplaceReplays(v, path, value);
    case DeleteOp(path) => DeleteReplays(v, path);
    case SpliceOp(path, start, count, items) => SpliceReplays(v, path, start, count, items);
    case RenameOp(path, from, to) => RenameReplays(v, path, from, to);
    case MoveOp(path, from, to) => MoveReplays(v, path, from, to);
  }

  lemma {:induction false} PlanReplays(v: Value, ops: seq<WriteOp>)
    requires WellFormed(v) && AdmittedOps(ops) && Plan(v, ops).Success?
    ensures var p := Plan(v, ops).value; ReplaysAll(v, p.ops, p.value)
    decreases |ops|
  {
    if ops != [] {
      var first := Step(v, ops[0]).value;
      StepReplays(v, ops[0]);
      StepKeepsWellFormed(v, ops[0]);
      PlanReplays(first.value, ops[1..]);
      var rest := Plan(first.value, ops[1..]).value;
      ReplaysConcat(v, first.ops, first.value, rest.ops, rest.value);
    }
  }

  /** Operations that replay from v to w pass every evidence check and re-plan to themselves. */
  lemma {:induction false} ReplayAccepts(v: Value, ops: seq<TransportOp>, w: Value)
    requires ReplaysAll(v, ops, w)
    ensures Replay(v, ops) == Success(FromTransports(ops))
    ensures Plan(v, FromTransports(ops)) == Success(Planned(w, ops))
    decreases |ops|
  {
    if ops != [] {
      CompiledFirst(ops);
      var next := ReplaysFirst(v, ops, w);
      ReplayAccepts(next, ops[1..], w);
      AcceptsThen(v, ops[0], next, ops[1..], w);
    }
  }

  lemma CompiledFirst(ops: seq<TransportOp>)
    requires ops != []
    ensures FromTransports(ops) == [FromTransport(ops[0])] + FromTransports(ops[1..]) && [ops[0]] + ops[1..] == ops
  {
  }

  lemma AcceptsThen(v: Value, op: TransportOp, next: Value, ops: seq<TransportOp>, w: Value)
    requires Replays(v, op, next) && Replay(next, ops) == Success(FromTransports(ops))
    requires Plan(next, FromTransports(ops)) == Success(Planned(w, ops))
    ensures Replay(v, [op] + ops) == Success([FromTransport(op)] + FromTransports(ops))
    ensures Plan(v, [FromTransport(op)] + FromTransports(ops)) == Success(Planned(w, [op] + ops))
  {
    PlanOne(v, FromTransport(op));
    assert ([op] + ops)[1..] == ops && ([FromTransport(op)] + FromTransports(ops))[1..] == FromTransports(ops);
  }

  /**
   * Replica convergence for one commit: whatever the planner accepts on a base, its recorded
   * operations pass every check on an equal base and plan to the same operations and value.
   */
  lemma ReplayOfPlan(v: Value, ops: seq<WriteOp>)
    requires WellFormed(v) && AdmittedOps(ops) && Plan(v, ops).Success?
    ensures var p := Plan(v, ops).value;
            && Replay(v, p.ops) == Success(FromTransports(p.ops))
            && Plan(v, FromTransports(p.ops)) == Success(p)
  {
    PlanReplays(v, ops);
    ReplayAccepts(v, Plan(v, ops).value.ops, Plan(v, ops).value.value);
  }

  /** The carrier after a run of recorded operations. */
  function ValueAfter(v: Value, ops: seq<TransportOp>): Value
    decreases |ops|
  {
    if ops == [] then v
    else match Step(v, FromTransport(ops[0]))
      case Failure(_) => v
      case Success(planned) => ValueAfter(planned.value, ops[1..])
  }

  /** The evidence of operation i matches: prev before it, next after it, and it plans there. */
  predicate EvidenceAt(v: Value, ops: seq<TransportOp>, i: nat)
    requires i < |ops|
  {
    var before := ValueAfter(v, ops[..i]);
    var step := Step(before, FromTransport(ops[i]));
    && Prev(ops[i]) == At(before, ops[i].path)
    && step.Success? && Next(ops[i]) == At(step.value.value, ops[i].path)
  }

  lemma EvidenceBehind(v: Value, ops: seq<TransportOp>, i: nat)
    requires 0 < i < |ops| && Step(v, FromTransport(ops[0])).Success?
    ensures EvidenceAt(v, ops, i) <==> EvidenceAt(Step(v, FromTransport(ops[0])).value.value, ops[1..], i - 1)
  {
    assert ops[..i][0] == ops[0] && ops[..i][1..] == ops[1..][..i - 1];
  }

  /** Replay accepts a record iff its evidence matches at every operation, and then plans to where they lead. */
  lemma {:induction false} ReplayAcceptsIff(v: Value, ops: seq<TransportOp>)
    ensures Replay(v, ops).Success? <==> forall i: nat | i < |ops| :: EvidenceAt(v, ops, i)
    ensures Replay(v, ops).Success? ==>
              && Replay(v, ops).value == FromTransports(ops)
              && Plan(v, FromTransports(ops)).Success? && Plan(v, FromTransports(ops)).value.value == ValueAfter(v, ops)
    decreases |ops|
  {
    if ops != [] {
      PlanOne(v, FromTransport(ops[0]));
      assert ops[..0] == [];
      var step := Step(v, FromTransport(ops[0]));
      if EvidenceAt(v, ops, 0) {
        ReplayAcceptsIff(step.value.value, ops[1..]);
        assert FromTransports(ops)[1..] == FromTransports(ops[1..]);
        forall i: nat | 0 < i < |ops|
          ensures EvidenceAt(v, ops, i) <==> EvidenceAt(step.value.value, ops[1..], i - 1)
        {
          EvidenceBehind(v, ops, i);
        }
        if forall i: nat | i < |ops| :: EvidenceAt(v, ops, i) {
          forall i: nat | i < |ops[1..]| ensures EvidenceAt(step.value.value, ops[1..], i) {
            assert EvidenceAt(v, ops, i + 1);
          }
        }
      }
    }
  }

  // ---------------------------------------------------------------- delta

  /** How an install applies one recorded operation: delete, set, or replace by the recorded `next`. */
  function ApplyOne(v: Value, op: TransportOp): Result<Value, Fault> {
    match op
    case TDelete(path, _) => Delete(v, path)
    case TSet(path, _, next) => Set(v, path, next)
    case _ => Replace(v, op.path, Next(op).value)
  }

  /** What a splice, rename or move amounts to at its endpoint: a replace by the recorded `next`. */
  lemma EndpointReplaced(v: Value, op: TransportOp, w: Value)
    requires Replays(v, op, w) && (op.TSplice? || op.TRename? || op.TMove?)
    ensures Replace(v, op.path, Next(op).value) == Success(w)
  {
    match op
    case TSplice(path, start, removed, inserted, before, _) =>
      ReadAfterReplace(v, path, Arr(Spliced(before, start, |removed|, inserted)));
    case TRename(path, from, to, oldEntries, _) =>
      ReadAfterReplace(v, path, Obj(RenamedEntries(oldEntries, from, to)));
    case TMove(path, from, to, before, _) =>
      ReadAfterReplace(v, path, Arr(Moved(before, from, to)));
  }

  /** A delta step reaches the planned candidate without redoing the splice, rename or move. */
  lemma ApplyOneReaches(v: Value, op: TransportOp, w: Value)
    requires Replays(v, op, w)
    ensures ApplyOne(v, op) == Success(w)
  {
    if op.TSplice? || op.TRename? || op.TMove? { EndpointReplaced(v, op, w); }
  }

  /** A whole delta at carrier level. */
  function ApplyAll(v: Value, ops: seq<TransportOp>): Result<Value, Fault>
    decreases |ops|
  {
    if ops == [] then Success(v)
    else
      var next :- ApplyOne(v, ops[0]);
      ApplyAll(next, ops[1..])
  }

  lemma {:induction false} ApplyAllReaches(v: Value, ops: seq<TransportOp>, w: Value)
    requires ReplaysAll(v, ops, w)
    ensures ApplyAll(v, ops) == Success(w) && ValueAfter(v, ops) == w
    decreases |ops|
  {
    if ops != [] {
      var next := ReplaysFirst(v, ops, w);
      ApplyOneReaches(v, ops[0], next);
      ApplyAllReaches(next, ops[1..], w);
    }
  }

  /**
   * The delta reaches the plan: applying the recorded operations one by one gives exactly the
   * planned value, though equal writes were dropped and splices, renames and moves are not redone.
   */
  lemma DeltaReachesPlan(v: Value, writeOps: seq<WriteOp>)
    requires WellFormed(v) && AdmittedOps(writeOps) && Plan(v, writeOps).Success?
    ensures ApplyAll(v, Plan(v, writeOps).value.ops) == Success(Plan(v, writeOps).value.value)
  {
    PlanReplays(v, writeOps);
    ApplyAllReaches(v, Plan(v, writeOps).value.ops, Plan(v, writeOps).value.value);
  }

  // ---------------------------------------------------------------- undo

  /** Reverse one recorded operation from its evidence alone. */
  function UndoOne(w: Value, op: TransportOp): Result<Value, Fault> {
    match op
    case TSet(path, None, _) => Delete(w, path)
    case TDelete(path, Some(prev)) => Set(w, path, prev)
    case _ => if Prev(op).None? then Failure(PathUnresolved) else Replace(w, op.path, Prev(op).value)
  }

  lemma ReplaceBack(v: Value, path: Path, x: Value)
    requires At(v, path).Some?
    ensures Replace(v, path, x).Success?
    ensures Replace(Replace(v, path, x).value, path, At(v, path).value) == Success(v)
  {
    if path != [] {
      WriteSucceedsIff(v, path, x, false);
      LastWriteWins(v, path, x, At(v, path).value, false, false);
      WriteBackIsIdentity(v, path, false);
    }
  }

  /**
   * Every recorded operation carries enough evidence to restore the exact value before it,
   * except a delete: its entry comes back in last place, so it restores iff it was the last.
   */
  lemma UndoOneRestoresIff(v: Value, op: TransportOp, w: Value)
    requires WellFormed(v) && Replays(v, op, w)
    ensures UndoOne(w, op) == Success(v) <==> (op.TDelete? ==> IsLastEntry(v, op.path))
  {
    match op
    case TSet(path, None, next) => DeleteUndoesAppend(v, path, next);
    case TSet(path, Some(prev), next) =>
      LastWriteWins(v, path, next, prev, true, false);
      WriteBackIsIdentity(v, path, true);
    case TDelete(path, _) => SetUndoesDeleteIff(v, path);
    case TReplace(path, _, next) => ReplaceBack(v, path, next);
    case _ =>
      EndpointReplaced(v, op, w);
      ReplaceBack(v, op.path, Next(op).value);
  }

  /** Reverse a whole record, last operation first. */
  function UndoAll(w: Value, ops: seq<TransportOp>): Result<Value, Fault>
    decreases |ops|
  {
    if ops == [] then Success(w)
    else
      var m :- UndoAll(w, ops[1..]);
      UndoOne(m, ops[0])
  }

  /** Every delete of the record takes out the last entry of its object, as it stands at that turn. */
  predicate DeletesLastEntries(v: Value, ops: seq<TransportOp>)
    decreases |ops|
  {
    ops == [] ||
    ((ops[0].TDelete? ==> IsLastEntry(v, ops[0].path)) && DeletesLastEntries(ValueAfter(v, ops[..1]), ops[1..]))
  }

  /** A record whose deletes all take last entries is undone from its evidence, last operation first. */
  lemma {:induction false} UndoAllRestores(v: Value, ops: seq<TransportOp>, w: Value)
    requires WellFormed(v) && ReplaysAll(v, ops, w) && AdmittedRecord(ops) && DeletesLastEntries(v, ops)
    ensures UndoAll(w, ops) == Success(v)
    decreases |ops|
  {
    if ops != [] {
      var m := ReplaysFirst(v, ops, w);
      assert ops[..1][0] == ops[0] && ops[..1][1..] == [] && ValueAfter(v, ops[..1]) == m;
      StepKeepsWellFormed(v, FromTransport(ops[0]));
      UndoAllRestores(m, ops[1..], w);
      UndoOneRestoresIff(v, ops[0], m);
    }
  }

  /** The entry a delete took from the front of an object comes back at its end. */
  lemma DeleteComesBackLast()
    ensures var v := Obj([Entry("a", Null), Entry("b", Null)]);
            var p := Plan(v, [DeleteOp([Key("a")])]);
            && p.Success? && p.value.ops == [TDelete([Key("a")], Some(Null))]
            && UndoOne(p.value.value, p.value.ops[0]) == Success(Obj([Entry("b", Null), Entry("a", Null)]))
            && UndoOne(p.value.value, p.value.ops[0]) != Success(v)
  {
    var v, path := Obj([Entry("a", Null), Entry("b", Null)]), [Key("a")];
    PlanOne(v, DeleteOp(path));
    assert path[0] == Key("a") && path[1..] == [] && path[..0] == [];
    assert FindKey(v.entries, "a") == Some(0);
    assert v.entries[..0] + v.entries[1..] == [Entry("b", Null)];
    var w := Obj([Entry("b", Null)]);
    assert Step(v, DeleteOp(path)) == Success(Planned(w, [TDelete(path, Some(Null))]));
    assert w.entries[1..] == [] && FindKey(w.entries, "a").None?;
    assert Child(w, path[0]).None? && w.entries + [Entry("a", Null)] == [Entry("b", Null), Entry("a", Null)];
    assert Set(w, path, Null) == Success(Obj([Entry("b", Null), Entry("a", Null)]));
    assert Obj([Entry("b", Null), Entry("a", Null)]).entries[0] != v.entries[0];
  }
}
