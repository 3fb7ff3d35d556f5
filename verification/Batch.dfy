/** Public mutation calls, lowered to write intents, and the batch transaction that stages them. */
module Batch {
  import opened Prelude
  import opened OrderedValue
  import opened ValueMutation
  import opened ValueLaws
  import opened Planner
  import opened PlannerLaws
  import opened StepLaws

  datatype Call =
    | SetCall(path: Path, value: Value)
    | SetManyCall(path: Path, values: seq<Entry>)
    | ReplaceCall(path: Path, value: Value)
    | DeleteCall(path: Path)
    | SpliceCall(path: Path, start: int, deleteCount: int, items: seq<Value>)

  function MustResolvePath(path: Path, current: Option<Value>): Result<(), Fault> {
    if path == [] || current.Some? then Success(()) else Failure(PathUnresolved)
  }

  /** Objects assigned over an object expand into child writes; anything else is one endpoint set. */
  function FromSet(path: Path, value: Value, current: Option<Value>): Result<seq<WriteOp>, Fault> {
    var _ :- MustResolvePath(path, current);
    if path == [] || !value.Obj? then Success([SetOp(path, value)])
    else if current.Some? && !current.value.Obj? then Success([SetOp(path, value)])
    else Success([ConstructiveOp(path, value.entries)])
  }

  function ChildSets(path: Path, values: seq<Entry>): seq<WriteOp> {
    if values == [] then [] else [SetOp(path + [Key(values[0].key)], values[0].value)] + ChildSets(path, values[1..])
  }

  function FromSetMany(path: Path, values: seq<Entry>, current: Option<Value>): Result<seq<WriteOp>, Fault> {
    if current.None? then Failure(PathUnresolved)
    else if !current.value.Obj? then Failure(EndpointNotObject)
    else Success(ChildSets(path, values))
  }

  /** How far a position is from where a start points; a negative start counts from the end. */
  function Away(length: nat, start: int, position: nat): nat {
    var target := if start < 0 then length + start else start;
    if target < position then position - target else target - position
  }

  /** The position of the array nearest to where the start points. */
  function SpliceStart(length: nat, start: int): (r: nat)
    ensures r <= length
    ensures forall position: nat | position <= length :: Away(length, start, r) <= Away(length, start, position)
  {
    if start < 0 then (if length + start < 0 then 0 else length + start)
    else if start < length then start else length
  }

  function FromSplice(path: Path, current: Option<Value>, start: int, deleteCount: int, items: seq<Value>)
    : Result<seq<WriteOp>, Fault>
  {
    var existing :- MustArray(current);
    var from := SpliceStart(|existing|, start);
    if deleteCount < 0 then Failure(SpliceCountInvalid)
    else
      var count := if deleteCount < |existing| - from then deleteCount else |existing| - from;
      Success([SpliceOp(path, from, count, items)])
  }

  /** The write intents of one call, read against the current value. */
  function Lower(call: Call, current: Value): Result<seq<WriteOp>, Fault> {
    match call
    case SetCall(path, value) => FromSet(path, value, At(current, path))
    case SetManyCall(path, values) => FromSetMany(path, values, At(current, path))
    case SpliceCall(path, start, count, items) => FromSplice(path, At(current, path), start, count, items)
    case ReplaceCall(path, value) =>
      var _ :- MustResolvePath(path, At(current, path));
      Success([ReplaceOp(path, value)])
    case DeleteCall(path) =>
      var _ :- MustResolvePath(path, At(current, path));
      Success([DeleteOp(path)])
  }

  datatype Staging = Staging(ops: seq<WriteOp>, candidate: Value)

  /** One staged call: its write intents and the candidate they lead to. */
  function Stage(candidate: Value, call: Call): Result<Staging, Fault> {
    var ops :- Lower(call, candidate);
    var planned :- Plan(candidate, ops);
    Success(Staging(ops, planned.value))
  }

  /** What Array.splice leaves behind. */
  function ArraySplice(a: seq<Value>, start: int, deleteCount: nat, items: seq<Value>): seq<Value> {
    var from := SpliceStart(|a|, start);
    a[..from] + items + (if from + deleteCount < |a| then a[from + deleteCount..] else [])
  }

  lemma FromSpliceShape(path: Path, a: seq<Value>, start: int, deleteCount: nat, items: seq<Value>) returns (op: WriteOp)
    ensures op.SpliceOp? && op.path == path && op.items == items
    ensures 0 <= op.start && 0 <= op.count && op.start + op.count <= |a|
    ensures FromSplice(path, Some(Arr(a)), start, deleteCount, items) == Success([op])
    ensures Spliced(a, op.start, op.count, items) == ArraySplice(a, start, deleteCount, items)
  {
    op := FromSplice(path, Some(Arr(a)), start, deleteCount, items).value[0];
  }

  lemma StageOne(v: Value, call: Call, op: WriteOp)
    requires Lower(call, v) == Success([op]) && Step(v, op).Success?
    ensures Stage(v, call) == Success(Staging([op], Step(v, op).value.value))
  {
    PlanOne(v, op);
  }

  /** Whatever start and delete count are asked for, the lowered splice of an array plans, as Array.splice would. */
  lemma LoweredSplicePlans(v: Value, path: Path, start: int, deleteCount: nat, items: seq<Value>)
    requires At(v, path).Some? && At(v, path).value.Arr?
    ensures var staged := Stage(v, SpliceCall(path, start, deleteCount, items));
            && staged.Success?
            && At(staged.value.candidate, path) ==
               Some(Arr(ArraySplice(At(v, path).value.items, start, deleteCount, items)))
  {
    var op := FromSpliceShape(path, At(v, path).value.items, start, deleteCount, items);
    SpliceStep(v, path, op.start, op.count, items);
    StageOne(v, SpliceCall(path, start, deleteCount, items), op);
  }

  /** Many child sets plan like one constructive merge. */
  lemma {:induction false} ChildSetsAreMerge(v: Value, path: Path, values: seq<Entry>)
    ensures Plan(v, ChildSets(path, values)) == PlanEach(v, path, values)
    decreases |values|
  {
    if values != [] {
      var sets := ChildSets(path, values);
      assert sets[1..] == ChildSets(path, values[1..]);
      var first := PlanSet(v, path + [Key(values[0].key)], values[0].value);
      if first.Success? { ChildSetsAreMerge(first.value.value, path, values[1..]); }
    }
  }

  /** An object assigned over an object merges into it key by key. */
  lemma StagedSetMerges(v: Value, path: Path, patch: seq<Entry>, key: string)
    requires UniqueKeys(patch) && At(v, path).Some? && At(v, path).value.Obj? && path != []
    requires Stage(v, SetCall(path, Obj(patch))).Success?
    ensures var after := Stage(v, SetCall(path, Obj(patch))).value.candidate;
            At(after, path + [Key(key)]) == Overlaid(patch, key, At(v, path + [Key(key)]))
  {
    var op := ConstructiveOp(path, patch);
    assert Lower(SetCall(path, Obj(patch)), v) == Success([op]);
    PlanOne(v, op);
    ConstructiveIsMerge(v, path, patch);
    MergeReads(v, path, patch, key);
  }

  /** Any other set makes its endpoint read the value; the root cannot be set. */
  lemma StagedSetReplaces(v: Value, path: Path, value: Value)
    requires Stage(v, SetCall(path, value)).Success?
    ensures path != [] && At(v, path).Some?
    ensures !(value.Obj? && At(v, path).value.Obj?) ==>
              At(Stage(v, SetCall(path, value)).value.candidate, path) == Some(value)
  {
    var op := Lower(SetCall(path, value), v).value[0];
    PlanOne(v, op);
    if op.SetOp? && path != [] { ReadAfterWrite(v, path, value, true); }
  }

  /** Setting many keys merges them into the object, whatever was there. */
  lemma StagedSetManyReads(v: Value, path: Path, values: seq<Entry>, key: string)
    requires UniqueKeys(values) && Stage(v, SetManyCall(path, values)).Success?
    ensures var after := Stage(v, SetManyCall(path, values)).value.candidate;
            && At(v, path).Some? && At(v, path).value.Obj?
            && At(after, path + [Key(key)]) == Overlaid(values, key, At(v, path + [Key(key)]))
  {
    ChildSetsAreMerge(v, path, values);
    ConstructiveIsMerge(v, path, values);
    MergeReads(v, path, values, key);
  }

  /** A staged delete goes through exactly at an entry of an object, and makes it absent. */
  lemma StagedDeleteRemoves(v: Value, path: Path)
    requires WellFormed(v)
    ensures var staged := Stage(v, DeleteCall(path));
            && (staged.Success? <==> path != [] && At(v, path).Some? && path[|path| - 1].Key?)
            && (staged.Success? ==> At(staged.value.candidate, path).None?)
  {
    DeletePlans(v, path);
    PlanOne(v, DeleteOp(path));
  }

  /** A staged replace goes through exactly where its path resolves, the root included, and reads its value there. */
  lemma StagedReplaceReads(v: Value, path: Path, value: Value)
    ensures var staged := Stage(v, ReplaceCall(path, value));
            && (staged.Success? <==> At(v, path).Some?)
            && (staged.Success? ==> At(staged.value.candidate, path) == Some(value))
  {
    ReplacePlans(v, path, value);
    PlanOne(v, ReplaceOp(path, value));
  }

  /** When a call goes through: sets need a resolved endpoint below the root, the others what they work on. */
  predicate Stageable(v: Value, call: Call) {
    match call
    case SetCall(path, _) => path != [] && At(v, path).Some?
    case SetManyCall(path, _) => HoldsObject(v, path)
    case ReplaceCall(path, _) => At(v, path).Some?
    case DeleteCall(path) => path != [] && At(v, path).Some? && path[|path| - 1].Key?
    case SpliceCall(path, _, count, _) => HoldsArray(v, path) && 0 <= count
  }

  lemma SetStages(v: Value, path: Path, value: Value)
    ensures Stage(v, SetCall(path, value)).Success? <==> path != [] && At(v, path).Some?
  {
    if path != [] && At(v, path).Some? {
      if value.Obj? && At(v, path).value.Obj? {
        EachPlans(v, path, value.entries);
        PlanOne(v, ConstructiveOp(path, value.entries));
      } else {
        SetPlans(v, path, value);
        PlanOne(v, SetOp(path, value));
      }
    } else {
      PlanOne(v, SetOp(path, value));
    }
  }

  lemma SetManyStages(v: Value, path: Path, values: seq<Entry>)
    ensures Stage(v, SetManyCall(path, values)).Success? <==> HoldsObject(v, path)
  {
    ChildSetsAreMerge(v, path, values);
    if HoldsObject(v, path) { EachPlans(v, path, values); }
  }

  /** Every call, over every admitted carrier, goes through exactly there. */
  lemma StageSucceedsIff(v: Value, call: Call)
    requires WellFormed(v)
    ensures Stage(v, call).Success? <==> Stageable(v, call)
  {
    match call
    case SetCall(path, value) => SetStages(v, path, value);
    case SetManyCall(path, values) => SetManyStages(v, path, values);
    case ReplaceCall(path, value) => StagedReplaceReads(v, path, value);
    case DeleteCall(path) => StagedDeleteRemoves(v, path);
    case SpliceCall(path, start, count, items) =>
      if HoldsArray(v, path) && 0 <= count { LoweredSplicePlans(v, path, start, count, items); }
  }

  /** Why a call is refused. */
  function StageFault(v: Value, call: Call): Fault {
    match call
    case SetCall(path, _) => if path == [] then CannotSetRoot else PathUnresolved
    case SetManyCall(path, _) => if At(v, path).None? then PathUnresolved else EndpointNotObject
    case ReplaceCall(_, _) => PathUnresolved
    case DeleteCall(path) =>
      if path == [] then CannotDeleteRoot else if At(v, path).None? then PathUnresolved else CannotDeleteIndex
    case SpliceCall(path, _, _, _) => if HoldsArray(v, path) then SpliceCountInvalid else EndpointNotArray
  }

  lemma StageFaults(v: Value, call: Call)
    requires WellFormed(v) && Stage(v, call).Failure?
    ensures Stage(v, call).error == StageFault(v, call)
  {
    StageSucceedsIff(v, call);
    match call
    case SetCall(path, value) => PlanOne(v, SetOp(path, value));
    case DeleteCall(path) =>
      PlanOne(v, DeleteOp(path));
      if Step(v, DeleteOp(path)).Failure? { StepFaults(v, DeleteOp(path)); }
    case _ =>
  }

  lemma {:induction false} ChildSetsDiverge(path: Path, values: seq<Entry>, other: Path)
    requires Diverge(path, other)
    ensures AllDiverge(ChildSets(path, values), other)
    decreases |values|
  {
    if values != [] {
      ChildSetsDiverge(path, values[1..], other);
      DivergeBelow(path, Key(values[0].key), other);
    }
  }

  lemma LoweredDiverge(v: Value, call: Call, other: Path)
    requires Lower(call, v).Success? && Diverge(call.path, other)
    ensures AllDiverge(Lower(call, v).value, other)
  {
    if call.SetManyCall? { ChildSetsDiverge(call.path, call.values, other); }
  }

  /** The carriers a call brings in are admitted carriers. */
  predicate AdmittedCall(call: Call) {
    match call
    case SetCall(_, value) => WellFormed(value)
    case SetManyCall(_, values) => WellFormedPatch(values)
    case ReplaceCall(_, value) => WellFormed(value)
    case DeleteCall(_) => true
    case SpliceCall(_, _, _, items) => WellFormedItems(items)
  }

  lemma {:induction false} ChildSetsAdmitted(path: Path, values: seq<Entry>)
    requires WellFormedPatch(values)
    ensures AdmittedOps(ChildSets(path, values))
    decreases |values|
  {
    if values != [] { ChildSetsAdmitted(path, values[1..]); }
  }

  /** A staged call leaves every path that parts from its own as it was. */
  lemma StageFrame(v: Value, call: Call, other: Path)
    requires WellFormed(v) && AdmittedCall(call) && Stage(v, call).Success? && Diverge(call.path, other)
    ensures At(Stage(v, call).value.candidate, other) == At(v, other)
  {
    LoweredDiverge(v, call, other);
    if call.SetManyCall? { ChildSetsAdmitted(call.path, call.values); }
    PlanFrame(v, Lower(call, v).value, other);
  }

  /** Calls committed one by one: each is lowered and planned against what the earlier ones left. */
  function CommitEach(v: Value, calls: seq<Call>): Result<Planned, Fault>
    decreases |calls|
  {
    if calls == [] then Success(Planned(v, []))
    else
      var ops :- Lower(calls[0], v);
      var first :- Plan(v, ops);
      var rest :- CommitEach(first.value, calls[1..]);
      Success(Planned(rest.value, first.ops + rest.ops))
  }

  /** The write intents a batch of calls stages. */
  function Staged(v: Value, calls: seq<Call>): Result<seq<WriteOp>, Fault>
    decreases |calls|
  {
    if calls == [] then Success([])
    else
      var first :- Stage(v, calls[0]);
      var rest :- Staged(first.candidate, calls[1..]);
      Success(first.ops + rest)
  }

  function Queued(ops: seq<WriteOp>, r: Result<seq<WriteOp>, Fault>): Result<seq<WriteOp>, Fault> {
    if r.Failure? then r else Success(ops + r.value)
  }

  lemma QueuedNested(a: seq<WriteOp>, b: seq<WriteOp>, r: Result<seq<WriteOp>, Fault>)
    ensures Queued(a, Queued(b, r)) == Queued(a + b, r) && Queued([], r) == r
  {
    if r.Success? {
      assert a + (b + r.value) == a + b + r.value;
      assert [] + r.value == r.value;
    }
  }

  /** One batch commit is the composition of its calls: same value, same operations, same failure. */
  lemma {:induction false} BatchIsComposition(v: Value, calls: seq<Call>)
    ensures var staged := Staged(v, calls);
            CommitEach(v, calls) == if staged.Failure? then Failure(staged.error) else Plan(v, staged.value)
    decreases |calls|
  {
    if calls != [] {
      var ops := Lower(calls[0], v);
      if ops.Success? {
        var first := Plan(v, ops.value);
        if first.Success? {
          BatchIsComposition(first.value.value, calls[1..]);
          var rest := Staged(first.value.value, calls[1..]);
          if rest.Success? { PlanAppend(v, ops.value, rest.value); }
        }
      }
    }
  }

  /** The transaction handed to a batch callback. */
  class Transaction {
    ghost const initial: Value
    var candidate: Value
    var writeOps: seq<WriteOp>
    var open: bool

    /** The staged candidate is the plan of everything queued so far. */
    ghost predicate Valid()
      reads this
    {
      var planned := Plan(initial, writeOps);
      planned.Success? && planned.value.value == candidate
    }

    constructor (initial: Value)
      ensures Valid() && open && this.initial == candidate == initial && writeOps == []
    {
      this.initial := initial;
      candidate, writeOps, open := initial, [], true;
    }

    method Run(call: Call) returns (r: Result<(), Fault>)
      requires Valid()
      modifies this`candidate, this`writeOps
      ensures Valid()
      ensures r.Failure? ==> candidate == old(candidate) && writeOps == old(writeOps)
      ensures !open ==> r == Failure(BatchClosed)
      ensures open ==>
                var staging := Stage(old(candidate), call);
                if staging.Failure? then r == Failure(staging.error)
                else r.Success? && candidate == staging.value.candidate && writeOps == old(writeOps) + staging.value.ops
    {
      if !open { return Failure(BatchClosed); }
      var ops :- Lower(call, candidate);
      var planned := PlanWriteOps(candidate, ops);
      if planned.Failure? { return Failure(planned.error); }
      PlanAppend(initial, writeOps, ops);
      candidate, writeOps := planned.value.value, writeOps + ops;
      r := Success(());
    }

    method Close()
      requires Valid()
      modifies this`open
      ensures Valid() && !open
    {
      open := false;
    }
  }

  /** A batch whose callback makes these calls and lets the first failure through. */
  method RunBatch(initial: Value, calls: seq<Call>) returns (r: Result<seq<WriteOp>, Fault>)
    ensures r == Staged(initial, calls)
  {
    var tx := new Transaction(initial);
    assert calls[0..] == calls;
    QueuedNested([], [], Staged(initial, calls));
    for n := 0 to |calls|
      invariant tx.Valid() && tx.open
      invariant Staged(initial, calls) == Queued(tx.writeOps, Staged(tx.candidate, calls[n..]))
    {
      assert calls[n..][1..] == calls[n + 1..];
      ghost var queued, staging := tx.writeOps, Stage(tx.candidate, calls[n]);
      var step := tx.Run(calls[n]);
      if step.Failure? { return Failure(step.error); }
      QueuedNested(queued, staging.value.ops, Staged(tx.candidate, calls[n + 1..]));
    }
    tx.Close();
    assert tx.writeOps + [] == tx.writeOps;
    r := Success(tx.writeOps);
  }
}
