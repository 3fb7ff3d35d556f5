/**
 * Planning: write intents are run against an immutable candidate, and every effective
 * write is recorded as a transport operation carrying the value before and after it.
 */
module Planner {
  import opened Prelude
  import opened OrderedValue
  import opened ValueMutation

  datatype WriteOp =
    | SetOp(path: Path, value: Value)
    | ReplaceOp(path: Path, value: Value)
    | DeleteOp(path: Path)
    | SpliceOp(path: Path, start: int, count: int, items: seq<Value>)
    | RenameOp(path: Path, fromKey: string, toKey: string)
    | MoveOp(path: Path, source: int, target: int)
    | ConstructiveOp(path: Path, patch: seq<Entry>)

  datatype TransportOp =
    | TSet(path: Path, prev: Option<Value>, next: Value)
    | TReplace(path: Path, prev: Option<Value>, next: Value)
    | TDelete(path: Path, prev: Option<Value>)
    | TSplice(path: Path, start: int, removed: seq<Value>, inserted: seq<Value>, before: seq<Value>, after: seq<Value>)
    | TRename(path: Path, fromKey: string, toKey: string, oldEntries: seq<Entry>, newEntries: seq<Entry>)
    | TMove(path: Path, source: int, target: int, before: seq<Value>, after: seq<Value>)

  /** The recorded value at the operation's path before it ran. */
  function Prev(op: TransportOp): Option<Value> {
    match op
    case TSplice(_, _, _, _, before, _) => Some(Arr(before))
    case TRename(_, _, _, oldEntries, _) => Some(Obj(oldEntries))
    case TMove(_, _, _, before, _) => Some(Arr(before))
    case _ => op.prev
  }

  /** The recorded value at the operation's path after it ran. */
  function Next(op: TransportOp): Option<Value> {
    match op
    case TSet(_, _, next) => Some(next)
    case TReplace(_, _, next) => Some(next)
    case TDelete(_, _) => None
    case TSplice(_, _, _, _, _, after) => Some(Arr(after))
    case TRename(_, _, _, _, newEntries) => Some(Obj(newEntries))
    case TMove(_, _, _, _, after) => Some(Arr(after))
  }

  datatype Planned = Planned(value: Value, ops: seq<TransportOp>)

  function MustArray(v: Option<Value>): Result<seq<Value>, Fault> {
    if v.Some? && v.value.Arr? then Success(v.value.items) else Failure(EndpointNotArray)
  }

  function MustObject(v: Option<Value>): Result<seq<Entry>, Fault> {
    if v.Some? && v.value.Obj? then Success(v.value.entries) else Failure(EndpointNotObject)
  }

  function MustResolve(v: Option<Value>): Result<Value, Fault> {
    if v.Some? then Success(v.value) else Failure(PathUnresolved)
  }

  function PlanSet(v: Value, path: Path, value: Value): Result<Planned, Fault> {
    var prev := At(v, path);
    var w :- Set(v, path, value);
    Success(Planned(w, if prev == Some(value) then [] else [TSet(path, prev, value)]))
  }

  function PlanEach(v: Value, path: Path, patch: seq<Entry>): Result<Planned, Fault>
    decreases |patch|
  {
    if patch == [] then Success(Planned(v, []))
    else
      var first :- PlanSet(v, path + [Key(patch[0].key)], patch[0].value);
      var rest :- PlanEach(first.value, path, patch[1..]);
      Success(Planned(rest.value, first.ops + rest.ops))
  }

  /** One write intent against one candidate. */
  function Step(v: Value, op: WriteOp): Result<Planned, Fault> {
    match op
    case ConstructiveOp(path, patch) =>
      var current :- MustResolve(At(v, path));
      if !current.Obj? then Failure(EndpointNotObject) else PlanEach(v, path, patch)
    case SpliceOp(path, start, count, items) =>
      var prev :- MustResolve(At(v, path));
      var result :- Splice(v, path, start, count, items);
      var next :- MustResolve(At(result.value, path));
      if prev == next then Success(Planned(result.value, []))
      else
        var before :- MustArray(Some(prev));
        var after :- MustArray(Some(next));
        Success(Planned(result.value, [TSplice(path, start, result.removed, items, before, after)]))
    case RenameOp(path, from, to) =>
      var prev :- MustObject(At(v, path));
      if FindKey(prev, from).None? then Failure(RenameSourceMissing)
      else if from == to then Success(Planned(v, []))
      else
        var w :- Rename(v, path, from, to);
        var next :- MustObject(At(w, path));
        Success(Planned(w, [TRename(path, from, to, prev, next)]))
    case MoveOp(path, from, to) =>
      var prev :- MustArray(At(v, path));
      if !(0 <= from < |prev|) then Failure(MoveSourceInvalid)
      else if !(0 <= to < |prev|) then Failure(MoveDestinationInvalid)
      else if from == to then Success(Planned(v, []))
      else
        var w :- Move(v, path, from, to);
        var next :- MustArray(At(w, path));
        Success(Planned(w, [TMove(path, from, to, prev, next)]))
    case SetOp(path, value) => PlanSet(v, path, value)
    case ReplaceOp(path, value) =>
      var prev :- MustResolve(At(v, path));
      var w :- Replace(v, path, value);
      Success(Planned(w, if prev == value then [] else [TReplace(path, Some(prev), value)]))
    case DeleteOp(path) =>
      var prev :- MustResolve(At(v, path));
      var _ :- MustPlanDelete(v, path);
      var w :- Delete(v, path);
      Success(Planned(w, [TDelete(path, Some(prev))]))
  }

  function MustPlanDelete(v: Value, path: Path): Result<(), Fault> {
    if path == [] then Failure(CannotDeleteRoot)
    else
      var parent := At(v, path[..|path| - 1]);
      if path[|path| - 1].Index? && parent.Some? && parent.value.Arr? then Failure(CannotDeleteIndex)
      else Success(())
  }

  /** Write intents in order, each against the candidate the earlier ones left. */
  function Plan(v: Value, ops: seq<WriteOp>): Result<Planned, Fault>
    decreases |ops|
  {
    if ops == [] then Success(Planned(v, []))
    else
      var first :- Step(v, ops[0]);
      var rest :- Plan(first.value, ops[1..]);
      Success(Planned(rest.value, first.ops + rest.ops))
  }

  /** The same outcome with operations already recorded in front. */
  function After(ops: seq<TransportOp>, r: Result<Planned, Fault>): Result<Planned, Fault> {
    if r.Failure? then r else Success(Planned(r.value.value, ops + r.value.ops))
  }

  lemma AfterNested(a: seq<TransportOp>, b: seq<TransportOp>, r: Result<Planned, Fault>)
    ensures After(a, After(b, r)) == After(a + b, r)
    ensures After([], r) == r
  {
    if r.Success? {
      assert a + (b + r.value.ops) == (a + b) + r.value.ops;
      assert [] + r.value.ops == r.value.ops;
    }
  }

  method PlanConstructive(root: Value, path: Path, patch: seq<Entry>) returns (r: Result<Planned, Fault>)
    ensures r == Step(root, ConstructiveOp(path, patch))
  {
    var current := At(root, path);
    if current.None? { return Failure(PathUnresolved); }
    if !current.value.Obj? { return Failure(EndpointNotObject); }
    var candidate, ops := root, [];
    AfterNested([], [], PlanEach(root, path, patch));
    assert patch[0..] == patch;
    for n := 0 to |patch|
      invariant PlanEach(root, path, patch) == After(ops, PlanEach(candidate, path, patch[n..]))
    {
      assert patch[n..][1..] == patch[n + 1..];
      var childPath := path + [Key(patch[n].key)];
      var prev := At(candidate, childPath);
      var next := Set(candidate, childPath, patch[n].value);
      if next.Failure? { return Failure(next.error); }
      AfterNested(ops, PlanSet(candidate, childPath, patch[n].value).value.ops, PlanEach(next.value, path, patch[n + 1..]));
      candidate := next.value;
      if prev != Some(patch[n].value) {
        ops := ops + [TSet(childPath, prev, patch[n].value)];
      } else {
        assert ops + [] == ops;
      }
    }
    assert ops + [] == ops;
    r := Success(Planned(candidate, ops));
  }

  /** The planning loop: one candidate updated in place, recorded operations pushed behind it. */
  method PlanWriteOps(root: Value, writeOps: seq<WriteOp>) returns (r: Result<Planned, Fault>)
    ensures r == Plan(root, writeOps)
  {
    var candidate, transport := root, [];
    AfterNested([], [], Plan(root, writeOps));
    assert writeOps[0..] == writeOps;
    for n := 0 to |writeOps|
      invariant Plan(root, writeOps) == After(transport, Plan(candidate, writeOps[n..]))
    {
      assert writeOps[n..][1..] == writeOps[n + 1..];
      var step;
      match writeOps[n] {
        case ConstructiveOp(path, patch) => step := PlanConstructive(candidate, path, patch);
        case op => step := Step(candidate, op);
      }
      if step.Failure? { return Failure(step.error); }
      AfterNested(transport, step.value.ops, Plan(step.value.value, writeOps[n + 1..]));
      candidate := step.value.value;
      transport := transport + step.value.ops;
    }
    assert transport + [] == transport;
    r := Success(Planned(candidate, transport));
  }

  // ---------------------------------------------------------------- replay

  /** The write intent that re-plans one recorded operation. */
  function FromTransport(op: TransportOp): WriteOp {
    match op
    case TSet(path, _, next) => SetOp(path, next)
    case TReplace(path, _, next) => ReplaceOp(path, next)
    case TDelete(path, _) => DeleteOp(path)
    case TSplice(path, start, removed, inserted, _, _) => SpliceOp(path, start, |removed|, inserted)
    case TRename(path, from, to, _, _) => RenameOp(path, from, to)
    case TMove(path, from, to, _, _) => MoveOp(path, from, to)
  }

  function FromTransports(ops: seq<TransportOp>): seq<WriteOp> {
    if ops == [] then [] else [FromTransport(ops[0])] + FromTransports(ops[1..])
  }

  datatype ReplayFault = Conflict | Rejected(fault: Fault)

  /** Evidence-checked replay of recorded operations: the write intents, or the first conflict. */
  function Replay(v: Value, ops: seq<TransportOp>): Result<seq<WriteOp>, ReplayFault>
    decreases |ops|
  {
    if ops == [] then Success([])
    else if Prev(ops[0]) != At(v, ops[0].path) then Failure(Conflict)
    else
      var step := Plan(v, [FromTransport(ops[0])]);
      if step.Failure? then Failure(Rejected(step.error))
      else if Next(ops[0]) != At(step.value.value, ops[0].path) then Failure(Conflict)
      else
        var rest :- Replay(step.value.value, ops[1..]);
        Success([FromTransport(ops[0])] + rest)
  }

  /** The same outcome with write intents already compiled in front. */
  function Behind(ops: seq<WriteOp>, r: Result<seq<WriteOp>, ReplayFault>): Result<seq<WriteOp>, ReplayFault> {
    if r.Failure? then r else Success(ops + r.value)
  }

  lemma BehindNested(a: seq<WriteOp>, b: seq<WriteOp>, r: Result<seq<WriteOp>, ReplayFault>)
    ensures Behind(a, Behind(b, r)) == Behind(a + b, r)
    ensures Behind([], r) == r
  {
    if r.Success? {
      assert a + (b + r.value) == (a + b) + r.value;
      assert [] + r.value == r.value;
    }
  }

  method ReplayWriteOps(root: Value, ops: seq<TransportOp>) returns (r: Result<seq<WriteOp>, ReplayFault>)
    ensures r == Replay(root, ops)
  {
    var candidate, writeOps := root, [];
    BehindNested([], [], Replay(root, ops));
    assert ops[0..] == ops;
    for n := 0 to |ops|
      invariant Replay(root, ops) == Behind(writeOps, Replay(candidate, ops[n..]))
    {
      assert ops[n..][1..] == ops[n + 1..];
      if Prev(ops[n]) != At(candidate, ops[n].path) { return Failure(Conflict); }
      var writeOp := FromTransport(ops[n]);
      var planned := PlanWriteOps(candidate, [writeOp]);
      if planned.Failure? { return Failure(Rejected(planned.error)); }
      candidate := planned.value.value;
      if Next(ops[n]) != At(candidate, ops[n].path) { return Failure(Conflict); }
      BehindNested(writeOps, [writeOp], Replay(candidate, ops[n + 1..]));
      writeOps := writeOps + [writeOp];
    }
    assert writeOps + [] == writeOps;
    r := Success(writeOps);
  }
}
