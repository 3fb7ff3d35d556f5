/**
 * The projected map as a state machine: the owned graph and carrier, the revision, and the
 * staged transition controller with its generation, tokens and exclusive management.
 */
module Authority {
  import opened Prelude
  import opened OrderedValue
  import opened ValueMutation
  import opened Planner
  import opened HsonGraph
  import opened Editor
  import opened HeldGraphs
  import opened Install
  import opened Invariants

  datatype Commit = Commit(changed: bool, prevRev: nat, rev: nat, ops: seq<TransportOp>)

  datatype Origin = Authoritative | Replayed

  /** What is handed to publication. */
  datatype Notice = CommitNotice(commit: Commit, origin: Origin) | SnapshotNotice(revision: nat)

  datatype TokenState = Pending | Accepted | Discarded

  /** One prepared transition. `base` and `writeOps` record what it was planned from. */
  datatype TransitionRecord = TransitionRecord(state: TokenState, baseRevision: nat, generation: nat, commit: Commit,
                           planned: Planned, rebuilt: Option<Node>, base: Value, writeOps: seq<WriteOp>)

  datatype Mode = DataObject | DataArray

  /** History: a token that was accepted, the generation it was prepared in, and whether it changed the map. */
  datatype Acceptance = Acceptance(token: nat, generation: nat, changed: bool)

  /**
   * The map. History: `adrift` says that the owned graph may not follow the carrier, because it holds
   * carriers in the way of edits, or because an install stopped midway.
   */
  datatype State = State(root: Node, value: Value, revision: nat, mode: Mode, schema: Option<nat>,
                         generation: nat, manager: Option<nat>, records: seq<TransitionRecord>, notices: seq<Notice>,
                         log: seq<Acceptance>, adrift: bool)

  datatype Refusal =
    | PlanRefused(fault: Fault) | SchemaRefused | BuildRefused
    | Foreign | AlreadyAccepted | WasDiscarded | Stale | InstallFailed
    | Managed | AlreadyManaged | RevisionMismatch | ReplayRefused(conflict: ReplayFault)
    | Unprojectable | CaptureDisagrees | ModeMismatch | SchemaFixed

  datatype Reply = Done | Token(token: nat) | Committed(commit: Commit) | Refused(refusal: Refusal)

  datatype Event =
    | Write(writeOps: seq<WriteOp>)
    | Prepare(writeOps: seq<WriteOp>)
    | Accept(token: nat)
    | Discard(token: nat)
    | Replay(prevRev: int, ops: seq<TransportOp>)
    | Restore(rev: int, value: Value, root: Node)
    | AttachSchema(schema: nat)
    | Claim(owner: nat)
    | Release(owner: nat)

  datatype Outcome = Outcome(state: State, reply: Reply)

  /** An attached schema is an arbitrary verdict on a candidate and the write intents that led to it. */
  type Verdict = (nat, Value, seq<WriteOp>) -> bool

  predicate SchemaAccepts(verdict: Verdict, schema: Option<nat>, v: Value, ops: seq<WriteOp>) {
    schema.Some? ==> verdict(schema.value, v, ops)
  }

  predicate ReplacesRoot(ops: seq<WriteOp>) {
    exists i :: 0 <= i < |ops| && ops[i].ReplaceOp? && ops[i].path == []
  }

  /** The data mode of a graph, read off its top-level structural tag alone. */
  function ModeOfRoot(root: Node): Option<Mode> {
    match root.tag
    case ObjTag => Some(DataObject)
    case ArrTag => Some(DataArray)
    case RootTag =>
      if root.content == [] || !IsNode(root.content[0]) then None
      else if root.content[0].node.tag.ObjTag? then Some(DataObject)
      else if root.content[0].node.tag.ArrTag? then Some(DataArray)
      else None
    case _ => None
  }

  /** Classifying a root checks the whole graph first. */
  function ClassifyRoot(root: Node): Option<Mode> {
    if Canonical(root) then ModeOfRoot(root) else None
  }

  /** The carrier a graph projects to. */
  function ReadRoot(root: Node): (r: Option<Value>)
    ensures r.Some? <==> ProjectLive(root, []).Success? && ProjectLive(root, []).value.Some?
    ensures r.Some? ==> Projects(root, r.value)
  {
    var read := ProjectLive(root, []);
    if read.Failure? then None else read.value
  }

  /** Some object or non-empty array of this graph sits inside a carrier that edits would miss. */
  predicate HoldsCarriers(root: Node) {
    Unwrap(root).None? || !Direct(Unwrap(root).value, true)
  }

  function CommitOf(revision: nat, planned: Planned): Commit {
    var changed := planned.ops != [];
    Commit(changed, revision, if changed then revision + 1 else revision, planned.ops)
  }

  /** Plan a transition against the current carrier, entirely detached. */
  function PrepareRecord(verdict: Verdict, s: State, ops: seq<WriteOp>): Result<TransitionRecord, Refusal> {
    var planned := Plan(s.value, ops);
    if planned.Failure? then Failure(PlanRefused(planned.error))
    else if !SchemaAccepts(verdict, s.schema, planned.value.value, ops) then Failure(SchemaRefused)
    else
      var commit := CommitOf(s.revision, planned.value);
      var whole := commit.changed && ReplacesRoot(ops);
      var rebuilt := if whole then Rebuild(s.root, planned.value.value, true) else None;
      if whole && rebuilt.None? then Failure(BuildRefused)
      else Success(TransitionRecord(Pending, s.revision, s.generation, commit, planned.value, rebuilt, s.value, ops))
  }

  function PrepareStep(verdict: Verdict, s: State, ops: seq<WriteOp>): Outcome {
    match PrepareRecord(verdict, s, ops)
    case Failure(refusal) => Outcome(s, Refused(refusal))
    case Success(record) => Outcome(s.(records := s.records + [record]), Token(|s.records|))
  }

  /** The graph a transition leaves: rebuilt as a whole, or edited branch by branch. */
  function InstallRecord(root: Node, rebuilt: Option<Node>, planned: Planned): Install.Outcome {
    if rebuilt.Some? then Installed(rebuilt.value) else InstallDelta(root, planned.ops)
  }

  predicate IsStale(s: State, record: TransitionRecord) {
    record.baseRevision != s.revision || record.generation != s.generation
  }

  function AcceptStep(s: State, token: nat): Outcome {
    if token >= |s.records| then Outcome(s, Refused(Foreign))
    else
      var record := s.records[token];
      if record.state == Accepted then Outcome(s, Refused(AlreadyAccepted))
      else if record.state == Discarded then Outcome(s, Refused(WasDiscarded))
      else if IsStale(s, record) then Outcome(s, Refused(Stale))
      else if !record.commit.changed then
        Outcome(s.(records := s.records[token := record.(state := Accepted)],
                   log := s.log + [Acceptance(token, record.generation, false)]),
                Committed(record.commit))
      else match InstallRecord(s.root, record.rebuilt, record.planned)
        case Interrupted(root) =>
          Outcome(s.(root := root, adrift := s.adrift || root != s.root, generation := s.generation + 1,
                     records := s.records[token := record.(state := Discarded)]),
                  Refused(InstallFailed))
        case Installed(root) =>
          Outcome(s.(root := root, value := record.planned.value, revision := record.commit.rev,
                     adrift := s.adrift && record.rebuilt.None?,
                     generation := s.generation + 1,
                     records := s.records[token := record.(state := Accepted)],
                     notices := s.notices + [CommitNotice(record.commit, Authoritative)],
                     log := s.log + [Acceptance(token, record.generation, true)]),
                  Committed(record.commit))
  }

  function DiscardStep(s: State, token: nat): Outcome {
    if token >= |s.records| then Outcome(s, Refused(Foreign))
    else if s.records[token].state == Accepted then Outcome(s, Refused(AlreadyAccepted))
    else Outcome(s.(records := s.records[token := s.records[token].(state := Discarded)]), Done)
  }

  function WriteStep(verdict: Verdict, s: State, ops: seq<WriteOp>): Outcome {
    if s.manager.Some? then Outcome(s, Refused(Managed))
    else
      var prepared := PrepareStep(verdict, s, ops);
      if prepared.reply.Refused? then prepared else AcceptStep(prepared.state, |s.records|)
  }

  /** The carrier the owned graph currently projects to. */
  function Projected(s: State): Option<Value> {
    ReadRoot(s.root)
  }

  /** Install replayed write intents: invalidated first, planned again, published whether or not it changed. */
  function ReplayStep(verdict: Verdict, s: State, writeOps: seq<WriteOp>): Outcome {
    var s1 := s.(generation := s.generation + 1);
    var planned := Plan(s.value, writeOps);
    if planned.Failure? then Outcome(s1, Refused(PlanRefused(planned.error)))
    else if !SchemaAccepts(verdict, s.schema, planned.value.value, writeOps) then Outcome(s1, Refused(SchemaRefused))
    else if planned.value.ops == [] then
      var commit := CommitOf(s.revision, planned.value);
      Outcome(s1.(notices := s1.notices + [CommitNotice(commit, Replayed)]), Committed(commit))
    else InstallReplayed(s1, planned.value, ReplacesRoot(writeOps))
  }

  function InstallReplayed(s: State, planned: Planned, whole: bool): Outcome {
    var commit := CommitOf(s.revision, planned);
    var rebuilt := if whole then Rebuild(s.root, planned.value, true) else None;
    if whole && rebuilt.None? then Outcome(s, Refused(BuildRefused))
    else match InstallRecord(s.root, rebuilt, planned)
      case Interrupted(root) => Outcome(s.(root := root, adrift := s.adrift || root != s.root), Refused(InstallFailed))
      case Installed(root) =>
        Outcome(s.(root := root, value := planned.value, revision := commit.rev, adrift := s.adrift && !whole,
                   notices := s.notices + [CommitNotice(commit, Replayed)]),
                Committed(commit))
  }

  /** Everything a replay checks before it changes anything. */
  function AdmitReplay(s: State, prevRev: int, ops: seq<TransportOp>): Result<seq<WriteOp>, Refusal> {
    if s.manager.Some? then Failure(Managed)
    else if prevRev != s.revision then Failure(RevisionMismatch)
    else if Projected(s).None? then Failure(Unprojectable)
    else match Planner.Replay(Projected(s).value, ops)
      case Failure(conflict) => Failure(ReplayRefused(conflict))
      case Success(writeOps) => Success(writeOps)
  }

  function CheckedReplayStep(verdict: Verdict, s: State, prevRev: int, ops: seq<TransportOp>): Outcome {
    match AdmitReplay(s, prevRev, ops)
    case Failure(refusal) => Outcome(s, Refused(refusal))
    case Success(writeOps) => ReplayStep(verdict, s, writeOps)
  }

  /** Everything a restore checks: its graph must read as its payload and be of the map's mode. */
  function AdmitRestore(verdict: Verdict, s: State, rev: int, v: Value, root: Node): Result<nat, Refusal> {
    if s.manager.Some? then Failure(Managed)
    else if rev < 0 then Failure(RevisionMismatch)
    else if Projected(s).None? then Failure(Unprojectable)
    else if !SchemaAccepts(verdict, s.schema, v, [ReplaceOp([], v)]) then Failure(SchemaRefused)
    else if ReadRoot(root) != Some(v) then Failure(CaptureDisagrees)
    else if ClassifyRoot(root) != Some(s.mode) then Failure(ModeMismatch)
    else Success(rev)
  }

  function InstallRestored(s: State, rev: nat, v: Value, root: Node): State {
    s.(root := root, value := v, revision := rev, generation := s.generation + 1,
       notices := s.notices + [SnapshotNotice(rev)], adrift := HoldsCarriers(root))
  }

  /** Restore a capture, possibly to an earlier revision. */
  function RestoreStep(verdict: Verdict, s: State, rev: int, v: Value, root: Node): Outcome {
    match AdmitRestore(verdict, s, rev, v, root)
    case Failure(refusal) => Outcome(s, Refused(refusal))
    case Success(revision) => Outcome(InstallRestored(s, revision, v, root), Done)
  }

  function AttachStep(verdict: Verdict, s: State, schema: nat): Outcome {
    if s.schema == Some(schema) then Outcome(s, Done)
    else if s.schema.Some? then Outcome(s, Refused(SchemaFixed))
    else if s.manager.Some? then Outcome(s, Refused(Managed))
    else if Projected(s).None? || !verdict(schema, Projected(s).value, []) then Outcome(s, Refused(SchemaRefused))
    else Outcome(s.(schema := Some(schema), generation := s.generation + 1), Done)
  }

  /** A claim is given back when the owned graph has left the mode the map was made with. */
  function ClaimStep(s: State, owner: nat): Outcome {
    if s.manager.Some? && s.manager.value != owner then Outcome(s, Refused(AlreadyManaged))
    else if ClassifyRoot(s.root) != Some(s.mode) then
      Outcome(s.(manager := None), Refused(ModeMismatch))
    else Outcome(s.(manager := Some(owner)), Done)
  }

  function ReleaseStep(s: State, owner: nat): Outcome {
    Outcome(if s.manager == Some(owner) then s.(manager := None) else s, Done)
  }

  function Apply(verdict: Verdict, s: State, e: Event): Outcome {
    match e
    case Write(ops) => WriteStep(verdict, s, ops)
    case Prepare(ops) => PrepareStep(verdict, s, ops)
    case Accept(token) => AcceptStep(s, token)
    case Discard(token) => DiscardStep(s, token)
    case Replay(prevRev, ops) => CheckedReplayStep(verdict, s, prevRev, ops)
    case Restore(rev, v, root) => RestoreStep(verdict, s, rev, v, root)
    case AttachSchema(schema) => AttachStep(verdict, s, schema)
    case Claim(owner) => ClaimStep(s, owner)
    case Release(owner) => ReleaseStep(s, owner)
  }

  function Run(verdict: Verdict, s: State, events: seq<Event>): State
    decreases |events|
  {
    if events == [] then s else Run(verdict, Apply(verdict, s, events[0]).state, events[1..])
  }

  /** A freshly made map over whatever data graph the grammar admits and a carrier can be read from. */
  function Fresh(root: Node, mode: Mode): State
    requires ClassifyRoot(root) == Some(mode) && ReadRoot(root).Some?
  {
    State(root, ReadRoot(root).value, 0, mode, None, 0, None, [], [], [], HoldsCarriers(root))
  }
}
