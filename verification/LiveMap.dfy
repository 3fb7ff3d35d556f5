/** The projected map as its object: closure state updated in place by each entry point. */
module LiveMap {
  import opened Prelude
  import opened OrderedValue
  import opened Planner
  import opened PlannerLaws
  import opened HsonGraph
  import opened Editor
  import opened Install
  import opened Invariants
  import opened Authority
  import opened AuthorityLaws

  method RunInstall(root: Node, rebuilt: Option<Node>, planned: Planned) returns (r: Install.Outcome)
    ensures r == InstallRecord(root, rebuilt, planned)
  {
    if rebuilt.Some? { return Installed(rebuilt.value); }
    r := ApplyTransportOps(root, planned.ops);
  }

  class ProjectedMap {
    const verdict: Verdict
    const mode: Mode
    var root: Node
    var value: Value
    var revision: nat
    var schema: Option<nat>
    var generation: nat
    var manager: Option<nat>
    var records: seq<TransitionRecord>
    var publications: seq<Notice>
    ghost var log: seq<Acceptance>
    ghost var adrift: bool

    ghost function View(): State
      reads this
    {
      State(root, value, revision, mode, schema, generation, manager, records, publications, log, adrift)
    }

    ghost predicate Valid()
      reads this
    {
      Inv(View())
    }

    /** A map over whatever data graph the checks pass and a carrier can be read from. */
    constructor (verdict: Verdict, initial: Node, mode: Mode)
      requires ClassifyRoot(initial) == Some(mode) && ReadRoot(initial).Some?
      ensures Valid() && View() == Fresh(initial, mode) && this.verdict == verdict
    {
      this.verdict, this.mode := verdict, mode;
      root, value, revision := initial, ReadRoot(initial).value, 0;
      schema, generation, manager := None, 0, None;
      records, publications := [], [];
      log, adrift := [], HoldsCarriers(initial);
      new;
      FreshInv(initial, mode);
    }

    /** Stage a transition against the current carrier; nothing else changes. */
    method PrepareTransition(ops: seq<WriteOp>) returns (r: Result<nat, Refusal>)
      requires Valid() && AdmittedOps(ops)
      modifies this`records
      ensures Valid() && View() == PrepareStep(verdict, old(View()), ops).state
      ensures PrepareStep(verdict, old(View()), ops).reply == if r.Success? then Token(r.value) else Refused(r.error)
    {
      PrepareKeeps(verdict, View(), ops);
      var planned := PlanWriteOps(value, ops);
      if planned.Failure? { return Failure(PlanRefused(planned.error)); }
      if !SchemaAccepts(verdict, schema, planned.value.value, ops) { return Failure(SchemaRefused); }
      var commit := CommitOf(revision, planned.value);
      var rebuilt: Option<Node> := None;
      if commit.changed && ReplacesRoot(ops) {
        rebuilt := Rebuild(root, planned.value.value, true);
        if rebuilt.None? { return Failure(BuildRefused); }
      }
      r := Success(|records|);
      records := records + [TransitionRecord(Pending, revision, generation, commit, planned.value, rebuilt, value, ops)];
    }

    /** Accept one staged transition: once, and only while current. */
    method AcceptTransition(token: nat) returns (r: Result<Commit, Refusal>)
      requires Valid()
      modifies this
      ensures Valid() && View() == AcceptStep(old(View()), token).state
      ensures AcceptStep(old(View()), token).reply == if r.Success? then Committed(r.value) else Refused(r.error)
    {
      AcceptKeeps(View(), token);
      if token >= |records| { return Failure(Foreign); }
      var record := records[token];
      if record.state == Accepted { return Failure(AlreadyAccepted); }
      if record.state == Discarded { return Failure(WasDiscarded); }
      if record.baseRevision != revision || record.generation != generation { return Failure(Stale); }
      r := Settle(token);
    }

    /** Install the accepted transition, mark its token, and only then hand the commit to publication. */
    method Settle(token: nat) returns (r: Result<Commit, Refusal>)
      requires token < |records| && records[token].state == Pending && !IsStale(View(), records[token])
      modifies this
      ensures View() == AcceptStep(old(View()), token).state
      ensures AcceptStep(old(View()), token).reply == if r.Success? then Committed(r.value) else Refused(r.error)
    {
      var record := records[token];
      if record.commit.changed {
        var outcome := RunInstall(root, record.rebuilt, record.planned);
        adrift := if outcome.Interrupted? then adrift || outcome.root != root else adrift && record.rebuilt.None?;
        root, generation := outcome.root, generation + 1;
        if outcome.Interrupted? {
          records := records[token := record.(state := Discarded)];
          return Failure(InstallFailed);
        }
        value, revision := record.planned.value, record.commit.rev;
      }
      records := records[token := record.(state := Accepted)];
      log := log + [Acceptance(token, record.generation, record.commit.changed)];
      if record.commit.changed { publications := publications + [CommitNotice(record.commit, Authoritative)]; }
      r := Success(record.commit);
    }

    method DiscardTransition(token: nat) returns (r: Result<(), Refusal>)
      requires Valid()
      modifies this`records
      ensures Valid() && View() == DiscardStep(old(View()), token).state
      ensures DiscardStep(old(View()), token).reply == if r.Success? then Done else Refused(r.error)
      ensures r.Success? ==> token < |records| && records[token].state == Discarded
    {
      DiscardKeeps(View(), token);
      if token >= |records| { return Failure(Foreign); }
      if records[token].state == Accepted { return Failure(AlreadyAccepted); }
      records := records[token := records[token].(state := Discarded)];
      r := Success(());
    }

    /** A public write: refused under management, otherwise prepared and accepted at once. */
    method CommitOps(ops: seq<WriteOp>) returns (r: Result<Commit, Refusal>)
      requires Valid() && AdmittedOps(ops)
      modifies this
      ensures Valid() && View() == WriteStep(verdict, old(View()), ops).state
      ensures WriteStep(verdict, old(View()), ops).reply == if r.Success? then Committed(r.value) else Refused(r.error)
    {
      if manager.Some? { return Failure(Managed); }
      var token := PrepareTransition(ops);
      if token.Failure? { return Failure(token.error); }
      r := AcceptTransition(token.value);
    }

    /** Replay published operations: every check comes before the first change. */
    method ReplayCommit(prevRev: int, ops: seq<TransportOp>) returns (r: Result<Commit, Refusal>)
      requires Valid() && AdmittedRecord(ops)
      modifies this
      ensures Valid() && View() == CheckedReplayStep(verdict, old(View()), prevRev, ops).state
      ensures CheckedReplayStep(verdict, old(View()), prevRev, ops).reply ==
              if r.Success? then Committed(r.value) else Refused(r.error)
    {
      CheckedReplayKeeps(verdict, View(), prevRev, ops);
      var admitted := CheckReplay(prevRev, ops);
      if admitted.Failure? { return Failure(admitted.error); }
      r := InstallReplay(admitted.value);
    }

    method CheckReplay(prevRev: int, ops: seq<TransportOp>) returns (r: Result<seq<WriteOp>, Refusal>)
      ensures r == AdmitReplay(View(), prevRev, ops)
    {
      if manager.Some? { return Failure(Managed); }
      if prevRev != revision { return Failure(RevisionMismatch); }
      var base := ProjectLive(root, []);
      if base.Failure? || base.value.None? { return Failure(Unprojectable); }
      var checked := ReplayWriteOps(base.value.value, ops);
      r := if checked.Failure? then Failure(ReplayRefused(checked.error)) else Success(checked.value);
    }

    method InstallReplay(writeOps: seq<WriteOp>) returns (r: Result<Commit, Refusal>)
      modifies this
      ensures View() == ReplayStep(verdict, old(View()), writeOps).state
      ensures ReplayStep(verdict, old(View()), writeOps).reply == if r.Success? then Committed(r.value) else Refused(r.error)
    {
      generation := generation + 1;
      var planned := PlanWriteOps(value, writeOps);
      if planned.Failure? { return Failure(PlanRefused(planned.error)); }
      if !SchemaAccepts(verdict, schema, planned.value.value, writeOps) { return Failure(SchemaRefused); }
      if planned.value.ops == [] {
        var commit := CommitOf(revision, planned.value);
        publications := publications + [CommitNotice(commit, Replayed)];
        return Success(commit);
      }
      r := SettleReplay(planned.value, ReplacesRoot(writeOps));
    }

    method SettleReplay(planned: Planned, whole: bool) returns (r: Result<Commit, Refusal>)
      modifies this
      ensures View() == InstallReplayed(old(View()), planned, whole).state
      ensures InstallReplayed(old(View()), planned, whole).reply == if r.Success? then Committed(r.value) else Refused(r.error)
    {
      var rebuilt := if whole then Rebuild(root, planned.value, true) else None;
      if whole && rebuilt.None? { return Failure(BuildRefused); }
      var outcome := RunInstall(root, rebuilt, planned);
      adrift := if outcome.Interrupted? then adrift || outcome.root != root else adrift && !whole;
      root := outcome.root;
      if outcome.Interrupted? { return Failure(InstallFailed); }
      var commit := CommitOf(revision, planned);
      value, revision := planned.value, commit.rev;
      publications := publications + [CommitNotice(commit, Replayed)];
      r := Success(commit);
    }

    /** The mode of a graph, read off its top-level tag once every check of the grammar has passed. */
    method Classify(candidate: Node) returns (r: Option<Mode>)
      ensures r == ClassifyRoot(candidate)
    {
      var issues := AssertInvariants(candidate, true);
      r := if issues == [] then ModeOfRoot(candidate) else None;
    }

    method CheckRestore(rev: int, v: Value, candidate: Node) returns (r: Result<nat, Refusal>)
      ensures r == AdmitRestore(verdict, View(), rev, v, candidate)
    {
      if manager.Some? { return Failure(Managed); }
      if rev < 0 { return Failure(RevisionMismatch); }
      var current := ProjectLive(root, []);
      if current.Failure? || current.value.None? { return Failure(Unprojectable); }
      if !SchemaAccepts(verdict, schema, v, [ReplaceOp([], v)]) { return Failure(SchemaRefused); }
      if ReadRoot(candidate) != Some(v) { return Failure(CaptureDisagrees); }
      var observed := Classify(candidate);
      if observed != Some(mode) { return Failure(ModeMismatch); }
      r := Success(rev);
    }

    method InstallCapture(rev: nat, v: Value, candidate: Node)
      modifies this
      ensures View() == InstallRestored(old(View()), rev, v, candidate)
    {
      root, value, revision, adrift := candidate, v, rev, HoldsCarriers(candidate);
      generation := generation + 1;
      publications := publications + [SnapshotNotice(rev)];
    }

    /** Restore a capture: no commit, and every staged transition goes stale. */
    method RestoreCapture(rev: int, v: Value, candidate: Node) returns (r: Result<(), Refusal>)
      requires Valid()
      modifies this
      ensures Valid() && View() == RestoreStep(verdict, old(View()), rev, v, candidate).state
      ensures RestoreStep(verdict, old(View()), rev, v, candidate).reply == if r.Success? then Done else Refused(r.error)
    {
      RestoreKeeps(verdict, View(), rev, v, candidate);
      var admitted := CheckRestore(rev, v, candidate);
      if admitted.Failure? { return Failure(admitted.error); }
      InstallCapture(admitted.value, v, candidate);
      r := Success(());
    }

    method UseSchema(id: nat) returns (r: Result<(), Refusal>)
      requires Valid()
      modifies this`schema, this`generation
      ensures Valid() && View() == AttachStep(verdict, old(View()), id).state
      ensures AttachStep(verdict, old(View()), id).reply == if r.Success? then Done else Refused(r.error)
    {
      ApplyKeeps(verdict, View(), AttachSchema(id));
      if schema == Some(id) { return Success(()); }
      if schema.Some? { return Failure(SchemaFixed); }
      if manager.Some? { return Failure(Managed); }
      var current := ProjectLive(root, []);
      if current.Failure? || current.value.None? || !verdict(id, current.value.value, []) { return Failure(SchemaRefused); }
      schema, generation := Some(id), generation + 1;
      r := Success(());
    }

    method ClaimManagement(owner: nat) returns (r: Result<(), Refusal>)
      requires Valid()
      modifies this`manager
      ensures Valid() && View() == ClaimStep(old(View()), owner).state
      ensures ClaimStep(old(View()), owner).reply == if r.Success? then Done else Refused(r.error)
    {
      ApplyKeeps(verdict, View(), Claim(owner));
      if manager.Some? && manager.value != owner { return Failure(AlreadyManaged); }
      manager := Some(owner);
      var observed := Classify(root);
      if observed != Some(mode) {
        manager := None;
        return Failure(ModeMismatch);
      }
      r := Success(());
    }

    method ReleaseManagement(owner: nat)
      requires Valid()
      modifies this`manager
      ensures Valid() && View() == ReleaseStep(old(View()), owner).state
    {
      ApplyKeeps(verdict, View(), Release(owner));
      if manager == Some(owner) { manager := None; }
    }
  }
}
