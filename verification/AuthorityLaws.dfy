/** Invariants and safety of the projected map over every run. */
module AuthorityLaws {
  import opened Prelude
  import opened OrderedValue
  import opened Planner
  import opened PlannerLaws
  import opened HsonGraph
  import opened Projection
  import opened HeldGraphs
  import opened Install
  import opened Invariants
  import opened AdmittedGraphs
  import opened Authority

  // ---------------------------------------------------------------- the invariant

  /** A record is what planning its write intents on its base gave; if it is still current, that base is the map. */
  predicate RecordOk(generation: nat, value: Value, revision: nat, r: TransitionRecord) {
    && WellFormed(r.base) && AdmittedOps(r.writeOps)
    && Plan(r.base, r.writeOps) == Success(r.planned)
    && r.commit == CommitOf(r.baseRevision, r.planned)
    && (r.rebuilt.Some? <==> r.commit.changed && ReplacesRoot(r.writeOps))
    && (r.rebuilt.Some? ==> r.rebuilt == ToRoot(r.planned.value))
    && r.generation <= generation
    && (r.state == Pending && r.generation == generation ==> r.base == value && r.baseRevision == revision)
  }

  predicate RecordsOk(s: State) {
    forall t | 0 <= t < |s.records| :: RecordOk(s.generation, s.value, s.revision, s.records[t])
  }

  predicate Logged(s: State, a: Acceptance) {
    && a.token < |s.records|
    && s.records[a.token].state == Accepted
    && s.records[a.token].generation == a.generation
    && s.records[a.token].commit.changed == a.changed
    && (a.changed ==> a.generation < s.generation)
  }

  /** Each token was accepted at most once, and each generation accepted at most one changed token. */
  predicate LogOk(s: State) {
    && (forall i | 0 <= i < |s.log| :: Logged(s, s.log[i]))
    && (forall i, j | 0 <= i < j < |s.log| :: s.log[i].token != s.log[j].token)
    && (forall i, j | 0 <= i < j < |s.log| :: s.log[i].changed && s.log[j].changed ==> s.log[i].generation != s.log[j].generation)
  }

  predicate Inv(s: State) {
    WellFormed(s.value) && Clean(s.value) && (!s.adrift ==> Owned(s.root, s.value)) && RecordsOk(s) && LogOk(s)
  }

  /** The carriers an event brings in are admitted carriers. */
  predicate EventAdmitted(e: Event) {
    match e
    case Write(ops) => AdmittedOps(ops)
    case Prepare(ops) => AdmittedOps(ops)
    case Replay(_, ops) => AdmittedRecord(ops)
    case _ => true
  }

  lemma OwnedProjects(s: State)
    requires Owned(s.root, s.value)
    ensures Projected(s) == Some(s.value)
  {
  }

  // ---------------------------------------------------------------- installs

  /** A delta that goes through, over whatever graph, wrote no reserved key. */
  lemma {:induction false} InstalledIsClean(root: Node, v: Value, ops: seq<TransportOp>, w: Value)
    requires WellFormed(v) && Clean(v) && ReplaysAll(v, ops, w) && AdmittedRecord(ops)
    requires InstallDelta(root, ops).Installed?
    ensures CleanPrefix(ops) == |ops| && Clean(w)
    decreases |ops|
  {
    if ops != [] {
      var m := ReplaysFirst(v, ops, w);
      assert AdmittedRecord([ops[0]]) && AdmittedRecord(ops[1..]);
      if !WritesClean(ops[0]) { UncleanIsRefused(root, v, ops[0], m); }
      CleanAfter(v, ops[0], m);
      InstalledIsClean(InstallOne(root, ops[0]).value, m, ops[1..], w);
    }
  }

  /** Whatever an accepted transition installs is the plan's value, clean; over an owned graph, or rebuilt, it is owned. */
  lemma InstallsPlan(root: Node, v: Value, ops: seq<WriteOp>, planned: Planned, rebuilt: Option<Node>)
    requires WellFormed(v) && Clean(v) && AdmittedOps(ops) && Plan(v, ops) == Success(planned)
    requires rebuilt.Some? ==> rebuilt == ToRoot(planned.value)
    requires InstallRecord(root, rebuilt, planned).Installed?
    ensures WellFormed(planned.value) && Clean(planned.value)
    ensures rebuilt.Some? || Owned(root, v) ==> Owned(InstallRecord(root, rebuilt, planned).root, planned.value)
    ensures rebuilt.None? ==> CleanPrefix(planned.ops) == |planned.ops|
  {
    PlanKeepsWellFormed(v, ops);
    PlanReplays(v, ops);
    PlanRecordsAdmitted(v, ops);
    if rebuilt.Some? {
      RebuiltIsHeld(root, planned.value, true);
      ProjectedIsCanonical(planned.value);
    } else {
      InstalledIsClean(root, v, planned.ops, planned.value);
      if Owned(root, v) {
        InstallDeltaOutcome(root, v, planned.ops, planned.value);
        InstallStaysOwned(root, v, planned.ops, planned.value);
      }
    }
  }

  /** Over an owned graph an install fails exactly when it edits branch by branch and meets a reserved key. */
  lemma InstallFailsIff(root: Node, v: Value, ops: seq<WriteOp>, planned: Planned, rebuilt: Option<Node>)
    requires Owned(root, v) && AdmittedOps(ops) && Plan(v, ops) == Success(planned)
    ensures InstallRecord(root, rebuilt, planned).Interrupted? <==> rebuilt.None? && CleanPrefix(planned.ops) < |planned.ops|
  {
    HeldIsClean(root, v);
    PlanReplays(v, ops);
    PlanRecordsAdmitted(v, ops);
    InstallDeltaOutcome(root, v, planned.ops, planned.value);
  }

  // ---------------------------------------------------------------- preservation, event by event

  /** Records only lose their claim to be current when the generation moves on. */
  lemma RecordsAge(s: State, generation: nat, value: Value, revision: nat)
    requires RecordsOk(s)
    requires generation > s.generation || (generation == s.generation && value == s.value && revision == s.revision)
    ensures forall t | 0 <= t < |s.records| :: RecordOk(generation, value, revision, s.records[t])
  {
  }

  lemma LogSurvives(s: State, s': State)
    requires LogOk(s) && s'.log == s.log && s'.generation >= s.generation && |s'.records| >= |s.records|
    requires forall t | 0 <= t < |s.records| :: s.records[t].state == Accepted ==> s'.records[t] == s.records[t]
    ensures LogOk(s')
  {
    forall i | 0 <= i < |s'.log| ensures Logged(s', s'.log[i]) {
      assert Logged(s, s.log[i]);
    }
  }

  lemma LogGrows(s: State, s': State, token: nat)
    requires LogOk(s) && token < |s.records| && s.records[token].state == Pending
    requires var r := s.records[token];
             && s'.records == s.records[token := r.(state := Accepted)]
             && s'.log == s.log + [Acceptance(token, r.generation, r.commit.changed)]
             && r.generation == s.generation
             && s'.generation == if r.commit.changed then s.generation + 1 else s.generation
    ensures LogOk(s')
  {
    forall i | 0 <= i < |s'.log| ensures Logged(s', s'.log[i]) && (i < |s.log| ==> s'.log[i].token != token) {
      if i < |s.log| { assert Logged(s, s.log[i]); }
    }
    forall i, j | 0 <= i < j < |s'.log| && s'.log[i].changed && s'.log[j].changed
      ensures s'.log[i].generation != s'.log[j].generation
    {
      assert Logged(s, s.log[i]);
    }
  }

  lemma PrepareKeeps(verdict: Verdict, s: State, ops: seq<WriteOp>)
    requires Inv(s) && AdmittedOps(ops)
    ensures var o := PrepareStep(verdict, s, ops);
            && Inv(o.state)
            && (o.reply.Refused? ==> o.state == s)
            && (!o.reply.Refused? ==>
                  && |o.state.records| == |s.records| + 1
                  && var r := o.state.records[|s.records|];
                     r.state == Pending && !IsStale(o.state, r) && r.base == s.value && r.writeOps == ops)
  {
    var o := PrepareStep(verdict, s, ops);
    if !o.reply.Refused? {
      LogSurvives(s, o.state);
      var r := o.state.records[|s.records|];
      assert RecordOk(s.generation, s.value, s.revision, r);
    }
  }

  lemma AcceptKeeps(s: State, token: nat)
    requires Inv(s)
    ensures Inv(AcceptStep(s, token).state)
  {
    var s' := AcceptStep(s, token).state;
    if s' != s {
      var r := s.records[token];
      RecordsAge(s, s'.generation, s'.value, s'.revision);
      if AcceptStep(s, token).reply.Committed? {
        LogGrows(s, s', token);
        if r.commit.changed { InstallsPlan(s.root, s.value, r.writeOps, r.planned, r.rebuilt); }
      } else {
        LogSurvives(s, s');
      }
    }
  }

  lemma DiscardKeeps(s: State, token: nat)
    requires Inv(s)
    ensures Inv(DiscardStep(s, token).state)
  {
    LogSurvives(s, DiscardStep(s, token).state);
  }

  lemma {:induction false} FromTransportsAdmitted(ops: seq<TransportOp>)
    requires AdmittedRecord(ops)
    ensures AdmittedOps(FromTransports(ops))
    decreases |ops|
  {
    if ops != [] { FromTransportsAdmitted(ops[1..]); }
  }

  lemma ReplayKeeps(verdict: Verdict, s: State, ops: seq<WriteOp>)
    requires Inv(s) && AdmittedOps(ops)
    ensures Inv(ReplayStep(verdict, s, ops).state)
  {
    var s' := ReplayStep(verdict, s, ops).state;
    RecordsAge(s, s'.generation, s'.value, s'.revision);
    LogSurvives(s, s');
    var planned := Plan(s.value, ops);
    if planned.Success? && planned.value.ops != [] {
      var rebuilt := if ReplacesRoot(ops) then Rebuild(s.root, planned.value.value, true) else None;
      if (ReplacesRoot(ops) ==> rebuilt.Some?) && InstallRecord(s.root, rebuilt, planned.value).Installed? {
        InstallsPlan(s.root, s.value, ops, planned.value, rebuilt);
      }
    }
  }

  lemma CheckedReplayKeeps(verdict: Verdict, s: State, prevRev: int, ops: seq<TransportOp>)
    requires Inv(s) && AdmittedRecord(ops)
    ensures Inv(CheckedReplayStep(verdict, s, prevRev, ops).state)
  {
    if s.manager.None? && prevRev == s.revision && Projected(s).Some? {
      var checked := Planner.Replay(Projected(s).value, ops);
      if checked.Success? {
        ReplayCompiles(Projected(s).value, ops);
        FromTransportsAdmitted(ops);
        ReplayKeeps(verdict, s, checked.value);
      }
    }
  }

  lemma {:induction false} ReplayCompiles(v: Value, ops: seq<TransportOp>)
    requires Planner.Replay(v, ops).Success?
    ensures Planner.Replay(v, ops).value == FromTransports(ops)
    decreases |ops|
  {
    if ops != [] { ReplayCompiles(Plan(v, [FromTransport(ops[0])]).value.value, ops[1..]); }
  }

  lemma RestoreKeeps(verdict: Verdict, s: State, rev: int, v: Value, root: Node)
    requires Inv(s)
    ensures Inv(RestoreStep(verdict, s, rev, v, root).state)
  {
    var s' := RestoreStep(verdict, s, rev, v, root).state;
    if s' != s {
      HeldIsClean(root, v);
      RecordsAge(s, s'.generation, s'.value, s'.revision);
      LogSurvives(s, s');
    }
  }

  /** Every event, accepted or refused, keeps the invariant. */
  lemma ApplyKeeps(verdict: Verdict, s: State, e: Event)
    requires Inv(s) && EventAdmitted(e)
    ensures Inv(Apply(verdict, s, e).state)
  {
    var s' := Apply(verdict, s, e).state;
    match e
    case Write(ops) =>
      PrepareKeeps(verdict, s, ops);
      var prepared := PrepareStep(verdict, s, ops);
      if !prepared.reply.Refused? { AcceptKeeps(prepared.state, |s.records|); }
    case Prepare(ops) => PrepareKeeps(verdict, s, ops);
    case Accept(token) => AcceptKeeps(s, token);
    case Discard(token) => DiscardKeeps(s, token);
    case Replay(prevRev, ops) => CheckedReplayKeeps(verdict, s, prevRev, ops);
    case Restore(rev, v, root) => RestoreKeeps(verdict, s, rev, v, root);
    case AttachSchema(schema) => ControlKeeps(s, s');
    case Claim(owner) => ControlKeeps(s, s');
    case Release(owner) => ControlKeeps(s, s');
  }

  /** Schema and management changes leave the map, its transitions and its publications alone. */
  lemma ControlKeeps(s: State, s': State)
    requires Inv(s) && s'.generation >= s.generation
    requires s' == s.(schema := s'.schema, generation := s'.generation, manager := s'.manager)
    ensures Inv(s')
  {
    RecordsAge(s, s'.generation, s'.value, s'.revision);
    LogSurvives(s, s');
  }

  /** The write intents behind what one event publishes, if it publishes a commit. */
  function Published(s: State, e: Event): seq<WriteOp> {
    match e
    case Write(ops) => ops
    case Accept(token) => if token < |s.records| then s.records[token].writeOps else []
    case Replay(_, ops) => FromTransports(ops)
    case _ => []
  }

  predicate Admitted(events: seq<Event>) {
    forall i | 0 <= i < |events| :: EventAdmitted(events[i])
  }

  lemma {:induction false} RunKeeps(verdict: Verdict, s: State, events: seq<Event>)
    requires Inv(s) && Admitted(events)
    ensures Inv(Run(verdict, s, events))
    decreases |events|
  {
    if events != [] {
      ApplyKeeps(verdict, s, events[0]);
      RunKeeps(verdict, Apply(verdict, s, events[0]).state, events[1..]);
    }
  }

  /** A map may start from any admitted data graph a carrier can be read from. */
  lemma FreshInv(root: Node, mode: Mode)
    requires ClassifyRoot(root) == Some(mode) && ReadRoot(root).Some?
    ensures Inv(Fresh(root, mode))
    ensures Fresh(root, mode).adrift <==> !Held(root, ReadRoot(root).value)
  {
    HeldIsClean(root, ReadRoot(root).value);
  }

  // ---------------------------------------------------------------- staged authority safety

  /**
   * Over every run: a pending token whose generation is still current was planned on exactly the
   * current carrier and revision, whatever commits, replays and restores came in between.
   */
  lemma CurrentTokenIsOfThisState(verdict: Verdict, root: Node, mode: Mode, events: seq<Event>, token: nat)
    requires ClassifyRoot(root) == Some(mode) && ReadRoot(root).Some? && Admitted(events)
    ensures var s := Run(verdict, Fresh(root, mode), events);
            token < |s.records| && s.records[token].state == Pending && s.records[token].generation == s.generation ==>
              && s.records[token].baseRevision == s.revision
              && Plan(s.value, s.records[token].writeOps) == Success(s.records[token].planned)
  {
    FreshInv(root, mode);
    RunKeeps(verdict, Fresh(root, mode), events);
  }

  /** So an accepted changed transition is applied to the very state it was planned on, and advances it by one revision. */
  lemma AcceptAppliesToItsBase(s: State, token: nat)
    requires Inv(s) && AcceptStep(s, token).reply.Committed?
    ensures var o := AcceptStep(s, token);
            var r := s.records[token];
            && Plan(s.value, r.writeOps) == Success(r.planned)
            && o.state.value == r.planned.value
            && o.reply.commit == CommitOf(s.revision, r.planned)
            && o.state.revision == o.reply.commit.rev
            && (!s.adrift ==> Owned(o.state.root, o.state.value))
  {
    AcceptKeeps(s, token);
    if !s.records[token].commit.changed { PlanUnchanged(s.value, s.records[token].writeOps); }
  }

  /** A plan that recorded nothing left the carrier as it was. */
  lemma PlanUnchanged(v: Value, ops: seq<WriteOp>)
    requires WellFormed(v) && AdmittedOps(ops) && Plan(v, ops).Success? && Plan(v, ops).value.ops == []
    ensures Plan(v, ops).value.value == v
  {
    PlanReplays(v, ops);
  }

  /** Over every run each token is accepted at most once, and each generation accepts at most one changed token. */
  lemma AcceptedAtMostOnce(verdict: Verdict, root: Node, mode: Mode, events: seq<Event>, i: nat, j: nat)
    requires ClassifyRoot(root) == Some(mode) && ReadRoot(root).Some? && Admitted(events)
    ensures var s := Run(verdict, Fresh(root, mode), events);
            i < j < |s.log| ==>
              && s.log[i].token != s.log[j].token
              && (s.log[i].changed && s.log[j].changed ==> s.log[i].generation != s.log[j].generation)
  {
    FreshInv(root, mode);
    RunKeeps(verdict, Fresh(root, mode), events);
  }

  // ---------------------------------------------------------------- stale for ever

  /** The history of one token: records stay, settled states stay, and the generation never goes back. */
  predicate Later(s: State, s': State) {
    && s.generation <= s'.generation
    && |s.records| <= |s'.records|
    && forall t | 0 <= t < |s.records| ::
         && s'.records[t] == s.records[t].(state := s'.records[t].state)
         && (s.records[t].state != Pending ==> s'.records[t].state == s.records[t].state)
  }

  lemma PrepareIsLater(verdict: Verdict, s: State, ops: seq<WriteOp>)
    ensures Later(s, PrepareStep(verdict, s, ops).state)
  {
  }

  lemma AcceptIsLater(s: State, token: nat)
    ensures Later(s, AcceptStep(s, token).state)
  {
  }

  lemma ReplayIsLater(verdict: Verdict, s: State, ops: seq<WriteOp>)
    ensures Later(s, ReplayStep(verdict, s, ops).state)
  {
  }

  lemma ApplyIsLater(verdict: Verdict, s: State, e: Event)
    ensures Later(s, Apply(verdict, s, e).state)
  {
    match e
    case Write(ops) =>
      PrepareIsLater(verdict, s, ops);
      AcceptIsLater(PrepareStep(verdict, s, ops).state, |s.records|);
    case Prepare(ops) => PrepareIsLater(verdict, s, ops);
    case Accept(token) => AcceptIsLater(s, token);
    case Replay(prevRev, ops) =>
      var admitted := AdmitReplay(s, prevRev, ops);
      if admitted.Success? { ReplayIsLater(verdict, s, admitted.value); }
    case _ =>
  }

  lemma {:induction false} RunIsLater(verdict: Verdict, s: State, events: seq<Event>)
    ensures Later(s, Run(verdict, s, events))
    decreases |events|
  {
    if events != [] {
      ApplyIsLater(verdict, s, events[0]);
      RunIsLater(verdict, Apply(verdict, s, events[0]).state, events[1..]);
    }
  }

  /**
   * The generation defends against revision ABA: after a restore, to any revision, no token
   * prepared before it is ever accepted again, however the run goes on.
   */
  lemma NeverAcceptedAfterRestore(verdict: Verdict, s: State, rev: int, v: Value, root: Node, events: seq<Event>, token: nat)
    requires Inv(s) && token < |s.records|
    requires Apply(verdict, s, Restore(rev, v, root)).reply == Done
    ensures var s' := Run(verdict, Apply(verdict, s, Restore(rev, v, root)).state, events);
            AcceptStep(s', token).reply.Refused? && AcceptStep(s', token).state == s'
  {
    var restored := Apply(verdict, s, Restore(rev, v, root)).state;
    assert RecordOk(s.generation, s.value, s.revision, s.records[token]);
    RunIsLater(verdict, restored, events);
  }

  /**
   * A replay refused for its management, its revision, an unreadable graph or its evidence leaves the
   * whole state alone; unless the map is adrift, that evidence is checked against its own carrier.
   */
  lemma RefusedReplayChangesNothing(verdict: Verdict, s: State, prevRev: int, ops: seq<TransportOp>)
    requires Inv(s)
    ensures s.manager.Some? || prevRev != s.revision || Projected(s).None? || Planner.Replay(Projected(s).value, ops).Failure? ==>
              var o := Apply(verdict, s, Replay(prevRev, ops)); o.reply.Refused? && o.state == s
    ensures !s.adrift ==> Projected(s) == Some(s.value)
  {
    if !s.adrift { OwnedProjects(s); }
  }
}
