/** Who may change the map and when: settled tokens, staleness, schemas and exclusive management over every run. */
module ControlLaws {
  import opened Prelude
  import opened OrderedValue
  import opened Planner
  import opened PlannerLaws
  import opened HsonGraph
  import opened Projection
  import opened Install
  import opened Authority
  import opened AuthorityLaws

  // ---------------------------------------------------------------- settled tokens

  /** A discarded token is refused as discarded ever after, and discarding it touched nothing else. */
  lemma DiscardedForGood(verdict: Verdict, s: State, token: nat, events: seq<Event>)
    requires DiscardStep(s, token).reply == Done
    ensures var s' := Run(verdict, DiscardStep(s, token).state, events);
            AcceptStep(s', token) == Outcome(s', Refused(WasDiscarded))
    ensures var d := DiscardStep(s, token).state;
            && token < |s.records| && d == s.(records := d.records) && |d.records| == |s.records|
            && forall t | 0 <= t < |s.records| && t != token :: d.records[t] == s.records[t]
  {
    RunIsLater(verdict, DiscardStep(s, token).state, events);
  }

  /** Whatever is not accepted yet can be discarded. */
  lemma DiscardableIff(s: State, token: nat)
    ensures DiscardStep(s, token).reply == Done <==> token < |s.records| && s.records[token].state != Accepted
    ensures DiscardStep(s, token).reply != Done ==> DiscardStep(s, token).reply.Refused? && DiscardStep(s, token).state == s
  {
  }

  /** An accepted token is neither accepted again nor discarded, ever after. */
  lemma AcceptedForGood(verdict: Verdict, s: State, token: nat, events: seq<Event>)
    requires AcceptStep(s, token).reply.Committed?
    ensures var s' := Run(verdict, AcceptStep(s, token).state, events);
            && AcceptStep(s', token) == Outcome(s', Refused(AlreadyAccepted))
            && DiscardStep(s', token) == Outcome(s', Refused(AlreadyAccepted))
  {
    RunIsLater(verdict, AcceptStep(s, token).state, events);
  }

  /** A token whose install threw counts as discarded. */
  lemma FailedIsDiscarded(verdict: Verdict, s: State, token: nat, events: seq<Event>)
    requires AcceptStep(s, token).reply == Refused(InstallFailed)
    ensures var s' := Run(verdict, AcceptStep(s, token).state, events);
            AcceptStep(s', token) == Outcome(s', Refused(WasDiscarded))
  {
    RunIsLater(verdict, AcceptStep(s, token).state, events);
  }

  // ---------------------------------------------------------------- when a transition goes through

  /** The graph can take this plan: nothing to install, a buildable whole, or edits without reserved keys. */
  predicate Installable(planned: Planned, writeOps: seq<WriteOp>) {
    planned.ops == [] || (if ReplacesRoot(writeOps) then Clean(planned.value) else CleanPrefix(planned.ops) == |planned.ops|)
  }

  lemma InstallableIff(s: State, ops: seq<WriteOp>, rebuilt: Option<Node>)
    requires Inv(s) && !s.adrift && AdmittedOps(ops) && Plan(s.value, ops).Success?
    requires var planned := Plan(s.value, ops).value;
             && planned.ops != []
             && (rebuilt.Some? <==> ReplacesRoot(ops))
    ensures var planned := Plan(s.value, ops).value;
            InstallRecord(s.root, rebuilt, planned).Installed? <==>
              ReplacesRoot(ops) || CleanPrefix(planned.ops) == |planned.ops|
  {
    InstallFailsIff(s.root, s.value, ops, Plan(s.value, ops).value, rebuilt);
  }

  /** An unmanaged map commits a write exactly when it plans, the schema takes it and the graph can. */
  lemma WriteCommitsIff(verdict: Verdict, s: State, ops: seq<WriteOp>)
    requires Inv(s) && !s.adrift && AdmittedOps(ops)
    ensures var o, plan := WriteStep(verdict, s, ops), Plan(s.value, ops);
            && (o.reply.Committed? <==>
                  && s.manager.None? && plan.Success?
                  && SchemaAccepts(verdict, s.schema, plan.value.value, ops) && Installable(plan.value, ops))
            && (o.reply.Committed? ==>
                  && o.state.value == plan.value.value
                  && o.reply.commit == CommitOf(s.revision, plan.value) && o.state.revision == o.reply.commit.rev)
            && (!o.reply.Committed? ==> o.reply.Refused? && o.state.value == s.value && o.state.revision == s.revision)
  {
    var prepared := PrepareStep(verdict, s, ops);
    PrepareKeeps(verdict, s, ops);
    if !prepared.reply.Refused? {
      var record := prepared.state.records[|s.records|];
      if record.commit.changed { InstallableIff(prepared.state, ops, record.rebuilt); }
      if AcceptStep(prepared.state, |s.records|).reply.Committed? {
        AcceptAppliesToItsBase(prepared.state, |s.records|);
      }
    }
  }

  /** A token goes through exactly while it is pending and nothing was invalidated since, if the graph can take it. */
  lemma AcceptCommitsIff(s: State, token: nat)
    requires Inv(s) && !s.adrift && token < |s.records|
    ensures var r := s.records[token];
            AcceptStep(s, token).reply.Committed? <==>
              r.state == Pending && r.generation == s.generation
              && (r.planned.ops == [] || r.rebuilt.Some? || CleanPrefix(r.planned.ops) == |r.planned.ops|)
  {
    var r := s.records[token];
    assert RecordOk(s.generation, s.value, s.revision, r);
    if r.state == Pending && r.generation == s.generation && r.planned.ops != [] {
      InstallableIff(s, r.writeOps, r.rebuilt);
    }
  }

  /** Preparing needs a plan, the schema's word, and a buildable carrier where the whole root is replaced; it only stages. */
  lemma PrepareTakesIff(verdict: Verdict, s: State, ops: seq<WriteOp>)
    requires Inv(s) && AdmittedOps(ops)
    ensures var o, plan := PrepareStep(verdict, s, ops), Plan(s.value, ops);
            && (o.reply == Token(|s.records|) <==>
                  && plan.Success? && SchemaAccepts(verdict, s.schema, plan.value.value, ops)
                  && (plan.value.ops != [] && ReplacesRoot(ops) ==> Clean(plan.value.value)))
            && (o.reply != Token(|s.records|) ==> o.reply.Refused? && o.state == s)
            && o.state == s.(records := o.state.records) && s.records <= o.state.records
  {
    if Plan(s.value, ops).Success? { PlanKeepsWellFormed(s.value, ops); }
  }

  /** A replay commits exactly on an unmanaged map at its revision, with evidence that holds, under the schema, if the graph can. */
  lemma ReplayCommitsIff(verdict: Verdict, s: State, prevRev: int, ops: seq<TransportOp>)
    requires Inv(s) && !s.adrift && AdmittedRecord(ops)
    ensures var o := Apply(verdict, s, Replay(prevRev, ops));
            var writeOps := FromTransports(ops);
            var plan := Plan(s.value, writeOps);
            && (o.reply.Committed? <==>
                  && s.manager.None? && prevRev == s.revision
                  && Planner.Replay(s.value, ops).Success?
                  && plan.Success? && SchemaAccepts(verdict, s.schema, plan.value.value, writeOps)
                  && Installable(plan.value, writeOps))
            && (o.reply.Committed? ==>
                  && o.reply.commit == CommitOf(s.revision, plan.value)
                  && o.state.value == plan.value.value && o.state.revision == o.reply.commit.rev)
  {
    OwnedProjects(s);
    FromTransportsAdmitted(ops);
    if Planner.Replay(s.value, ops).Success? { ReplayCompiles(s.value, ops); }
    ReplayStepIff(verdict, s, FromTransports(ops));
  }

  lemma ReplayStepIff(verdict: Verdict, s: State, ops: seq<WriteOp>)
    requires Inv(s) && !s.adrift && AdmittedOps(ops)
    ensures var o, plan := ReplayStep(verdict, s, ops), Plan(s.value, ops);
            && (o.reply.Committed? <==>
                  && plan.Success? && SchemaAccepts(verdict, s.schema, plan.value.value, ops) && Installable(plan.value, ops))
            && (o.reply.Committed? ==>
                  && o.reply.commit == CommitOf(s.revision, plan.value)
                  && o.state.value == plan.value.value && o.state.revision == o.reply.commit.rev)
  {
    var plan := Plan(s.value, ops);
    if plan.Success? {
      if plan.value.ops == [] {
        PlanUnchanged(s.value, ops);
      } else {
        var rebuilt := if ReplacesRoot(ops) then Rebuild(s.root, plan.value.value, true) else None;
        if rebuilt.Some? || !ReplacesRoot(ops) { InstallableIff(s, ops, rebuilt); }
      }
    }
  }

  /** A restore takes any admitted graph of the map's mode that reads as its payload, to whatever revision. */
  lemma RestoreTakesIff(verdict: Verdict, s: State, rev: int, v: Value, root: Node)
    requires Inv(s) && !s.adrift
    ensures var o := RestoreStep(verdict, s, rev, v, root);
            && (o.reply == Done <==>
                  && s.manager.None? && 0 <= rev && SchemaAccepts(verdict, s.schema, v, [ReplaceOp([], v)])
                  && ReadRoot(root) == Some(v) && ClassifyRoot(root) == Some(s.mode))
            && (o.reply == Done ==> o.state.root == root && o.state.value == v && o.state.revision == rev)
            && (o.reply != Done ==> o.reply.Refused? && o.state == s)
  {
    OwnedProjects(s);
  }

  /** The mode of a built root is the kind of its value; scalars have none. */
  lemma BuiltMode(v: Value)
    requires Clean(v)
    ensures ModeOfRoot(ToRoot(v).value) == ModeOfRoot(Build(v))
    ensures ModeOfRoot(ToRoot(v).value) == Some(DataObject) <==> v.Obj?
    ensures ModeOfRoot(ToRoot(v).value) == Some(DataArray) <==> v.Arr?
  {
  }

  /** What reaches publication: changed commits, replays even without a change, and restores, each once and under its origin. */
  lemma NoticesAre(verdict: Verdict, s: State, e: Event)
    ensures var o := Apply(verdict, s, e);
            o.state.notices == s.notices +
              (if o.reply.Committed? && (o.reply.commit.changed || e.Replay?)
               then [CommitNotice(o.reply.commit, if e.Replay? then Replayed else Authoritative)]
               else if e.Restore? && o.reply == Done then [SnapshotNotice(o.state.revision)]
               else [])
  {
    match e
    case Write(ops) => if s.manager.None? { AcceptNotices(PrepareStep(verdict, s, ops).state, |s.records|); }
    case Accept(token) => AcceptNotices(s, token);
    case Replay(_, _) => ReplayNotices(verdict, s, e);
    case _ =>
  }

  lemma AcceptNotices(s: State, token: nat)
    ensures var o := AcceptStep(s, token);
            o.state.notices == s.notices +
              if o.reply.Committed? && o.reply.commit.changed then [CommitNotice(o.reply.commit, Authoritative)] else []
  {
  }

  lemma ReplayNotices(verdict: Verdict, s: State, e: Event)
    requires e.Replay?
    ensures var o := Apply(verdict, s, e);
            o.state.notices == s.notices + if o.reply.Committed? then [CommitNotice(o.reply.commit, Replayed)] else []
  {
  }

  // ---------------------------------------------------------------- staleness

  /** Whatever changes the carrier, the revision, the graph or the schema invalidates what was staged before. */
  lemma ChangesInvalidate(verdict: Verdict, s: State, e: Event)
    requires Inv(s) && EventAdmitted(e)
    ensures var s' := Apply(verdict, s, e).state;
            s'.value != s.value || s'.revision != s.revision || s'.root != s.root || s'.schema != s.schema ==>
              s'.generation == s.generation + 1
  {
    match e
    case Write(ops) =>
      PrepareKeeps(verdict, s, ops);
      AcceptInvalidates(PrepareStep(verdict, s, ops).state, |s.records|);
    case Accept(token) => AcceptInvalidates(s, token);
    case Replay(_, _) => ReplayInvalidates(verdict, s, e);
    case _ =>
  }

  lemma ReplayInvalidates(verdict: Verdict, s: State, e: Event)
    requires e.Replay?
    ensures var s' := Apply(verdict, s, e).state;
            (s' == s || s'.generation == s.generation + 1) && s'.schema == s.schema
  {
  }

  lemma AcceptInvalidates(s: State, token: nat)
    ensures var s' := AcceptStep(s, token).state;
            s'.value != s.value || s'.revision != s.revision || s'.root != s.root || s'.schema != s.schema ==>
              s'.generation == s.generation + 1
  {
  }

  /** Once the generation has moved on, no token staged before is ever accepted again. */
  lemma StaleForGood(verdict: Verdict, s: State, events: seq<Event>, later: seq<Event>, token: nat)
    requires Inv(s) && token < |s.records|
    requires Run(verdict, s, events).generation > s.generation
    ensures var s' := Run(verdict, Run(verdict, s, events), later);
            AcceptStep(s', token).reply.Refused? && AcceptStep(s', token).state == s'
  {
    assert RecordOk(s.generation, s.value, s.revision, s.records[token]);
    RunIsLater(verdict, s, events);
    RunIsLater(verdict, Run(verdict, s, events), later);
  }

  // ---------------------------------------------------------------- schemas

  /** What is staged and current was accepted by the schema that is attached. */
  predicate SchemaOk(verdict: Verdict, s: State) {
    forall t | 0 <= t < |s.records| ::
      s.records[t].generation <= s.generation
      && (s.records[t].state == Pending && s.records[t].generation == s.generation ==>
            SchemaAccepts(verdict, s.schema, s.records[t].planned.value, s.records[t].writeOps))
  }

  lemma AcceptKeepsSchema(verdict: Verdict, s: State, token: nat)
    requires SchemaOk(verdict, s)
    ensures SchemaOk(verdict, AcceptStep(s, token).state)
  {
  }

  lemma PrepareKeepsSchema(verdict: Verdict, s: State, ops: seq<WriteOp>)
    requires SchemaOk(verdict, s)
    ensures SchemaOk(verdict, PrepareStep(verdict, s, ops).state)
  {
  }

  lemma ReplayKeepsSchema(verdict: Verdict, s: State, e: Event)
    requires SchemaOk(verdict, s) && e.Replay?
    ensures SchemaOk(verdict, Apply(verdict, s, e).state)
  {
  }

  lemma ApplyKeepsSchema(verdict: Verdict, s: State, e: Event)
    requires SchemaOk(verdict, s)
    ensures SchemaOk(verdict, Apply(verdict, s, e).state)
  {
    match e
    case Write(ops) =>
      PrepareKeepsSchema(verdict, s, ops);
      AcceptKeepsSchema(verdict, PrepareStep(verdict, s, ops).state, |s.records|);
    case Prepare(ops) => PrepareKeepsSchema(verdict, s, ops);
    case Accept(token) => AcceptKeepsSchema(verdict, s, token);
    case Replay(_, _) => ReplayKeepsSchema(verdict, s, e);
    case _ =>
  }

  lemma {:induction false} RunKeepsSchema(verdict: Verdict, s: State, events: seq<Event>)
    requires SchemaOk(verdict, s)
    ensures SchemaOk(verdict, Run(verdict, s, events))
    decreases |events|
  {
    if events != [] {
      ApplyKeepsSchema(verdict, s, events[0]);
      RunKeepsSchema(verdict, Apply(verdict, s, events[0]).state, events[1..]);
    }
  }

  /** The write intents a schema is shown for one event. */
  function Intents(s: State, e: Event): seq<WriteOp> {
    match e
    case Restore(_, v, _) => [ReplaceOp([], v)]
    case _ => Published(s, e)
  }

  /** One event's commit or restore leaves a value its schema accepted for the intents behind it. */
  predicate Guarded(verdict: Verdict, s: State, e: Event) {
    var o := Apply(verdict, s, e);
    o.reply.Committed? || (e.Restore? && o.reply == Done) ==>
      SchemaAccepts(verdict, s.schema, o.state.value, Intents(s, e))
  }

  /** No event of any run gets past an attached schema, and a schema stays once it is attached. */
  lemma SchemaGuards(verdict: Verdict, root: Node, mode: Mode, events: seq<Event>, e: Event)
    requires ClassifyRoot(root) == Some(mode) && ReadRoot(root).Some? && Admitted(events) && EventAdmitted(e)
    ensures var s := Run(verdict, Fresh(root, mode), events);
            Guarded(verdict, s, e) && (s.schema.Some? ==> Apply(verdict, s, e).state.schema == s.schema)
  {
    var start := Fresh(root, mode);
    var s := Run(verdict, start, events);
    FreshInv(root, mode);
    RunKeeps(verdict, start, events);
    RunKeepsSchema(verdict, start, events);
    SchemaStays(verdict, s, e);
    if Apply(verdict, s, e).reply.Committed? { CommitIsAccepted(verdict, s, e); } else { RestoreIsAccepted(verdict, s, e); }
  }

  lemma SchemaStays(verdict: Verdict, s: State, e: Event)
    ensures s.schema.Some? ==> Apply(verdict, s, e).state.schema == s.schema
  {
  }

  /** Over a whole run too. */
  lemma {:induction false} SchemaIsForGood(verdict: Verdict, s: State, events: seq<Event>)
    requires s.schema.Some?
    ensures Run(verdict, s, events).schema == s.schema
    decreases |events|
  {
    if events != [] {
      SchemaStays(verdict, s, events[0]);
      SchemaIsForGood(verdict, Apply(verdict, s, events[0]).state, events[1..]);
    }
  }

  lemma RestoreIsAccepted(verdict: Verdict, s: State, e: Event)
    requires !Apply(verdict, s, e).reply.Committed?
    ensures Guarded(verdict, s, e)
  {
  }

  /** A schema is attached once, over no other, to a carrier it accepts. */
  lemma AttachedIff(verdict: Verdict, s: State, schema: nat)
    requires Inv(s) && !s.adrift && s.schema != Some(schema)
    ensures var o := AttachStep(verdict, s, schema);
            && (o.reply == Done <==> s.schema.None? && s.manager.None? && verdict(schema, s.value, []))
            && (o.reply == Done ==> o.state == s.(schema := Some(schema), generation := s.generation + 1))
            && (o.reply != Done ==> o.reply.Refused? && o.state == s)
  {
    OwnedProjects(s);
  }

  lemma CommitIsAccepted(verdict: Verdict, s: State, e: Event)
    requires Inv(s) && SchemaOk(verdict, s) && EventAdmitted(e) && Apply(verdict, s, e).reply.Committed?
    ensures SchemaAccepts(verdict, s.schema, Apply(verdict, s, e).state.value, Intents(s, e))
  {
    match e
    case Write(ops) =>
      PrepareKeeps(verdict, s, ops);
      PrepareKeepsSchema(verdict, s, ops);
      AcceptIsAccepted(verdict, PrepareStep(verdict, s, ops).state, |s.records|);
    case Accept(token) => AcceptIsAccepted(verdict, s, token);
    case Replay(prevRev, ops) =>
      ReplayCompiles(Projected(s).value, ops);
      FromTransportsAdmitted(ops);
      ReplayIsAccepted(verdict, s, FromTransports(ops));
  }

  lemma AcceptIsAccepted(verdict: Verdict, s: State, token: nat)
    requires Inv(s) && SchemaOk(verdict, s) && AcceptStep(s, token).reply.Committed?
    ensures token < |s.records|
    ensures SchemaAccepts(verdict, s.schema, AcceptStep(s, token).state.value, s.records[token].writeOps)
  {
    AcceptAppliesToItsBase(s, token);
  }

  lemma ReplayIsAccepted(verdict: Verdict, s: State, ops: seq<WriteOp>)
    requires Inv(s) && AdmittedOps(ops) && ReplayStep(verdict, s, ops).reply.Committed?
    ensures SchemaAccepts(verdict, s.schema, ReplayStep(verdict, s, ops).state.value, ops)
  {
    if Plan(s.value, ops).value.ops == [] { PlanUnchanged(s.value, ops); }
  }

  // ---------------------------------------------------------------- management

  /** Events other than the manager's own claim and release. */
  predicate Foreign(events: seq<Event>, owner: nat) {
    forall i | 0 <= i < |events| :: events[i] != Claim(owner) && events[i] != Release(owner)
  }

  /** Writes, replays, restores and schema changes are refused under management, as is any other claim. */
  lemma ManagedExcludes(verdict: Verdict, s: State, owner: nat, e: Event)
    requires s.manager == Some(owner) && e != Claim(owner) && e != Release(owner)
    ensures var o := Apply(verdict, s, e);
            && o.state.manager == Some(owner)
            && (e.Write? || e.Replay? || e.Restore? ==> o == Outcome(s, Refused(Managed)))
            && (e.Claim? ==> o == Outcome(s, Refused(AlreadyManaged)))
            && (e.Release? ==> o.state == s)
            && o.state.schema == s.schema
            && (!e.Accept? ==> o.state.value == s.value && o.state.revision == s.revision && o.state.root == s.root)
  {
  }

  /** Until the owner itself lets go, it stays the only manager, and only accepted transitions move the map. */
  lemma {:induction false} ManagedRun(verdict: Verdict, s: State, owner: nat, events: seq<Event>)
    requires s.manager == Some(owner) && Foreign(events, owner)
    ensures var s' := Run(verdict, s, events);
            && s'.manager == Some(owner) && s'.schema == s.schema
            && ((forall i | 0 <= i < |events| :: !events[i].Accept?) ==>
                  s'.value == s.value && s'.revision == s.revision && s'.root == s.root)
    decreases |events|
  {
    if events != [] {
      ManagedExcludes(verdict, s, owner, events[0]);
      ManagedRun(verdict, Apply(verdict, s, events[0]).state, owner, events[1..]);
    }
  }

  /** A claim is granted exactly to the owner or over no owner, to a map still in its mode; a release by the owner frees the map. */
  lemma ClaimGrantedIff(s: State, owner: nat)
    ensures var free := s.manager.None? || s.manager == Some(owner);
            && (ClaimStep(s, owner).reply == Done <==> free && ClassifyRoot(s.root) == Some(s.mode))
            && (ClaimStep(s, owner).reply == Done ==> ClaimStep(s, owner).state == s.(manager := Some(owner)))
            && (ClaimStep(s, owner).reply != Done ==>
                  ClaimStep(s, owner).reply.Refused? && ClaimStep(s, owner).state == s.(manager := if free then None else s.manager))
            && ReleaseStep(s, owner).state == s.(manager := if free then None else s.manager)
  {
  }
}
