/** Replica convergence: replaying an authority's published commits reproduces its state. */
module Replicas {
  import opened Prelude
  import opened OrderedValue
  import opened ValueMutation
  import opened ValueLaws
  import opened Planner
  import opened PlannerLaws
  import opened HsonGraph
  import opened Projection
  import opened Install
  import opened Authority
  import opened AuthorityLaws

  /** A replica that nobody manages, over whatever owned graph, with or without a schema of its own. */
  predicate Replica(r: State) {
    Inv(r) && !r.adrift && r.manager.None?
  }

  predicate InStep(s: State, r: State) {
    r.value == s.value && r.revision == s.revision
  }

  predicate ReplacesWholeRoot(ops: seq<TransportOp>) {
    exists i :: 0 <= i < |ops| && ops[i].TReplace? && ops[i].path == []
  }

  /** A commit a replica can install: branch edits without reserved keys, or a recorded whole-root replacement. */
  predicate Replayable(c: Commit) {
    CleanPrefix(c.ops) == |c.ops| || ReplacesWholeRoot(c.ops)
  }

  /** What a replica takes at this carrier: a commit it can install and its schema accepts. */
  predicate Takes(verdict: Verdict, schema: Option<nat>, v: Value, c: Commit) {
    Replayable(c) && SchemaAccepts(verdict, schema, ValueAfter(v, c.ops), FromTransports(c.ops))
  }

  lemma {:induction false} CompiledRootReplacement(ops: seq<TransportOp>)
    ensures |FromTransports(ops)| == |ops|
    ensures forall i | 0 <= i < |ops| :: FromTransports(ops)[i] == FromTransport(ops[i])
    decreases |ops|
  {
    if ops != [] {
      CompiledRootReplacement(ops[1..]);
      assert FromTransports(ops)[1..] == FromTransports(ops[1..]);
    }
  }

  lemma ReplaysRootReplacement(ops: seq<TransportOp>)
    ensures ReplacesRoot(FromTransports(ops)) <==> ReplacesWholeRoot(ops)
  {
    CompiledRootReplacement(ops);
    var compiled := FromTransports(ops);
    if ReplacesWholeRoot(ops) {
      var i :| 0 <= i < |ops| && ops[i].TReplace? && ops[i].path == [];
      assert compiled[i].ReplaceOp? && compiled[i].path == [];
    }
    if ReplacesRoot(compiled) {
      var i :| 0 <= i < |compiled| && compiled[i].ReplaceOp? && compiled[i].path == [];
      assert ops[i].TReplace? && ops[i].path == [];
    }
  }

  /** Planning the published operations of a plan on an equal replica yields the identical plan and commit. */
  lemma PassesEveryCheck(verdict: Verdict, r: State, ops: seq<WriteOp>)
    requires Replica(r) && AdmittedOps(ops) && Plan(r.value, ops).Success?
    ensures var planned := Plan(r.value, ops).value;
            && Projected(r) == Some(r.value)
            && Planner.Replay(r.value, planned.ops) == Success(FromTransports(planned.ops))
            && Apply(verdict, r, Replay(r.revision, planned.ops)) == ReplayStep(verdict, r, FromTransports(planned.ops))
            && Plan(r.value, FromTransports(planned.ops)) == Success(planned)
            && AdmittedOps(FromTransports(planned.ops))
  {
    OwnedProjects(r);
    ReplayOfPlan(r.value, ops);
    PlanRecordsAdmitted(r.value, ops);
    FromTransportsAdmitted(Plan(r.value, ops).value.ops);
  }

  /**
   * One commit. A replica equal to the authority's base takes the authority's planned commit exactly:
   * same value, same revision, same commit. It does so iff its schema accepts the result and the commit
   * is replayable; one whose reserved keys only a rebuild could step over is refused by the delta.
   */
  lemma ReplicaTakesCommitIff(verdict: Verdict, r: State, ops: seq<WriteOp>)
    requires Replica(r) && AdmittedOps(ops) && Plan(r.value, ops).Success? && Clean(Plan(r.value, ops).value.value)
    ensures var planned := Plan(r.value, ops).value;
            var c := CommitOf(r.revision, planned);
            var o := Apply(verdict, r, Replay(c.prevRev, c.ops));
            && ValueAfter(r.value, c.ops) == planned.value
            && (o.reply == Committed(c) <==> Takes(verdict, r.schema, r.value, c))
            && (Takes(verdict, r.schema, r.value, c) ==>
                  Replica(o.state) && o.state.value == planned.value && o.state.revision == c.rev && o.state.schema == r.schema)
  {
    var planned := Plan(r.value, ops).value;
    var compiled := FromTransports(planned.ops);
    PassesEveryCheck(verdict, r, ops);
    ReplaysRootReplacement(planned.ops);
    ReplayKeeps(verdict, r, compiled);
    PlanReplays(r.value, ops);
    ApplyAllReaches(r.value, planned.ops, planned.value);
    if planned.ops != [] && !ReplacesRoot(compiled) { InstallFailsIff(r.root, r.value, compiled, planned, None); }
  }

  /** A root replaced by itself, then a reserved key written and taken out again. */
  function SteppingOver(v: Value): seq<WriteOp> {
    [ReplaceOp([], v), SetOp([Key("_hson_x")], Null), DeleteOp([Key("_hson_x")])]
  }

  lemma SteppingOverPlans(v: Value)
    requires Clean(v) && v.Obj?
    ensures Plan(v, SteppingOver(v)) == Success(Planned(v, SteppedOver()))
    ensures SteppingOver(v)[1..] == [SetOp([Key("_hson_x")], Null), DeleteOp([Key("_hson_x")])]
    ensures Plan(v, SteppingOver(v)[1..]) == Success(Planned(v, SteppedOver()))
  {
    var rest := [SetOp([Key("_hson_x")], Null), DeleteOp([Key("_hson_x")])];
    StepOver(v);
    PlanOne(v, ReplaceOp([], v));
    PlanAppend(v, [ReplaceOp([], v)], rest);
    assert [ReplaceOp([], v)] + rest == SteppingOver(v);
    AfterNested([], [], Plan(v, rest));
    assert [] + SteppedOver() == SteppedOver();
  }

  /** An authority without a schema commits every plan whose root it rebuilds. */
  lemma RebuiltIsCommitted(verdict: Verdict, r: State, ops: seq<WriteOp>)
    requires Inv(r) && r.manager.None? && r.schema.None? && AdmittedOps(ops) && ReplacesRoot(ops)
    requires Plan(r.value, ops).Success? && Plan(r.value, ops).value.ops != [] && Clean(Plan(r.value, ops).value.value)
    ensures WriteStep(verdict, r, ops).reply == Committed(CommitOf(r.revision, Plan(r.value, ops).value))
  {
    PlanKeepsWellFormed(r.value, ops);
    RebuiltIsHeld(r.root, Plan(r.value, ops).value.value, true);
  }

  /**
   * The authority can step over a reserved key by rebuilding a root it replaces, and publishes the steps;
   * a replica, which sees no replacement because the root was replaced by itself, refuses them.
   */
  lemma SteppedOverKeyIsRefused(verdict: Verdict, r: State)
    requires Replica(r) && r.value.Obj? && r.schema.None?
    ensures var c := CommitOf(r.revision, Planned(r.value, SteppedOver()));
            && WriteStep(verdict, r, SteppingOver(r.value)).reply == Committed(c)
            && Apply(verdict, r, Replay(c.prevRev, c.ops)).reply != Committed(c)
  {
    var ops := SteppingOver(r.value);
    SteppingOverPlans(r.value);
    assert ops[0].ReplaceOp? && ops[0].path == [] && ReplacesRoot(ops);
    RebuiltIsCommitted(verdict, r, ops);
    NotReplayable(CommitOf(r.revision, Planned(r.value, SteppedOver())));
    ReplicaTakesCommitIff(verdict, r, ops[1..]);
  }

  lemma NotReplayable(c: Commit)
    requires c.ops == SteppedOver()
    ensures !Replayable(c)
  {
    assert Reserved("_hson_x") && [Key("_hson_x")][0] == Key("_hson_x");
  }

  function SteppedOver(): seq<TransportOp> {
    [TSet([Key("_hson_x")], None, Null), TDelete([Key("_hson_x")], Some(Null))]
  }

  lemma StepOver(v: Value)
    requires Clean(v) && v.Obj?
    ensures Plan(v, [SetOp([Key("_hson_x")], Null), DeleteOp([Key("_hson_x")])]) == Success(Planned(v, SteppedOver()))
  {
    var key := "_hson_x";
    var path := [Key(key)];
    assert Reserved(key) && FindKey(v.entries, key).None?;
    assert path[0] == Key(key) && path[1..] == [] && path[..0] == [];
    var m := Obj(v.entries + [Entry(key, Null)]);
    assert Step(v, SetOp(path, Null)) == Success(Planned(m, [TSet(path, None, Null)]));
    DeleteUndoesAppend(v, path, Null);
    ReadAfterWrite(v, path, Null, true);
    assert Step(m, DeleteOp(path)) == Success(Planned(v, [TDelete(path, Some(Null))]));
    PlanOne(v, SetOp(path, Null));
    PlanOne(m, DeleteOp(path));
    PlanAppend(v, [SetOp(path, Null)], [DeleteOp(path)]);
    assert [SetOp(path, Null)] + [DeleteOp(path)] == [SetOp(path, Null), DeleteOp(path)];
    assert [TSet(path, None, Null)] + [TDelete(path, Some(Null))] == SteppedOver();
  }

  // ---------------------------------------------------------------- what an authority publishes

  /** From s to s' nothing was published and value and revision stayed, or exactly the plan of `ops` was. */
  predicate Publishes(s: State, s': State, ops: seq<WriteOp>, added: seq<Notice>) {
    && s'.notices == s.notices + added
    && |added| <= 1
    && if added == [] then InStep(s, s')
       else
         && AdmittedOps(ops) && Plan(s.value, ops).Success?
         && added[0].CommitNotice? && added[0].commit == CommitOf(s.revision, Plan(s.value, ops).value)
         && s'.value == Plan(s.value, ops).value.value && s'.revision == added[0].commit.rev
  }

  lemma AcceptPublishes(s: State, token: nat) returns (added: seq<Notice>)
    requires Inv(s)
    ensures token < |s.records| ==> Publishes(s, AcceptStep(s, token).state, s.records[token].writeOps, added)
    ensures token >= |s.records| ==> Publishes(s, AcceptStep(s, token).state, [], added)
  {
    added := AcceptStep(s, token).state.notices[|s.notices|..];
    if AcceptStep(s, token).reply.Committed? { AcceptAppliesToItsBase(s, token); }
  }

  lemma ReplayPublishes(verdict: Verdict, s: State, ops: seq<WriteOp>) returns (added: seq<Notice>)
    requires Inv(s) && AdmittedOps(ops)
    ensures Publishes(s, ReplayStep(verdict, s, ops).state, ops, added)
  {
    added := ReplayStep(verdict, s, ops).state.notices[|s.notices|..];
    if Plan(s.value, ops).Success? && Plan(s.value, ops).value.ops == [] { PlanUnchanged(s.value, ops); }
  }

  lemma WritePublishes(verdict: Verdict, s: State, ops: seq<WriteOp>) returns (added: seq<Notice>)
    requires Inv(s) && AdmittedOps(ops)
    ensures Publishes(s, WriteStep(verdict, s, ops).state, ops, added)
  {
    added := [];
    PrepareKeeps(verdict, s, ops);
    var prepared := PrepareStep(verdict, s, ops);
    if s.manager.None? && !prepared.reply.Refused? { added := AcceptPublishes(prepared.state, |s.records|); }
  }

  lemma CheckedReplayPublishes(verdict: Verdict, s: State, prevRev: int, ops: seq<TransportOp>) returns (added: seq<Notice>)
    requires Inv(s) && AdmittedRecord(ops)
    ensures Publishes(s, CheckedReplayStep(verdict, s, prevRev, ops).state, FromTransports(ops), added)
  {
    added := [];
    FromTransportsAdmitted(ops);
    if AdmitReplay(s, prevRev, ops).Success? {
      ReplayCompiles(Projected(s).value, ops);
      added := ReplayPublishes(verdict, s, FromTransports(ops));
    }
  }

  /** An event other than a restore either publishes nothing and leaves value and revision, or publishes its own plan. */
  lemma EventPublishes(verdict: Verdict, s: State, e: Event) returns (added: seq<Notice>)
    requires Inv(s) && EventAdmitted(e) && !e.Restore?
    ensures Publishes(s, Apply(verdict, s, e).state, Published(s, e), added)
    ensures Clean(Apply(verdict, s, e).state.value)
  {
    ApplyKeeps(verdict, s, e);
    added := [];
    match e
    case Write(ops) => added := WritePublishes(verdict, s, ops);
    case Accept(token) => added := AcceptPublishes(s, token);
    case Replay(prevRev, ops) => added := CheckedReplayPublishes(verdict, s, prevRev, ops);
    case _ =>
  }

  predicate NoRestores(events: seq<Event>) {
    forall i | 0 <= i < |events| :: !events[i].Restore?
  }

  /** The carrier after a stretch of published commits. */
  function ValueThrough(v: Value, notices: seq<Notice>): Value
    decreases |notices|
  {
    if notices == [] then v
    else ValueThrough(if notices[0].CommitNotice? then ValueAfter(v, notices[0].commit.ops) else v, notices[1..])
  }

  /** Every commit of the stretch is one a replica with this schema takes where it finds it. */
  predicate AllTaken(verdict: Verdict, schema: Option<nat>, v: Value, notices: seq<Notice>)
    decreases |notices|
  {
    notices == [] ||
    (&& (notices[0].CommitNotice? ==> Takes(verdict, schema, v, notices[0].commit))
     && AllTaken(verdict, schema, ValueThrough(v, notices[..1]), notices[1..]))
  }

  /** A replica fed a stretch of an authority's publications. */
  function Feed(verdict: Verdict, r: State, notices: seq<Notice>): State
    decreases |notices|
  {
    if notices == [] then r
    else match notices[0]
      case SnapshotNotice(_) => Feed(verdict, r, notices[1..])
      case CommitNotice(c, _) => Feed(verdict, Apply(verdict, r, Replay(c.prevRev, c.ops)).state, notices[1..])
  }

  lemma {:induction false} NoticesGrow(verdict: Verdict, s: State, events: seq<Event>)
    requires Inv(s) && Admitted(events) && NoRestores(events)
    ensures s.notices <= Run(verdict, s, events).notices
    decreases |events|
  {
    if events != [] {
      var added := EventPublishes(verdict, s, events[0]);
      ApplyKeeps(verdict, s, events[0]);
      NoticesGrow(verdict, Apply(verdict, s, events[0]).state, events[1..]);
    }
  }

  lemma {:induction false} FeedConcat(verdict: Verdict, r: State, a: seq<Notice>, b: seq<Notice>)
    ensures Feed(verdict, r, a + b) == Feed(verdict, Feed(verdict, r, a), b)
    decreases |a|
  {
    if a == [] {
      assert a + b == b;
    } else {
      assert (a + b)[0] == a[0] && (a + b)[1..] == a[1..] + b;
      match a[0]
      case SnapshotNotice(_) => FeedConcat(verdict, r, a[1..], b);
      case CommitNotice(c, _) => FeedConcat(verdict, Apply(verdict, r, Replay(c.prevRev, c.ops)).state, a[1..], b);
    }
  }

  lemma ReplicaTakesEvent(verdict: Verdict, s: State, r: State, e: Event, added: seq<Notice>)
    requires Inv(s) && Replica(r) && InStep(s, r)
    requires Publishes(s, Apply(verdict, s, e).state, Published(s, e), added)
    requires Clean(Apply(verdict, s, e).state.value) && AllTaken(verdict, r.schema, r.value, added)
    ensures var next, r' := Apply(verdict, s, e).state, Feed(verdict, r, added);
            Replica(r') && InStep(next, r') && r'.schema == r.schema && r'.value == ValueThrough(r.value, added)
  {
    if added != [] {
      ReplicaTakesCommitIff(verdict, r, Published(s, e));
      assert added[1..] == [] && added[..1] == added;
    }
  }

  /**
   * Convergence over whole runs: whatever an authority does between two points without restoring,
   * a replica in step at the first point and fed the publications in between is in step at the second,
   * over whatever owned graph and with whatever schema that accepts them.
   */
  lemma {:induction false} ReplicaConverges(verdict: Verdict, s: State, r: State, events: seq<Event>)
    requires Inv(s) && Replica(r) && InStep(s, r) && Admitted(events) && NoRestores(events)
    requires var s' := Run(verdict, s, events);
             s.notices <= s'.notices && AllTaken(verdict, r.schema, r.value, s'.notices[|s.notices|..])
    ensures var s' := Run(verdict, s, events);
            var r' := Feed(verdict, r, s'.notices[|s.notices|..]);
            Replica(r') && InStep(s', r')
    decreases |events|
  {
    if events != [] {
      var next, s' := Apply(verdict, s, events[0]).state, Run(verdict, s, events);
      var added := EventPublishes(verdict, s, events[0]);
      ApplyKeeps(verdict, s, events[0]);
      NoticesGrow(verdict, next, events[1..]);
      SplitNotices(s.notices, added, s'.notices);
      SplitTaken(verdict, r.schema, r.value, added, s'.notices[|next.notices|..]);
      ReplicaTakesEvent(verdict, s, r, events[0], added);
      ReplicaConverges(verdict, next, Feed(verdict, r, added), events[1..]);
      FeedConcat(verdict, r, added, s'.notices[|next.notices|..]);
    }
  }

  lemma SplitNotices(before: seq<Notice>, added: seq<Notice>, after: seq<Notice>)
    requires before + added <= after
    ensures before <= after && after[|before|..] == added + after[|before + added|..]
  {
  }

  lemma SplitTaken(verdict: Verdict, schema: Option<nat>, v: Value, a: seq<Notice>, b: seq<Notice>)
    requires |a| <= 1 && AllTaken(verdict, schema, v, a + b)
    ensures AllTaken(verdict, schema, v, a) && AllTaken(verdict, schema, ValueThrough(v, a), b)
  {
    if a == [] {
      assert a + b == b;
    } else {
      assert (a + b)[0] == a[0] && (a + b)[1..] == b && (a + b)[..1] == a == a[..1] && a[1..] == [];
    }
  }

  // ---------------------------------------------------------------- revisions

  /** Commits in publication order: each starts at the revision the one before ended with, and a changed one adds one. */
  predicate Consecutive(notices: seq<Notice>, from: nat) {
    notices == [] ||
    (notices[0].CommitNotice? &&
     var c := notices[0].commit;
     c.prevRev == from && c.rev == (if c.changed then from + 1 else from) && Consecutive(notices[1..], c.rev))
  }

  /** Without restores the published revisions are strictly consecutive from the starting one. */
  lemma {:induction false} RevisionsAreConsecutive(verdict: Verdict, s: State, events: seq<Event>)
    requires Inv(s) && Admitted(events) && NoRestores(events)
    ensures s.notices <= Run(verdict, s, events).notices
    ensures Consecutive(Run(verdict, s, events).notices[|s.notices|..], s.revision)
    decreases |events|
  {
    NoticesGrow(verdict, s, events);
    if events != [] {
      var next, s' := Apply(verdict, s, events[0]).state, Run(verdict, s, events);
      var added := EventPublishes(verdict, s, events[0]);
      ApplyKeeps(verdict, s, events[0]);
      RevisionsAreConsecutive(verdict, next, events[1..]);
      SplitNotices(s.notices, added, s'.notices);
      if added != [] { assert s'.notices[|s.notices|..][1..] == s'.notices[|next.notices|..]; }
    }
  }
}
