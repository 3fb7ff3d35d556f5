/** Installing a planned transition into the owned graph: branch by branch, or by rebuilding it. */
module Install {
  import opened Prelude
  import opened OrderedValue
  import opened ValueMutation
  import opened ValueLaws
  import opened Planner
  import opened PlannerLaws
  import opened HsonGraph
  import opened Projection
  import opened Editor
  import opened HeldGraphs

  function InstallOne(root: Node, op: TransportOp): Option<Node> {
    match op
    case TDelete(path, _) => DeleteLive(root, path)
    case TSet(path, _, next) => SetLive(root, path, next)
    case _ => ReplaceLive(root, op.path, Next(op).value)
  }

  /** The graph a delta install ends with; an interrupted one threw with earlier branches already edited. */
  datatype Outcome = Installed(root: Node) | Interrupted(root: Node)

  function InstallDelta(root: Node, ops: seq<TransportOp>): Outcome
    decreases |ops|
  {
    if ops == [] then Installed(root)
    else match InstallOne(root, ops[0])
      case None => Interrupted(root)
      case Some(next) => InstallDelta(next, ops[1..])
  }

  method ApplyTransportOps(initial: Node, ops: seq<TransportOp>) returns (r: Outcome)
    ensures r == InstallDelta(initial, ops)
  {
    var root := initial;
    assert ops[0..] == ops;
    for n := 0 to |ops|
      invariant InstallDelta(initial, ops) == InstallDelta(root, ops[n..])
    {
      assert ops[n..][1..] == ops[n + 1..];
      var next := InstallOne(root, ops[n]);
      if next.None? { return Interrupted(root); }
      root := next.value;
    }
    r := Installed(root);
  }

  /** The rebuilt graph: a fresh root carrier, or its value node when the owned root is a bare value node. */
  function Rebuild(current: Node, v: Value, replacesRoot: bool): Option<Node> {
    match ToRoot(v)
    case None => None
    case Some(root) => if current.tag == RootTag || replacesRoot then Some(root) else Some(root.content[0].node)
  }

  // ---------------------------------------------------------------- reserved keys

  /** Whether everything one operation writes can be built as a node. */
  predicate WritesClean(op: TransportOp) {
    match op
    case TDelete(_, _) => true
    case TSet(path, _, next) => UnreservedKeys(path) && Clean(next)
    case _ => Clean(Next(op).value)
  }

  function CleanPrefix(ops: seq<TransportOp>): (k: nat)
    ensures k <= |ops|
    ensures k < |ops| ==> !WritesClean(ops[k])
    ensures forall i | 0 <= i < k :: WritesClean(ops[i])
  {
    if ops == [] || !WritesClean(ops[0]) then 0 else 1 + CleanPrefix(ops[1..])
  }

  predicate ReservedLeaf(path: Path) {
    path != [] && path[|path| - 1].Key? && Reserved(path[|path| - 1].key)
  }

  /** The editor refuses to write an unbuildable value or a reserved key, before touching the graph. */
  lemma {:induction false} RefusesUnclean(wrapper: Node, path: Path, x: Value)
    requires path != [] && (!Clean(x) || ReservedLeaf(path))
    ensures EditAt(wrapper, path, Write(x)).None?
    decreases |path|
  {
    if Unwrap(wrapper).Some? && |path| > 1 {
      var i := FindWrapper(Unwrap(wrapper).value, path[0]);
      if i.Some? { RefusesUnclean(Unwrap(wrapper).value.content[i.value].node, path[1..], x); }
    }
  }

  lemma WritableIsUnreserved(v: Value, path: Path, x: Value)
    requires Clean(v) && path != [] && WriteAt(v, path, x, true).Success?
    ensures UnreservedKeys(path) <==> !ReservedLeaf(path)
  {
    WriteSucceedsIff(v, path, x, true);
    if At(v, path).Some? {
      ResolvedIsUnreserved(v, path);
    } else {
      ResolvedIsUnreserved(v, path[..|path| - 1]);
      forall i | 0 <= i < |path| - 1 && path[i].Key? ensures !Reserved(path[i].key) {
        assert path[..|path| - 1][i] == path[i];
      }
    }
  }

  lemma {:induction false} AllowedAnyway(v: Value, path: Path, x: Value)
    requires WriteAt(v, path, x, false).Success?
    ensures WriteAt(v, path, x, true) == WriteAt(v, path, x, false)
    decreases |path|
  {
    if path != [] { AllowedAnyway(Child(v, path[0]).value, path[1..], x); }
  }

  // ---------------------------------------------------------------- one operation

  lemma ReadsHeld(root: Node, v: Value, path: Path)
    requires Held(root, v) && UnreservedKeys(path)
    ensures ProjectLive(root, path) == Success(At(v, path))
  {
    DirectForReads(Unwrap(root).value);
    UnreservedDoesNotLeak(Unwrap(root).value, path);
    ReadsAgreeIff(root, v, path);
  }

  lemma HeldIsClean(root: Node, v: Value)
    requires Projects(root, v)
    ensures WellFormed(v) && Clean(v)
  {
    ProjectedIsWellFormed(Unwrap(root).value);
  }

  /** A rebuilt graph is held. */
  lemma RebuiltIsHeld(current: Node, x: Value, replacesRoot: bool)
    requires WellFormed(x) && Clean(x)
    ensures Rebuild(current, x, replacesRoot).Some? && Held(Rebuild(current, x, replacesRoot).value, x)
    ensures ToRoot(x).Some? && Held(ToRoot(x).value, x)
  {
    BuiltIsDirect(x);
  }

  /** The branch edit an operation below the root amounts to. */
  function EditOf(op: TransportOp): Edit {
    match op
    case TDelete(_, _) => Remove
    case TSet(_, _, next) => Write(next)
    case _ => Write(Next(op).value)
  }

  /** What a recorded operation without reserved keys asks of the editor, and where it leads. */
  lemma OperationEdits(v: Value, op: TransportOp, w: Value)
    requires WellFormed(v) && Clean(v) && Replays(v, op, w) && AdmittedRecord([op]) && op.path != [] && WritesClean(op)
    ensures EditAdmitted(op.path, EditOf(op)) && Edited(v, op.path, EditOf(op)) == Success(w)
    ensures !op.TSet? ==> At(v, op.path).Some?
  {
    assert [op][0] == op;
    ApplyOneReaches(v, op, w);
    match op
    case TDelete(path, _) =>
      DeleteLaw(v, path, []);
      ResolvedIsUnreserved(v, path);
    case TSet(_, _, _) =>
    case _ =>
      var next := Next(op).value;
      StepKeepsWellFormed(v, FromTransport(op));
      WellFormedAt(w, op.path);
      WriteSucceedsIff(v, op.path, next, false);
      AllowedAnyway(v, op.path, next);
      ResolvedIsUnreserved(v, op.path);
  }

  /** Over a held graph its evidence reads run as over the carrier, so the edit is made. */
  lemma OperationInstalls(root: Node, v: Value, op: TransportOp, w: Value)
    requires Held(root, v) && Replays(v, op, w) && AdmittedRecord([op]) && op.path != [] && WritesClean(op)
    ensures EditAdmitted(op.path, EditOf(op)) && Edited(v, op.path, EditOf(op)) == Success(w)
    ensures InstallOne(root, op) == EditAt(root, op.path, EditOf(op))
  {
    HeldIsClean(root, v);
    OperationEdits(v, op, w);
    ReadsHeld(root, v, op.path);
  }

  /** An operation with a reserved key is refused before the graph is touched, whatever the graph. */
  lemma UncleanIsRefused(root: Node, v: Value, op: TransportOp, w: Value)
    requires WellFormed(v) && Clean(v) && Replays(v, op, w) && !WritesClean(op)
    ensures InstallOne(root, op).None?
  {
    ApplyOneReaches(v, op, w);
    if op.TSet? { WritableIsUnreserved(v, op.path, op.next); }
    if op.path != [] { RefusesUnclean(root, op.path, Next(op).value); }
  }

  /** One branch edit of a held graph leaves the graph of the planned value, or refuses untouched. */
  lemma InstallOneHolds(root: Node, v: Value, op: TransportOp, w: Value)
    requires Held(root, v) && Replays(v, op, w) && AdmittedRecord([op])
    ensures WritesClean(op) ==> InstallOne(root, op).Some? && Held(InstallOne(root, op).value, w)
    ensures !WritesClean(op) ==> InstallOne(root, op).None?
  {
    HeldIsClean(root, v);
    if !WritesClean(op) {
      UncleanIsRefused(root, v, op, w);
    } else if op.path != [] {
      OperationInstalls(root, v, op, w);
      EditHolds(root, v, op.path, EditOf(op));
    } else {
      assert [op][0] == op;
      ApplyOneReaches(v, op, w);
      StepKeepsWellFormed(v, FromTransport(op));
      RebuiltIsHeld(root, w, true);
    }
  }

  lemma CleanAfter(v: Value, op: TransportOp, w: Value)
    requires WellFormed(v) && Clean(v) && Replays(v, op, w) && AdmittedRecord([op]) && WritesClean(op)
    ensures WellFormed(w) && Clean(w)
  {
    RebuiltIsHeld(Build(v), v, true);
    var root := ToRoot(v).value;
    InstallOneHolds(root, v, op, w);
    HeldIsClean(InstallOne(root, op).value, w);
  }

  // ---------------------------------------------------------------- whole records

  /**
   * What a delta install does over a held graph, exactly. It edits as far as the operations before
   * the first reserved key and goes through iff there is none; either way the graph it leaves is
   * held, and reads as the carrier those operations lead to.
   */
  lemma {:induction false} InstallDeltaOutcome(root: Node, v: Value, ops: seq<TransportOp>, w: Value)
    requires Held(root, v) && ReplaysAll(v, ops, w) && AdmittedRecord(ops)
    ensures InstallDelta(root, ops).Installed? <==> CleanPrefix(ops) == |ops|
    ensures Held(InstallDelta(root, ops).root, ValueAfter(v, ops[..CleanPrefix(ops)]))
    ensures CleanPrefix(ops) == |ops| ==> Held(InstallDelta(root, ops).root, w)
    decreases |ops|
  {
    var k := CleanPrefix(ops);
    if ops != [] {
      var m := Step(v, FromTransport(ops[0])).value.value;
      assert AdmittedRecord([ops[0]]) && AdmittedRecord(ops[1..]);
      InstallOneHolds(root, v, ops[0], m);
      if WritesClean(ops[0]) {
        InstallDeltaOutcome(InstallOne(root, ops[0]).value, m, ops[1..], w);
        assert ops[..k][0] == ops[0] && ops[..k][1..] == ops[1..][..k - 1];
      }
    }
  }

  /** Whether some operation replaces the root value as a whole. */
  predicate RewritesRoot(ops: seq<TransportOp>) {
    ops != [] && ((ops[0].path == [] && !ops[0].TDelete? && !ops[0].TSet?) || RewritesRoot(ops[1..]))
  }

  /** The root carrier a delta leaves, over any graph. */
  lemma {:induction false} RootAfterDelta(root: Node, ops: seq<TransportOp>)
    requires InstallDelta(root, ops).Installed?
    ensures InstallDelta(root, ops).root.tag == if RewritesRoot(ops) then RootTag else root.tag
    decreases |ops|
  {
    if ops != [] {
      if ops[0].path != [] {
        EditKeepsTag(root, ops[0].path, if ops[0].TDelete? then Remove else Write(Next(ops[0]).value));
      }
      RootAfterDelta(InstallOne(root, ops[0]).value, ops[1..]);
    }
  }
}
