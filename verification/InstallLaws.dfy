/** What a delta install of a plan leaves: when it follows the plan, and when it is the rebuild. */
module InstallLaws {
  import opened Prelude
  import opened OrderedValue
  import opened ValueMutation
  import opened ValueLaws
  import opened Planner
  import opened PlannerLaws
  import opened HsonGraph
  import opened Projection
  import opened Editor
  import opened BuiltGraphs
  import opened HeldGraphs
  import opened Install
  import opened Invariants

  // ---------------------------------------------------------------- a delta follows its plan

  /** If this plan goes through and writes no reserved key, its delta goes through and the graph reads as planned. */
  ghost predicate DeltaFollows(root: Node, v: Value, writeOps: seq<WriteOp>) {
    var planned := Plan(v, writeOps);
    planned.Success? && CleanPrefix(planned.value.ops) == |planned.value.ops| ==>
      var delta := InstallDelta(root, planned.value.ops);
      delta.Installed? && Projects(delta.root, planned.value.value)
  }

  lemma HeldDeltaFollows(root: Node, v: Value, writeOps: seq<WriteOp>)
    requires Held(root, v) && AdmittedOps(writeOps)
    ensures DeltaFollows(root, v, writeOps)
  {
    HeldIsClean(root, v);
    if Plan(v, writeOps).Success? {
      PlanReplays(v, writeOps);
      PlanRecordsAdmitted(v, writeOps);
      InstallDeltaOutcome(root, v, Plan(v, writeOps).value.ops, Plan(v, writeOps).value.value);
    }
  }

  lemma OneWritePlans(v: Value, path: Path, x: Value)
    requires path != [] && WriteAt(v, path, x, true).Success? && At(v, path) != Some(x)
    ensures Plan(v, [SetOp(path, x)]) == Success(Planned(WriteAt(v, path, x, true).value, [TSet(path, At(v, path), x)]))
  {
    PlanOne(v, SetOp(path, x));
  }

  /**
   * A delta follows every plan exactly when no carrier stands around an object or a non-empty array
   * of the owned graph. Otherwise some write without a reserved key throws, or leaves a graph
   * nothing can be read from.
   */
  lemma DeltaFollowsPlanIff(root: Node, v: Value)
    requires Projects(root, v)
    ensures (forall writeOps | AdmittedOps(writeOps) :: DeltaFollows(root, v, writeOps))
              <==> Direct(Unwrap(root).value, true)
  {
    if Direct(Unwrap(root).value, true) {
      forall writeOps | AdmittedOps(writeOps) ensures DeltaFollows(root, v, writeOps) {
        HeldDeltaFollows(root, v, writeOps);
      }
    } else {
      var path, x := CarrierDefeatsEdit(root, v);
      OneWritePlans(v, path, x);
      var ops := [TSet(path, At(v, path), x)];
      assert WritesClean(ops[0]) && CleanPrefix(ops[1..]) == 0;
      assert InstallDelta(root, ops) ==
             (match InstallOne(root, ops[0]) case None => Interrupted(root) case Some(next) => Installed(next)) by {
        if InstallOne(root, ops[0]).Some? { assert ops[1..] == []; }
      }
      assert !DeltaFollows(root, v, [SetOp(path, x)]);
    }
  }

  // ---------------------------------------------------------------- delta and rebuild

  /**
   * Delta install refines rebuild. Over a held graph, a plan without reserved keys leaves a delta
   * and a rebuild that read as the same planned carrier; they agree on whether that carrier stands
   * in a root carrier, except over a bare root that a splice, rename, move or replace rewrites whole.
   */
  lemma DeltaIsRebuildIff(root: Node, v: Value, writeOps: seq<WriteOp>)
    requires Held(root, v) && AdmittedOps(writeOps) && Plan(v, writeOps).Success?
    requires var ops := Plan(v, writeOps).value.ops; CleanPrefix(ops) == |ops|
    ensures var planned := Plan(v, writeOps).value;
            var delta, rebuilt := InstallDelta(root, planned.ops), Rebuild(root, planned.value, false);
            && delta.Installed? && rebuilt.Some?
            && Held(delta.root, planned.value) && Held(rebuilt.value, planned.value)
            && ((delta.root.tag == RootTag <==> rebuilt.value.tag == RootTag)
                <==> (root.tag == RootTag || !RewritesRoot(planned.ops)))
  {
    HeldIsClean(root, v);
    var planned := Plan(v, writeOps).value;
    PlanReplays(v, writeOps);
    PlanRecordsAdmitted(v, writeOps);
    PlanKeepsWellFormed(v, writeOps);
    InstallDeltaOutcome(root, v, planned.ops, planned.value);
    RootAfterDelta(root, planned.ops);
    HeldIsClean(InstallDelta(root, planned.ops).root, planned.value);
    RebuiltIsHeld(root, planned.value, false);
  }

  predicate RootPlace(place: Place) {
    place.AtRoot? || place.Bare?
  }

  /** Whole-value edits at the root leave a root carrier behind, whatever was there. */
  function PlaceAfter(place: Place, ops: seq<TransportOp>): Place {
    if RewritesRoot(ops) then AtRoot else place
  }

  lemma PlaceAfterStep(place: Place, ops: seq<TransportOp>)
    requires ops != []
    ensures PlaceAfter(PlaceAfter(place, [ops[0]]), ops[1..]) == PlaceAfter(place, ops)
    ensures PlaceAfter(place, [ops[0]]) ==
            if ops[0].path == [] && !ops[0].TDelete? && !ops[0].TSet? then AtRoot else place
  {
    var one := [ops[0]];
    assert one[0] == ops[0] && one[1..] == [] && !RewritesRoot(one[1..]);
  }

  lemma BuiltIsHeld(place: Place, v: Value)
    requires RootPlace(place) && WellFormed(v) && Clean(v)
    ensures Held(Holder(place, v), v)
  {
    BuiltIsDirect(v);
  }

  lemma BuiltOneInstalls(place: Place, v: Value, op: TransportOp, w: Value)
    requires RootPlace(place) && WellFormed(v) && Clean(v) && Replays(v, op, w) && AdmittedRecord([op]) && WritesClean(op)
    ensures InstallOne(Holder(place, v), op) == Some(Holder(PlaceAfter(place, [op]), w))
  {
    BuiltIsHeld(place, v);
    PlaceAfterStep(place, [op]);
    assert [op][0] == op;
    if op.path == [] {
      ApplyOneReaches(v, op, w);
    } else {
      OperationInstalls(Holder(place, v), v, op, w);
      match EditOf(op)
      case Write(x) => WriteAgrees(place, v, op.path, x, true);
      case Remove => RemoveAgrees(place, v, op.path);
    }
  }

  lemma {:induction false} BuiltInstalls(place: Place, v: Value, ops: seq<TransportOp>, w: Value)
    requires RootPlace(place) && WellFormed(v) && Clean(v) && ReplaysAll(v, ops, w) && AdmittedRecord(ops)
    requires CleanPrefix(ops) == |ops|
    ensures InstallDelta(Holder(place, v), ops) == Installed(Holder(PlaceAfter(place, ops), w))
    decreases |ops|
  {
    if ops != [] {
      var m := ReplaysFirst(v, ops, w);
      assert AdmittedRecord([ops[0]]) && AdmittedRecord(ops[1..]);
      BuiltOneInstalls(place, v, ops[0], m);
      CleanAfter(v, ops[0], m);
      var next := PlaceAfter(place, [ops[0]]);
      PlaceAfterStep(place, ops);
      BuiltInstalls(next, m, ops[1..], w);
      assert InstallOne(Holder(place, v), ops[0]) == Some(Holder(next, m));
    }
  }

  /** Over a graph the map built itself, delta and rebuild are the same node for node, with that one exception. */
  lemma BuiltDeltaIsRebuildIff(place: Place, v: Value, writeOps: seq<WriteOp>)
    requires RootPlace(place) && WellFormed(v) && Clean(v) && AdmittedOps(writeOps) && Plan(v, writeOps).Success?
    requires var ops := Plan(v, writeOps).value.ops; CleanPrefix(ops) == |ops|
    ensures var planned := Plan(v, writeOps).value;
            var rebuilt := Rebuild(Holder(place, v), planned.value, false);
            && rebuilt.Some?
            && (InstallDelta(Holder(place, v), planned.ops) == Installed(rebuilt.value)
                <==> (place == AtRoot || !RewritesRoot(planned.ops)))
  {
    var planned := Plan(v, writeOps).value;
    PlanReplays(v, writeOps);
    PlanRecordsAdmitted(v, writeOps);
    BuiltInstalls(place, v, planned.ops, planned.value);
    BuiltIsHeld(place, v);
    DeltaIsRebuildIff(Holder(place, v), v, writeOps);
  }

  /** A splice of a whole bare array: the delta leaves a root carrier, the rebuild a bare array. */
  lemma BareSpliceDiffers()
    ensures var v := Arr([Null]);
            var root := Build(v);
            var p := Plan(v, [SpliceOp([], 0, 1, [])]);
            && Held(root, v) && p.Success? && p.value.value == Arr([])
            && InstallDelta(root, p.value.ops).Installed?
            && InstallDelta(root, p.value.ops) != Installed(Rebuild(root, p.value.value, false).value)
  {
    var v, op := Arr([Null]), SpliceOp([], 0, 1, []);
    var root := Holder(Bare, v);
    PlanOne(v, op);
    assert Spliced(v.items, 0, 1, []) == [] && v.items[0..1] == [Null];
    var p := Plan(v, [op]).value;
    assert p.value == Arr([]) && p.ops == [TSplice([], 0, [Null], [], [Null], [])];
    assert CleanPrefix(p.ops[1..]) == 0 && RewritesRoot(p.ops);
    BuiltIsHeld(Bare, v);
    BuiltDeltaIsRebuildIff(Bare, v, [op]);
    HeldDeltaFollows(root, v, [op]);
  }

  // ---------------------------------------------------------------- installs that stop midway

  /**
   * A refused install can leave edits behind: over any held graph of an object, an effective write
   * followed by a set of a reserved key plans, but its install throws with the first write in place.
   */
  lemma InterruptedInstallLeavesEdits(root: Node, v: Value, path: Path, x: Value, key: string, y: Value)
    requires Held(root, v) && v.Obj? && WellFormed(x) && Clean(x)
    requires UnreservedKeys(path) && Set(v, path, x).Success? && At(v, path) != Some(x)
    requires Reserved(key) && WellFormed(y)
    ensures var planned := Plan(v, [SetOp(path, x), SetOp([Key(key)], y)]);
            && planned.Success?
            && var outcome := InstallDelta(root, planned.value.ops);
               outcome.Interrupted? && Held(outcome.root, Set(v, path, x).value) && outcome.root != root
  {
    HeldIsClean(root, v);
    var m := Set(v, path, x).value;
    var first, second := TSet(path, At(v, path), x), TSet([Key(key)], None, y);
    ReadAfterWrite(v, path, x, true);
    SetReplays(v, path, x);
    OneWritePlans(v, path, x);
    assert Replays(v, first, m) && AdmittedRecord([first]);
    InstallOneHolds(root, v, first, m);
    var next := InstallOne(root, first).value;
    HeldIsClean(next, m);
    ReservedIsAbsent(m, key);
    assert [Key(key)][0] == Key(key) && [Key(key)][1..] == [];
    OneWritePlans(m, [Key(key)], y);
    SetReplays(m, [Key(key)], y);
    var w := Set(m, [Key(key)], y).value;
    assert !WritesClean(second);
    UncleanIsRefused(next, m, second, w);
    PlanAppend(v, [SetOp(path, x)], [SetOp([Key(key)], y)]);
    assert [SetOp(path, x)] + [SetOp([Key(key)], y)] == [SetOp(path, x), SetOp([Key(key)], y)];
    assert [first] + [second] == [first, second];
    assert [first, second][0] == first && [first, second][1..] == [second] && [second][0] == second;
    assert InstallDelta(next, [second]) == Interrupted(next);
  }

  lemma ReservedIsAbsent(v: Value, key: string)
    requires Clean(v) && v.Obj? && Reserved(key)
    ensures FindKey(v.entries, key).None?
  {
  }

  /** An admitted graph with an object carrier around an array: it reads as {"b": b, "a": [null]}. */
  function CarriedArray(b: Value): Node {
    Plain(RootTag, [Sub(Plain(ObjTag, [Sub(PropertyNode("b", b)), Sub(CarriedProperty())]))])
  }

  function CarriedProperty(): Node {
    Plain(Ordinary("a"), [Sub(Plain(ObjTag, [Sub(Build(Arr([Null])))]))])
  }

  function CarriedValue(b: Value): Value {
    Obj([Entry("b", b), Entry("a", Arr([Null]))])
  }

  lemma CarriedPropertyReads()
    ensures FromProperty(Sub(CarriedProperty())) == Some(Entry("a", Arr([Null])))
    ensures Unwrap(CarriedProperty()).Some? && !Open(Unwrap(CarriedProperty()).value)
  {
    var carrier := CarriedProperty().content[0].node;
    RoundTrip(Arr([Null]));
    assert FromItem(carrier.content[0]) == Some(Arr([Null])) && FromNode(carrier) == Some(Arr([Null]));
    assert FromItem(CarriedProperty().content[0]) == Some(Arr([Null]));
  }

  lemma CarriedPropertyAdmitted()
    ensures Grammar(CarriedProperty(), ObjTag) && ObjectChild(Sub(CarriedProperty()))
  {
    var carrier := CarriedProperty().content[0].node;
    BuiltIsCanonical(Arr([Null]), ObjTag);
    assert GrammarItem(carrier.content[0], ObjTag);
    assert Grammar(carrier, Ordinary("a"));
    assert GrammarItem(CarriedProperty().content[0], Ordinary("a"));
    assert Classify(CarriedProperty()).Object?;
  }

  lemma CarriedObjectReads(b: Value)
    requires IsScalar(b)
    ensures var n := CarriedArray(b).content[0].node; FromNode(n) == Some(CarriedValue(b)) && Open(n)
  {
    var n := CarriedArray(b).content[0].node;
    CarriedPropertyReads();
    RoundTrip(b);
    PropertyRoundTrip(Entry("b", b));
    assert n.content[0] == Sub(PropertyNode("b", b)) && n.content[1] == Sub(CarriedProperty());
    assert Entries(n.content) == CarriedValue(b).entries;
    assert UniqueKeys(CarriedValue(b).entries);
  }

  lemma CarriedArrayAdmitted(b: Value)
    requires IsScalar(b)
    ensures Canonical(CarriedArray(b))
  {
    CarriedArrayShaped(b);
    CarriedObjectAdmitted(b);
    assert GrammarItem(CarriedArray(b).content[0], RootTag);
  }

  lemma CarriedObjectAdmitted(b: Value)
    requires IsScalar(b)
    ensures Grammar(CarriedArray(b).content[0].node, RootTag)
  {
    var n := CarriedArray(b).content[0].node;
    CarriedPropertyAdmitted();
    forall parent ensures Grammar(Build(b), parent) { BuiltIsCanonical(b, parent); }
    PropertyIsCanonical("b", b);
    assert n.content[0] == Sub(PropertyNode("b", b)) && n.content[1] == Sub(CarriedProperty());
    assert UniqueTags(n.content) && ShapeGrammar(n, RootTag);
    assert GrammarItem(n.content[0], ObjTag) && GrammarItem(n.content[1], ObjTag);
  }

  lemma CarriedArrayShaped(b: Value)
    ensures Shaped(CarriedArray(b))
  {
    var n := CarriedArray(b).content[0].node;
    BuiltIsShaped(b);
    BuiltIsShaped(Arr([Null]));
    assert ShapedItem(CarriedProperty().content[0].node.content[0]);
    assert ShapedItem(CarriedProperty().content[0]);
    assert ShapedItem(n.content[0]) && ShapedItem(n.content[1]);
    assert ShapedItem(CarriedArray(b).content[0]);
  }

  /** The item of a carried array is in the carrier, and not in the graph. */
  lemma CarriedItemHidden(b: Value)
    requires IsScalar(b)
    ensures ProjectLive(CarriedArray(b), [Key("a"), Index(0)]) == Success(None)
    ensures At(CarriedValue(b), [Key("a"), Index(0)]) == Some(Null)
  {
    var n, v := CarriedArray(b).content[0].node, CarriedValue(b);
    var path := [Key("a"), Index(0)];
    CarriedObjectReads(b);
    CarriedPropertyReads();
    StepsInto(n, v, path[0]);
    assert FindKey(v.entries, "a") == Some(1) by { assert v.entries[1..] == [Entry("a", Arr([Null]))]; }
    assert n.content[1].node == CarriedProperty();
    HiddenBelow(Unwrap(CarriedProperty()).value, Arr([Null]), Index(0));
    assert path[1..] == [Index(0)] && [Index(0)][1..] == [];
    assert Child(v, path[0]) == Some(Arr([Null])) && Child(Arr([Null]), Index(0)) == Some(Null);
  }

  lemma CarriedArrayTakesB(b: Value, x: Value)
    requires IsScalar(b) && IsScalar(x)
    ensures SetLive(CarriedArray(b), [Key("b")], x) == Some(CarriedArray(x))
    ensures Set(CarriedValue(b), [Key("b")], x) == Success(CarriedValue(x)) && At(CarriedValue(b), [Key("b")]) == Some(b)
  {
    var root, v, path := CarriedArray(b), CarriedValue(b), [Key("b")];
    var n := root.content[0].node;
    CarriedObjectReads(b);
    StepsInto(n, v, path[0]);
    assert FindKey(v.entries, "b") == Some(0) && n.content[0].node == PropertyNode("b", b);
    assert path[1..] == [] && Child(v, path[0]) == Some(b);
    assert v.entries[0 := Entry("b", x)] == CarriedValue(x).entries;
    OpenProjects(n, v);
    FindsProperty(n.content, "b");
    var n' := CarriedArray(x).content[0].node;
    assert n.content[0 := Sub(PropertyNode("b", x))] == n'.content;
    assert EditChild(n, path[0], Write(x)) == Some(n');
    assert root.content[0 := Sub(n')] == CarriedArray(x).content;
    assert EditAt(root, path, Write(x)) == Some(Rewrap(root, n')) == Some(CarriedArray(x));
    assert ProjectLive(root, path).Success?;
  }

  /** Two ordinary writes, one beside the carried array and one into it, and what planning records. */
  function CarriedWrites(): seq<WriteOp> {
    [SetOp([Key("b")], Bool(true)), ReplaceOp([Key("a"), Index(0)], Bool(true))]
  }

  function CarriedRecord(): seq<TransportOp> {
    [TSet([Key("b")], Some(Null), Bool(true)), TReplace([Key("a"), Index(0)], Some(Null), Bool(true))]
  }

  lemma CarriedWritesPlan()
    ensures AdmittedOps(CarriedWrites())
    ensures Plan(CarriedValue(Null), CarriedWrites()).Success?
    ensures Plan(CarriedValue(Null), CarriedWrites()).value.ops == CarriedRecord()
  {
    CarriedArrayTakesB(Null, Bool(true));
    OneWritePlans(CarriedValue(Null), [Key("b")], Bool(true));
    CarriedReplacePlans();
    PlanAppend(CarriedValue(Null), CarriedWrites()[..1], CarriedWrites()[1..]);
    assert CarriedWrites()[..1] + CarriedWrites()[1..] == CarriedWrites();
    assert CarriedRecord()[..1] + CarriedRecord()[1..] == CarriedRecord();
  }

  lemma CarriedReplacePlans()
    ensures Plan(CarriedValue(Bool(true)), CarriedWrites()[1..]).Success?
    ensures Plan(CarriedValue(Bool(true)), CarriedWrites()[1..]).value.ops == CarriedRecord()[1..]
  {
    var m, item := CarriedValue(Bool(true)), [Key("a"), Index(0)];
    CarriedItemHidden(Bool(true));
    WriteSucceedsIff(m, item, Bool(true), false);
    PlanOne(m, ReplaceOp(item, Bool(true)));
    assert CarriedWrites()[1..] == [ReplaceOp(item, Bool(true))];
  }

  /**
   * And no reserved key is needed: over this admitted graph a plan of two ordinary writes throws
   * with the first one in place, although no read or write of it touches a reserved key.
   */
  lemma CarriedArrayInterrupts()
    ensures Canonical(CarriedArray(Null)) && Projects(CarriedArray(Null), CarriedValue(Null))
    ensures var planned := Plan(CarriedValue(Null), CarriedWrites());
            && AdmittedOps(CarriedWrites()) && planned.Success?
            && CleanPrefix(planned.value.ops) == |planned.value.ops|
            && InstallDelta(CarriedArray(Null), planned.value.ops) == Interrupted(CarriedArray(Bool(true)))
    ensures CarriedArray(Bool(true)) != CarriedArray(Null)
  {
    CarriedArrayAdmitted(Null);
    CarriedObjectReads(Null);
    CarriedWritesPlan();
    CarriedDeltaStops();
  }

  lemma CarriedDeltaStops()
    ensures CleanPrefix(CarriedRecord()) == |CarriedRecord()|
    ensures InstallDelta(CarriedArray(Null), CarriedRecord()) == Interrupted(CarriedArray(Bool(true)))
    ensures CarriedArray(Bool(true)) != CarriedArray(Null)
  {
    var ops := CarriedRecord();
    CarriedArrayTakesB(Null, Bool(true));
    CarriedItemHidden(Bool(true));
    assert ops[1..] == [ops[1]] && [ops[1]][1..] == [];
    assert WritesClean(ops[0]) && WritesClean(ops[1]) && CleanPrefix(ops[1..]) == 1;
    CarriedObjectReads(Null);
    CarriedObjectReads(Bool(true));
  }
}
