/** The branch edits of an admitted graph leave an admitted graph. */
module AdmittedGraphs {
  import opened Prelude
  import opened OrderedValue
  import opened ValueMutation
  import opened Planner
  import opened PlannerLaws
  import opened HsonGraph
  import opened ArrayIndexes
  import opened Projection
  import opened Editor
  import opened HeldGraphs
  import opened Install
  import opened Invariants

  /** A data graph a map may own: admitted by the grammar, read as this carrier, without carriers in the way. */
  predicate Owned(root: Node, v: Value) {
    Canonical(root) && root.tag != ElemTag && Held(root, v)
  }

  // ---------------------------------------------------------------- one node

  lemma ObjectStaysAdmitted(n: Node, n': Node, parent: Tag)
    requires n.tag.ObjTag? && Grammar(n, parent) && SameHead(n', n) && Open(n') && FromNode(n').Some?
    requires forall i | 0 <= i < |n'.content| :: ObjectChild(n'.content[i]) && GrammarItem(n'.content[i], ObjTag)
    ensures Grammar(n', parent)
  {
    var v := FromNode(n').value;
    OpenProjects(n', v);
    forall i, j | 0 <= i < j < |n'.content| ensures n'.content[i].node.tag != n'.content[j].node.tag {
      assert FromProperty(n'.content[i]).value == v.entries[i] && FromProperty(n'.content[j]).value == v.entries[j];
      assert v.entries[i].key != v.entries[j].key;
    }
  }

  lemma ArrayStaysAdmitted(n: Node, n': Node, parent: Tag)
    requires n.tag.ArrTag? && Grammar(n, parent) && SameHead(n', n) && FromNode(n').Some?
    requires forall i | 0 <= i < |n'.content| :: GrammarItem(n'.content[i], ArrTag)
    ensures Grammar(n', parent)
  {
    OpenProjects(n', FromNode(n').value);
    forall k: nat | k < |n'.content|
      ensures HasIndex(n'.content[k]) && IndexOf(n'.content[k]) == Decimal(k) && IsItem(n'.content[k])
    {
      assert FromElement(n'.content[k], k).Some?;
    }
    CanonicalIsArranged(n'.content);
  }

  /** A wrapper around an admitted node of the same kind stays admitted. */
  lemma WrapperStaysAdmitted(w: Node, n': Node, parent: Tag)
    requires Grammar(w, parent) && w.tag != ElemTag && Unwrap(w).Some? && Open(Unwrap(w).value)
    requires SameHead(n', Unwrap(w).value)
    requires Grammar(n', if IsValueTag(w.tag) then parent else w.tag)
    ensures Grammar(Rewrap(w, n'), parent)
  {
    if !IsValueTag(w.tag) {
      assert GrammarItem(w.content[0], w.tag);
      var w' := Rewrap(w, n');
      assert |w.content| == 1 by {
        if w.tag.Ordinary? { assert |w.content| == 1; }
      }
      assert w'.content == [Sub(n')];
      assert GrammarItem(Sub(n'), w.tag);
    }
  }

  lemma BuiltWrappersAdmitted(key: string, index: nat, x: Value)
    requires WellFormed(x) && Clean(x) && !Reserved(key)
    ensures GrammarItem(Sub(PropertyNode(key, x)), ObjTag) && ObjectChild(Sub(PropertyNode(key, x)))
    ensures GrammarItem(Sub(ItemNode(index, x)), ArrTag)
  {
    forall parent ensures Grammar(Build(x), parent) { BuiltIsCanonical(x, parent); }
    PropertyIsCanonical(key, x);
    ItemIsCanonical(index, x);
  }

  /** A child of an edited node: one it had before, or the wrapper just built. */
  predicate FitsIn(n: Node, item: Item) {
    GrammarItem(item, n.tag) && (n.tag.ObjTag? ==> ObjectChild(item))
  }

  lemma ContentStaysAdmitted(n: Node, n': Node, parent: Tag)
    requires Grammar(n, parent) && Open(n) && Open(n') && SameHead(n', n) && FromNode(n').Some?
    requires forall item | item in n'.content :: item in n.content || FitsIn(n, item)
    ensures Grammar(n', parent)
  {
    forall i | 0 <= i < |n'.content| ensures FitsIn(n, n'.content[i]) {
      assert n'.content[i] in n'.content;
      if n'.content[i] in n.content {
        var j :| 0 <= j < |n.content| && n.content[j] == n'.content[i];
        assert GrammarItem(n.content[j], n.tag);
      }
    }
    if n.tag.ObjTag? { ObjectStaysAdmitted(n, n', parent); } else { ArrayStaysAdmitted(n, n', parent); }
  }

  /** The wrapper a write puts in. */
  function WrapperOf(part: Part, x: Value): Item {
    match part
    case Key(key) => Sub(PropertyNode(key, x))
    case Index(i) => Sub(ItemNode(if i >= 0 then i else 0, x))
  }

  lemma EditChildContent(n: Node, part: Part, edit: Edit)
    requires EditChild(n, part, edit).Some?
    ensures var n' := EditChild(n, part, edit).value;
            forall item | item in n'.content :: item in n.content || (edit.Write? && item == WrapperOf(part, edit.value))
  {
  }

  lemma ChildEditStaysAdmitted(n: Node, v: Value, parent: Tag, part: Part, edit: Edit)
    requires Grammar(n, parent) && FromNode(n) == Some(v) && Direct(n, true) && Open(n)
    requires EditAdmitted([part], edit) && Edited(v, [part], edit).Success?
    ensures EditChild(n, part, edit).Some? && Grammar(EditChild(n, part, edit).value, parent)
  {
    ChildEdited(n, v, part, edit);
    EditChildContent(n, part, edit);
    assert [part][0] == part;
    if edit.Write? {
      OpenProjects(n, v);
      BuiltWrappersAdmitted(if part.Key? then part.key else "", if part.Index? && part.index >= 0 then part.index else 0, edit.value);
      assert FitsIn(n, WrapperOf(part, edit.value));
    }
    ContentStaysAdmitted(n, EditChild(n, part, edit).value, parent);
  }

  /** The value node of an admitted wrapper is admitted where it stands. */
  lemma UnwrappedIsAdmitted(w: Node, parent: Tag)
    requires Grammar(w, parent) && Unwrap(w).Some? && !w.tag.StrTag? && !w.tag.ValTag?
    ensures Grammar(Unwrap(w).value, if IsValueTag(w.tag) then parent else w.tag)
  {
    if !IsValueTag(w.tag) { assert GrammarItem(w.content[0], w.tag); }
  }

  lemma ParentStaysAdmitted(n: Node, v: Value, parent: Tag, part: Part, c': Node, x: Value)
    requires Grammar(n, parent) && FromNode(n) == Some(v) && Direct(n, true) && Open(n) && Child(v, part).Some?
    requires FindWrapper(n, part).Some?
    requires var c := n.content[FindWrapper(n, part).value].node;
             && Unwrap(c).Some? && Unwrap(c').Some? && c' == Rewrap(c, Unwrap(c').value)
             && SameHead(Unwrap(c').value, Unwrap(c).value) && !IsValueTag(c.tag)
    requires FromNode(Unwrap(c').value) == Some(x) && Direct(Unwrap(c').value, true) && Grammar(c', n.tag)
    ensures Grammar(n.(content := n.content[FindWrapper(n, part).value := Sub(c')]), parent)
  {
    ParentEdited(n, v, part, c', x);
    var i := FindWrapper(n, part).value;
    var n' := n.(content := n.content[i := Sub(c')]);
    assert FitsIn(n, n.content[i]) by { assert GrammarItem(n.content[i], n.tag); }
    assert FitsIn(n, Sub(c'));
    forall item | item in n'.content ensures item in n.content || item == Sub(c') {}
    ContentStaysAdmitted(n, n', parent);
  }

  /** A branch edit of an admitted held graph leaves an admitted graph. */
  lemma {:induction false} EditStaysAdmitted(w: Node, v: Value, parent: Tag, path: Path, edit: Edit)
    requires Grammar(w, parent) && w.tag != ElemTag && Held(w, v)
    requires path != [] && EditAdmitted(path, edit) && Edited(v, path, edit).Success?
    ensures EditAt(w, path, edit).Some? && Grammar(EditAt(w, path, edit).value, parent)
    decreases |path|
  {
    EditHolds(w, v, path, edit);
    EditedIsSteppable(v, path, edit);
    var n := Unwrap(w).value;
    var above := if IsValueTag(w.tag) then parent else w.tag;
    UnwrappedIsAdmitted(w, parent);
    if |path| == 1 {
      assert path == [path[0]];
      ChildEdited(n, v, path[0], edit);
      ChildEditStaysAdmitted(n, v, above, path[0], edit);
      WrapperStaysAdmitted(w, EditChild(n, path[0], edit).value, parent);
    } else {
      var n' := DeeperEditStaysAdmitted(n, v, above, path, edit);
      WrapperStaysAdmitted(w, n', parent);
    }
  }

  lemma {:induction false} DeeperEditStaysAdmitted(n: Node, v: Value, above: Tag, path: Path, edit: Edit) returns (n': Node)
    requires Grammar(n, above) && FromNode(n) == Some(v) && Direct(n, true) && Open(n)
    requires |path| > 1 && EditAdmitted(path, edit) && Edited(v, path, edit).Success?
    ensures FindWrapper(n, path[0]).Some?
    ensures var i := FindWrapper(n, path[0]).value;
            && EditAt(n.content[i].node, path[1..], edit).Some?
            && n' == n.(content := n.content[i := Sub(EditAt(n.content[i].node, path[1..], edit).value)])
    ensures Grammar(n', above)
    decreases |path|, 0
  {
    EditedIsSteppable(v, path, edit);
    StepsInto(n, v, path[0]);
    var i, child := FindWrapper(n, path[0]).value, Child(v, path[0]).value;
    var c := n.content[i].node;
    assert DirectWrapper(n.content[i], true) && GrammarItem(n.content[i], n.tag);
    assert c.tag != ElemTag by { OpenProjects(n, v); }
    assert forall k | 0 <= k < |path[1..]| :: path[1..][k] == path[k + 1];
    EditHolds(c, child, path[1..], edit);
    EditStaysAdmitted(c, child, n.tag, path[1..], edit);
    var c' := EditAt(c, path[1..], edit).value;
    n' := n.(content := n.content[i := Sub(c')]);
    ParentStaysAdmitted(n, v, above, path[0], c', Edited(child, path[1..], edit).value);
  }

  // ---------------------------------------------------------------- shape

  lemma ChildEditKeepsShape(n: Node, part: Part, edit: Edit)
    requires Shaped(n) && !n.tag.StrTag? && !n.tag.ValTag? && EditChild(n, part, edit).Some?
    ensures Shaped(EditChild(n, part, edit).value)
  {
    EditChildContent(n, part, edit);
    var n' := EditChild(n, part, edit).value;
    if edit.Write? { BuiltIsShaped(edit.value); }
    forall i | 0 <= i < |n'.content| ensures ShapedItem(n'.content[i]) {
      assert n'.content[i] in n'.content;
      if n'.content[i] in n.content {
        var j :| 0 <= j < |n.content| && n.content[j] == n'.content[i];
        assert ShapedItem(n.content[j]);
      }
    }
  }

  lemma RewrapKeepsShape(w: Node, n: Node)
    requires Shaped(w) && Unwrap(w).Some? && Shaped(n)
    ensures Shaped(Rewrap(w, n))
  {
    assert ShapedItem(Sub(n));
    if !IsValueTag(w.tag) {
      forall i | 0 <= i < |Rewrap(w, n).content| ensures ShapedItem(Rewrap(w, n).content[i]) {
        if i > 0 { assert ShapedItem(w.content[i]); }
      }
    }
  }

  lemma UnwrapKeepsShape(w: Node)
    requires Shaped(w) && Unwrap(w).Some?
    ensures Shaped(Unwrap(w).value)
  {
    if !IsValueTag(w.tag) { assert ShapedItem(w.content[0]); }
  }

  /** No branch edit that goes through leaves anything misshapen. */
  lemma {:induction false} EditKeepsShape(w: Node, path: Path, edit: Edit)
    requires path != [] && Shaped(w) && EditAt(w, path, edit).Some?
    ensures Shaped(EditAt(w, path, edit).value)
    decreases |path|
  {
    UnwrapKeepsShape(w);
    var n := Unwrap(w).value;
    if |path| == 1 {
      ChildEditKeepsShape(n, path[0], edit);
      RewrapKeepsShape(w, EditChild(n, path[0], edit).value);
    } else {
      var i := FindWrapper(n, path[0]).value;
      assert ShapedItem(n.content[i]);
      EditKeepsShape(n.content[i].node, path[1..], edit);
      var child := EditAt(n.content[i].node, path[1..], edit).value;
      var n' := n.(content := n.content[i := Sub(child)]);
      forall j | 0 <= j < |n'.content| ensures ShapedItem(n'.content[j]) {
        if j != i { assert ShapedItem(n.content[j]); }
      }
      RewrapKeepsShape(w, n');
    }
  }

  // ---------------------------------------------------------------- installs

  lemma InstallOneStaysAdmitted(root: Node, v: Value, op: TransportOp, w: Value)
    requires Owned(root, v) && Replays(v, op, w) && AdmittedRecord([op]) && WritesClean(op)
    ensures InstallOne(root, op).Some? && Owned(InstallOne(root, op).value, w)
  {
    HeldIsClean(root, v);
    InstallOneHolds(root, v, op, w);
    if op.path == [] {
      HeldIsClean(InstallOne(root, op).value, w);
      ApplyOneReaches(v, op, w);
      ProjectedIsCanonical(w);
    } else {
      OperationInstalls(root, v, op, w);
      EditStaysAdmitted(root, v, root.tag, op.path, EditOf(op));
      EditKeepsShape(root, op.path, EditOf(op));
      EditKeepsTag(root, op.path, EditOf(op));
    }
  }

  /** So a delta over an owned graph leaves an owned graph, as far as it goes. */
  lemma {:induction false} InstallStaysOwned(root: Node, v: Value, ops: seq<TransportOp>, w: Value)
    requires Owned(root, v) && ReplaysAll(v, ops, w) && AdmittedRecord(ops)
    ensures Canonical(InstallDelta(root, ops).root) && InstallDelta(root, ops).root.tag != ElemTag
    decreases |ops|
  {
    if ops != [] {
      var m := ReplaysFirst(v, ops, w);
      assert AdmittedRecord([ops[0]]) && AdmittedRecord(ops[1..]);
      InstallOneHolds(root, v, ops[0], m);
      if WritesClean(ops[0]) {
        InstallOneStaysAdmitted(root, v, ops[0], m);
        InstallStaysOwned(InstallOne(root, ops[0]).value, m, ops[1..], w);
      }
    }
  }
}
