/** What edits along paths leave alone, node for node and over whatever graph. */
module EditFrames {
  import opened Prelude
  import opened OrderedValue
  import opened ValueMutation
  import opened ValueLaws
  import opened Planner
  import opened HsonGraph
  import opened Projection
  import opened Editor
  import opened HeldGraphs
  import opened Install

  lemma TagOfInjective(a: string, b: string)
    requires TagOf(a) == TagOf(b)
    ensures a == b
  {
  }

  /** An edit of one child changes nothing of its parent but the content. */
  lemma ChildEditKeepsHead(n: Node, part: Part, edit: Edit)
    requires EditChild(n, part, edit).Some?
    ensures SameHead(EditChild(n, part, edit).value, n) && (n.tag.ObjTag? || n.tag.ArrTag?)
  {
  }

  lemma Rewrapped(w: Node, n: Node)
    requires Unwrap(w).Some? && SameHead(n, Unwrap(w).value)
    ensures Unwrap(Rewrap(w, n)) == Some(n) && SameHead(Rewrap(w, n), w)
  {
  }

  /** No edit changes the tag, the attributes or the metadata of the node it goes through. */
  lemma {:induction false} EditKeepsHead(w: Node, path: Path, edit: Edit)
    requires path != [] && EditAt(w, path, edit).Some?
    ensures var w' := EditAt(w, path, edit).value;
            && SameHead(w', w) && Unwrap(w).Some? && Unwrap(w').Some? && SameHead(Unwrap(w').value, Unwrap(w).value)
    decreases |path|
  {
    var n := Unwrap(w).value;
    if |path| == 1 {
      ChildEditKeepsHead(n, path[0], edit);
      Rewrapped(w, EditChild(n, path[0], edit).value);
    } else {
      var i := FindWrapper(n, path[0]).value;
      var n' := n.(content := n.content[i := Sub(EditAt(n.content[i].node, path[1..], edit).value)]);
      Rewrapped(w, n');
    }
  }

  // ---------------------------------------------------------------- other children

  /** Exchanging one child for another of its tag leaves every search where it was. */
  lemma {:induction false} FoundAfterExchange(content: seq<Item>, i: nat, item: Item, tag: Tag)
    requires i < |content| && IsNode(content[i]) && IsNode(item) && item.node.tag == content[i].node.tag
    ensures FirstTagged(content[i := item], tag) == FirstTagged(content, tag)
    decreases |content|
  {
    if i > 0 {
      FoundAfterExchange(content[1..], i - 1, item, tag);
      assert content[i := item][1..] == content[1..][i - 1 := item];
    } else {
      assert content[0 := item][1..] == content[1..];
    }
  }

  lemma {:induction false} FoundAfterAppend(content: seq<Item>, item: Item, tag: Tag)
    requires IsNode(item) && item.node.tag != tag
    ensures FirstTagged(content + [item], tag) == FirstTagged(content, tag)
    decreases |content|
  {
    if content != [] {
      FoundAfterAppend(content[1..], item, tag);
      assert (content + [item])[1..] == content[1..] + [item];
    }
  }

  /** The child a search finds. */
  function Found(content: seq<Item>, tag: Tag): Option<Item> {
    var i := FirstTagged(content, tag);
    if i.Some? then Some(content[i.value]) else None
  }

  lemma FoundBehind(item: Item, rest: seq<Item>, tag: Tag)
    ensures Found([item] + rest, tag) == if IsNodeTagged(item, tag) then Some(item) else Found(rest, tag)
  {
    assert ([item] + rest)[1..] == rest;
  }

  lemma {:induction false} FoundJoined(a: seq<Item>, b: seq<Item>, tag: Tag)
    ensures Found(a + b, tag) == if Found(a, tag).Some? then Found(a, tag) else Found(b, tag)
    decreases |a|
  {
    if a == [] {
      assert a + b == b;
    } else {
      assert a + b == [a[0]] + (a[1..] + b) && a == [a[0]] + a[1..];
      FoundBehind(a[0], a[1..] + b, tag);
      FoundBehind(a[0], a[1..], tag);
      FoundJoined(a[1..], b, tag);
    }
  }

  /** Taking out a child of another tag leaves the same child to be found. */
  lemma FoundAfterRemoval(content: seq<Item>, i: nat, tag: Tag)
    requires i < |content| && !IsNodeTagged(content[i], tag)
    ensures Found(content[..i] + content[i + 1..], tag) == Found(content, tag)
  {
    var before, after := content[..i], content[i + 1..];
    assert content == before + ([content[i]] + after);
    FoundBehind(content[i], after, tag);
    FoundJoined(before, [content[i]] + after, tag);
    FoundJoined(before, after, tag);
  }

  /** The child another part leads to is the very same node. */
  predicate SameFound(n: Node, n': Node, part: Part) {
    var before, after := FindWrapper(n, part), FindWrapper(n', part);
    (before.Some? <==> after.Some?) && (before.Some? ==> n'.content[after.value] == n.content[before.value])
  }

  lemma ChildEditFrame(n: Node, part: Part, edit: Edit, other: Part)
    requires EditChild(n, part, edit).Some? && other != part
    ensures SameFound(n, EditChild(n, part, edit).value, other)
  {
    if n.tag.ObjTag? && other.Key? {
      if TagOf(part.key) == TagOf(other.key) { TagOfInjective(part.key, other.key); }
      var i := FirstTagged(n.content, TagOf(part.key));
      if edit.Write? {
        var wrapper := Sub(PropertyNode(part.key, edit.value));
        TagOfUnreserved(part.key);
        if i.None? { FoundAfterAppend(n.content, wrapper, TagOf(other.key)); }
        else { FoundAfterExchange(n.content, i.value, wrapper, TagOf(other.key)); }
      } else if i.Some? {
        FoundAfterRemoval(n.content, i.value, TagOf(other.key));
      }
    }
  }

  lemma ExchangeFrame(n: Node, part: Part, child: Node, other: Part)
    requires FindWrapper(n, part).Some? && SameHead(child, n.content[FindWrapper(n, part).value].node)
    ensures var n' := n.(content := n.content[FindWrapper(n, part).value := Sub(child)]);
            && (other != part ==> SameFound(n, n', other))
            && FindWrapper(n', part) == FindWrapper(n, part)
  {
    var i := FindWrapper(n, part).value;
    if n.tag.ObjTag? {
      FoundAfterExchange(n.content, i, Sub(child), TagOf(part.key));
      if other.Key? {
        FoundAfterExchange(n.content, i, Sub(child), TagOf(other.key));
        if TagOf(part.key) == TagOf(other.key) { TagOfInjective(part.key, other.key); }
      }
    }
  }

  // ---------------------------------------------------------------- other paths

  lemma ResolvedAfter(w: Node, w': Node, n: Node, n': Node, other: Path)
    requires Unwrap(w) == Some(n) && Unwrap(w') == Some(n') && other != [] && SameFound(n, n', other[0])
    ensures ResolveValue(w', other) == ResolveValue(w, other)
  {
  }

  /** Every path that parts from the edited one leads to the very same node as before, metadata and all. */
  lemma {:induction false} EditFrame(w: Node, path: Path, edit: Edit, other: Path)
    requires path != [] && EditAt(w, path, edit).Some? && Diverge(path, other)
    ensures ResolveValue(EditAt(w, path, edit).value, other) == ResolveValue(w, other)
    decreases |path|
  {
    var n, w' := Unwrap(w).value, EditAt(w, path, edit).value;
    if |path| == 1 {
      var n' := EditChild(n, path[0], edit).value;
      assert path[1..] == [];
      ChildEditKeepsHead(n, path[0], edit);
      Rewrapped(w, n');
      ChildEditFrame(n, path[0], edit, other[0]);
      ResolvedAfter(w, w', n, n', other);
    } else {
      var i := FindWrapper(n, path[0]).value;
      var child, child' := n.content[i].node, EditAt(n.content[i].node, path[1..], edit).value;
      var n' := n.(content := n.content[i := Sub(child')]);
      EditKeepsHead(child, path[1..], edit);
      Rewrapped(w, n');
      ExchangeFrame(n, path[0], child', other[0]);
      if other[0] == path[0] {
        EditFrame(child, path[1..], edit, other[1..]);
      } else {
        ResolvedAfter(w, w', n, n', other);
      }
    }
  }

  /** The nodes an edit passes through on its way keep their tags, attributes and metadata. */
  lemma {:induction false} EditKeepsHeads(w: Node, path: Path, edit: Edit, n: nat)
    requires n < |path| && EditAt(w, path, edit).Some?
    ensures var before, after := ResolveValue(w, path[..n]), ResolveValue(EditAt(w, path, edit).value, path[..n]);
            before.Some? && after.Some? && SameHead(after.value, before.value)
    decreases n
  {
    EditKeepsHead(w, path, edit);
    if n == 0 {
      assert path[..0] == [];
    } else {
      var value := Unwrap(w).value;
      var i := FindWrapper(value, path[0]).value;
      var child, child' := value.content[i].node, EditAt(value.content[i].node, path[1..], edit).value;
      EditKeepsHead(child, path[1..], edit);
      ExchangeFrame(value, path[0], child', path[0]);
      Rewrapped(w, value.(content := value.content[i := Sub(child')]));
      EditKeepsHeads(child, path[1..], edit, n - 1);
      assert path[..n][0] == path[0] && path[..n][1..] == path[1..][..n - 1];
    }
  }

  // ---------------------------------------------------------------- whole deltas

  predicate AllPart(ops: seq<TransportOp>, other: Path) {
    forall i | 0 <= i < |ops| :: Diverge(ops[i].path, other)
  }

  lemma OneFrame(root: Node, op: TransportOp, other: Path)
    requires InstallOne(root, op).Some? && Diverge(op.path, other)
    ensures ResolveValue(InstallOne(root, op).value, other) == ResolveValue(root, other)
  {
    EditFrame(root, op.path, if op.TDelete? then Remove else Write(Next(op).value), other);
  }

  /** A delta, through or interrupted, leaves the very nodes its operations' paths part from. */
  lemma {:induction false} DeltaFrame(root: Node, ops: seq<TransportOp>, other: Path)
    requires AllPart(ops, other)
    ensures ResolveValue(InstallDelta(root, ops).root, other) == ResolveValue(root, other)
    ensures ProjectLive(InstallDelta(root, ops).root, other) == ProjectLive(root, other)
    decreases |ops|
  {
    if ops != [] && InstallOne(root, ops[0]).Some? {
      OneFrame(root, ops[0], other);
      DeltaFrame(InstallOne(root, ops[0]).value, ops[1..], other);
    }
  }

  // ---------------------------------------------------------------- when an edit goes through

  lemma {:induction false} EditSucceedsIff(w: Node, path: Path, edit: Edit)
    requires path != []
    ensures var parent := ResolveValue(w, path[..|path| - 1]);
            EditAt(w, path, edit).Some? <==> parent.Some? && EditChild(parent.value, path[|path| - 1], edit).Some?
    decreases |path|
  {
    if |path| > 1 && Unwrap(w).Some? {
      var n := Unwrap(w).value;
      assert path[..|path| - 1][0] == path[0];
      assert path[1..][..|path| - 2] == path[..|path| - 1][1..];
      var i := FindWrapper(n, path[0]);
      if i.Some? { EditSucceedsIff(n.content[i.value].node, path[1..], edit); }
    }
  }

  /** What stands at a path, if anything, is a value. */
  predicate EndpointReads(root: Node, path: Path) {
    ResolveValue(root, path).Some? ==> FromNode(ResolveValue(root, path).value).Some?
  }

  /** A buildable value can be put here: under an unreserved key of an object, or over an item of an array. */
  predicate Takes(parent: Option<Node>, part: Part, x: Value) {
    && parent.Some? && Clean(x)
    && (if part.Key? then parent.value.tag == ObjTag && !Reserved(part.key) else FindWrapper(parent.value, part).Some?)
  }

  /**
   * Over whatever graph, an operation below the root edits it iff what its path names is a value, and a
   * value can be put there; a replace and a delete also need one to be there, and a delete an object entry.
   */
  lemma InstallOneSucceedsIff(root: Node, op: TransportOp)
    requires op.path != []
    ensures var parent, part := ResolveValue(root, op.path[..|op.path| - 1]), op.path[|op.path| - 1];
            InstallOne(root, op).Some? <==>
              && EndpointReads(root, op.path)
              && (op.TSet? || ResolveValue(root, op.path).Some?)
              && (if op.TDelete? then parent.Some? && parent.value.tag == ObjTag && part.Key? else Takes(parent, part, Next(op).value))
  {
    EditSucceedsIff(root, op.path, EditOf(op));
  }
}
