/**
 * Whatever graph the canonical grammar admits and a carrier is read from: which paths read alike
 * through the graph and through the carrier, and which branch edits the graph follows.
 */
module HeldGraphs {
  import opened Prelude
  import opened OrderedValue
  import opened ValueMutation
  import opened ValueLaws
  import opened HsonGraph
  import opened Projection
  import opened Editor

  // ---------------------------------------------------------------- direct graphs

  /** Whether paths lead below a value: into a non-empty container, and for writes into any object. */
  predicate Steppable(v: Value, writes: bool) {
    (v.Obj? && (writes || v.entries != [])) || (v.Arr? && v.items != [])
  }

  /** The node is the object or the array itself, and no carrier around one. */
  predicate Open(n: Node) {
    n.tag.ArrTag? || (n.tag.ObjTag? && !Transparent(n.content))
  }

  /** Every value that paths lead below is its own node: no carrier stands around it. */
  predicate Direct(n: Node, writes: bool)
    decreases n
  {
    && FromNode(n).Some?
    && (Steppable(FromNode(n).value, writes) ==>
          Open(n) && forall i | 0 <= i < |n.content| :: DirectWrapper(n.content[i], writes))
  }

  /** The same of the one value inside a property or an array item. */
  predicate DirectWrapper(item: Item, writes: bool)
    decreases item
  {
    && item.Sub? && |item.node.content| == 1 && item.node.content[0].Sub?
    && Direct(item.node.content[0].node, writes)
  }

  /** The graph reads as this carrier. */
  predicate Projects(w: Node, v: Value) {
    Unwrap(w).Some? && FromNode(Unwrap(w).value) == Some(v)
  }

  /** It does, and no carrier stands between a path and what it leads below. */
  predicate Held(w: Node, v: Value) {
    Projects(w, v) && Direct(Unwrap(w).value, true)
  }

  lemma {:induction false} DirectForReads(n: Node)
    requires Direct(n, true)
    ensures Direct(n, false)
    decreases n
  {
    if Steppable(FromNode(n).value, false) {
      forall i | 0 <= i < |n.content| ensures DirectWrapper(n.content[i], false) {
        assert DirectWrapper(n.content[i], true);
        assert n.content[i].node.content[0].node < n;
        DirectForReads(n.content[i].node.content[0].node);
      }
    }
  }

  // ---------------------------------------------------------------- one step

  /** An open node's projection, child by child. */
  lemma OpenProjects(n: Node, v: Value)
    requires Open(n) && FromNode(n) == Some(v)
    ensures n.tag.ObjTag? ==>
              && (forall i | 0 <= i < |n.content| :: FromProperty(n.content[i]).Some?)
              && v == Obj(Entries(n.content)) && UniqueKeys(v.entries)
    ensures n.tag.ArrTag? ==>
              && v.Arr? && |v.items| == |n.content|
              && forall i: nat | i < |n.content| :: FromElement(n.content[i], i) == Some(v.items[i])
  {
    if n.tag.ObjTag? {
      assert FromNode(n).value.entries == Entries(n.content);
    }
  }

  lemma {:induction false} FindsProperty(content: seq<Item>, key: string)
    requires forall i | 0 <= i < |content| :: FromProperty(content[i]).Some?
    ensures FirstTagged(content, TagOf(key)) == FindKey(Entries(content), key)
  {
    if content != [] {
      var name := content[0].node.tag.name;
      assert TagOf(key) == Ordinary(name) <==> key == name;
      FindsProperty(content[1..], key);
      assert Entries(content)[1..] == Entries(content[1..]);
    }
  }

  /** The wrapper a part leads to is found exactly when the carrier has that child, and holds it. */
  lemma StepsInto(n: Node, v: Value, part: Part)
    requires Open(n) && FromNode(n) == Some(v)
    ensures FindWrapper(n, part).Some? <==> Child(v, part).Some?
    ensures Child(v, part).Some? ==>
              var c := n.content[FindWrapper(n, part).value].node;
              && !IsValueTag(c.tag) && |c.content| == 1 && Projects(c, Child(v, part).value)
              && Unwrap(c).value < n
    ensures Child(v, part).Some? && part.Key? ==> FindWrapper(n, part) == FindKey(v.entries, part.key)
    ensures Child(v, part).Some? && part.Index? ==> FindWrapper(n, part) == Some(part.index)
  {
    OpenProjects(n, v);
    if n.tag.ObjTag? {
      if part.Key? {
        FindsProperty(n.content, part.key);
        if FindKey(v.entries, part.key).Some? {
          var item := n.content[FindKey(v.entries, part.key).value];
          assert FromProperty(item).value == v.entries[FindKey(v.entries, part.key).value];
          assert item.node.content[0].node < item;
        }
      }
    } else if part.Index? && 0 <= part.index < |n.content| {
      var item := n.content[part.index];
      assert FromElement(item, part.index) == Some(v.items[part.index]);
      assert FromItem(item.node.content[0]) == FromNode(item.node.content[0].node);
      assert item.node.content[0].node < item;
    }
  }

  // ---------------------------------------------------------------- reads

  /** A path runs into a carrier of a value without children, by the tag of what the carrier holds. */
  predicate Leaks(n: Node, path: Path)
    decreases |path|
  {
    path != [] &&
    match FindWrapper(n, path[0])
    case None => false
    case Some(i) =>
      if n.tag.ObjTag? && Transparent(n.content) then |path| == 1 || Leaks(n.content[i].node, path[1..])
      else Unwrap(n.content[i].node).Some? && Leaks(Unwrap(n.content[i].node).value, path[1..])
  }

  /** Below a value without children the graph resolves carriers only, and they all hold that value. */
  lemma {:induction false} CarriersRead(w: Node, v: Value, path: Path)
    requires Projects(w, v) && !Steppable(v, false) && path != []
    ensures At(v, path).None?
    ensures ProjectLive(w, path) == Success(if Leaks(Unwrap(w).value, path) then Some(v) else None)
    decreases |path|
  {
    var n := Unwrap(w).value;
    assert Child(v, path[0]).None?;
    var found := FindWrapper(n, path[0]);
    if Open(n) {
      OpenProjects(n, v);
    } else if found.Some? {
      var c := n.content[0].node;
      assert found == Some(0) && Unwrap(c) == Some(c) && FromNode(c) == FromItem(n.content[0]);
      if |path| == 1 {
        assert path[1..] == [] && ResolveValue(c, []) == Some(c);
      } else {
        CarriersRead(c, v, path[1..]);
      }
    }
  }

  /** Reading through a direct graph is reading the carrier, exactly when the path does not leak. */
  lemma {:induction false} ReadsAgreeIff(w: Node, v: Value, path: Path)
    requires Projects(w, v) && Direct(Unwrap(w).value, false)
    ensures ProjectLive(w, path).Success?
    ensures ProjectLive(w, path) == Success(At(v, path)) <==> !Leaks(Unwrap(w).value, path)
    decreases |path|
  {
    var n := Unwrap(w).value;
    if path != [] {
      if !Steppable(v, false) {
        CarriersRead(w, v, path);
      } else {
        StepsInto(n, v, path[0]);
        if Child(v, path[0]).Some? {
          var i := FindWrapper(n, path[0]).value;
          assert DirectWrapper(n.content[i], false);
          ReadsAgreeIff(n.content[i].node, Child(v, path[0]).value, path[1..]);
        }
      }
    }
  }

  lemma {:induction false} UnreservedDoesNotLeak(n: Node, path: Path)
    requires UnreservedKeys(path)
    ensures !Leaks(n, path)
    decreases |path|
  {
    if path != [] && FindWrapper(n, path[0]).Some? {
      if path[0].Key? { TagOfUnreserved(path[0].key); }
      var i := FindWrapper(n, path[0]).value;
      forall k | 0 <= k < |path[1..]| ensures path[1..][k] == path[k + 1] {}
      if !(n.tag.ObjTag? && Transparent(n.content)) && Unwrap(n.content[i].node).Some? {
        UnreservedDoesNotLeak(Unwrap(n.content[i].node).value, path[1..]);
      }
    }
  }

  /** The part that names the i-th child of an open node. */
  function PartAt(v: Value, i: nat): Part
    requires (v.Obj? && i < |v.entries|) || (v.Arr? && i < |v.items|)
  {
    if v.Obj? then Key(v.entries[i].key) else Index(i)
  }

  lemma PartFinds(n: Node, v: Value, i: nat)
    requires Open(n) && FromNode(n) == Some(v) && i < |n.content|
    ensures (v.Obj? && i < |v.entries|) || (v.Arr? && i < |v.items|)
    ensures var part := PartAt(v, i);
            Child(v, part).Some? && FindWrapper(n, part) == Some(i) && (part.Key? ==> !Reserved(part.key))
  {
    OpenProjects(n, v);
    var part := PartAt(v, i);
    if v.Obj? {
      assert FromProperty(n.content[i]).value == v.entries[i];
      var key := v.entries[i].key;
      assert v.entries[i].key == key && FindKey(v.entries, key) == Some(i);
    }
    StepsInto(n, v, part);
  }

  /** Where a carrier stands around a non-empty container, an unreserved path reads differently. */
  lemma {:induction false} CarrierHidesChild(w: Node, v: Value) returns (path: Path)
    requires Projects(w, v) && !Direct(Unwrap(w).value, false)
    ensures UnreservedKeys(path) && ProjectLive(w, path) != Success(At(v, path))
    decreases Unwrap(w).value
  {
    var n := Unwrap(w).value;
    ProjectedIsWellFormed(n);
    if !Open(n) {
      path := [PartAt(v, 0)];
      HiddenBelow(n, v, path[0]);
      if v.Obj? {
        var key := v.entries[0].key;
        assert FindKey(v.entries, key).Some?;
      }
      assert FindWrapper(n, path[0]).None?;
    } else {
      var i: nat :| i < |n.content| && !DirectWrapper(n.content[i], false);
      PartFinds(n, v, i);
      var part := PartAt(v, i);
      StepsInto(n, v, part);
      var rest := CarrierHidesChild(n.content[i].node, Child(v, part).value);
      path := [part] + rest;
      assert path[1..] == rest;
    }
  }

  /** Nothing is found through a carrier under an unreserved key or an index. */
  lemma HiddenBelow(n: Node, v: Value, part: Part)
    requires FromNode(n) == Some(v) && !Open(n) && (part.Key? ==> !Reserved(part.key))
    ensures FindWrapper(n, part).None?
  {
    if part.Key? { TagOfUnreserved(part.key); }
  }

  /**
   * Every unreserved path reads alike through the graph and the carrier, exactly when no carrier
   * stands around a non-empty container.
   */
  lemma AllReadsAgreeIff(w: Node, v: Value)
    requires Projects(w, v)
    ensures (forall path | UnreservedKeys(path) :: ProjectLive(w, path) == Success(At(v, path)))
              <==> Direct(Unwrap(w).value, false)
  {
    if Direct(Unwrap(w).value, false) {
      forall path | UnreservedKeys(path) ensures ProjectLive(w, path) == Success(At(v, path)) {
        UnreservedDoesNotLeak(Unwrap(w).value, path);
        ReadsAgreeIff(w, v, path);
      }
    } else {
      var path := CarrierHidesChild(w, v);
    }
  }

  /** Leaks exist below every property that holds a text, as ["a", "_hson_str"] in {"a": "x"}. */
  lemma ReservedReadLeaks(key: string, text: string)
    requires !Reserved(key)
    ensures var v := Obj([Entry(key, Str(text))]);
            var path := [Key(key), Key("_hson_str")];
            && ToRoot(v).Some? && At(v, path).None?
            && ProjectLive(ToRoot(v).value, path) == Success(Some(Str(text)))
  {
    var v := Obj([Entry(key, Str(text))]);
    var path := [Key(key), Key("_hson_str")];
    var property := PropertyNode(key, Str(text));
    assert Build(v).content[0] == Sub(PropertyNode(v.entries[0].key, v.entries[0].value));
    assert Clean(v) && Build(v).content == [Sub(property)];
    RoundTrip(Str(text));
    PayloadRoundTrip(Str(text));
    assert path[1..] == [Key("_hson_str")] && [Key("_hson_str")][1..] == [];
    assert TagOf(key) == Ordinary(key) && FindWrapper(Plain(ObjTag, [Sub(property)]), path[0]) == Some(0);
    CarriersRead(property, Str(text), path[1..]);
  }

  // ---------------------------------------------------------------- edits

  /** What the projection builds is direct. */
  lemma {:induction false} BuiltIsDirect(x: Value)
    requires WellFormed(x) && Clean(x)
    ensures FromNode(Build(x)) == Some(x) && Direct(Build(x), true)
    ensures FromNode(Payload(x)) == Some(x) && Direct(Payload(x), true)
    decreases x
  {
    RoundTrip(x);
    PayloadRoundTrip(x);
    var content := Build(x).content;
    match x
    case Arr(items) =>
      forall i: nat | i < |items| ensures DirectWrapper(content[i], true) {
        BuiltIsDirect(items[i]);
        assert content[i] == Sub(ItemNode(i, items[i]));
      }
    case Obj(entries) =>
      forall i: nat | i < |entries| ensures DirectWrapper(content[i], true) && content[i].node.tag == Ordinary(entries[i].key) {
        BuiltIsDirect(entries[i].value);
        assert content[i] == Sub(PropertyNode(entries[i].key, entries[i].value));
      }
    case _ =>
  }

  /** A node that keeps everything but its content. */
  predicate SameHead(a: Node, b: Node) {
    a.tag == b.tag && a.attrs == b.attrs && a.meta == b.meta
  }

  /** An object whose property i was exchanged. */
  lemma PropertyExchanged(n: Node, v: Value, i: nat, c: Item, x: Value)
    requires Open(n) && n.tag.ObjTag? && FromNode(n) == Some(v) && Direct(n, true) && i < |n.content|
    requires v.Obj? && i < |v.entries| && FromProperty(c) == Some(Entry(v.entries[i].key, x)) && DirectWrapper(c, true)
    ensures var n' := n.(content := n.content[i := c]);
            && FromNode(n') == Some(Obj(v.entries[i := Entry(v.entries[i].key, x)])) && Open(n') && Direct(n', true)
  {
    OpenProjects(n, v);
    var n' := n.(content := n.content[i := c]);
    forall j | 0 <= j < |n'.content|
      ensures FromProperty(n'.content[j]) == if j == i then FromProperty(c) else FromProperty(n.content[j])
      ensures DirectWrapper(n'.content[j], true)
    {
      assert DirectWrapper(n.content[j], true);
    }
    assert Entries(n'.content) == v.entries[i := Entry(v.entries[i].key, x)];
  }

  lemma ElementExchanged(n: Node, v: Value, i: nat, c: Item, x: Value)
    requires n.tag.ArrTag? && FromNode(n) == Some(v) && Direct(n, true) && i < |n.content|
    requires FromElement(c, i) == Some(x) && DirectWrapper(c, true)
    ensures var n' := n.(content := n.content[i := c]);
            && v.Arr? && i < |v.items|
            && FromNode(n') == Some(Arr(v.items[i := x])) && Direct(n', true)
  {
    OpenProjects(n, v);
    var n' := n.(content := n.content[i := c]);
    forall j: nat | j < |n'.content|
      ensures FromElement(n'.content[j], j) == Some(v.items[i := x][j]) && DirectWrapper(n'.content[j], true)
    {
      assert FromElement(n.content[j], j) == Some(v.items[j]) && DirectWrapper(n.content[j], true);
    }
    assert FromNode(n').value.items == v.items[i := x];
  }

  lemma PropertyAppended(n: Node, v: Value, c: Item, e: Entry)
    requires Open(n) && n.tag.ObjTag? && FromNode(n) == Some(v) && Direct(n, true)
    requires FromProperty(c) == Some(e) && DirectWrapper(c, true) && v.Obj? && FindKey(v.entries, e.key).None?
    ensures var n' := n.(content := n.content + [c]);
            FromNode(n') == Some(Obj(v.entries + [e])) && Open(n') && Direct(n', true)
  {
    OpenProjects(n, v);
    var n' := n.(content := n.content + [c]);
    forall j | 0 <= j < |n'.content|
      ensures FromProperty(n'.content[j]) == if j < |n.content| then FromProperty(n.content[j]) else Some(e)
      ensures DirectWrapper(n'.content[j], true)
    {
      if j < |n.content| { assert DirectWrapper(n.content[j], true); }
    }
    assert Entries(n'.content) == v.entries + [e];
    var key := e.key;
    assert forall j | 0 <= j < |v.entries| :: v.entries[j].key != key;
  }

  lemma PropertyRemoved(n: Node, v: Value, i: nat)
    requires Open(n) && n.tag.ObjTag? && FromNode(n) == Some(v) && Direct(n, true) && i < |n.content|
    ensures var n' := n.(content := n.content[..i] + n.content[i + 1..]);
            && v.Obj? && i < |v.entries|
            && FromNode(n') == Some(Obj(v.entries[..i] + v.entries[i + 1..])) && Open(n') && Direct(n', true)
  {
    OpenProjects(n, v);
    var n' := n.(content := n.content[..i] + n.content[i + 1..]);
    forall j | 0 <= j < |n'.content|
      ensures FromProperty(n'.content[j]) == FromProperty(n.content[if j < i then j else j + 1])
      ensures DirectWrapper(n'.content[j], true)
    {
      assert DirectWrapper(n.content[if j < i then j else j + 1], true);
    }
    assert Entries(n'.content) == v.entries[..i] + v.entries[i + 1..];
  }

  /** The carrier after one edit. */
  function Edited(v: Value, path: Path, edit: Edit): Result<Value, Fault>
    requires path != []
  {
    match edit
    case Write(x) => WriteAt(v, path, x, true)
    case Remove => DeleteAt(v, path)
  }

  predicate EditAdmitted(path: Path, edit: Edit) {
    UnreservedKeys(path) && (edit.Write? ==> WellFormed(edit.value) && Clean(edit.value))
  }

  lemma EditedIsSteppable(v: Value, path: Path, edit: Edit)
    requires path != [] && Edited(v, path, edit).Success?
    ensures Steppable(v, true)
    ensures |path| > 1 ==>
              && Child(v, path[0]).Some? && Edited(Child(v, path[0]).value, path[1..], edit).Success?
              && Edited(v, path, edit).value == WithChild(v, path[0], Edited(Child(v, path[0]).value, path[1..], edit).value)
  {
  }

  /** An edit of one child of an open node. */
  lemma ChildEdited(n: Node, v: Value, part: Part, edit: Edit)
    requires FromNode(n) == Some(v) && Direct(n, true) && Open(n)
    requires EditAdmitted([part], edit) && Edited(v, [part], edit).Success?
    ensures EditChild(n, part, edit).Some?
    ensures var n' := EditChild(n, part, edit).value;
            FromNode(n') == Some(Edited(v, [part], edit).value) && Direct(n', true) && Open(n') && SameHead(n', n)
  {
    OpenProjects(n, v);
    StepsInto(n, v, part);
    assert [part][0] == part && [part][1..] == [];
    if edit.Remove? {
      PropertyRemoved(n, v, FindKey(v.entries, part.key).value);
    } else if part.Key? {
      FindsProperty(n.content, part.key);
      ChildWritten(n, v, part.key, edit.value);
    } else {
      BuiltIsDirect(edit.value);
      var c := Sub(ItemNode(part.index, edit.value));
      assert ItemNode(part.index, edit.value).content == [Sub(Build(edit.value))];
      assert FromItem(Sub(Build(edit.value))) == Some(edit.value);
      assert FromElement(n.content[part.index], part.index).Some?;
      ElementExchanged(n, v, part.index, c, edit.value);
      assert WriteAt(v.items[part.index], [part][1..], edit.value, true) == Success(edit.value);
      assert Edited(v, [part], edit).value == WithChild(v, part, edit.value);
    }
  }

  lemma ChildWritten(n: Node, v: Value, key: string, x: Value)
    requires FromNode(n) == Some(v) && Direct(n, true) && Open(n) && n.tag.ObjTag?
    requires v.Obj? && FirstTagged(n.content, TagOf(key)) == FindKey(v.entries, key)
    requires !Reserved(key) && WellFormed(x) && Clean(x)
    ensures EditChild(n, Key(key), Write(x)).Some?
    ensures var n' := EditChild(n, Key(key), Write(x)).value;
            && WriteAt(v, [Key(key)], x, true).Success?
            && FromNode(n') == Some(WriteAt(v, [Key(key)], x, true).value)
            && Direct(n', true) && Open(n') && SameHead(n', n)
  {
    OpenProjects(n, v);
    BuiltIsDirect(x);
    PropertyRoundTrip(Entry(key, x));
    var c := Sub(PropertyNode(key, x));
    assert PropertyNode(key, x).content == [Sub(Payload(x))];
    assert [Key(key)][0] == Key(key) && [Key(key)][1..] == [];
    match FindKey(v.entries, key)
    case None => PropertyAppended(n, v, c, Entry(key, x));
    case Some(i) => PropertyExchanged(n, v, i, c, x);
  }

  /** One deeper edit, put back into its wrapper and its parent. */
  lemma ParentEdited(n: Node, v: Value, part: Part, c': Node, x: Value)
    requires FromNode(n) == Some(v) && Direct(n, true) && Open(n) && Child(v, part).Some?
    requires FindWrapper(n, part).Some?
    requires var c := n.content[FindWrapper(n, part).value].node;
             && Unwrap(c).Some? && Unwrap(c').Some? && c' == Rewrap(c, Unwrap(c').value)
             && SameHead(Unwrap(c').value, Unwrap(c).value)
    requires FromNode(Unwrap(c').value) == Some(x) && Direct(Unwrap(c').value, true)
    ensures var n' := n.(content := n.content[FindWrapper(n, part).value := Sub(c')]);
            FromNode(n') == Some(WithChild(v, part, x)) && Direct(n', true) && Open(n')
  {
    OpenProjects(n, v);
    StepsInto(n, v, part);
    var i := FindWrapper(n, part).value;
    var item, child' := n.content[i], Unwrap(c').value;
    assert c'.content == [Sub(child')];
    assert FromItem(Sub(child')) == Some(x);
    if n.tag.ObjTag? {
      assert FromProperty(item).value == v.entries[i];
      PropertyExchanged(n, v, i, Sub(c'), x);
    } else {
      assert FromElement(item, i) == Some(v.items[i]);
      ElementExchanged(n, v, i, Sub(c'), x);
    }
  }

  /** A branch edit of a held graph goes through and leaves the graph of the edited carrier. */
  lemma {:induction false} EditHolds(w: Node, v: Value, path: Path, edit: Edit)
    requires Held(w, v) && path != [] && EditAdmitted(path, edit) && Edited(v, path, edit).Success?
    ensures EditAt(w, path, edit).Some?
    ensures var w' := EditAt(w, path, edit).value;
            && Held(w', Edited(v, path, edit).value)
            && w' == Rewrap(w, Unwrap(w').value) && SameHead(Unwrap(w').value, Unwrap(w).value) && Open(Unwrap(w').value)
    decreases |path|
  {
    var n := Unwrap(w).value;
    EditedIsSteppable(v, path, edit);
    if |path| == 1 {
      assert path == [path[0]];
      ChildEdited(n, v, path[0], edit);
    } else {
      StepsInto(n, v, path[0]);
      var i, child := FindWrapper(n, path[0]).value, Child(v, path[0]).value;
      assert DirectWrapper(n.content[i], true);
      assert forall k | 0 <= k < |path[1..]| :: path[1..][k] == path[k + 1];
      EditHolds(n.content[i].node, child, path[1..], edit);
      ParentEdited(n, v, path[0], EditAt(n.content[i].node, path[1..], edit).value, Edited(child, path[1..], edit).value);
    }
  }

  // ---------------------------------------------------------------- graphs that edits do not follow

  /** A write below a carrier is refused, or leaves a node nothing can be read from. */
  lemma CarrierEdited(n: Node, v: Value) returns (part: Part, x: Value)
    requires FromNode(n) == Some(v) && Steppable(v, true) && !Open(n)
    ensures (part.Key? ==> !Reserved(part.key)) && WellFormed(x) && Clean(x)
    ensures WriteAt(v, [part], x, true).Success? && At(v, [part]) != Some(x)
    ensures EditChild(n, part, Write(x)).Some? ==>
              var n' := EditChild(n, part, Write(x)).value; FromNode(n').None? && SameHead(n', n)
  {
    ProjectedIsWellFormed(n);
    part := if v.Arr? then Index(0) else if v.entries == [] then Key("a") else Key(v.entries[0].key);
    x := if At(v, [part]) == Some(Null) then Bool(true) else Null;
    assert [part][0] == part && [part][1..] == [];
    HiddenBelow(n, v, part);
    var edited := EditChild(n, part, Write(x));
    if edited.Some? {
      assert edited.value.content[0] == n.content[0] && FromProperty(n.content[0]).None?;
    }
  }

  /** The same through the wrapper and the parent of the node that was left unreadable. */
  lemma UnreadableBelow(n: Node, v: Value, i: nat, c': Node)
    requires Open(n) && FromNode(n) == Some(v) && i < |n.content|
    requires n.content[i].Sub? && Unwrap(n.content[i].node).Some? && Unwrap(c').Some?
    requires c' == Rewrap(n.content[i].node, Unwrap(c').value) && FromNode(Unwrap(c').value).None?
    requires SameHead(Unwrap(c').value, Unwrap(n.content[i].node).value)
    ensures FromNode(n.(content := n.content[i := Sub(c')])).None?
  {
    OpenProjects(n, v);
    var n' := n.(content := n.content[i := Sub(c')]);
    assert n'.content[i] == Sub(c');
    if n.tag.ObjTag? {
      assert FromProperty(n.content[i]).Some?;
      assert c'.content == [Sub(Unwrap(c').value)] && FromProperty(Sub(c')).None?;
      if |n'.content| == 1 { assert c'.tag.Ordinary?; }
    } else {
      assert FromElement(n.content[i], i).Some?;
      assert c'.content == [Sub(Unwrap(c').value)] && FromElement(Sub(c'), i).None?;
    }
  }

  /** Where a carrier stands around an object or a non-empty array, some clean effective write fails. */
  lemma {:induction false} CarrierDefeatsEdit(w: Node, v: Value) returns (path: Path, x: Value)
    requires Projects(w, v) && !Direct(Unwrap(w).value, true)
    ensures path != [] && UnreservedKeys(path) && WellFormed(x) && Clean(x)
    ensures WriteAt(v, path, x, true).Success? && At(v, path) != Some(x)
    ensures EditAt(w, path, Write(x)).Some? ==>
              var w' := EditAt(w, path, Write(x)).value;
              && Unwrap(w').Some? && FromNode(Unwrap(w').value).None?
              && w' == Rewrap(w, Unwrap(w').value) && SameHead(Unwrap(w').value, Unwrap(w).value)
    decreases Unwrap(w).value
  {
    var n := Unwrap(w).value;
    var part: Part;
    if !Open(n) {
      part, x := CarrierEdited(n, v);
      path := [part];
    } else {
      var i: nat :| i < |n.content| && !DirectWrapper(n.content[i], true);
      PartFinds(n, v, i);
      part := PartAt(v, i);
      StepsInto(n, v, part);
      var c, child := n.content[i].node, Child(v, part).value;
      var rest;
      rest, x := CarrierDefeatsEdit(c, child);
      path := [part] + rest;
      assert path[1..] == rest;
      assert forall k | 1 <= k < |path| :: path[k] == rest[k - 1];
      ChildOfWithChild(v, part, WriteAt(child, rest, x, true).value, part);
      if EditAt(c, rest, Write(x)).Some? { UnreadableBelow(n, v, i, EditAt(c, rest, Write(x)).value); }
    }
  }
}
