/** The graphs the map builds itself, node for node: the branch edits of such a graph build again. */
module BuiltGraphs {
  import opened Prelude
  import opened OrderedValue
  import opened ValueMutation
  import opened HsonGraph
  import opened Projection
  import opened Editor

  /** Where a value sits in a canonical graph. */
  datatype Place = AtRoot | Bare | AtProperty(key: string) | AtItem(index: nat)

  function Holder(place: Place, v: Value): Node {
    match place
    case AtRoot => Plain(RootTag, [Sub(Build(v))])
    case Bare => Build(v)
    case AtProperty(key) => PropertyNode(key, v)
    case AtItem(index) => ItemNode(index, v)
  }

  function ValueNode(place: Place, v: Value): Node {
    if place.AtProperty? then Payload(v) else Build(v)
  }

  lemma HolderUnwraps(place: Place, v: Value)
    ensures Unwrap(Holder(place, v)) == Some(ValueNode(place, v))
    ensures !IsScalar(v) ==> ValueNode(place, v) == Build(v)
  {
  }

  /** Putting another container into a holder gives the holder of that container. */
  lemma HolderRewraps(place: Place, v: Value, w: Value)
    requires !IsScalar(v) && !IsScalar(w)
    ensures Unwrap(Holder(place, v)).Some? && Rewrap(Holder(place, v), Build(w)) == Holder(place, w)
  {
    match place
    case Bare =>
    case AtRoot =>
    case AtProperty(key) => assert PropertyNode(key, w).content == [Sub(Build(w))] == [Sub(Build(v))][0 := Sub(Build(w))];
    case AtItem(index) => assert ItemNode(index, w).content == [Sub(Build(w))] == [Sub(Build(v))][0 := Sub(Build(w))];
  }

  function PlaceOf(part: Part): Place {
    match part
    case Key(k) => AtProperty(k)
    case Index(i) => if i >= 0 then AtItem(i) else Bare
  }

  lemma TaggedByKey(entry: Entry, key: string)
    requires !Reserved(entry.key)
    ensures IsNodeTagged(Sub(PropertyNode(entry.key, entry.value)), TagOf(key)) <==> entry.key == key
  {
    TagOfUnreserved(entry.key);
  }

  /** Looking for a property wrapper in a canonical object is looking its key up. */
  lemma {:induction false} FindsBuiltProperty(entries: seq<Entry>, key: string)
    requires Clean(Obj(entries))
    ensures FirstTagged(Build(Obj(entries)).content, TagOf(key)) == FindKey(entries, key)
  {
    if entries != [] {
      var rest := entries[1..];
      TaggedByKey(entries[0], key);
      FindsBuiltProperty(rest, key);
      assert Build(Obj(entries)).content[0] == Sub(PropertyNode(entries[0].key, entries[0].value));
      assert Build(Obj(entries)).content[1..] == Build(Obj(rest)).content;
    }
  }

  lemma FindsChild(v: Value, part: Part)
    requires Clean(v) && !IsScalar(v)
    ensures FindWrapper(Build(v), part).Some? <==> Child(v, part).Some?
    ensures Child(v, part).Some? ==>
              var i := FindWrapper(Build(v), part).value;
              Build(v).content[i] == Sub(Holder(PlaceOf(part), Child(v, part).value))
  {
    match v
    case Obj(entries) => if part.Key? { FindsBuiltProperty(entries, part.key); }
    case Arr(items) =>
      if part.Index? && 0 <= part.index < |items| {
        assert Build(v).content[part.index] == Sub(ItemNode(part.index, items[part.index]));
      }
  }

  // ---------------------------------------------------------------- edits build again

  lemma WriteChildAgrees(v: Value, part: Part, x: Value)
    requires Clean(v) && Clean(x) && Child(v, part).Some?
    ensures EditChild(Build(v), part, Write(x)) == Some(Build(WithChild(v, part, x)))
  {
    CleanChild(v, part);
    var w := WithChild(v, part, x);
    match v
    case Obj(entries) =>
      FindsBuiltProperty(entries, part.key);
      var i := FindKey(entries, part.key).value;
      assert Build(v).content[i := Sub(PropertyNode(part.key, x))] == Build(w).content;
    case Arr(items) =>
      assert Build(v).content[part.index] == Sub(ItemNode(part.index, items[part.index]));
      assert Build(v).content[part.index := Sub(ItemNode(part.index, x))] == Build(w).content;
  }

  lemma AppendChildAgrees(entries: seq<Entry>, key: string, x: Value)
    requires Clean(Obj(entries)) && Clean(x) && !Reserved(key) && FindKey(entries, key).None?
    ensures EditChild(Build(Obj(entries)), Key(key), Write(x)) == Some(Build(Obj(entries + [Entry(key, x)])))
  {
    FindsBuiltProperty(entries, key);
    assert Build(Obj(entries)).content + [Sub(PropertyNode(key, x))] == Build(Obj(entries + [Entry(key, x)])).content;
  }

  lemma RemoveChildAgrees(entries: seq<Entry>, key: string, i: nat)
    requires Clean(Obj(entries)) && FindKey(entries, key) == Some(i)
    ensures EditChild(Build(Obj(entries)), Key(key), Remove) == Some(Build(Obj(entries[..i] + entries[i + 1..])))
  {
    FindsBuiltProperty(entries, key);
    RemovedIsBuilt(entries, i);
  }

  lemma RemovedIsBuilt(entries: seq<Entry>, i: nat)
    requires i < |entries|
    ensures var content := Build(Obj(entries)).content;
            |content| == |entries| && content[..i] + content[i + 1..] == Build(Obj(entries[..i] + entries[i + 1..])).content
  {
  }

  /** Exchanging one wrapper of a canonical parent is exchanging the child. */
  lemma RewrapChild(v: Value, part: Part, x: Value)
    requires Clean(v) && Child(v, part).Some?
    ensures !IsScalar(v) && FindWrapper(Build(v), part).Some?
    ensures var i := FindWrapper(Build(v), part).value;
            Build(v).(content := Build(v).content[i := Sub(Holder(PlaceOf(part), x))]) == Build(WithChild(v, part, x))
  {
    FindsChild(v, part);
    var w := WithChild(v, part, x);
    match v
    case Obj(entries) =>
      FindsBuiltProperty(entries, part.key);
      var i := FindKey(entries, part.key).value;
      assert Build(v).content[i := Sub(PropertyNode(part.key, x))] == Build(w).content;
    case Arr(items) =>
      assert Build(v).content[part.index := Sub(ItemNode(part.index, x))] == Build(w).content;
  }

  /** Writing a branch of a canonical graph gives the canonical graph of the written value. */
  lemma {:induction false} WriteAgrees(place: Place, v: Value, path: Path, x: Value, allow: bool)
    requires Clean(v) && Clean(x) && path != [] && UnreservedKeys(path) && WriteAt(v, path, x, allow).Success?
    ensures EditAt(Holder(place, v), path, Write(x)) == Some(Holder(place, WriteAt(v, path, x, allow).value))
    decreases |path|
  {
    HolderUnwraps(place, v);
    var child := Child(v, path[0]);
    var w := WriteAt(v, path, x, allow).value;
    HolderRewraps(place, v, w);
    if child.Some? {
      FindsChild(v, path[0]);
      if |path| == 1 {
        WriteChildAgrees(v, path[0], x);
      } else {
        CleanChild(v, path[0]);
        WriteAgrees(PlaceOf(path[0]), child.value, path[1..], x, allow);
        RewrapChild(v, path[0], WriteAt(child.value, path[1..], x, allow).value);
      }
    } else {
      AppendChildAgrees(v.entries, path[0].key, x);
    }
  }

  lemma {:induction false} RemoveAgrees(place: Place, v: Value, path: Path)
    requires Clean(v) && path != [] && DeleteAt(v, path).Success?
    ensures EditAt(Holder(place, v), path, Remove) == Some(Holder(place, DeleteAt(v, path).value))
    decreases |path|
  {
    HolderUnwraps(place, v);
    var child := Child(v, path[0]);
    HolderRewraps(place, v, DeleteAt(v, path).value);
    FindsChild(v, path[0]);
    if |path| == 1 {
      RemoveChildAgrees(v.entries, path[0].key, FindKey(v.entries, path[0].key).value);
    } else {
      CleanChild(v, path[0]);
      RemoveAgrees(PlaceOf(path[0]), child.value, path[1..]);
      RewrapChild(v, path[0], DeleteAt(child.value, path[1..]).value);
    }
  }
}
