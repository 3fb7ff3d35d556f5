/** Lens, frame, undo and well-formedness laws of the path writes. */
module ValueLaws {
  import opened Prelude
  import opened OrderedValue
  import opened ValueMutation

  // ---------------------------------------------------------------- one step

  predicate SameKeys(a: seq<Entry>, b: seq<Entry>) {
    |a| == |b| && forall i | 0 <= i < |a| :: a[i].key == b[i].key
  }

  /** Lookup depends only on the keys, in their order. */
  lemma FindKeySameKeys(a: seq<Entry>, b: seq<Entry>, key: string)
    requires SameKeys(a, b)
    ensures FindKey(a, key) == FindKey(b, key)
  {
    assert forall i | 0 <= i < |a| :: a[i].key == key <==> b[i].key == key;
  }

  /** Exchanging one child changes that child, and no other child of the same parent. */
  lemma ChildOfWithChild(v: Value, part: Part, child: Value, other: Part)
    requires Child(v, part).Some?
    ensures Child(WithChild(v, part, child), other) == if other == part then Some(child) else Child(v, other)
  {
    if part.Key? && other.Key? {
      FindKeySameKeys(v.entries, WithChild(v, part, child).entries, other.key);
    }
  }

  lemma WithChildTwice(v: Value, part: Part, first: Value, second: Value)
    requires Child(v, part).Some?
    ensures Child(WithChild(v, part, first), part).Some?
    ensures WithChild(WithChild(v, part, first), part, second) == WithChild(v, part, second)
    ensures WithChild(v, part, Child(v, part).value) == v
  {
    ChildOfWithChild(v, part, first, part);
    if part.Key? {
      FindKeySameKeys(v.entries, WithChild(v, part, first).entries, part.key);
    }
  }

  lemma FindKeyOfAppend(entries: seq<Entry>, key: string, value: Value)
    requires FindKey(entries, key).None?
    ensures FindKey(entries + [Entry(key, value)], key) == Some(|entries|)
  {
    var longer := entries + [Entry(key, value)];
    assert longer[|entries|].key == key;
    assert forall j | 0 <= j < |entries| :: longer[j] == entries[j];
  }

  lemma ChildOfAppend(entries: seq<Entry>, key: string, value: Value, other: Part)
    requires FindKey(entries, key).None?
    ensures Child(Obj(entries + [Entry(key, value)]), other) ==
            if other == Key(key) then Some(value) else Child(Obj(entries), other)
  {
    if other.Key? {
      var longer := entries + [Entry(key, value)];
      var x, y := FindKey(entries, other.key), FindKey(longer, other.key);
      assert forall j | 0 <= j < |entries| :: longer[j] == entries[j];
      if other.key == key {
        assert longer[|entries|].key == key;
      } else if x.Some? {
        assert longer[x.value].key == other.key;
      }
    }
  }

  lemma ChildOfRemoval(entries: seq<Entry>, i: nat, other: Part)
    requires i < |entries| && UniqueKeys(entries)
    ensures Child(Obj(entries[..i] + entries[i + 1..]), other) ==
            if other == Key(entries[i].key) then None else Child(Obj(entries), other)
  {
    if other.Key? {
      var shorter := entries[..i] + entries[i + 1..];
      var x, y := FindKey(entries, other.key), FindKey(shorter, other.key);
      if y.Some? {
        assert shorter[y.value] == entries[if y.value < i then y.value else y.value + 1];
      }
      if x.Some? && other.key != entries[i].key {
        assert entries[x.value] == shorter[if x.value < i then x.value else x.value - 1];
      }
    }
  }

  // ---------------------------------------------------------------- lens laws

  /** When a write goes through: the path resolves, or it only lacks a new last key. */
  predicate Writable(v: Value, path: Path, allowMissingLeaf: bool) {
    At(v, path).Some? ||
    (allowMissingLeaf && path != [] && path[|path| - 1].Key? &&
     var parent := At(v, path[..|path| - 1]); parent.Some? && parent.value.Obj?)
  }

  lemma {:induction false} WriteSucceedsIff(v: Value, path: Path, x: Value, allow: bool)
    ensures WriteAt(v, path, x, allow).Success? <==> Writable(v, path, allow)
    decreases |path|
  {
    if path != [] {
      var child := Child(v, path[0]);
      if child.Some? {
        WriteSucceedsIff(child.value, path[1..], x, allow);
        if |path| > 1 {
          assert path[..|path| - 1][0] == path[0];
          assert path[..|path| - 1][1..] == path[1..][..|path| - 2];
        }
      } else if |path| > 1 {
        assert path[..|path| - 1][0] == path[0];
      }
    }
  }

  /** Reading the written path gives the written value. */
  lemma {:induction false} ReadAfterWrite(v: Value, path: Path, x: Value, allow: bool)
    requires WriteAt(v, path, x, allow).Success?
    ensures At(WriteAt(v, path, x, allow).value, path) == Some(x)
    decreases |path|
  {
    if path != [] {
      var child := Child(v, path[0]);
      if child.Some? {
        ReadAfterWrite(child.value, path[1..], x, allow);
        ChildOfWithChild(v, path[0], WriteAt(child.value, path[1..], x, allow).value, path[0]);
      } else {
        ChildOfAppend(v.entries, path[0].key, x, path[0]);
      }
    }
  }

  /** Writing back what was read changes nothing. */
  lemma {:induction false} WriteBackIsIdentity(v: Value, path: Path, allow: bool)
    requires At(v, path).Some?
    ensures WriteAt(v, path, At(v, path).value, allow) == Success(v)
    decreases |path|
  {
    if path != [] {
      var child := Child(v, path[0]).value;
      WriteBackIsIdentity(child, path[1..], allow);
      WithChildTwice(v, path[0], child, child);
    }
  }

  /** A later write at the same path wins, even over a write that appended the key. */
  lemma {:induction false} LastWriteWins(v: Value, path: Path, x: Value, y: Value, allow: bool, allowLater: bool)
    requires WriteAt(v, path, x, allow).Success?
    ensures WriteAt(WriteAt(v, path, x, allow).value, path, y, allowLater) == WriteAt(v, path, y, allow)
    decreases |path|
  {
    if path != [] {
      var child := Child(v, path[0]);
      if child.Some? {
        LastWriteWins(child.value, path[1..], x, y, allow, allowLater);
        var next := WriteAt(child.value, path[1..], x, allow).value;
        ChildOfWithChild(v, path[0], next, path[0]);
        var later := WriteAt(child.value, path[1..], y, allow);
        if later.Success? { WithChildTwice(v, path[0], next, later.value); }
      } else {
        ChildOfAppend(v.entries, path[0].key, x, path[0]);
        FindKeyOfAppend(v.entries, path[0].key, x);
        assert (v.entries + [Entry(path[0].key, x)])[|v.entries| := Entry(path[0].key, y)]
            == v.entries + [Entry(path[0].key, y)];
      }
    }
  }

  /** Two paths that part ways before either ends. */
  predicate Diverge(p: Path, q: Path) {
    p != [] && q != [] && (p[0] != q[0] || Diverge(p[1..], q[1..]))
  }

  /** A write leaves every diverging path as it was. */
  lemma {:induction false} WriteFrame(v: Value, path: Path, x: Value, allow: bool, other: Path)
    requires WriteAt(v, path, x, allow).Success? && Diverge(path, other)
    ensures At(WriteAt(v, path, x, allow).value, other) == At(v, other)
    decreases |path|
  {
    var child := Child(v, path[0]);
    if child.Some? {
      ChildOfWithChild(v, path[0], WriteAt(child.value, path[1..], x, allow).value, other[0]);
      if path[0] == other[0] { WriteFrame(child.value, path[1..], x, allow, other[1..]); }
    } else {
      ChildOfAppend(v.entries, path[0].key, x, other[0]);
    }
  }

  /** Reads and writes through a prefix are reads and writes below the value at that prefix. */
  lemma {:induction false} Through(v: Value, p: Path, q: Path, x: Value, allow: bool)
    requires At(v, p).Some? && q != []
    ensures At(v, p + q) == At(At(v, p).value, q)
    ensures var inner := WriteAt(At(v, p).value, q, x, allow);
            WriteAt(v, p + q, x, allow) == if inner.Success? then WriteAt(v, p, inner.value, false) else inner
    decreases |p|
  {
    if p == [] {
      assert p + q == q;
    } else {
      assert (p + q)[1..] == p[1..] + q;
      Through(Child(v, p[0]).value, p[1..], q, x, allow);
    }
  }

  // ---------------------------------------------------------------- delete

  /** Delete goes through exactly at a resolved object entry, and makes just that path absent. */
  lemma {:induction false} DeleteLaw(v: Value, path: Path, other: Path)
    requires WellFormed(v) && path != []
    ensures DeleteAt(v, path).Success? <==> At(v, path).Some? && path[|path| - 1].Key?
    ensures DeleteAt(v, path).Success? ==> At(DeleteAt(v, path).value, path).None?
    ensures DeleteAt(v, path).Success? && Diverge(path, other) ==>
              At(DeleteAt(v, path).value, other) == At(v, other)
    decreases |path|
  {
    var child := Child(v, path[0]);
    if child.Some? {
      if |path| == 1 {
        if path[0].Key? {
          var i := FindKey(v.entries, path[0].key).value;
          ChildOfRemoval(v.entries, i, path[0]);
        }
      } else {
        WellFormedChild(v, path[0]);
        DeleteLaw(child.value, path[1..], []);
        var next := DeleteAt(child.value, path[1..]);
        if next.Success? { ChildOfWithChild(v, path[0], next.value, path[0]); }
      }
    }
    if DeleteAt(v, path).Success? && Diverge(path, other) { DeleteFrame(v, path, other); }
  }

  lemma {:induction false} DeleteFrame(v: Value, path: Path, other: Path)
    requires WellFormed(v) && path != [] && DeleteAt(v, path).Success? && Diverge(path, other)
    ensures At(DeleteAt(v, path).value, other) == At(v, other)
    decreases |path|
  {
    var child := Child(v, path[0]).value;
    if |path| == 1 {
      ChildOfRemoval(v.entries, FindKey(v.entries, path[0].key).value, other[0]);
      assert !Diverge(path[1..], other[1..]);
    } else {
      WellFormedChild(v, path[0]);
      var next := DeleteAt(child, path[1..]).value;
      ChildOfWithChild(v, path[0], next, other[0]);
      if path[0] == other[0] { DeleteFrame(child, path[1..], other[1..]); }
    }
  }

  /** Deleting the key a set appended gives back the value before the set. */
  lemma {:induction false} DeleteUndoesAppend(v: Value, path: Path, x: Value)
    requires path != [] && At(v, path).None? && WriteAt(v, path, x, true).Success?
    ensures DeleteAt(WriteAt(v, path, x, true).value, path) == Success(v)
    decreases |path|
  {
    var child := Child(v, path[0]);
    if child.Some? {
      DeleteUndoesAppend(child.value, path[1..], x);
      var next := WriteAt(child.value, path[1..], x, true).value;
      ChildOfWithChild(v, path[0], next, path[0]);
      WithChildTwice(v, path[0], next, child.value);
    } else {
      var longer := v.entries + [Entry(path[0].key, x)];
      ChildOfAppend(v.entries, path[0].key, x, path[0]);
      FindKeyOfAppend(v.entries, path[0].key, x);
      assert longer[..|v.entries|] + longer[|v.entries| + 1..] == v.entries;
    }
  }

  /** Whether a resolved object entry is the last one of its object. */
  predicate IsLastEntry(v: Value, path: Path) {
    path != [] && path[|path| - 1].Key? &&
    var parent := At(v, path[..|path| - 1]);
    parent.Some? && parent.value.Obj? && parent.value.entries != [] &&
    parent.value.entries[|parent.value.entries| - 1].key == path[|path| - 1].key
  }

  lemma SetUndoesLeafDeleteIff(entries: seq<Entry>, key: string)
    requires UniqueKeys(entries) && FindKey(entries, key).Some?
    ensures var i := FindKey(entries, key).value;
            var shorter := entries[..i] + entries[i + 1..];
            && WriteAt(Obj(shorter), [Key(key)], entries[i].value, true) == Success(Obj(shorter + [entries[i]]))
            && (shorter + [entries[i]] == entries <==> entries[|entries| - 1].key == key)
  {
    var i := FindKey(entries, key).value;
    var shorter := entries[..i] + entries[i + 1..];
    var last := |entries| - 1;
    ChildOfRemoval(entries, i, Key(key));
    assert (shorter + [entries[i]])[last] == entries[i];
    if entries[last].key == key { assert i == last && shorter + [entries[i]] == entries; }
  }

  /** Setting a deleted entry back restores the value exactly when the entry was the last of its object. */
  lemma {:induction false} SetUndoesDeleteIff(v: Value, path: Path)
    requires WellFormed(v) && path != [] && DeleteAt(v, path).Success?
    ensures At(v, path).Some?
    ensures WriteAt(DeleteAt(v, path).value, path, At(v, path).value, true) == Success(v) <==> IsLastEntry(v, path)
    decreases |path|
  {
    var child := Child(v, path[0]).value;
    if |path| == 1 {
      SetUndoesLeafDeleteIff(v.entries, path[0].key);
      assert path == [Key(path[0].key)] && At(v, path[..0]) == Some(v);
    } else {
      WellFormedChild(v, path[0]);
      SetUndoesDeleteIff(child, path[1..]);
      WriteSucceedsAfterDelete(child, path[1..]);
      UndoneBelow(v, path);
      IsLastEntryBelow(v, path);
    }
  }

  /** Below an intact first step, undoing is undoing in the child. */
  lemma UndoneBelow(v: Value, path: Path)
    requires WellFormed(v) && |path| > 1 && DeleteAt(v, path).Success?
    requires At(v, path).Some? && WriteAt(DeleteAt(Child(v, path[0]).value, path[1..]).value, path[1..], At(v, path).value, true).Success?
    ensures var child := Child(v, path[0]).value;
            WriteAt(DeleteAt(v, path).value, path, At(v, path).value, true) == Success(v) <==>
            WriteAt(DeleteAt(child, path[1..]).value, path[1..], At(v, path).value, true) == Success(child)
  {
    var child := Child(v, path[0]).value;
    var next := DeleteAt(child, path[1..]).value;
    ChildOfWithChild(v, path[0], next, path[0]);
    var back := WriteAt(next, path[1..], At(v, path).value, true);
    WithChildTwice(v, path[0], next, back.value);
    ChildOfWithChild(v, path[0], back.value, path[0]);
  }

  lemma IsLastEntryBelow(v: Value, path: Path)
    requires |path| > 1 && Child(v, path[0]).Some?
    ensures IsLastEntry(v, path) <==> IsLastEntry(Child(v, path[0]).value, path[1..])
  {
    assert path[..|path| - 1][0] == path[0];
    assert path[..|path| - 1][1..] == path[1..][..|path| - 2];
  }

  lemma {:induction false} WriteSucceedsAfterDelete(v: Value, path: Path)
    requires WellFormed(v) && path != [] && DeleteAt(v, path).Success?
    ensures At(v, path).Some? && WriteAt(DeleteAt(v, path).value, path, At(v, path).value, true).Success?
    decreases |path|
  {
    var child := Child(v, path[0]).value;
    if |path| == 1 {
      ChildOfRemoval(v.entries, FindKey(v.entries, path[0].key).value, path[0]);
    } else {
      WellFormedChild(v, path[0]);
      WriteSucceedsAfterDelete(child, path[1..]);
      ChildOfWithChild(v, path[0], DeleteAt(child, path[1..]).value, path[0]);
    }
  }

  // ---------------------------------------------------------------- well-formedness

  lemma WellFormedChild(v: Value, part: Part)
    requires WellFormed(v) && Child(v, part).Some?
    ensures WellFormed(Child(v, part).value)
  {
  }

  lemma {:induction false} WellFormedAt(v: Value, path: Path)
    requires WellFormed(v) && At(v, path).Some?
    ensures WellFormed(At(v, path).value)
    decreases |path|
  {
    if path != [] {
      WellFormedChild(v, path[0]);
      WellFormedAt(Child(v, path[0]).value, path[1..]);
    }
  }

  lemma WellFormedWithChild(v: Value, part: Part, child: Value)
    requires WellFormed(v) && WellFormed(child) && Child(v, part).Some?
    ensures WellFormed(WithChild(v, part, child))
  {
    if part.Key? {
      var next := WithChild(v, part, child).entries;
      assert forall i | 0 <= i < |next| :: next[i].key == v.entries[i].key;
    }
  }

  /** A path write never builds an object with a repeated key. */
  lemma {:induction false} WriteKeepsWellFormed(v: Value, path: Path, x: Value, allow: bool)
    requires WellFormed(v) && WellFormed(x) && WriteAt(v, path, x, allow).Success?
    ensures WellFormed(WriteAt(v, path, x, allow).value)
    decreases |path|
  {
    if path != [] && Child(v, path[0]).Some? {
      WellFormedChild(v, path[0]);
      WriteKeepsWellFormed(Child(v, path[0]).value, path[1..], x, allow);
      WellFormedWithChild(v, path[0], WriteAt(Child(v, path[0]).value, path[1..], x, allow).value);
    }
  }

  lemma {:induction false} DeleteKeepsWellFormed(v: Value, path: Path)
    requires WellFormed(v) && path != [] && DeleteAt(v, path).Success?
    ensures WellFormed(DeleteAt(v, path).value)
    decreases |path|
  {
    WellFormedChild(v, path[0]);
    if |path| > 1 {
      DeleteKeepsWellFormed(Child(v, path[0]).value, path[1..]);
      WellFormedWithChild(v, path[0], DeleteAt(Child(v, path[0]).value, path[1..]).value);
    }
  }

  // ---------------------------------------------------------------- rename, move, splice

  /** Every entry but the ones with this key, in order. */
  function Without(entries: seq<Entry>, key: string): (r: seq<Entry>)
    ensures forall e | e in r :: e in entries && e.key != key
  {
    if entries == [] then []
    else if entries[0].key == key then Without(entries[1..], key)
    else [entries[0]] + Without(entries[1..], key)
  }

  lemma {:induction false} WithoutKeepsUnique(entries: seq<Entry>, key: string)
    requires UniqueKeys(entries)
    ensures UniqueKeys(Without(entries, key))
  {
    if entries != [] {
      WithoutKeepsUnique(entries[1..], key);
      var rest := Without(entries[1..], key);
      forall i | 0 <= i < |rest| ensures rest[i].key != entries[0].key {
        assert rest[i] in entries[1..];
      }
    }
  }

  /** The same entries in place, one key spelled anew. */
  function Relabelled(entries: seq<Entry>, from: string, to: string): (r: seq<Entry>)
    ensures |r| == |entries|
    ensures forall i | 0 <= i < |r| :: r[i] == Entry(if entries[i].key == from then to else entries[i].key, entries[i].value)
  {
    if entries == [] then []
    else [Entry(if entries[0].key == from then to else entries[0].key, entries[0].value)] + Relabelled(entries[1..], from, to)
  }

  /** Renaming keeps every entry in place, apart from an old entry of the new key, which goes. */
  lemma {:induction false} RenamedInPlace(entries: seq<Entry>, from: string, to: string)
    requires from != to
    ensures RenamedEntries(entries, from, to) == Relabelled(Without(entries, to), from, to)
  {
    if entries != [] {
      RenamedInPlace(entries[1..], from, to);
      if entries[0].key != to {
        assert Without(entries, to)[1..] == Without(entries[1..], to);
      }
    }
  }

  lemma RenamedKeepsWellFormed(entries: seq<Entry>, from: string, to: string)
    requires WellFormed(Obj(entries)) && from != to
    ensures WellFormed(Obj(RenamedEntries(entries, from, to)))
  {
    RenamedInPlace(entries, from, to);
    WithoutKeepsUnique(entries, to);
    var kept := Without(entries, to);
    forall i | 0 <= i < |kept| ensures WellFormed(kept[i].value) && kept[i].key != to {
      assert kept[i] in kept;
      var j :| 0 <= j < |entries| && entries[j] == kept[i];
    }
  }

  lemma {:induction false} WithoutAbsent(entries: seq<Entry>, key: string)
    requires forall i | 0 <= i < |entries| :: entries[i].key != key
    ensures Without(entries, key) == entries
  {
    if entries != [] { WithoutAbsent(entries[1..], key); }
  }

  lemma {:induction false} WithoutRemoves(entries: seq<Entry>, key: string, i: nat)
    requires UniqueKeys(entries) && i < |entries| && entries[i].key == key
    ensures Without(entries, key) == entries[..i] + entries[i + 1..]
  {
    if i == 0 {
      assert entries[..0] + entries[1..] == entries[1..];
      WithoutAbsent(entries[1..], key);
    } else {
      RemovedFromRest(entries, i);
      assert entries[0].key != key;
      WithoutRemoves(entries[1..], key, i - 1);
    }
  }

  lemma RemovedFromRest(entries: seq<Entry>, i: nat)
    requires 0 < i < |entries|
    ensures entries[..i] + entries[i + 1..] == [entries[0]] + (entries[1..][..i - 1] + entries[1..][i..])
  {
  }

  /** A delete takes out just the entry of its key; the others keep their order. */
  lemma DeleteKeepsOrder(v: Value, path: Path)
    requires WellFormed(v) && path != [] && DeleteAt(v, path).Success?
    ensures var parent, key := path[..|path| - 1], path[|path| - 1];
            && key.Key? && At(v, parent).Some? && At(v, parent).value.Obj?
            && At(DeleteAt(v, path).value, parent) == Some(Obj(Without(At(v, parent).value.entries, key.key)))
    decreases |path|
  {
    var child := Child(v, path[0]).value;
    if |path| == 1 {
      assert path[..0] == [];
      WithoutRemoves(v.entries, path[0].key, FindKey(v.entries, path[0].key).value);
    } else {
      WellFormedChild(v, path[0]);
      DeleteKeepsOrder(child, path[1..]);
      var parent := path[..|path| - 1];
      assert parent[0] == path[0] && parent[1..] == path[1..][..|path| - 2];
      ChildOfWithChild(v, path[0], DeleteAt(child, path[1..]).value, path[0]);
    }
  }

  /** A set below an object keeps every key where it was, and puts a new key last. */
  lemma SetKeepsKeyOrder(v: Value, path: Path, key: string, x: Value)
    requires At(v, path).Some? && At(v, path).value.Obj? && Set(v, path + [Key(key)], x).Success?
    ensures var entries := At(v, path).value.entries;
            var after := At(Set(v, path + [Key(key)], x).value, path);
            && after.Some? && after.value.Obj?
            && (match FindKey(entries, key)
                case Some(i) => after.value.entries == entries[i := Entry(key, x)]
                case None => after.value.entries == entries + [Entry(key, x)])
  {
    var inner := WriteAt(At(v, path).value, [Key(key)], x, true);
    Through(v, path, [Key(key)], x, true);
    ReadAfterWrite(v, path, inner.value, false);
  }

  /** Renaming back restores the entries, provided the destination key was not there to be retired. */
  lemma {:induction false} RenameBack(entries: seq<Entry>, from: string, to: string)
    requires from != to && forall i | 0 <= i < |entries| :: entries[i].key != to
    ensures RenamedEntries(RenamedEntries(entries, from, to), to, from) == entries
  {
    if entries != [] {
      RenameBack(entries[1..], from, to);
    }
  }

  /** The moved item ends up at `to` and the others keep their order; moving back restores the array. */
  lemma MoveBack<T>(items: seq<T>, from: int, to: int)
    requires 0 <= from < |items| && 0 <= to < |items|
    ensures Moved(items, from, to)[to] == items[from]
    ensures Moved(items, from, to)[..to] + Moved(items, from, to)[to + 1..] == items[..from] + items[from + 1..]
    ensures Moved(Moved(items, from, to), to, from) == items
    ensures multiset(Moved(items, from, to)) == multiset(items)
  {
    var rest := items[..from] + items[from + 1..];
    var moved := Moved(items, from, to);
    assert moved[..to] == rest[..to] && moved[to + 1..] == rest[to..];
    assert moved[..to] + moved[to + 1..] == rest;
    assert rest[..from] == items[..from] && rest[from..] == items[from + 1..];
    assert items == items[..from] + [items[from]] + items[from + 1..];
    assert rest == rest[..to] + rest[to..];
    calc {
      multiset(moved);
      multiset(rest[..to]) + multiset{items[from]} + multiset(rest[to..]);
      { assert multiset(rest) == multiset(rest[..to]) + multiset(rest[to..]); }
      multiset(rest) + multiset{items[from]};
      { assert multiset(rest) == multiset(items[..from]) + multiset(items[from + 1..]); }
      multiset(items);
    }
  }

  /** Splicing the removed items back in place of the inserted ones restores the array. */
  lemma SpliceBack<T>(items: seq<T>, start: int, count: int, inserted: seq<T>)
    requires 0 <= start && 0 <= count && start + count <= |items|
    ensures |Spliced(items, start, count, inserted)| == |items| - count + |inserted|
    ensures Spliced(items, start, count, inserted)[start..start + |inserted|] == inserted
    ensures Spliced(Spliced(items, start, count, inserted), start, |inserted|, items[start..start + count]) == items
  {
    var spliced := Spliced(items, start, count, inserted);
    assert spliced[..start] == items[..start];
    assert spliced[start + |inserted|..] == items[start + count..];
  }

  // ---------------------------------------------------------------- merge

  lemma {:induction false} DivergeLast(path: Path, a: Part, b: Part)
    requires a != b
    ensures Diverge(path + [a], path + [b])
  {
    if path != [] {
      assert (path + [a])[1..] == path[1..] + [a] && (path + [b])[1..] == path[1..] + [b];
      DivergeLast(path[1..], a, b);
    }
  }

  /** What a key reads once a patch is laid over what it read before. */
  function Overlaid(patch: seq<Entry>, key: string, before: Option<Value>): Option<Value> {
    var i := FindKey(patch, key);
    if i.Some? then Some(patch[i.value].value) else before
  }

  /** After a merge every patched key reads its patch, and every other key of the object reads as before. */
  lemma {:induction false} MergeReads(v: Value, path: Path, patch: seq<Entry>, key: string)
    requires UniqueKeys(patch) && SetEach(v, path, patch).Success?
    ensures At(SetEach(v, path, patch).value, path + [Key(key)]) == Overlaid(patch, key, At(v, path + [Key(key)]))
    decreases |patch|
  {
    if patch != [] {
      var first := path + [Key(patch[0].key)];
      MergeReads(Set(v, first, patch[0].value).value, path, patch[1..], key);
      ReadAfterWrite(v, first, patch[0].value, true);
      if key != patch[0].key {
        DivergeLast(path, Key(patch[0].key), Key(key));
        WriteFrame(v, first, patch[0].value, true, path + [Key(key)]);
      } else {
        assert forall i | 0 <= i < |patch[1..]| :: patch[1..][i].key == patch[i + 1].key != key;
      }
    }
  }
}
