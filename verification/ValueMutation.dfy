/**
 * Path reads and immutable path writes over the carrier. Each write returns a fresh
 * value or the reason its path does not resolve.
 */
module ValueMutation {
  import opened Prelude
  import opened OrderedValue

  datatype Part = Key(key: string) | Index(index: int)

  type Path = seq<Part>

  datatype Fault =
    | CannotSetRoot
    | CannotDeleteRoot
    | CannotDeleteIndex
    | ArrayPathUnresolved
    | ObjectPathUnresolved
    | EndpointNotObject
    | EndpointNotArray
    | RenameSourceMissing
    | MoveSourceInvalid
    | MoveDestinationInvalid
    | SpliceStartInvalid
    | SpliceCountInvalid
    | PathUnresolved
    | BatchClosed

  /** The child one path part selects, if it resolves. */
  function Child(v: Value, part: Part): Option<Value> {
    match part
    case Index(i) => if v.Arr? && 0 <= i < |v.items| then Some(v.items[i]) else None
    case Key(k) =>
      if !v.Obj? then None
      else match FindKey(v.entries, k)
        case None => None
        case Some(i) => Some(v.entries[i].value)
  }

  /** The same array or object with one existing child exchanged in position. */
  function WithChild(v: Value, part: Part, child: Value): Value
    requires Child(v, part).Some?
  {
    match part
    case Index(i) => Arr(v.items[i := child])
    case Key(k) => var i := FindKey(v.entries, k).value; Obj(v.entries[i := Entry(k, child)])
  }

  function Unresolved(part: Part): Fault {
    if part.Index? then ArrayPathUnresolved else ObjectPathUnresolved
  }

  /** The value a path leads to. */
  function At(root: Value, path: Path): Option<Value> {
    if path == [] then Some(root)
    else match Child(root, path[0])
      case None => None
      case Some(child) => At(child, path[1..])
  }

  /** The read as the source runs it: one current value walked along the path. */
  method ReadAt(root: Value, path: Path) returns (r: Option<Value>)
    ensures r == At(root, path)
  {
    var current := root;
    for n := 0 to |path|
      invariant At(root, path) == At(current, path[n..])
    {
      var next := Child(current, path[n]);
      assert path[n..][1..] == path[n + 1..];
      if next.None? { return None; }
      current := next.value;
    }
    r := Some(current);
  }

  function WriteAt(current: Value, path: Path, value: Value, allowMissingLeaf: bool): Result<Value, Fault>
    decreases |path|
  {
    if path == [] then Success(value)
    else match Child(current, path[0])
      case Some(child) =>
        var next :- WriteAt(child, path[1..], value, allowMissingLeaf);
        Success(WithChild(current, path[0], next))
      case None =>
        if path[0].Key? && current.Obj? && |path| == 1 && allowMissingLeaf then
          Success(Obj(current.entries + [Entry(path[0].key, value)]))
        else
          Failure(Unresolved(path[0]))
  }

  function Set(root: Value, path: Path, value: Value): Result<Value, Fault> {
    if path == [] then Failure(CannotSetRoot) else WriteAt(root, path, value, true)
  }

  function Replace(root: Value, path: Path, value: Value): Result<Value, Fault> {
    if path == [] then Success(value) else WriteAt(root, path, value, false)
  }

  function DeleteAt(current: Value, path: Path): Result<Value, Fault>
    requires path != []
    decreases |path|
  {
    match Child(current, path[0])
    case None => Failure(Unresolved(path[0]))
    case Some(child) =>
      if |path| == 1 then
        if path[0].Index? then Failure(CannotDeleteIndex)
        else
          var i := FindKey(current.entries, path[0].key).value;
          Success(Obj(current.entries[..i] + current.entries[i + 1..]))
      else
        var next :- DeleteAt(child, path[1..]);
        Success(WithChild(current, path[0], next))
  }

  function Delete(root: Value, path: Path): Result<Value, Fault> {
    if path == [] then Failure(CannotDeleteRoot) else DeleteAt(root, path)
  }

  /** Entries after renaming: the renamed entry keeps its position, an old `to` entry retires. */
  function RenamedEntries(entries: seq<Entry>, from: string, to: string): seq<Entry> {
    if entries == [] then []
    else
      var rest := RenamedEntries(entries[1..], from, to);
      if entries[0].key == from then [Entry(to, entries[0].value)] + rest
      else if entries[0].key == to then rest
      else [entries[0]] + rest
  }

  function Rename(root: Value, path: Path, from: string, to: string): Result<Value, Fault> {
    match At(root, path)
    case Some(Obj(entries)) =>
      if FindKey(entries, from).None? then Failure(RenameSourceMissing)
      else if from == to then Success(root)
      else Replace(root, path, Obj(RenamedEntries(entries, from, to)))
    case _ => Failure(EndpointNotObject)
  }

  /** Take the item at `from` out, then insert it so that it ends up at `to`. */
  function Moved<T>(items: seq<T>, from: int, to: int): (r: seq<T>)
    requires 0 <= from < |items| && 0 <= to < |items|
    ensures |r| == |items|
  {
    var rest := items[..from] + items[from + 1..];
    rest[..to] + [items[from]] + rest[to..]
  }

  function Move(root: Value, path: Path, from: int, to: int): Result<Value, Fault> {
    match At(root, path)
    case Some(Arr(items)) =>
      if !(0 <= from < |items|) then Failure(MoveSourceInvalid)
      else if !(0 <= to < |items|) then Failure(MoveDestinationInvalid)
      else if from == to then Success(root)
      else Replace(root, path, Arr(Moved(items, from, to)))
    case _ => Failure(EndpointNotArray)
  }

  function Spliced<T>(items: seq<T>, start: int, count: int, inserted: seq<T>): seq<T>
    requires 0 <= start && 0 <= count && start + count <= |items|
  {
    items[..start] + inserted + items[start + count..]
  }

  datatype SpliceResult = SpliceResult(value: Value, removed: seq<Value>)

  function Splice(root: Value, path: Path, start: int, count: int, inserted: seq<Value>): Result<SpliceResult, Fault> {
    match At(root, path)
    case Some(Arr(items)) =>
      if !(0 <= start <= |items|) then Failure(SpliceStartInvalid)
      else if !(0 <= count && start + count <= |items|) then Failure(SpliceCountInvalid)
      else
        var next :- Replace(root, path, Arr(Spliced(items, start, count, inserted)));
        Success(SpliceResult(next, items[start..start + count]))
    case _ => Failure(EndpointNotArray)
  }

  /** Ordered assignment of every patch entry below an object: the specification of the merge loop. */
  function SetEach(root: Value, path: Path, patch: seq<Entry>): Result<Value, Fault>
    decreases |patch|
  {
    if patch == [] then Success(root)
    else
      var next :- Set(root, path + [Key(patch[0].key)], patch[0].value);
      SetEach(next, path, patch[1..])
  }

  method Merge(root: Value, path: Path, patch: seq<Entry>) returns (r: Result<Value, Fault>)
    ensures At(root, path).Some? && At(root, path).value.Obj? ==> r == SetEach(root, path, patch)
    ensures !(At(root, path).Some? && At(root, path).value.Obj?) ==> r == Failure(EndpointNotObject)
  {
    var current := At(root, path);
    if !(current.Some? && current.value.Obj?) { return Failure(EndpointNotObject); }
    var candidate := root;
    for n := 0 to |patch|
      invariant SetEach(root, path, patch) == SetEach(candidate, path, patch[n..])
    {
      assert patch[n..][1..] == patch[n + 1..];
      var step := Set(candidate, path + [Key(patch[n].key)], patch[n].value);
      if step.Failure? { return Failure(step.error); }
      candidate := step.value;
    }
    r := Success(candidate);
  }
}
