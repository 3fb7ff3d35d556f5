/**
 * The graph editor: path resolution through wrapper nodes, and the three branch edits a
 * delta install is made of. A graph is a value here; an edit yields the edited graph.
 */
module Editor {
  import opened Prelude
  import opened OrderedValue
  import opened ValueMutation
  import opened HsonGraph
  import opened Projection

  predicate IsValueTag(tag: Tag) {
    tag.ObjTag? || tag.ArrTag? || tag.StrTag? || tag.ValTag?
  }

  /** The value node inside a wrapper; value nodes are their own payload. */
  function Unwrap(wrapper: Node): Option<Node> {
    if IsValueTag(wrapper.tag) then Some(wrapper)
    else if wrapper.content != [] && IsNode(wrapper.content[0]) then Some(wrapper.content[0].node)
    else None
  }

  /** Position of the first child node with this tag. */
  function FirstTagged(content: seq<Item>, tag: Tag): (r: Option<nat>)
    ensures r.Some? ==> r.value < |content| && IsNodeTagged(content[r.value], tag)
    ensures r.Some? ==> forall j | 0 <= j < r.value :: !IsNodeTagged(content[j], tag)
    ensures r.None? ==> forall j | 0 <= j < |content| :: !IsNodeTagged(content[j], tag)
  {
    if content == [] then None
    else if IsNodeTagged(content[0], tag) then Some(0)
    else match FirstTagged(content[1..], tag)
      case None => None
      case Some(i) => Some(i + 1)
  }

  function FindWrapper(valueNode: Node, part: Part): (r: Option<nat>)
    ensures r.Some? ==> r.value < |valueNode.content| && IsNode(valueNode.content[r.value])
  {
    match part
    case Key(k) => if valueNode.tag == ObjTag then FirstTagged(valueNode.content, TagOf(k)) else None
    case Index(i) =>
      if valueNode.tag == ArrTag && 0 <= i < |valueNode.content| && IsNodeTagged(valueNode.content[i], ItemTag)
      then Some(i) else None
  }

  /** The value node a path leads to. */
  function ResolveValue(wrapper: Node, path: Path): Option<Node>
    decreases |path|
  {
    match Unwrap(wrapper)
    case None => None
    case Some(valueNode) =>
      if path == [] then Some(valueNode)
      else match FindWrapper(valueNode, path[0])
        case None => None
        case Some(i) => ResolveValue(valueNode.content[i].node, path[1..])
  }

  /** Reading a path as a carrier; `Failure` is the projection error of a malformed endpoint. */
  function ProjectLive(root: Node, path: Path): Result<Option<Value>, ()> {
    match ResolveValue(root, path)
    case None => Success(None)
    case Some(node) => if FromNode(node).Some? then Success(FromNode(node)) else Failure(())
  }

  datatype Edit = Write(value: Value) | Remove

  /** Edit one child of an already resolved parent value node. */
  function EditChild(parent: Node, part: Part, edit: Edit): Option<Node> {
    match edit
    case Write(x) =>
      if parent.tag == ObjTag && part.Key? then
        if Reserved(part.key) || !Clean(x) then None
        else
          var wrapper := Sub(PropertyNode(part.key, x));
          match FirstTagged(parent.content, TagOf(part.key))
          case None => Some(parent.(content := parent.content + [wrapper]))
          case Some(i) => Some(parent.(content := parent.content[i := wrapper]))
      else if parent.tag == ArrTag && part.Index? then
        if 0 <= part.index < |parent.content| && IsNodeTagged(parent.content[part.index], ItemTag) && Clean(x)
        then Some(parent.(content := parent.content[part.index := Sub(ItemNode(part.index, x))]))
        else None
      else None
    case Remove =>
      if parent.tag == ObjTag && part.Key? then
        match FirstTagged(parent.content, TagOf(part.key))
        case None => Some(parent)
        case Some(i) => Some(parent.(content := parent.content[..i] + parent.content[i + 1..]))
      else None
  }

  function Rewrap(wrapper: Node, valueNode: Node): Node
    requires Unwrap(wrapper).Some?
  {
    if IsValueTag(wrapper.tag) then valueNode else wrapper.(content := wrapper.content[0 := Sub(valueNode)])
  }

  /** Resolve the parent of a path and edit the child its last part names. */
  function EditAt(wrapper: Node, path: Path, edit: Edit): Option<Node>
    requires path != []
    decreases |path|
  {
    match Unwrap(wrapper)
    case None => None
    case Some(valueNode) =>
      if |path| == 1 then
        match EditChild(valueNode, path[0], edit)
        case None => None
        case Some(edited) => Some(Rewrap(wrapper, edited))
      else match FindWrapper(valueNode, path[0])
        case None => None
        case Some(i) => match EditAt(valueNode.content[i].node, path[1..], edit)
          case None => None
          case Some(child) => Some(Rewrap(wrapper, valueNode.(content := valueNode.content[i := Sub(child)])))
  }

  function SetLive(root: Node, path: Path, x: Value): Option<Node> {
    if path == [] || ProjectLive(root, path).Failure? then None else EditAt(root, path, Write(x))
  }

  function ReplaceLive(root: Node, path: Path, x: Value): Option<Node> {
    if path == [] then ToRoot(x)
    else
      var prev := ProjectLive(root, path);
      if prev.Failure? || prev.value.None? then None else EditAt(root, path, Write(x))
  }

  function DeleteLive(root: Node, path: Path): Option<Node> {
    if path == [] then None
    else
      var prev := ProjectLive(root, path);
      if prev.Failure? || prev.value.None? then None else EditAt(root, path, Remove)
  }

  // ---------------------------------------------------------------- unreserved paths

  lemma CleanChild(v: Value, part: Part)
    requires Clean(v) && Child(v, part).Some?
    ensures Clean(Child(v, part).value) && (part.Key? ==> !Reserved(part.key))
  {
  }

  predicate UnreservedKeys(path: Path) {
    forall i | 0 <= i < |path| :: path[i].Key? ==> !Reserved(path[i].key)
  }

  lemma {:induction false} ResolvedIsUnreserved(v: Value, path: Path)
    requires Clean(v) && At(v, path).Some?
    ensures UnreservedKeys(path)
    decreases |path|
  {
    if path != [] {
      CleanChild(v, path[0]);
      ResolvedIsUnreserved(Child(v, path[0]).value, path[1..]);
      forall i | 0 <= i < |path| && path[i].Key? ensures !Reserved(path[i].key) {
        if i > 0 { assert path[i] == path[1..][i - 1]; }
      }
    }
  }

  // ---------------------------------------------------------------- what edits leave alone

  /** No edit changes what kind of node the edited graph is. */
  lemma {:induction false} EditKeepsTag(w: Node, path: Path, edit: Edit)
    requires path != [] && EditAt(w, path, edit).Some?
    ensures EditAt(w, path, edit).value.tag == w.tag
    decreases |path|
  {
  }
}
