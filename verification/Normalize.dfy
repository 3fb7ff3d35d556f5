/**
 * Normalization of permissive node graphs, on trees: optional containers are tidied, arrays are
 * put in index order, and ordinary nodes get exactly one structural wrapper.
 */
module Normalize {
  import opened Prelude
  import opened HsonGraph
  import opened ArrayIndexes

  datatype Mode = ElementMode | ObjectMode

  /** A normalized part, and whether it differs from what was given. */
  datatype Visited<T> = Visited(part: T, changed: bool)

  function Spelling(p: Primitive): string {
    match p
    case PNull => "null"
    case PBool(flag) => if flag then "true" else "false"
    case PNum(NegativeZero) => "0"
    case PNum(Finite(text)) => text
    case PStr(text) => text
  }

  // ---------------------------------------------------------------- containers

  function VisitMeta(tag: Tag, meta: Container<MetaValue>): Option<Visited<Container<MetaValue>>> {
    match meta
    case Missing => Some(Visited(Missing, false))
    case Undefined => Some(Visited(Missing, true))
    case EmptyArray => if tag == RootTag then None else Some(Visited(Missing, true))
    case Record(_) => Some(Visited(meta, false))
  }

  predicate AttrAdmitted(key: string, value: AttrValue) {
    match value
    case AText(_) => true
    case AUndefined => true
    case AStyle(_) => key == "style"
    case AScalar(_) => key != "style"
    case AMalformed => false
  }

  function TidyAttr(value: AttrValue): AttrValue {
    if value.AScalar? then AText(Spelling(value.scalar)) else value
  }

  predicate TidyAttrs(fields: map<string, AttrValue>) {
    forall key | key in fields :: fields[key].AText? || (key == "style" && fields[key].AStyle?)
  }

  /** Undefined entries go, scalars become text, and a record left empty goes altogether. */
  function VisitAttrs(attrs: Container<AttrValue>): Option<Visited<Container<AttrValue>>> {
    match attrs
    case Missing => Some(Visited(Missing, false))
    case Undefined => Some(Visited(Missing, true))
    case EmptyArray => Some(Visited(Missing, true))
    case Record(fields) =>
      if exists key :: key in fields && !AttrAdmitted(key, fields[key]) then None
      else
        var kept := map key | key in fields && !fields[key].AUndefined? :: TidyAttr(fields[key]);
        if kept == map[] then Some(Visited(Missing, true))
        else Some(Visited(Record(kept), !TidyAttrs(fields)))
  }

  // ---------------------------------------------------------------- structure

  function ChildMode(tag: Tag, required: Option<Mode>): Option<Mode> {
    match tag
    case ElemTag => Some(ElementMode)
    case ObjTag => Some(ObjectMode)
    case Ordinary(_) => required
    case _ => None
  }

  predicate IsWrapperTag(tag: Tag) {
    tag.ElemTag? || tag.ArrTag? || tag.ObjTag?
  }

  predicate IsElementChild(item: Item) {
    IsNode(item) && item.node.tag.Ordinary? && (Classify(item.node).EmptyElement? || Classify(item.node).Element?)
  }

  predicate IsObjectChild(item: Item) {
    && IsNode(item)
    && (item.node.tag.ValTag?
        || (item.node.tag.Ordinary?
            && (Classify(item.node).Object? || Classify(item.node).ObjectScalar? || Classify(item.node).Array?)))
  }

  /** The content of an ordinary node, given at most one structural wrapper. */
  function WrapContent(content: seq<Item>, required: Option<Mode>): Option<Visited<seq<Item>>> {
    if content == [] then Some(Visited([], false))
    else if |content| == 1 && IsNode(content[0]) && IsWrapperTag(content[0].node.tag) then
      if content[0].node.tag == ElemTag && content[0].node.content == [] then Some(Visited([], true))
      else Some(Visited(content, false))
    else if |content| == 1 && IsNode(content[0]) && (content[0].node.tag.StrTag? || content[0].node.tag.ValTag?) then
      if required == Some(ElementMode) && content[0].node.tag.ValTag? then None
      else Some(Visited([Sub(Plain(if required == Some(ElementMode) then ElemTag else ObjTag, content))], true))
    else if exists i :: 0 <= i < |content| && !IsNode(content[i]) then None
    else if exists i :: 0 <= i < |content| && IsWrapperTag(content[i].node.tag) then None
    else
      var hasElement := exists i :: 0 <= i < |content| && IsElementChild(content[i]);
      var hasObject := exists i :: 0 <= i < |content| && IsObjectChild(content[i]);
      if hasElement && hasObject then None
      else if (required == Some(ElementMode) && hasObject) || (required == Some(ObjectMode) && hasElement) then None
      else
        var mode := if required.Some? then required.value else if hasObject then ObjectMode else ElementMode;
        Some(Visited([Sub(Plain(if mode == ObjectMode then ObjTag else ElemTag, content))], true))
  }

  /** What each kind of node does with its normalized children. */
  function Arranged(tag: Tag, content: seq<Item>, required: Option<Mode>): Option<Visited<seq<Item>>> {
    match tag
    case ArrTag => if Arrangeable(content) then Some(Visited(Arrange(content), Arrange(content) != content)) else None
    case ItemTag =>
      if |content| == 1 && IsNode(content[0]) && content[0].node.tag.Ordinary? then None
      else Some(Visited(content, false))
    case Ordinary(_) => WrapContent(content, required)
    case _ => Some(Visited(content, false))
  }

  function Visit(node: Node, required: Option<Mode>): Option<Visited<Node>>
    decreases node
  {
    match (VisitMeta(node.tag, node.meta), VisitAttrs(node.attrs), VisitContent(node.content, ChildMode(node.tag, required)))
    case (Some(meta), Some(attrs), Some(children)) =>
      (match Arranged(node.tag, children.part, required)
       case None => None
       case Some(content) =>
         Some(Visited(Node(node.tag, content.part, attrs.part, meta.part),
                      meta.changed || attrs.changed || children.changed || content.changed)))
    case _ => None
  }

  function VisitItem(item: Item, required: Option<Mode>): Option<Visited<Item>>
    decreases item
  {
    match item
    case Prim(_) => Some(Visited(item, false))
    case Sub(child) => match Visit(child, required)
      case None => None
      case Some(v) => Some(Visited(Sub(v.part), v.changed))
  }

  function VisitContent(content: seq<Item>, required: Option<Mode>): (r: Option<Visited<seq<Item>>>)
    ensures r.Some? ==> |r.value.part| == |content|
    decreases content
  {
    if content == [] then Some(Visited([], false))
    else match (VisitItem(content[0], required), VisitContent(content[1..], required))
      case (Some(first), Some(rest)) => Some(Visited([first.part] + rest.part, first.changed || rest.changed))
      case _ => None
  }

  /** Normalization of a whole tree: the caller's own tree when nothing changed. */
  function NormalizeGraph(input: Node): Option<Node> {
    match Visit(input, None)
    case None => None
    case Some(v) => Some(if v.changed then v.part else input)
  }

  // ---------------------------------------------------------------- normal forms

  predicate NormalContainers(node: Node) {
    && (node.meta.Missing? || node.meta.Record?)
    && (node.attrs.Missing? || (node.attrs.Record? && node.attrs.fields != map[] && TidyAttrs(node.attrs.fields)))
  }

  predicate NormalShape(tag: Tag, content: seq<Item>) {
    match tag
    case ArrTag => Arrangeable(content) && Arrange(content) == content
    case ItemTag => !(|content| == 1 && IsNode(content[0]) && content[0].node.tag.Ordinary?)
    case Ordinary(_) =>
      content == [] ||
      (|content| == 1 && IsNode(content[0]) && IsWrapperTag(content[0].node.tag) &&
       !(content[0].node.tag == ElemTag && content[0].node.content == []))
    case _ => true
  }

  /** The trees normalization has nothing to do to. */
  predicate Normal(node: Node) {
    && NormalContainers(node)
    && NormalShape(node.tag, node.content)
    && forall i | 0 <= i < |node.content| :: NormalItem(node.content[i])
  }

  predicate NormalItem(item: Item) {
    item.Sub? ==> Normal(item.node)
  }

  predicate NormalItems(content: seq<Item>) {
    forall i | 0 <= i < |content| :: NormalItem(content[i])
  }

  lemma AttrsTidied(attrs: Container<AttrValue>)
    requires VisitAttrs(attrs).Some?
    ensures var r := VisitAttrs(attrs).value;
            && (r.part.Missing? || (r.part.Record? && r.part.fields != map[] && TidyAttrs(r.part.fields)))
            && (!r.changed ==> r.part == attrs)
  {
    if attrs.Record? && VisitAttrs(attrs).value.part.Record? {
      var fields, kept := attrs.fields, VisitAttrs(attrs).value.part.fields;
      forall key | key in kept ensures kept[key].AText? || (key == "style" && kept[key].AStyle?) {
        assert AttrAdmitted(key, fields[key]);
      }
      if TidyAttrs(fields) { assert kept == fields; }
    }
  }

  lemma TidyAttrsUnchanged(attrs: Container<AttrValue>)
    requires attrs.Missing? || (attrs.Record? && attrs.fields != map[] && TidyAttrs(attrs.fields))
    ensures VisitAttrs(attrs) == Some(Visited(attrs, false))
  {
    if attrs.Record? {
      var fields := attrs.fields;
      assert (map key | key in fields && !fields[key].AUndefined? :: TidyAttr(fields[key])) == fields;
    }
  }

  /** Arranging normalized children gives a normal shape over normal children, and says whether it changed. */
  lemma ArrangedIsNormal(tag: Tag, content: seq<Item>, required: Option<Mode>)
    requires NormalItems(content) && Arranged(tag, content, required).Some?
    ensures var r := Arranged(tag, content, required).value;
            NormalShape(tag, r.part) && NormalItems(r.part) && (!r.changed ==> r.part == content)
  {
    var r := Arranged(tag, content, required).value;
    match tag
    case ArrTag =>
      ArrangeIsFixpoint(content);
      forall i | 0 <= i < |r.part| ensures NormalItem(r.part[i]) {
        assert r.part[i] in content;
      }
    case Ordinary(_) =>
      if r.part != [] && r.part != content {
        var wrapper := r.part[0].node;
        assert wrapper == Plain(wrapper.tag, content);
        assert NormalItems(wrapper.content);
      }
    case _ =>
  }

  lemma NormalShapeUnchanged(tag: Tag, content: seq<Item>, required: Option<Mode>)
    requires NormalShape(tag, content)
    ensures Arranged(tag, content, required) == Some(Visited(content, false))
  {
  }

  /** Whatever normalization returns is normal; and an unset change flag means the tree came back as it was. */
  lemma {:induction false} VisitIsNormal(node: Node, required: Option<Mode>)
    requires Visit(node, required).Some?
    ensures var r := Visit(node, required).value; Normal(r.part) && (!r.changed ==> r.part == node)
    decreases node
  {
    var children := VisitContent(node.content, ChildMode(node.tag, required)).value;
    VisitContentIsNormal(node.content, ChildMode(node.tag, required));
    AttrsTidied(node.attrs);
    ArrangedIsNormal(node.tag, children.part, required);
  }

  lemma {:induction false} VisitContentIsNormal(content: seq<Item>, required: Option<Mode>)
    requires VisitContent(content, required).Some?
    ensures var r := VisitContent(content, required).value; NormalItems(r.part) && (!r.changed ==> r.part == content)
    decreases content
  {
    if content != [] {
      if content[0].Sub? {
        assert content[0].node < content[0];
        VisitIsNormal(content[0].node, required);
      }
      VisitContentIsNormal(content[1..], required);
      assert content == [content[0]] + content[1..];
    }
  }

  /** Normal trees pass through unchanged, whatever mode is required of them. */
  lemma {:induction false} NormalIsUnchanged(node: Node, required: Option<Mode>)
    requires Normal(node)
    ensures Visit(node, required) == Some(Visited(node, false))
    decreases node
  {
    NormalContentIsUnchanged(node.content, ChildMode(node.tag, required));
    TidyAttrsUnchanged(node.attrs);
    NormalShapeUnchanged(node.tag, node.content, required);
  }

  lemma {:induction false} NormalContentIsUnchanged(content: seq<Item>, required: Option<Mode>)
    requires NormalItems(content)
    ensures VisitContent(content, required) == Some(Visited(content, false))
    decreases content
  {
    if content != [] {
      assert NormalItem(content[0]);
      if content[0].Sub? {
        assert content[0].node < content[0];
        NormalIsUnchanged(content[0].node, required);
      }
      NormalContentIsUnchanged(content[1..], required);
      assert content == [content[0]] + content[1..];
    }
  }

  /**
   * Normalization is a mode-independent fixpoint: a tree it returned under one required mode is
   * returned unchanged, without failure and with the flag unset, under every required mode.
   */
  lemma NormalizationIsFixpoint(node: Node, required: Option<Mode>, again: Option<Mode>)
    requires Visit(node, required).Some?
    ensures Visit(Visit(node, required).value.part, again) == Some(Visited(Visit(node, required).value.part, false))
  {
    VisitIsNormal(node, required);
    NormalIsUnchanged(Visit(node, required).value.part, again);
  }

  lemma NormalizeGraphIdempotent(input: Node)
    requires NormalizeGraph(input).Some?
    ensures NormalizeGraph(NormalizeGraph(input).value) == NormalizeGraph(input)
    ensures Normal(NormalizeGraph(input).value) && NormalizeGraph(input).value == Visit(input, None).value.part
  {
    VisitIsNormal(input, None);
    NormalIsUnchanged(NormalizeGraph(input).value, None);
  }

  /** The final classification check of an ordinary node never fails, and never meets an empty wrapper. */
  lemma NormalIsClassified(node: Node)
    requires node.tag.Ordinary? && NormalShape(node.tag, node.content)
    ensures !Classify(node).InvalidStructure? && !Classify(node).LegacyEmptyElementWrapper?
    ensures !Classify(node).ObjectScalar?
  {
  }

  /** A wrapper put around content never mixes modes, and is of the required mode when there is one. */
  lemma WrapperNeverMixes(content: seq<Item>, required: Option<Mode>)
    requires WrapContent(content, required).Some? && WrapContent(content, required).value.changed
    ensures var wrapped := WrapContent(content, required).value.part;
            wrapped == [] ||
            (|wrapped| == 1 && wrapped[0].Sub? && wrapped[0].node == Plain(wrapped[0].node.tag, content)
             && (required == Some(ElementMode) ==> wrapped[0].node.tag == ElemTag)
             && (required == Some(ObjectMode) ==> wrapped[0].node.tag == ObjTag)
             && (wrapped[0].node.tag == ElemTag ==> forall i | 0 <= i < |content| :: !IsObjectChild(content[i]))
             && (wrapped[0].node.tag == ObjTag ==> forall i | 0 <= i < |content| :: !IsElementChild(content[i])))
  {
  }

  // ---------------------------------------------------------------- the recursive visitor

  /** The visitor as it runs: one shared change flag, children pushed in order. */
  class Normalizer {
    var changed: bool

    constructor ()
      ensures !changed
    {
      changed := false;
    }

    method VisitNode(node: Node, required: Option<Mode>) returns (r: Option<Node>)
      modifies this
      ensures r.Some? <==> Visit(node, required).Some?
      ensures r.Some? ==> var v := Visit(node, required).value; r.value == v.part && changed == (old(changed) || v.changed)
      decreases node
    {
      var meta := VisitMeta(node.tag, node.meta);
      if meta.None? { return None; }
      var attrs := VisitAttrs(node.attrs);
      if attrs.None? { return None; }
      changed := changed || meta.value.changed || attrs.value.changed;
      var children := VisitChildren(node.content, ChildMode(node.tag, required));
      if children.None? { return None; }
      var content := Arranged(node.tag, children.value, required);
      if content.None? { return None; }
      changed := changed || content.value.changed;
      r := Some(Node(node.tag, content.value.part, attrs.value.part, meta.value.part));
    }

    method VisitChildren(content: seq<Item>, required: Option<Mode>) returns (r: Option<seq<Item>>)
      modifies this
      ensures r.Some? <==> VisitContent(content, required).Some?
      ensures r.Some? ==> var v := VisitContent(content, required).value; r.value == v.part && changed == (old(changed) || v.changed)
      decreases content
    {
      var visited: seq<Item> := [];
      ghost var before := changed;
      ghost var flag := false;
      assert content[0..] == content;
      LeadNested([], false, [], false, VisitContent(content, required));
      for n := 0 to |content|
        invariant VisitContent(content, required) == Lead(visited, flag, VisitContent(content[n..], required))
        invariant changed == (before || flag)
      {
        assert content[n..][1..] == content[n + 1..];
        var item := content[n];
        ghost var first := VisitItem(item, required);
        if item.Sub? {
          assert content[n].node < content[n];
          var child := VisitNode(content[n].node, required);
          if child.None? { return None; }
          item := Sub(child.value);
        }
        LeadNested(visited, flag, [item], first.value.changed, VisitContent(content[n + 1..], required));
        visited, flag := visited + [item], flag || first.value.changed;
      }
      assert visited + [] == visited;
      r := Some(visited);
    }
  }

  function Lead(visited: seq<Item>, flag: bool, r: Option<Visited<seq<Item>>>): Option<Visited<seq<Item>>> {
    if r.None? then None else Some(Visited(visited + r.value.part, flag || r.value.changed))
  }

  lemma LeadNested(a: seq<Item>, f: bool, b: seq<Item>, g: bool, r: Option<Visited<seq<Item>>>)
    ensures Lead(a, f, Lead(b, g, r)) == Lead(a + b, f || g, r) && Lead([], false, r) == r
  {
    if r.Some? {
      assert a + (b + r.value.part) == a + b + r.value.part;
      assert [] + r.value.part == r.value.part;
    }
  }

  method Run(input: Node) returns (r: Option<Node>)
    ensures r == NormalizeGraph(input)
  {
    var normalizer := new Normalizer();
    var normalized := normalizer.VisitNode(input, None);
    if normalized.None? { return None; }
    r := Some(if normalizer.changed then normalized.value else input);
  }
}
