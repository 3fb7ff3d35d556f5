/** What normalization keeps: every node with its attributes, metadata and place, whatever the tree stands for. */
module NormalizeLaws {
  import opened Prelude
  import opened OrderedValue
  import opened HsonGraph
  import opened ArrayIndexes
  import opened Normalize
  import opened SemanticValue

  // ---------------------------------------------------------------- attributes

  /** The text String gives a primitive: keywords, a number's own spelling with -0 as 0, a text itself. */
  predicate IsSpelling(p: Primitive, text: string) {
    && (p.PNull? ==> text == "null")
    && (p == PBool(true) ==> text == "true") && (p == PBool(false) ==> text == "false")
    && (p == PNum(NegativeZero) ==> text == "0")
    && (p.PNum? && p.number.Finite? ==> text == p.number.text)
    && (p.PStr? ==> text == p.text)
  }

  /** An attribute after normalization: texts and styles as they were, a scalar as its text. */
  predicate AttrKept(before: AttrValue, after: AttrValue) {
    if before.AScalar? then after.AText? && IsSpelling(before.scalar, after.text) else after == before
  }

  /** What an attribute may hold: anything but a malformed value, with styles under "style" and scalars elsewhere. */
  predicate Admissible(key: string, value: AttrValue) {
    !value.AMalformed? && (value.AStyle? ==> key == "style") && (value.AScalar? ==> key != "style")
  }

  function FieldsOf<T>(container: Container<T>): map<string, T> {
    if container.Record? then container.fields else map[]
  }

  /**
   * Attributes are refused iff one is inadmissible. Otherwise exactly the defined ones survive, each
   * under its key and with its value; what is not a record, or keeps nothing, becomes no attributes at all.
   */
  lemma AttributesKept(attrs: Container<AttrValue>)
    ensures VisitAttrs(attrs).Some? <==> forall key | key in FieldsOf(attrs) :: Admissible(key, FieldsOf(attrs)[key])
    ensures VisitAttrs(attrs).Some? ==>
              var before, r := FieldsOf(attrs), VisitAttrs(attrs).value.part;
              var after := FieldsOf(r);
              && (forall key :: key in after <==> key in before && before[key] != AUndefined)
              && (forall key | key in after :: AttrKept(before[key], after[key]))
              && (r.Missing? || (r.Record? && after != map[]))
  {
    if attrs.Record? {
      forall key | key in attrs.fields ensures Admissible(key, attrs.fields[key]) <==> AttrAdmitted(key, attrs.fields[key]) {}
      if VisitAttrs(attrs).None? {
        var key :| key in attrs.fields && !AttrAdmitted(key, attrs.fields[key]);
        assert !Admissible(key, FieldsOf(attrs)[key]);
      }
      if VisitAttrs(attrs).Some? && VisitAttrs(attrs).value.part.Missing? {
        forall key | key in attrs.fields ensures attrs.fields[key] == AUndefined {
          var kept := map k | k in attrs.fields && !attrs.fields[k].AUndefined? :: TidyAttr(attrs.fields[k]);
          assert kept == map[];
          assert attrs.fields[key].AUndefined? || key in kept;
        }
      }
    }
  }

  /** Metadata that is a record stays as it is; any other becomes none, and `[]` on a root is refused. */
  lemma MetadataKept(tag: Tag, meta: Container<MetaValue>)
    ensures VisitMeta(tag, meta).Some? <==> !(tag.RootTag? && meta.EmptyArray?)
    ensures VisitMeta(tag, meta).Some? ==>
              VisitMeta(tag, meta).value.part == if meta.Record? then meta else Missing
  {
  }

  // ---------------------------------------------------------------- what normalization may change, erased

  /** The attributes that count, as texts and styles. */
  function ErasedAttrs(attrs: Container<AttrValue>): Container<AttrValue> {
    var fields := FieldsOf(attrs);
    Record(map key | key in fields && !fields[key].AUndefined? :: TidyAttr(fields[key]))
  }

  /** A structural wrapper with nothing of its own: it holds no attributes and no metadata, or is an empty element. */
  predicate BareWrapper(item: Item) {
    && IsNode(item) && (item.node.tag.ObjTag? || item.node.tag.ElemTag?)
    && ((FieldsOf(item.node.attrs) == map[] && FieldsOf(item.node.meta) == map[])
        || (item.node.tag.ElemTag? && item.node.content == []))
  }

  /** The content of an ordinary node without its bare wrapper, and of an array in index order. */
  function ErasedContent(tag: Tag, content: seq<Item>): seq<Item> {
    match tag
    case Ordinary(_) => if |content| == 1 && BareWrapper(content[0]) then content[0].node.content else content
    case ArrTag => if Arrangeable(content) then Arrange(content) else content
    case _ => content
  }

  /** A tree up to the spelling of its containers, its bare wrappers and the order its array items stand in. */
  function Erased(node: Node): Node
    decreases node
  {
    Node(node.tag, ErasedContent(node.tag, ErasedItems(node.content)), ErasedAttrs(node.attrs), Record(FieldsOf(node.meta)))
  }

  function ErasedItem(item: Item): Item
    decreases item
  {
    match item
    case Prim(_) => item
    case Sub(child) => Sub(Erased(child))
  }

  function ErasedItems(content: seq<Item>): (r: seq<Item>)
    ensures |r| == |content|
    ensures forall i | 0 <= i < |r| :: r[i] == ErasedItem(content[i])
    decreases content
  {
    if content == [] then [] else [ErasedItem(content[0])] + ErasedItems(content[1..])
  }

  // ---------------------------------------------------------------- it keeps the rest

  lemma AttrsErased(attrs: Container<AttrValue>)
    requires VisitAttrs(attrs).Some?
    ensures ErasedAttrs(VisitAttrs(attrs).value.part) == ErasedAttrs(attrs)
  {
    AttributesKept(attrs);
    var before, after := FieldsOf(attrs), FieldsOf(VisitAttrs(attrs).value.part);
    forall key | key in after ensures !after[key].AUndefined? && TidyAttr(after[key]) == TidyAttr(before[key]) {
      assert AttrKept(before[key], after[key]);
    }
  }

  lemma ItemErased(item: Item)
    ensures IsNode(ErasedItem(item)) == IsNode(item) && (item.Sub? ==> ErasedItem(item).node.tag == item.node.tag)
    ensures HasIndex(ErasedItem(item)) == HasIndex(item)
    ensures HasIndex(item) ==> IndexOf(ErasedItem(item)) == IndexOf(item)
  {
  }

  lemma {:induction false} FoundErased(content: seq<Item>, index: string)
    ensures Find(ErasedItems(content), index) == Find(content, index)
    decreases |content|
  {
    if content != [] {
      ItemErased(content[0]);
      assert ErasedItems(content)[1..] == ErasedItems(content[1..]);
      FoundErased(content[1..], index);
    }
  }

  lemma ArrangedErased(content: seq<Item>)
    ensures Arrangeable(ErasedItems(content)) == Arrangeable(content)
    ensures Arrangeable(content) ==> ErasedItems(Arrange(content)) == Arrange(ErasedItems(content))
  {
    forall i | 0 <= i < |content| ensures HasIndex(ErasedItems(content)[i]) == HasIndex(content[i]) { ItemErased(content[i]); }
    forall k: nat ensures Find(ErasedItems(content), Decimal(k)) == Find(content, Decimal(k)) {
      FoundErased(content, Decimal(k));
    }
  }

  /** Wrapping, unwrapping and arranging are what erasing ignores. */
  lemma ContentErased(tag: Tag, content: seq<Item>, required: Option<Mode>)
    requires Arranged(tag, content, required).Some?
    ensures ErasedContent(tag, ErasedItems(Arranged(tag, content, required).value.part)) ==
            ErasedContent(tag, ErasedItems(content))
  {
    var part := Arranged(tag, content, required).value.part;
    match tag
    case ArrTag =>
      ArrangedErased(content);
      ArrangedErased(part);
      ArrangeIsFixpoint(ErasedItems(content));
    case Ordinary(name) => WrapErased(name, content, required);
    case _ =>
  }

  lemma WrapErased(name: string, content: seq<Item>, required: Option<Mode>)
    requires WrapContent(content, required).Some?
    ensures ErasedContent(Ordinary(name), ErasedItems(WrapContent(content, required).value.part)) ==
            ErasedContent(Ordinary(name), ErasedItems(content))
  {
    var part := WrapContent(content, required).value.part;
    if part == [] && content != [] {
      EmptyWrapperErased(content[0]);
    } else if part != content {
      WrapperAdded(content, required);
      WrapperErased(name, part[0].node.tag, content);
    }
  }

  /** What normalization adds is one plain wrapper around content that was no wrapper. */
  lemma WrapperAdded(content: seq<Item>, required: Option<Mode>)
    requires WrapContent(content, required).Some?
    requires var part := WrapContent(content, required).value.part; part != content && part != []
    ensures var part := WrapContent(content, required).value.part;
            && |part| == 1 && part[0].Sub? && part == [Sub(Plain(part[0].node.tag, content))]
            && (part[0].node.tag.ObjTag? || part[0].node.tag.ElemTag?)
    ensures |content| == 1 ==> IsNode(content[0]) && !IsWrapperTag(content[0].node.tag)
  {
  }

  lemma WrapperErased(name: string, tag: Tag, content: seq<Item>)
    requires tag.ObjTag? || tag.ElemTag?
    requires |content| == 1 ==> IsNode(content[0]) && !IsWrapperTag(content[0].node.tag)
    ensures ErasedContent(Ordinary(name), ErasedItems([Sub(Plain(tag, content))])) ==
            ErasedContent(Ordinary(name), ErasedItems(content))
  {
    var wrapper := Sub(Plain(tag, content));
    PlainErased(tag, content);
    OneErased(wrapper);
    Opened(name, ErasedItems([wrapper]));
    if |content| == 1 { WrapperlessErased(content[0]); }
    Opened(name, ErasedItems(content));
  }

  lemma OneErased(item: Item)
    ensures ErasedItems([item]) == [ErasedItem(item)]
  {
  }

  lemma WrapperlessErased(item: Item)
    requires IsNode(item) && !IsWrapperTag(item.node.tag)
    ensures !BareWrapper(ErasedItem(item))
  {
    ItemErased(item);
  }

  lemma Opened(name: string, content: seq<Item>)
    ensures ErasedContent(Ordinary(name), content) ==
            if |content| == 1 && BareWrapper(content[0]) then content[0].node.content else content
  {
  }

  lemma PlainErased(tag: Tag, content: seq<Item>)
    requires tag.ObjTag? || tag.ElemTag?
    ensures var erased := ErasedItem(Sub(Plain(tag, content)));
            erased.Sub? && erased.node.content == ErasedItems(content) && BareWrapper(erased)
  {
    var node := Erased(Plain(tag, content));
    assert node.attrs == Record(map[]) && node.meta == Record(map[]);
  }

  lemma EmptyWrapperErased(item: Item)
    requires IsNode(item) && item.node.tag.ElemTag? && item.node.content == []
    ensures BareWrapper(ErasedItem(item)) && ErasedItem(item).node.content == []
  {
    ItemErased(item);
  }

  /**
   * Normalization conserves the tree: apart from how absent containers are spelled, scalar attributes
   * become texts, bare structural wrappers come and go, and array items are put in index order,
   * the result is the input, node by node.
   */
  lemma {:induction false} VisitConserves(node: Node, required: Option<Mode>)
    requires Visit(node, required).Some?
    ensures Erased(Visit(node, required).value.part) == Erased(node)
    decreases node
  {
    var mode := ChildMode(node.tag, required);
    AttrsErased(node.attrs);
    MetadataKept(node.tag, node.meta);
    ItemsConserved(node.content, mode);
    ContentErased(node.tag, VisitContent(node.content, mode).value.part, required);
  }

  lemma {:induction false} ItemsConserved(content: seq<Item>, required: Option<Mode>)
    requires VisitContent(content, required).Some?
    ensures ErasedItems(VisitContent(content, required).value.part) == ErasedItems(content)
    decreases content
  {
    if content != [] {
      if content[0].Sub? {
        assert content[0].node < content[0];
        VisitConserves(content[0].node, required);
      }
      ItemsConserved(content[1..], required);
      var rest := VisitContent(content[1..], required).value.part;
      var first := VisitItem(content[0], required).value.part;
      assert ([first] + rest)[1..] == rest;
    }
  }

  lemma NormalizationConserves(input: Node)
    requires NormalizeGraph(input).Some?
    ensures Erased(NormalizeGraph(input).value) == Erased(input)
  {
    NormalizeGraphIdempotent(input);
    VisitConserves(input, None);
  }

  // ---------------------------------------------------------------- which wrapper, and when none

  /** A single text or scalar leaf, which an object wrapper may own. */
  predicate LoneLeaf(content: seq<Item>) {
    |content| == 1 && IsNode(content[0]) && (content[0].node.tag.StrTag? || content[0].node.tag.ValTag?)
  }

  predicate LoneWrapper(content: seq<Item>) {
    |content| == 1 && IsNode(content[0]) && IsWrapperTag(content[0].node.tag)
  }

  /** Children that all are nodes, none a wrapper itself, none against the required mode, and not of both modes. */
  predicate Wrappable(content: seq<Item>, required: Option<Mode>) {
    && (forall i | 0 <= i < |content| :: IsNode(content[i]) && !IsWrapperTag(content[i].node.tag))
    && ((forall i | 0 <= i < |content| :: !IsElementChild(content[i]))
        || (required != Some(ObjectMode) && forall i | 0 <= i < |content| :: !IsObjectChild(content[i])))
    && (required == Some(ElementMode) ==> forall i | 0 <= i < |content| :: !IsObjectChild(content[i]))
  }

  /** Content is refused iff it is neither empty, nor one wrapper, nor children one wrapper can own. */
  lemma WrapSucceedsIff(content: seq<Item>, required: Option<Mode>)
    ensures WrapContent(content, required).Some? <==> content == [] || LoneWrapper(content) || Wrappable(content, required)
  {
  }

  predicate HasObjectChild(content: seq<Item>) {
    exists i :: 0 <= i < |content| && IsObjectChild(content[i])
  }

  /**
   * The wrapper added is the required one. Where none is required a lone leaf gets an object wrapper,
   * and other children the one their own modes ask for, elements where nothing asks.
   */
  lemma WrapperKind(content: seq<Item>, required: Option<Mode>)
    requires WrapContent(content, required).Some? && content != [] && !LoneWrapper(content)
    ensures var asked := if required.Some? then required.value == ObjectMode else LoneLeaf(content) || HasObjectChild(content);
            WrapContent(content, required).value.part == [Sub(Plain(if asked then ObjTag else ElemTag, content))]
  {
    var hasObject := exists i :: 0 <= i < |content| && IsObjectChild(content[i]);
    assert hasObject <==> HasObjectChild(content);
    if !LoneLeaf(content) && required.None? {
      var part := WrapContent(content, required).value.part;
      assert part == [Sub(Plain(if hasObject then ObjTag else ElemTag, content))];
    }
  }

  /** The mode a node's children are normalized in: its own if it is a wrapper, else the one required of an ordinary node. */
  function AskedOf(tag: Tag, required: Option<Mode>): Option<Mode> {
    if tag.ElemTag? then Some(ElementMode) else if tag.ObjTag? then Some(ObjectMode) else if tag.Ordinary? then required else None
  }

  /** An ordinary child with content of its own comes out under one wrapper: the one asked for, or the one its content has. */
  predicate WrappedAs(child: Item, visited: Item, asked: Option<Mode>) {
    IsNode(child) && child.node.tag.Ordinary? && child.node.content != [] && !LoneWrapper(child.node.content) ==>
      && IsNode(visited) && |visited.node.content| == 1 && IsNode(visited.node.content[0])
      && var wrapper := visited.node.content[0].node;
         wrapper.tag == if (if asked.Some? then asked.value == ObjectMode
                            else LoneLeaf(wrapper.content) || HasObjectChild(wrapper.content)) then ObjTag else ElemTag
  }

  /** The children of a normalized node: its own, or those of the wrapper it was given. */
  function ChildrenOf(before: Node, after: Node): seq<Item> {
    if before.tag.Ordinary? && !LoneWrapper(before.content) && |after.content| == 1 && IsNode(after.content[0])
    then after.content[0].node.content else after.content
  }

  /** Visiting keeps whether content is one lone wrapper. */
  lemma NotLone(content: seq<Item>, required: Option<Mode>)
    requires VisitContent(content, required).Some? && !LoneWrapper(content)
    ensures !LoneWrapper(VisitContent(content, required).value.part)
  {
    if |content| == 1 {
      VisitContentAt(content, required, 0);
      if IsNode(content[0]) { VisitKeepsHead(content[0].node, required); }
    }
  }

  lemma ChildWrapped(child: Item, asked: Option<Mode>)
    requires VisitItem(child, asked).Some?
    ensures WrappedAs(child, VisitItem(child, asked).value.part, asked)
  {
    if IsNode(child) && child.node.tag.Ordinary? && child.node.content != [] && !LoneWrapper(child.node.content) {
      var children := VisitContent(child.node.content, asked).value.part;
      NotLone(child.node.content, asked);
      WrapperKind(children, asked);
    }
  }

  /** Inside elements every child's content becomes elements, inside objects it becomes properties. */
  lemma ChildrenAreWrapped(node: Node, required: Option<Mode>)
    requires Visit(node, required).Some? && !node.tag.ArrTag?
    ensures var children := ChildrenOf(node, Visit(node, required).value.part);
            forall i | 0 <= i < |children| && i < |node.content| ::
              WrappedAs(node.content[i], children[i], AskedOf(node.tag, required))
  {
    var mode := ChildMode(node.tag, required);
    var visited := VisitContent(node.content, mode).value.part;
    forall i: nat | i < |node.content|
      ensures WrappedAs(node.content[i], visited[i], AskedOf(node.tag, required))
    {
      VisitContentAt(node.content, mode, i);
      ChildWrapped(node.content[i], mode);
    }
    if node.tag.Ordinary? && node.content != [] && !LoneWrapper(node.content) {
      NotLone(node.content, mode);
      WrapperKind(visited, required);
    }
  }
}
