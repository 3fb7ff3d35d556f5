/** The canonical grammar checker: what a retained node tree may look like, and the walk that reports what breaks it. */
module Invariants {
  import opened OrderedValue
  import opened HsonGraph
  import opened ArrayIndexes
  import opened Projection
  import QuidCodec

  datatype Issue =
    | Malformed
    | EmptyAttributes | UnknownSystemTag | BadQuid | MetadataNotDefined | BadMetadataValue
    | AttributesOnSystemNode | ReservedAttributeName | TransitAttributeName | BadAttributeName
    | BadStructure | EmptyElementWrapper | NotElementStructured | NotObjectStructured | UnwrappedArrayMember
    | BadScalar | BadItem | BadIndexes | NotAnItemInArray | NotAllowedInElement
    | BadRoot | PrimitiveOutsideScalar | AttributesInObject | ElementInObject | DuplicateProperty

  const MARKUP_PREFIX := "hson:"
  const META_TRANSIT_PREFIX := "_hson_meta_attr_v2_"
  const ATTR_TRANSIT_PREFIX := "_hson_attr_transit_v1_"

  // ---------------------------------------------------------------- the grammar

  /** Where each metadata key may stand: identities on ordinary nodes and value containers, indexes on item wrappers. */
  predicate MetaDefined(tag: Tag, key: string) {
    if key == QUID_KEY then (tag.Ordinary? && !Reserved(tag.name)) || tag.ObjTag? || tag.ArrTag?
    else key == INDEX_KEY && tag.ItemTag?
  }

  predicate MetaValueValid(key: string, value: MetaValue) {
    if key == QUID_KEY then value.MText? && QuidCodec.IsPersisted(value.text)
    else key == INDEX_KEY && value.MText?
  }

  predicate QuidEligible(n: Node) {
    match n.tag
    case Ordinary(name) => !OldShaped(n) && !Reserved(name)
    case ArrTag => true
    case ObjTag => !Transparent(n.content)
    case _ => false
  }

  predicate MetaGrammar(n: Node) {
    n.meta.Record? ==>
      && (QUID_KEY in n.meta.fields ==> QuidEligible(n))
      && forall key | key in n.meta.fields :: MetaDefined(n.tag, key) && MetaValueValid(key, n.meta.fields[key])
  }

  function Lower(c: char): char {
    if 'A' <= c <= 'Z' then c - 'A' + 'a' else c
  }

  function Lowered(s: string): string {
    seq(|s|, i requires 0 <= i < |s| => Lower(s[i]))
  }

  predicate NameStart(c: char) {
    'A' <= c <= 'Z' || 'a' <= c <= 'z' || c == '_' || c == ':'
  }

  predicate ValidName(s: string) {
    s != [] && NameStart(s[0])
    && forall i | 0 < i < |s| :: NameStart(s[i]) || '0' <= s[i] <= '9' || s[i] == '.' || s[i] == '-'
  }

  predicate AttrName(key: string) {
    && !(MARKUP_PREFIX <= key)
    && !(META_TRANSIT_PREFIX <= Lowered(key))
    && !(ATTR_TRANSIT_PREFIX <= Lowered(key))
    && ValidName(key)
  }

  /** Attributes are never an empty record, never on a system node, and named by the shared name grammar. */
  predicate AttrGrammar(n: Node) {
    n.attrs.Record? ==>
      && n.attrs.fields != map[]
      && !IsVsn(n.tag)
      && forall key | key in n.attrs.fields :: AttrName(key)
  }

  predicate HeadGrammar(n: Node) {
    && (n.tag.Ordinary? ==> !Reserved(n.tag.name))
    && MetaGrammar(n)
    && AttrGrammar(n)
  }

  /** What an ordinary node retains, and where it may stand. */
  predicate OrdinaryGrammar(n: Node, parent: Tag)
    requires n.tag.Ordinary?
  {
    var structure := Classify(n);
    && !structure.InvalidStructure? && !structure.LegacyEmptyElementWrapper?
    && (parent == ElemTag ==> structure.EmptyElement? || structure.Element?)
    && (parent == ObjTag ==> structure.Object? || structure.ObjectScalar? || structure.Array?)
    && parent != ItemTag
  }

  predicate NonemptyAttrs(n: Node) {
    n.attrs.Record? && n.attrs.fields != map[]
  }

  predicate Named(item: Item) {
    IsNode(item) && item.node.tag.Ordinary? && !Reserved(item.node.tag.name)
  }

  /** No two ordinary properties have one name. */
  predicate UniqueTags(content: seq<Item>) {
    forall i, j | 0 <= i < j < |content| && Named(content[i]) && Named(content[j]) ::
      content[i].node.tag != content[j].node.tag
  }

  predicate ObjectChild(item: Item) {
    IsNode(item) && !NonemptyAttrs(item.node) && item.node.tag != ElemTag
  }

  predicate ElementChild(item: Item) {
    IsNode(item) && item.node.tag !in {ValTag, ObjTag, ArrTag, ItemTag}
  }

  /** The indexes are exact and the items stand in their order. */
  predicate InOrder(content: seq<Item>) {
    Arrangeable(content) && Arrange(content) == content
  }

  /** The rules of each kind of node, apart from those of the nodes below it. */
  predicate ShapeGrammar(n: Node, parent: Tag) {
    var content := n.content;
    match n.tag
    case Ordinary(_) => OrdinaryGrammar(n, parent)
    case StrTag => |content| == 1 && content[0].Prim? && content[0].primitive.PStr?
    case ValTag => |content| == 1 && content[0].Prim? && !content[0].primitive.PStr?
    case ItemTag =>
      && parent == ArrTag && !NonemptyAttrs(n)
      && |content| == 1 && IsNode(content[0]) && IsVsn(content[0].node.tag) && content[0].node.tag != ElemTag
    case ArrTag =>
      && InOrder(content)
      && forall i | 0 <= i < |content| :: IsItem(content[i])
    case ElemTag => content != [] && forall i | 0 <= i < |content| :: ElementChild(content[i])
    case RootTag =>
      |content| <= 1 &&
      (|content| == 1 ==> IsNode(content[0]) && content[0].node.tag in {ObjTag, ElemTag, ArrTag, StrTag, ValTag})
    case ObjTag => UniqueTags(content) && forall i | 0 <= i < |content| :: ObjectChild(content[i])
  }

  /** A tree the canonical grammar admits below this parent. */
  predicate Grammar(n: Node, parent: Tag)
    decreases n
  {
    && HeadGrammar(n)
    && ShapeGrammar(n, parent)
    && (n.tag.StrTag? || n.tag.ValTag? || forall i | 0 <= i < |n.content| :: GrammarItem(n.content[i], n.tag))
  }

  predicate GrammarItem(item: Item, parent: Tag)
    decreases item
  {
    IsNode(item) && Grammar(item.node, parent)
  }

  /** An attribute value a node may hold: a primitive, or under "style" a record of declarations. */
  predicate AttrShape(key: string, value: AttrValue) {
    value.AText? || value.AScalar? || (key == "style" && value.AStyle?)
  }

  /** Containers present are plain records with values of the right shape. */
  predicate HeadShape(n: Node) {
    && (n.meta.Missing? || n.meta.Record?) && (n.attrs.Missing? || n.attrs.Record?)
    && !OldShaped(n)
    && (n.meta.Record? ==>
          forall key | key in n.meta.fields && MetaDefined(n.tag, key) :: MetaValueValid(key, n.meta.fields[key]))
    && (n.attrs.Record? ==>
          && (IsVsn(n.tag) ==> n.attrs.fields == map[])
          && forall key | key in n.attrs.fields :: AttrShape(key, n.attrs.fields[key]))
  }

  /** The shape of a whole tree, apart from what scalar nodes hold. */
  predicate Shaped(n: Node)
    decreases n
  {
    HeadShape(n) && (n.tag.StrTag? || n.tag.ValTag? || forall i | 0 <= i < |n.content| :: ShapedItem(n.content[i]))
  }

  predicate ShapedItem(item: Item)
    decreases item
  {
    item.Sub? ==> Shaped(item.node)
  }

  /** A whole tree is shaped, and checked as if it stood below a node of its own kind. */
  predicate Canonical(root: Node) {
    Shaped(root) && Grammar(root, root.tag)
  }

  predicate ChildrenGrammar(n: Node) {
    forall i | 0 <= i < |n.content| :: GrammarItem(n.content[i], n.tag)
  }

  /** The first children of an object meet the rules so far. */
  predicate ObjectUpTo(n: Node, i: nat)
    requires i <= |n.content|
  {
    && UniqueTags(n.content[..i])
    && forall j | 0 <= j < i :: ObjectChild(n.content[j]) && GrammarItem(n.content[j], ObjTag)
  }

  predicate MembersGrammar(content: seq<Item>) {
    forall i | 0 <= i < |content| :: IsItem(content[i]) && GrammarItem(content[i], ArrTag)
  }

  lemma ArrayGrammar(n: Node)
    requires n.tag.ArrTag?
    ensures ShapeGrammar(n, n.tag) && ChildrenGrammar(n) <==> InOrder(n.content) && MembersGrammar(n.content)
  {
  }

  // ---------------------------------------------------------------- what projection produces

  lemma PropertyIsCanonical(key: string, v: Value)
    requires !Reserved(key) && forall parent :: Grammar(Build(v), parent)
    ensures Grammar(PropertyNode(key, v), ObjTag)
  {
    var payload, n := Payload(v), PropertyNode(key, v);
    match v {
      case Arr(_) => assert payload == Build(v) && payload.tag == ArrTag;
      case Obj(_) => assert payload == Build(v) && payload.tag == ObjTag;
      case _ => assert payload == Plain(ObjTag, [Sub(Build(v))]);
    }
    if IsScalar(v) {
      assert payload.content == [Sub(Build(v))];
      assert GrammarItem(payload.content[0], ObjTag);
      assert ShapeGrammar(payload, Ordinary(key));
    }
    assert Grammar(payload, Ordinary(key));
    assert payload.tag == ObjTag || payload.tag == ArrTag;
    assert n.content == [Sub(payload)] && n.tag == Ordinary(key);
    assert Classify(n).Object? || Classify(n).Array?;
  }

  lemma ItemIsCanonical(index: nat, v: Value)
    requires forall parent :: Grammar(Build(v), parent)
    ensures Grammar(ItemNode(index, v), ArrTag)
  {
    assert ItemNode(index, v).content == [Sub(Build(v))];
    assert GrammarItem(ItemNode(index, v).content[0], ItemTag);
  }

  lemma {:induction false} BuiltIsCanonical(v: Value, parent: Tag)
    requires WellFormed(v) && Clean(v)
    ensures Grammar(Build(v), parent)
    decreases v
  {
    var content := Build(v).content;
    match v
    case Arr(items) =>
      forall i: nat | i < |items|
        ensures GrammarItem(content[i], ArrTag) && IsItem(content[i]) && IndexOf(content[i]) == Decimal(i)
      {
        forall p ensures Grammar(Build(items[i]), p) { BuiltIsCanonical(items[i], p); }
        ItemIsCanonical(i, items[i]);
        assert content[i] == Sub(ItemNode(i, items[i]));
      }
      CanonicalIsArranged(content);
    case Obj(entries) =>
      forall i: nat | i < |entries|
        ensures GrammarItem(content[i], ObjTag) && ObjectChild(content[i])
        ensures content[i].node.tag == Ordinary(entries[i].key)
      {
        forall p ensures Grammar(Build(entries[i].value), p) { BuiltIsCanonical(entries[i].value, p); }
        PropertyIsCanonical(entries[i].key, entries[i].value);
        assert content[i] == Sub(PropertyNode(entries[i].key, entries[i].value));
      }
      forall i: nat, j: nat | i < j < |content| ensures content[i].node.tag != content[j].node.tag {
        assert entries[i].key != entries[j].key;
      }
    case _ =>
  }

  lemma {:induction false} BuiltIsShaped(v: Value)
    ensures Shaped(Build(v))
    ensures forall key :: Shaped(PropertyNode(key, v))
    ensures forall index :: Shaped(ItemNode(index, v))
    decreases v
  {
    var content := Build(v).content;
    match v {
      case Arr(items) =>
        forall i: nat | i < |items| ensures ShapedItem(content[i]) {
          BuiltIsShaped(items[i]);
          assert content[i] == Sub(ItemNode(i, items[i]));
        }
      case Obj(entries) =>
        forall i: nat | i < |entries| ensures ShapedItem(content[i]) {
          BuiltIsShaped(entries[i].value);
          assert content[i] == Sub(PropertyNode(entries[i].key, entries[i].value));
        }
      case _ =>
    }
    assert Shaped(Build(v));
    assert ShapedItem(Sub(Build(v)));
    assert Shaped(Payload(v)) && ShapedItem(Sub(Payload(v)));
    forall key ensures Shaped(PropertyNode(key, v)) {
      assert PropertyNode(key, v).content == [Sub(Payload(v))];
    }
    forall index ensures Shaped(ItemNode(index, v)) {
      assert ItemNode(index, v).content == [Sub(Build(v))];
    }
  }

  /** The node and the root of every admitted carrier pass the checker. */
  lemma ProjectedIsCanonical(v: Value)
    requires WellFormed(v) && Clean(v)
    ensures ToNode(v).Some? && Canonical(ToNode(v).value)
    ensures ToRoot(v).Some? && Canonical(ToRoot(v).value)
  {
    BuiltIsShaped(v);
    assert ShapedItem(Sub(Build(v)));
    BuiltIsCanonical(v, ToNode(v).value.tag);
    BuiltIsCanonical(v, RootTag);
    assert ToRoot(v).value.content == [Sub(Build(v))];
    assert GrammarItem(ToRoot(v).value.content[0], RootTag);
  }

  // ---------------------------------------------------------------- the shape pass

  function Weight(n: Node): (w: nat)
    ensures w > 0
    decreases n
  {
    1 + ItemsWeight(n.content)
  }

  function ItemsWeight(content: seq<Item>): nat
    decreases content
  {
    if content == [] then 0
    else ItemWeight(content[0]) + ItemsWeight(content[1..])
  }

  function ItemWeight(item: Item): nat
    decreases item
  {
    match item
    case Prim(_) => 0
    case Sub(child) => Weight(child)
  }

  function StackWeight(stack: seq<Node>): nat {
    if stack == [] then 0 else StackWeight(stack[..|stack| - 1]) + Weight(stack[|stack| - 1])
  }

  predicate AllShaped(stack: seq<Node>) {
    forall i | 0 <= i < |stack| :: Shaped(stack[i])
  }

  /** Every node is entered once, its children pushed last to first; the first bad head ends the pass. */
  method CheckShape(root: Node) returns (ok: bool)
    ensures ok <==> Shaped(root)
  {
    var stack := [root];
    while stack != []
      invariant Shaped(root) <==> AllShaped(stack)
      decreases StackWeight(stack)
    {
      var n := stack[|stack| - 1];
      PushedOne(stack[..|stack| - 1], n);
      assert stack[..|stack| - 1] + [n] == stack;
      stack := stack[..|stack| - 1];
      if !HeadShape(n) { return false; }
      if !n.tag.StrTag? && !n.tag.ValTag? { stack := PushChildren(stack, n.content); }
    }
    ok := true;
  }

  lemma PushedOne(stack: seq<Node>, n: Node)
    ensures StackWeight(stack + [n]) == StackWeight(stack) + Weight(n)
    ensures AllShaped(stack + [n]) <==> AllShaped(stack) && Shaped(n)
  {
    assert (stack + [n])[..|stack|] == stack && (stack + [n])[|stack|] == n;
    assert forall i | 0 <= i < |stack| :: (stack + [n])[i] == stack[i];
  }

  method PushChildren(stack: seq<Node>, content: seq<Item>) returns (pushed: seq<Node>)
    ensures StackWeight(pushed) == StackWeight(stack) + ItemsWeight(content)
    ensures AllShaped(pushed) <==> AllShaped(stack) && forall i | 0 <= i < |content| :: ShapedItem(content[i])
  {
    pushed := stack;
    assert content[|content|..] == [];
    for index := |content| downto 0
      invariant StackWeight(pushed) == StackWeight(stack) + ItemsWeight(content[index..])
      invariant AllShaped(pushed) <==> AllShaped(stack) && forall i | index <= i < |content| :: ShapedItem(content[i])
    {
      assert content[index..][0] == content[index] && content[index..][1..] == content[index + 1..];
      if content[index].Sub? {
        PushedOne(pushed, content[index].node);
        pushed := pushed + [content[index].node];
      }
    }
    assert content[0..] == content;
  }

  // ---------------------------------------------------------------- the walk

  /**
   * The walk as it runs: issues are pushed as they are met, and with `throwOnFirst` it stops at the
   * first one. Either way nothing is pushed exactly when the grammar admits the tree.
   */
  class Checker {
    const throwOnFirst: bool
    var errs: seq<Issue>

    constructor (throwOnFirst: bool)
      ensures this.throwOnFirst == throwOnFirst && errs == []
    {
      this.throwOnFirst := throwOnFirst;
      errs := [];
    }

    /** Under `throwOnFirst` a walk starts with nothing reported and reports at most one issue. */
    predicate Ready()
      reads this
    {
      throwOnFirst ==> errs == []
    }

    method Push(issue: Issue)
      requires Ready()
      modifies this
      ensures errs == old(errs) + [issue]
    {
      errs := errs + [issue];
    }

    method CheckMeta(n: Node)
      requires Ready()
      modifies this
      ensures old(errs) <= errs && (throwOnFirst ==> |errs| <= 1)
      ensures errs == old(errs) <==> MetaGrammar(n)
    {
      if !n.meta.Record? { return; }
      var fields := n.meta.fields;
      if QUID_KEY in fields && !(QuidEligible(n) && MetaValueValid(QUID_KEY, fields[QUID_KEY])) {
        Push(BadQuid);
        if throwOnFirst { return; }
      }
      ghost var quidBad := QUID_KEY in fields && !(QuidEligible(n) && MetaValueValid(QUID_KEY, fields[QUID_KEY]));
      var keys := fields.Keys;
      while keys != {}
        invariant keys <= fields.Keys
        invariant Ready() && old(errs) <= errs
        invariant errs == old(errs) <==>
                    && !quidBad
                    && forall key | key in fields && key !in keys ::
                         MetaDefined(n.tag, key) && MetaValueValid(key, fields[key])
        decreases keys
      {
        var key :| key in keys;
        keys := keys - {key};
        if !MetaDefined(n.tag, key) {
          Push(MetadataNotDefined);
          if throwOnFirst { return; }
        }
        if !MetaValueValid(key, fields[key]) {
          Push(BadMetadataValue);
          if throwOnFirst { return; }
        }
      }
    }

    method CheckAttrName(key: string)
      requires Ready()
      modifies this
      ensures old(errs) <= errs && (throwOnFirst ==> |errs| <= 1)
      ensures errs == old(errs) <==> AttrName(key)
    {
      if MARKUP_PREFIX <= key {
        Push(ReservedAttributeName);
        if throwOnFirst { return; }
      }
      if META_TRANSIT_PREFIX <= Lowered(key) {
        Push(TransitAttributeName);
        if throwOnFirst { return; }
      }
      if ATTR_TRANSIT_PREFIX <= Lowered(key) {
        Push(TransitAttributeName);
        if throwOnFirst { return; }
      }
      if !ValidName(key) { Push(BadAttributeName); }
    }

    method CheckAttrs(n: Node)
      requires Ready()
      modifies this
      ensures old(errs) <= errs && (throwOnFirst ==> |errs| <= 1)
      ensures errs == old(errs) <==>
                (n.attrs.Record? && n.attrs.fields != map[] ==>
                   !IsVsn(n.tag) && forall key | key in n.attrs.fields :: AttrName(key))
    {
      if !n.attrs.Record? { return; }
      if IsVsn(n.tag) && n.attrs.fields != map[] {
        Push(AttributesOnSystemNode);
        return;
      }
      var keys := n.attrs.fields.Keys;
      while keys != {}
        invariant keys <= n.attrs.fields.Keys
        invariant Ready() && old(errs) <= errs
        invariant errs == old(errs) <==> forall key | key in n.attrs.fields && key !in keys :: AttrName(key)
        decreases keys
      {
        var key :| key in keys;
        keys := keys - {key};
        CheckAttrName(key);
        if throwOnFirst && errs != [] { return; }
      }
    }

    /** Everything about the node itself that does not depend on where it stands. */
    method CheckHead(n: Node)
      requires Ready()
      modifies this
      ensures old(errs) <= errs && (throwOnFirst ==> |errs| <= 1)
      ensures errs == old(errs) <==> HeadGrammar(n)
    {
      if n.attrs.Record? && n.attrs.fields == map[] {
        Push(EmptyAttributes);
        if throwOnFirst { return; }
      }
      if n.tag.Ordinary? && Reserved(n.tag.name) {
        Push(UnknownSystemTag);
        if throwOnFirst { return; }
      }
      CheckMeta(n);
      if throwOnFirst && errs != [] { return; }
      CheckAttrs(n);
    }

    /** The rest of an ordinary node: its structural relationship, its place, and its one wrapper. */
    method WalkOrdinary(n: Node, parent: Tag)
      requires n.tag.Ordinary? && Ready()
      modifies this
      ensures old(errs) <= errs && (throwOnFirst ==> |errs| <= 1)
      ensures errs == old(errs) <==> OrdinaryGrammar(n, parent) && ChildrenGrammar(n)
      decreases n, 0
    {
      var structure := Classify(n);
      if structure.InvalidStructure? { Push(BadStructure); return; }
      if structure.LegacyEmptyElementWrapper? { Push(EmptyElementWrapper); return; }
      if parent == ElemTag && !structure.EmptyElement? && !structure.Element? {
        Push(NotElementStructured);
        return;
      }
      if parent == ObjTag && !structure.Object? && !structure.ObjectScalar? && !structure.Array? {
        Push(NotObjectStructured);
        return;
      }
      if parent == ItemTag { Push(UnwrappedArrayMember); return; }
      if structure.EmptyElement? { return; }
      assert n.content[0].node < n.content[0];
      Walk(n.content[0].node, n.tag);
    }

    method CheckScalar(n: Node)
      requires (n.tag.StrTag? || n.tag.ValTag?) && Ready()
      modifies this
      ensures old(errs) <= errs && (throwOnFirst ==> |errs| <= 1)
      ensures errs == old(errs) <==> ShapeGrammar(n, n.tag)
    {
      if |n.content| != 1 {
        Push(BadScalar);
      } else if n.tag.StrTag? && !(n.content[0].Prim? && n.content[0].primitive.PStr?) {
        Push(BadScalar);
      } else if n.tag.ValTag? && (n.content[0].Sub? || n.content[0].primitive.PStr?) {
        Push(BadScalar);
      }
    }

    method CheckItem(n: Node, parent: Tag)
      requires n.tag.ItemTag? && Ready()
      modifies this
      ensures old(errs) <= errs && (throwOnFirst ==> |errs| <= 1)
      ensures errs == old(errs) <==> ShapeGrammar(n, parent)
    {
      if parent != ArrTag {
        Push(BadItem);
        if throwOnFirst { return; }
      }
      if NonemptyAttrs(n) {
        Push(AttributesOnSystemNode);
        if throwOnFirst { return; }
      }
      if |n.content| != 1 {
        Push(BadItem);
        if throwOnFirst { return; }
      }
      if n.content == [] || !IsNode(n.content[0]) {
        Push(BadItem);
        if throwOnFirst { return; }
      } else {
        var only := n.content[0].node;
        if !IsVsn(only.tag) {
          Push(UnwrappedArrayMember);
          if throwOnFirst { return; }
        }
        if only.tag == ElemTag { Push(BadItem); }
      }
    }

    method CheckRoot(n: Node)
      requires n.tag.RootTag? && Ready()
      modifies this
      ensures old(errs) <= errs && (throwOnFirst ==> |errs| <= 1)
      ensures errs == old(errs) <==> ShapeGrammar(n, n.tag)
    {
      if |n.content| > 1 {
        Push(BadRoot);
        if throwOnFirst { return; }
      }
      if |n.content| == 1 {
        if !IsNode(n.content[0]) {
          Push(BadRoot);
        } else if n.content[0].node.tag !in {ObjTag, ElemTag, ArrTag, StrTag, ValTag} {
          Push(BadRoot);
        }
      }
    }

    /** The last loop of the walk: every child is a node, walked below this one. */
    method WalkRest(n: Node)
      requires Ready()
      modifies this
      ensures old(errs) <= errs && (throwOnFirst ==> |errs| <= 1)
      ensures errs == old(errs) <==> ChildrenGrammar(n)
      decreases n, 0
    {
      for i := 0 to |n.content|
        invariant Ready() && old(errs) <= errs
        invariant errs == old(errs) <==> forall j | 0 <= j < i :: GrammarItem(n.content[j], n.tag)
      {
        if IsNode(n.content[i]) {
          assert n.content[i].node < n.content[i];
          Walk(n.content[i].node, n.tag);
          if throwOnFirst && errs != [] { return; }
        } else {
          Push(PrimitiveOutsideScalar);
          if throwOnFirst { return; }
        }
      }
    }

    method CheckIndexes(content: seq<Item>)
      requires Ready()
      modifies this
      ensures old(errs) <= errs && (throwOnFirst ==> |errs| <= 1)
      ensures errs == old(errs) <==> InOrder(content)
    {
      var analysis := Analyze(content);
      if analysis.Invalid? {
        Push(BadIndexes);
      } else if analysis.reordered {
        Push(BadIndexes);
      }
    }

    method WalkMembers(n: Node)
      requires n.tag.ArrTag? && Ready()
      modifies this
      ensures old(errs) <= errs && (throwOnFirst ==> |errs| <= 1)
      ensures errs == old(errs) <==> MembersGrammar(n.content)
      decreases n, 0
    {
      for i := 0 to |n.content|
        invariant Ready() && old(errs) <= errs
        invariant errs == old(errs) <==>
                    forall j | 0 <= j < i :: IsItem(n.content[j]) && GrammarItem(n.content[j], ArrTag)
      {
        if !IsNode(n.content[i]) {
          Push(PrimitiveOutsideScalar);
          if throwOnFirst { return; }
          continue;
        }
        if n.content[i].node.tag != ItemTag {
          Push(NotAnItemInArray);
          if throwOnFirst { return; }
        }
        assert n.content[i].node < n.content[i];
        Walk(n.content[i].node, ArrTag);
        if throwOnFirst && errs != [] { return; }
      }
    }

    method WalkArray(n: Node)
      requires n.tag.ArrTag? && Ready()
      modifies this
      ensures old(errs) <= errs && (throwOnFirst ==> |errs| <= 1)
      ensures errs == old(errs) <==> ShapeGrammar(n, n.tag) && ChildrenGrammar(n)
      decreases n, 1
    {
      ArrayGrammar(n);
      CheckIndexes(n.content);
      if throwOnFirst && errs != [] { return; }
      WalkMembers(n);
    }

    method WalkElement(n: Node)
      requires n.tag.ElemTag? && Ready()
      modifies this
      ensures old(errs) <= errs && (throwOnFirst ==> |errs| <= 1)
      ensures errs == old(errs) <==> ShapeGrammar(n, n.tag) && ChildrenGrammar(n)
      decreases n, 0
    {
      if n.content == [] { Push(EmptyElementWrapper); return; }
      for i := 0 to |n.content|
        invariant Ready() && old(errs) <= errs
        invariant errs == old(errs) <==>
                    forall j | 0 <= j < i :: ElementChild(n.content[j]) && GrammarItem(n.content[j], ElemTag)
      {
        if !IsNode(n.content[i]) {
          Push(PrimitiveOutsideScalar);
          if throwOnFirst { return; }
          continue;
        }
        if n.content[i].node.tag in {ValTag, ObjTag, ArrTag, ItemTag} {
          Push(NotAllowedInElement);
          if throwOnFirst { return; }
          continue;
        }
        assert n.content[i].node < n.content[i];
        Walk(n.content[i].node, ElemTag);
        if throwOnFirst && errs != [] { return; }
      }
    }

    /** One object child, before it is walked; `seen` holds the property names met before it. */
    method CheckProperty(child: Node, seen: set<Tag>) returns (more: set<Tag>)
      requires !OldShaped(child) && Ready()
      modifies this
      ensures old(errs) <= errs && (throwOnFirst ==> |errs| <= 1)
      ensures errs == old(errs) <==> ObjectChild(Sub(child)) && !(Named(Sub(child)) && child.tag in seen)
      ensures errs == old(errs) || !throwOnFirst ==> more == seen + if Named(Sub(child)) then {child.tag} else {}
    {
      more := seen;
      if NonemptyAttrs(child) {
        Push(AttributesInObject);
        if throwOnFirst { return; }
      }
      if child.tag == ElemTag {
        Push(ElementInObject);
        if throwOnFirst { return; }
      }
      if !StartsWithSystemPrefix(child.tag) {
        if child.tag in seen {
          Push(DuplicateProperty);
          if throwOnFirst { return; }
        }
        more := seen + {child.tag};
      }
    }

    method WalkObject(n: Node)
      requires n.tag.ObjTag? && Ready()
      modifies this
      ensures old(errs) <= errs && (throwOnFirst ==> |errs| <= 1)
      ensures errs == old(errs) <==> ShapeGrammar(n, n.tag) && ChildrenGrammar(n)
      decreases n, 0
    {
      var seen: set<Tag> := {};
      for i := 0 to |n.content|
        invariant Ready() && old(errs) <= errs
        invariant forall tag :: tag in seen <==> exists j :: 0 <= j < i && Named(n.content[j]) && n.content[j].node.tag == tag
        invariant errs == old(errs) <==> ObjectUpTo(n, i)
      {
        if !IsNode(n.content[i]) {
          Push(PrimitiveOutsideScalar);
          if throwOnFirst { return; }
          continue;
        }
        seen := CheckProperty(n.content[i].node, seen);
        if throwOnFirst && errs != [] { return; }
        assert n.content[i].node < n.content[i];
        Walk(n.content[i].node, ObjTag);
        if throwOnFirst && errs != [] { return; }
      }
      assert n.content[..|n.content|] == n.content;
    }

    /** Nothing is reported iff the grammar admits the tree below this parent. */
    method Walk(n: Node, parent: Tag)
      requires Ready()
      modifies this
      ensures old(errs) <= errs && (throwOnFirst ==> |errs| <= 1)
      ensures errs == old(errs) <==> Grammar(n, parent)
      decreases n, 2
    {
      CheckHead(n);
      if throwOnFirst && errs != [] { return; }
      match n.tag {
        case Ordinary(_) => WalkOrdinary(n, parent);
        case StrTag => CheckScalar(n);
        case ValTag => CheckScalar(n);
        case ArrTag => WalkArray(n);
        case ElemTag => WalkElement(n);
        case ObjTag => WalkObject(n);
        case ItemTag =>
          CheckItem(n, parent);
          if throwOnFirst && errs != [] { return; }
          WalkRest(n);
        case RootTag =>
          CheckRoot(n);
          if throwOnFirst && errs != [] { return; }
          WalkRest(n);
      }
    }
  }

  /** The checks of one tree, the shape first: they pass exactly on the canonical ones, in either mode. */
  method AssertInvariants(root: Node, throwOnFirst: bool) returns (issues: seq<Issue>)
    ensures issues == [] <==> Canonical(root)
    ensures throwOnFirst ==> |issues| <= 1
  {
    var shaped := CheckShape(root);
    if !shaped { return [Malformed]; }
    var checker := new Checker(throwOnFirst);
    checker.Walk(root, root.tag);
    issues := checker.errs;
  }
}
