/** Both normalizers keep what a tree stands for; the detached semantic normalizer collapses scalar carriers. */
module SemanticValue {
  import opened Prelude
  import opened OrderedValue
  import opened HsonGraph
  import opened ArrayIndexes
  import opened Projection
  import opened Normalize

  // ---------------------------------------------------------------- graph normalization keeps meaning

  /** A projectable tree in which some property's value is a root carrier. */
  predicate RootValued(node: Node)
    decreases node
  {
    match node.tag
    case RootTag => |node.content| == 1 && RootValuedItem(node.content[0])
    case ArrTag => exists i :: 0 <= i < |node.content| && RootValuedWrapper(node.content[i], false)
    case ObjTag =>
      if Transparent(node.content) then RootValuedItem(node.content[0])
      else exists i :: 0 <= i < |node.content| && RootValuedWrapper(node.content[i], true)
    case _ => false
  }

  predicate RootValuedItem(item: Item)
    decreases item
  {
    item.Sub? && RootValued(item.node)
  }

  predicate RootValuedWrapper(item: Item, property: bool)
    decreases item
  {
    && item.Sub? && |item.node.content| == 1
    && var value := item.node.content[0];
       RootValuedItem(value) || (property && value.Sub? && value.node.tag == RootTag)
  }

  lemma VisitKeepsHead(node: Node, required: Option<Mode>)
    requires Visit(node, required).Some?
    ensures var r := Visit(node, required).value.part;
            r.tag == node.tag && OldShaped(r) == OldShaped(node) && (node.meta.Record? ==> r.meta == node.meta)
  {
  }

  lemma {:induction false} VisitContentAt(content: seq<Item>, required: Option<Mode>, i: nat)
    requires i < |content| && VisitContent(content, required).Some?
    ensures VisitItem(content[i], required).Some?
    ensures VisitContent(content, required).value.part[i] == VisitItem(content[i], required).value.part
    decreases |content|
  {
    if i > 0 { VisitContentAt(content[1..], required, i - 1); }
  }

  /** One value node below a wrapper, visited. */
  lemma VisitOnly(content: seq<Item>, required: Option<Mode>)
    requires |content| == 1 && IsNode(content[0]) && VisitContent(content, required).Some?
    ensures Visit(content[0].node, required).Some?
    ensures VisitContent(content, required).value.part == [Sub(Visit(content[0].node, required).value.part)]
    ensures IsNode(VisitContent(content, required).value.part[0])
    ensures VisitContent(content, required).value.part[0].node.tag == content[0].node.tag
  {
    VisitContentAt(content, required, 0);
    VisitKeepsHead(content[0].node, required);
  }

  /** What one child projects to before and after normalization: the same, unless a root-valued property hides below it. */
  predicate KeepsMeaning(before: Node, after: Node) {
    FromNode(after) == if RootValued(before) then None else FromNode(before)
  }

  lemma ElementKeeps(item: Item, index: nat)
    requires FromElement(item, index).Some? && VisitItem(item, None).Some?
    requires VisitItem(item.node.content[0], None).Some? ==>
               KeepsMeaning(item.node.content[0].node, VisitItem(item.node.content[0], None).value.part.node)
    ensures var after := VisitItem(item, None).value.part;
            && HasIndex(after) && IndexOf(after) == Decimal(index)
            && FromElement(after, index) == if RootValuedWrapper(item, false) then None else FromElement(item, index)
  {
    VisitKeepsHead(item.node, None);
    VisitOnly(item.node.content, None);
    var child := item.node.content[0];
    var after := VisitItem(item, None).value.part;
    assert after.node.content == [VisitItem(child, None).value.part];
  }

  lemma PropertyKeeps(item: Item)
    requires FromProperty(item).Some? && VisitItem(item, Some(ObjectMode)).Some?
    requires VisitItem(item.node.content[0], Some(ObjectMode)).Some? ==>
               KeepsMeaning(item.node.content[0].node, VisitItem(item.node.content[0], Some(ObjectMode)).value.part.node)
    ensures var after := VisitItem(item, Some(ObjectMode)).value.part;
            && IsNode(after) && after.node.tag == item.node.tag
            && FromProperty(after) == if RootValuedWrapper(item, true) then None else FromProperty(item)
  {
    VisitKeepsHead(item.node, Some(ObjectMode));
    VisitOnly(item.node.content, Some(ObjectMode));
    var child := item.node.content[0];
    var visited := VisitItem(child, Some(ObjectMode)).value.part;
    var after := VisitItem(item, Some(ObjectMode)).value.part;
    if child.node.tag.ArrTag? || child.node.tag.ObjTag? {
      assert WrapContent([visited], Some(ObjectMode)).Some?;
      WrapperKept(visited);
    } else {
      ScalarWrapped(visited);
      assert after.node.content == [Sub(Plain(ObjTag, [visited]))];
    }
  }

  lemma WrapperKept(visited: Item)
    requires IsNode(visited) && (visited.node.tag.ArrTag? || visited.node.tag.ObjTag?)
    ensures WrapContent([visited], Some(ObjectMode)) == Some(Visited([visited], false))
  {
  }

  /** A text, scalar or root carrier directly below a property gets an object wrapper; only the first two survive it. */
  lemma ScalarWrapped(visited: Item)
    requires IsNode(visited) && (visited.node.tag.StrTag? || visited.node.tag.ValTag? || visited.node.tag.RootTag?)
    ensures WrapContent([visited], Some(ObjectMode)) == Some(Visited([Sub(Plain(ObjTag, [visited]))], true))
    ensures FromNode(Plain(ObjTag, [visited])) == if visited.node.tag.RootTag? then None else FromNode(visited.node)
  {
    var wrapper := Plain(ObjTag, [visited]);
    assert wrapper.content == [visited];
    if visited.node.tag.RootTag? { assert FromProperty(wrapper.content[0]).None?; }
  }

  /**
   * What normalizing leaves of a tree that projects: the same value, or none at all when some
   * property of it holds a root carrier.
   */
  lemma {:induction false} VisitKeepsMeaning(node: Node, required: Option<Mode>)
    requires FromNode(node).Some? && Visit(node, required).Some?
    ensures KeepsMeaning(node, Visit(node, required).value.part)
    decreases node, 1
  {
    var mode := ChildMode(node.tag, required);
    var content := node.content;
    match node.tag
    case RootTag => OnlyChildKeeps(node, required);
    case StrTag => VisitContentAt(content, mode, 0); assert VisitContent(content, mode).value.part == content;
    case ValTag => VisitContentAt(content, mode, 0); assert VisitContent(content, mode).value.part == content;
    case ArrTag => ElementsKeep(node, required);
    case ObjTag => if Transparent(content) { OnlyChildKeeps(node, required); } else { PropertiesKeep(node, required); }
    case _ =>
  }

  lemma {:induction false} OnlyChildKeeps(node: Node, required: Option<Mode>)
    requires FromNode(node).Some? && Visit(node, required).Some?
    requires node.tag.RootTag? || (node.tag.ObjTag? && Transparent(node.content))
    ensures KeepsMeaning(node, Visit(node, required).value.part)
    decreases node, 0
  {
    var mode := ChildMode(node.tag, required);
    VisitOnly(node.content, mode);
    VisitKeepsMeaning(node.content[0].node, mode);
  }

  lemma {:induction false} ElementStep(item: Item, index: nat)
    requires FromElement(item, index).Some? && VisitItem(item, None).Some?
    ensures var after := VisitItem(item, None).value.part;
            && HasIndex(after) && IndexOf(after) == Decimal(index)
            && FromElement(after, index) == if RootValuedWrapper(item, false) then None else FromElement(item, index)
    decreases item
  {
    assert item.node.content[0].node < item;
    VisitOnly(item.node.content, None);
    VisitKeepsMeaning(item.node.content[0].node, None);
    ElementKeeps(item, index);
  }

  lemma {:induction false} PropertyStep(item: Item)
    requires FromProperty(item).Some? && VisitItem(item, Some(ObjectMode)).Some?
    ensures var after := VisitItem(item, Some(ObjectMode)).value.part;
            && IsNode(after) && after.node.tag == item.node.tag && item.node.tag.Ordinary?
            && FromProperty(after) == if RootValuedWrapper(item, true) then None else FromProperty(item)
    decreases item
  {
    assert item.node.content[0].node < item;
    assert FromItem(item.node.content[0]).Some?;
    VisitOnly(item.node.content, Some(ObjectMode));
    VisitKeepsMeaning(item.node.content[0].node, Some(ObjectMode));
    PropertyKeeps(item);
  }

  lemma {:induction false} ElementsKeep(node: Node, required: Option<Mode>)
    requires FromNode(node).Some? && Visit(node, required).Some? && node.tag.ArrTag?
    ensures KeepsMeaning(node, Visit(node, required).value.part)
    decreases node, 0
  {
    var content, children := node.content, VisitContent(node.content, None).value.part;
    forall i: nat | i < |content|
      ensures HasIndex(children[i]) && IndexOf(children[i]) == Decimal(i)
      ensures FromElement(children[i], i) == if RootValuedWrapper(content[i], false) then None else FromElement(content[i], i)
    {
      assert FromElement(content[i], i).Some?;
      VisitContentAt(content, None, i);
      ElementStep(content[i], i);
    }
    CanonicalIsArranged(children);
    ArrayMeaning(node, Visit(node, required).value.part, children);
  }

  lemma {:induction false} PropertiesKeep(node: Node, required: Option<Mode>)
    requires FromNode(node).Some? && Visit(node, required).Some? && node.tag.ObjTag? && !Transparent(node.content)
    ensures KeepsMeaning(node, Visit(node, required).value.part)
    decreases node, 0
  {
    var mode := Some(ObjectMode);
    var content, children := node.content, VisitContent(node.content, Some(ObjectMode)).value.part;
    forall i: nat | i < |content|
      ensures IsNode(children[i]) && children[i].node.tag.Ordinary?
      ensures FromProperty(children[i]) == if RootValuedWrapper(content[i], true) then None else FromProperty(content[i])
    {
      assert FromProperty(content[i]).Some?;
      VisitContentAt(content, mode, i);
      PropertyStep(content[i]);
    }
    ObjectMeaning(node, Visit(node, required).value.part, children);
  }

  lemma ArrayMeaning(node: Node, after: Node, children: seq<Item>)
    requires node.tag == after.tag == ArrTag && after.content == children && |children| == |node.content|
    requires FromNode(node).Some?
    requires forall i: nat | i < |children| ::
               FromElement(children[i], i) ==
               if RootValuedWrapper(node.content[i], false) then None else FromElement(node.content[i], i)
    ensures KeepsMeaning(node, after)
  {
    var content := node.content;
    if RootValued(node) {
      var i :| 0 <= i < |content| && RootValuedWrapper(content[i], false);
      assert FromElement(children[i], i).None?;
    } else {
      forall i: nat | i < |content| ensures FromElement(children[i], i) == FromElement(content[i], i) {
        assert !RootValuedWrapper(content[i], false);
      }
      assert forall i: nat | i < |content| :: FromElement(content[i], i).Some?;
      assert FromNode(after).value.items == FromNode(node).value.items;
    }
  }

  lemma ObjectMeaning(node: Node, after: Node, children: seq<Item>)
    requires node.tag == after.tag == ObjTag && after.content == children && |children| == |node.content|
    requires FromNode(node).Some? && !Transparent(node.content)
    requires forall i: nat | i < |children| ::
               && IsNode(children[i]) && children[i].node.tag.Ordinary?
               && FromProperty(children[i]) ==
                  if RootValuedWrapper(node.content[i], true) then None else FromProperty(node.content[i])
    ensures KeepsMeaning(node, after)
  {
    var content := node.content;
    assert !Transparent(children);
    if RootValued(node) {
      var i :| 0 <= i < |content| && RootValuedWrapper(content[i], true);
      assert FromProperty(children[i]).None?;
    } else {
      forall i: nat | i < |content| ensures FromProperty(children[i]) == FromProperty(content[i]) {
        assert !RootValuedWrapper(content[i], true);
      }
      assert forall i: nat | i < |content| :: FromProperty(content[i]).Some?;
      assert Entries(children) == Entries(content);
    }
  }

  // ---------------------------------------------------------------- when normalization goes through

  /** A head normalization accepts: no `[]` metadata on a root, and no malformed attribute. */
  predicate TidyHead(node: Node) {
    && !(node.tag.RootTag? && node.meta.EmptyArray?)
    && (node.attrs.Record? ==> forall key | key in node.attrs.fields :: AttrAdmitted(key, node.attrs.fields[key]))
  }

  predicate Tidy(node: Node)
    decreases node
  {
    TidyHead(node) && forall i | 0 <= i < |node.content| :: TidyItem(node.content[i])
  }

  predicate TidyItem(item: Item)
    decreases item
  {
    item.Sub? ==> Tidy(item.node)
  }

  lemma HeadSucceedsIff(node: Node)
    ensures TidyHead(node) <==> VisitMeta(node.tag, node.meta).Some? && VisitAttrs(node.attrs).Some?
  {
  }

  lemma {:induction false} ContentSucceedsIff(content: seq<Item>, required: Option<Mode>)
    ensures VisitContent(content, required).Some? <==> forall i | 0 <= i < |content| :: VisitItem(content[i], required).Some?
    decreases |content|
  {
    if content != [] {
      ContentSucceedsIff(content[1..], required);
      assert forall i | 0 < i < |content| :: content[i] == content[1..][i - 1];
    }
  }

  /** Normalization of a tree that projects fails at an untidy head and nowhere else. */
  lemma {:induction false} VisitSucceedsIff(node: Node, required: Option<Mode>)
    requires FromNode(node).Some?
    ensures Visit(node, required).Some? <==> Tidy(node)
    decreases node, 1
  {
    var mode := ChildMode(node.tag, required);
    HeadSucceedsIff(node);
    ContentSucceedsIff(node.content, mode);
    forall i: nat | i < |node.content| ensures VisitItem(node.content[i], mode).Some? <==> TidyItem(node.content[i]) {
      ChildSucceedsIff(node, mode, i);
    }
    if VisitContent(node.content, mode).Some? && node.tag.ArrTag? { ElementsArranged(node.content); }
  }

  lemma {:induction false} ChildSucceedsIff(node: Node, mode: Option<Mode>, i: nat)
    requires FromNode(node).Some? && i < |node.content|
    requires node.tag.ArrTag? ==> mode.None?
    requires node.tag.ObjTag? ==> mode == Some(ObjectMode)
    ensures VisitItem(node.content[i], mode).Some? <==> TidyItem(node.content[i])
    decreases node, 0
  {
    var item := node.content[i];
    match node.tag
    case RootTag => VisitSucceedsIff(item.node, mode);
    case ArrTag => assert FromElement(item, i).Some?; ElementSucceedsIff(item, i);
    case ObjTag =>
      if Transparent(node.content) { VisitSucceedsIff(item.node, mode); }
      else { assert FromProperty(item).Some?; PropertySucceedsIff(item); }
    case _ =>
  }

  lemma {:induction false} OnlyItemTidy(node: Node)
    requires |node.content| == 1 && node.content[0].Sub?
    ensures Tidy(node) <==> TidyHead(node) && Tidy(node.content[0].node)
  {
    assert TidyItem(node.content[0]) <==> Tidy(node.content[0].node);
  }

  lemma {:induction false} ElementSucceedsIff(item: Item, index: nat)
    requires FromElement(item, index).Some?
    ensures VisitItem(item, None).Some? <==> TidyItem(item)
    decreases item
  {
    var child := item.node.content[0];
    assert child.node < item && FromItem(child).Some?;
    HeadSucceedsIff(item.node);
    ContentSucceedsIff(item.node.content, None);
    OnlyItemTidy(item.node);
    VisitSucceedsIff(child.node, None);
    if VisitContent(item.node.content, None).Some? { VisitOnly(item.node.content, None); }
  }

  lemma {:induction false} PropertySucceedsIff(item: Item)
    requires FromProperty(item).Some?
    ensures VisitItem(item, Some(ObjectMode)).Some? <==> TidyItem(item)
    decreases item
  {
    var child := item.node.content[0];
    assert child.node < item && FromItem(child).Some?;
    HeadSucceedsIff(item.node);
    ContentSucceedsIff(item.node.content, Some(ObjectMode));
    OnlyItemTidy(item.node);
    VisitSucceedsIff(child.node, Some(ObjectMode));
    if VisitContent(item.node.content, Some(ObjectMode)).Some? {
      VisitOnly(item.node.content, Some(ObjectMode));
      var visited := VisitContent(item.node.content, Some(ObjectMode)).value.part[0];
      if child.node.tag.ArrTag? || child.node.tag.ObjTag? { WrapperKept(visited); } else { ScalarWrapped(visited); }
    }
  }

  lemma ElementsArranged(content: seq<Item>)
    requires forall i: nat | i < |content| :: FromElement(content[i], i).Some?
    requires VisitContent(content, None).Some?
    ensures var children := VisitContent(content, None).value.part; Arrangeable(children) && Arrange(children) == children
  {
    var children := VisitContent(content, None).value.part;
    forall i: nat | i < |content| ensures HasIndex(children[i]) && IndexOf(children[i]) == Decimal(i) {
      VisitContentAt(content, None, i);
      ElementStep(content[i], i);
    }
    CanonicalIsArranged(children);
  }

  /** Normalizing a tree that projects keeps its value exactly when its heads are tidy and no property holds a root carrier. */
  lemma VisitKeepsMeaningIff(node: Node, required: Option<Mode>)
    requires FromNode(node).Some?
    ensures Visit(node, required).Some? <==> Tidy(node)
    ensures (Visit(node, required).Some? && FromNode(Visit(node, required).value.part) == FromNode(node))
              <==> Tidy(node) && !RootValued(node)
  {
    VisitSucceedsIff(node, required);
    if Visit(node, required).Some? { VisitKeepsMeaning(node, required); }
  }

  // ---------------------------------------------------------------- the detached semantic normalizer

  predicate IsScalarLeaf(node: Node) {
    node.tag.StrTag? || node.tag.ValTag?
  }

  /** The scalar inside an object or element carrier; an element carrier owns text only. */
  function ScalarCarrierValue(node: Node): Option<Node> {
    if !node.tag.ObjTag? && !node.tag.ElemTag? then None
    else if |node.content| != 1 || !IsNode(node.content[0]) then None
    else
      var child := node.content[0].node;
      if !IsScalarLeaf(child) || (node.tag.ElemTag? && !child.tag.StrTag?) then None else Some(child)
  }

  function Semantic(node: Node): Node
    decreases node, 2
  {
    if ScalarCarrierValue(node).Some? then ScalarCarrierValue(node).value
    else if node.tag.ArrTag? || node.tag.ObjTag? then SemanticContainer(node)
    else node
  }

  /** Arrays treat each item as a semantic value; objects leave their members' scalar carriers alone. */
  function SemanticContainer(node: Node): (r: Node)
    ensures r.tag == node.tag && r.meta == node.meta && r.attrs == node.attrs && |r.content| == |node.content|
    decreases node, 1
  {
    node.(content := seq(|node.content|, (i: nat) requires i < |node.content| =>
      if node.tag.ArrTag? then SemanticElement(node.content[i]) else SemanticMember(node.content[i])))
  }

  predicate HasOnlyNode(item: Item) {
    IsNode(item) && |item.node.content| == 1 && IsNode(item.node.content[0])
  }

  function SemanticElement(item: Item): Item
    decreases item
  {
    if !HasOnlyNode(item) || !item.node.tag.ItemTag? then item
    else
      assert item.node.content[0].node < item;
      Sub(item.node.(content := [Sub(Semantic(item.node.content[0].node))]))
  }

  function SemanticMember(item: Item): Item
    decreases item
  {
    if !HasOnlyNode(item) then item
    else
      assert item.node.content[0].node < item;
      var relationship := item.node.content[0].node;
      if relationship.tag.ArrTag? || (relationship.tag.ObjTag? && ScalarCarrierValue(relationship).None?) then
        Sub(item.node.(content := [Sub(SemanticContainer(relationship))]))
      else item
  }

  function NormalizeDetached(input: Node): Option<Node> {
    match NormalizeGraph(input)
    case None => None
    case Some(canonical) => Some(Semantic(canonical))
  }

  /** A container never turns into a scalar carrier by normalizing below it. */
  lemma ContainerKeepsCarrier(node: Node)
    requires node.tag.ArrTag? || node.tag.ObjTag?
    ensures ScalarCarrierValue(SemanticContainer(node)).Some? <==> ScalarCarrierValue(node).Some?
  {
    if |node.content| == 1 {
      var r := SemanticContainer(node).content[0];
      assert r == if node.tag.ArrTag? then SemanticElement(node.content[0]) else SemanticMember(node.content[0]);
    }
  }

  // ---------------------------------------------------------------- what collapsing leaves

  /** No scalar carrier is left where a semantic value stands: at the top, or as an array item. */
  predicate Collapsed(node: Node)
    decreases node, 2
  {
    ScalarCarrierValue(node).None? && (node.tag.ArrTag? || node.tag.ObjTag? ==> CollapsedContainer(node))
  }

  predicate CollapsedContainer(node: Node)
    decreases node, 1
  {
    forall i: nat | i < |node.content| ::
      if node.tag.ArrTag? then CollapsedElement(node.content[i]) else CollapsedMember(node.content[i])
  }

  predicate CollapsedElement(item: Item)
    decreases item
  {
    HasOnlyNode(item) && item.node.tag.ItemTag? ==>
      assert item.node.content[0].node < item;
      Collapsed(item.node.content[0].node)
  }

  /** A carrier a member owns may stay. */
  predicate CollapsedMember(item: Item)
    decreases item
  {
    HasOnlyNode(item) ==>
      assert item.node.content[0].node < item;
      var relationship := item.node.content[0].node;
      relationship.tag.ArrTag? || (relationship.tag.ObjTag? && ScalarCarrierValue(relationship).None?) ==>
        CollapsedContainer(relationship)
  }

  lemma {:induction false} SemanticCollapses(node: Node)
    ensures Collapsed(Semantic(node))
    decreases node, 2
  {
    if ScalarCarrierValue(node).None? && (node.tag.ArrTag? || node.tag.ObjTag?) {
      ContainerKeepsCarrier(node);
      ContainerCollapses(node);
    }
  }

  lemma {:induction false} ContainerCollapses(node: Node)
    requires node.tag.ArrTag? || node.tag.ObjTag?
    ensures CollapsedContainer(SemanticContainer(node))
    decreases node, 1
  {
    var r := SemanticContainer(node);
    forall i: nat | i < |node.content|
      ensures if node.tag.ArrTag? then CollapsedElement(r.content[i]) else CollapsedMember(r.content[i])
    {
      if node.tag.ArrTag? { ElementCollapses(node.content[i]); } else { MemberCollapses(node.content[i]); }
    }
  }

  lemma {:induction false} ElementCollapses(item: Item)
    ensures CollapsedElement(SemanticElement(item))
    decreases item
  {
    if HasOnlyNode(item) && item.node.tag.ItemTag? {
      assert item.node.content[0].node < item;
      SemanticCollapses(item.node.content[0].node);
    }
  }

  lemma {:induction false} MemberCollapses(item: Item)
    ensures CollapsedMember(SemanticMember(item))
    decreases item
  {
    if HasOnlyNode(item) {
      assert item.node.content[0].node < item;
      var relationship := item.node.content[0].node;
      if relationship.tag.ArrTag? || (relationship.tag.ObjTag? && ScalarCarrierValue(relationship).None?) {
        ContainerCollapses(relationship);
      }
    }
  }

  /** The semantic normalizer leaves no carrier at a semantic-value boundary, and touches nothing else. */
  lemma {:induction false} CollapsedIsFixed(node: Node)
    requires Collapsed(node)
    ensures Semantic(node) == node
    decreases node, 2
  {
    if node.tag.ArrTag? || node.tag.ObjTag? { CollapsedContainerIsFixed(node); }
  }

  lemma {:induction false} CollapsedContainerIsFixed(node: Node)
    requires (node.tag.ArrTag? || node.tag.ObjTag?) && CollapsedContainer(node)
    ensures SemanticContainer(node) == node
    decreases node, 1
  {
    forall i: nat | i < |node.content|
      ensures (if node.tag.ArrTag? then SemanticElement(node.content[i]) else SemanticMember(node.content[i])) == node.content[i]
    {
      var item := node.content[i];
      if HasOnlyNode(item) {
        assert item.node.content[0].node < item;
        var child := item.node.content[0].node;
        assert item.node.content == [Sub(child)];
        if node.tag.ArrTag? {
          if item.node.tag.ItemTag? { CollapsedIsFixed(child); }
        } else if child.tag.ArrTag? || (child.tag.ObjTag? && ScalarCarrierValue(child).None?) {
          CollapsedContainerIsFixed(child);
        }
      }
    }
    assert SemanticContainer(node).content == node.content;
  }

  lemma SemanticFixed(node: Node)
    ensures Semantic(Semantic(node)) == Semantic(node)
  {
    SemanticCollapses(node);
    CollapsedIsFixed(Semantic(node));
  }

  // ---------------------------------------------------------------- normal forms and meaning below the surface

  lemma {:induction false} SemanticIsNormal(node: Node)
    requires Normal(node)
    ensures Normal(Semantic(node)) && (Semantic(node).tag == node.tag || IsScalarLeaf(Semantic(node)))
    ensures !OldShaped(node) ==> !OldShaped(Semantic(node))
    decreases node, 2
  {
    if ScalarCarrierValue(node).Some? {
      assert NormalItem(node.content[0]);
    } else if node.tag.ArrTag? || node.tag.ObjTag? {
      ContainerIsNormal(node);
    }
  }

  lemma {:induction false} ContainerIsNormal(node: Node)
    requires Normal(node) && (node.tag.ArrTag? || node.tag.ObjTag?)
    ensures Normal(SemanticContainer(node))
    decreases node, 1
  {
    var r := SemanticContainer(node);
    forall i: nat | i < |node.content|
      ensures NormalItem(r.content[i])
      ensures HasIndex(node.content[i]) && node.tag.ArrTag? ==> HasIndex(r.content[i]) && IndexOf(r.content[i]) == IndexOf(node.content[i])
    {
      assert NormalItem(node.content[i]);
      if node.tag.ArrTag? { ElementIsNormal(node.content[i]); } else { MemberIsNormal(node.content[i]); }
    }
    if node.tag.ArrTag? {
      forall k: nat | k < |r.content| ensures HasIndex(r.content[k]) && IndexOf(r.content[k]) == Decimal(k) {
        assert IndexOf(Arrange(node.content)[k]) == Decimal(k);
      }
      CanonicalIsArranged(r.content);
    }
  }

  lemma {:induction false} ElementIsNormal(item: Item)
    requires NormalItem(item)
    ensures NormalItem(SemanticElement(item))
    ensures HasIndex(item) ==> HasIndex(SemanticElement(item)) && IndexOf(SemanticElement(item)) == IndexOf(item)
    decreases item
  {
    if HasOnlyNode(item) && item.node.tag.ItemTag? {
      assert item.node.content[0].node < item;
      assert NormalItem(item.node.content[0]);
      SemanticIsNormal(item.node.content[0].node);
    }
  }

  lemma {:induction false} MemberIsNormal(item: Item)
    requires NormalItem(item)
    ensures NormalItem(SemanticMember(item))
    decreases item
  {
    if HasOnlyNode(item) {
      assert item.node.content[0].node < item;
      assert NormalItem(item.node.content[0]);
      var relationship := item.node.content[0].node;
      assert item.node.tag.ArrTag? ==> IsItem(item.node.content[0]);
      if relationship.tag.ArrTag? || (relationship.tag.ObjTag? && ScalarCarrierValue(relationship).None?) {
        ContainerIsNormal(relationship);
        MemberShapeKept(item.node, SemanticContainer(relationship));
      }
    }
  }

  /** Exchanging a member's container for another of its kind keeps the member's shape. */
  lemma MemberShapeKept(member: Node, relationship: Node)
    requires Normal(member) && |member.content| == 1 && IsNode(member.content[0]) && Normal(relationship)
    requires relationship.tag == member.content[0].node.tag && relationship.meta == member.content[0].node.meta
    requires (relationship.tag.ArrTag? || relationship.tag.ObjTag?) && !member.tag.ArrTag?
    ensures Normal(member.(content := [Sub(relationship)]))
  {
  }

  /** No element wrapper anywhere. */
  predicate Elementless(node: Node)
    decreases node
  {
    node.tag != ElemTag && forall i | 0 <= i < |node.content| :: ElementlessItem(node.content[i])
  }

  predicate ElementlessItem(item: Item)
    decreases item
  {
    item.Sub? ==> Elementless(item.node)
  }

  lemma ElementlessBelow(node: Node, i: nat)
    requires Elementless(node) && i < |node.content| && node.content[i].Sub?
    ensures Elementless(node.content[i].node)
  {
    assert ElementlessItem(node.content[i]);
  }

  /** A tree that reads as a value, or holds no element wrapper: collapsing cannot change how it reads. */
  predicate Settled(node: Node) {
    FromNode(node).Some? || Elementless(node)
  }

  lemma {:induction false} SemanticKeepsMeaning(node: Node)
    requires Settled(node)
    ensures FromNode(Semantic(node)) == FromNode(node)
    decreases node, 2
  {
    if ScalarCarrierValue(node).None? && (node.tag.ArrTag? || node.tag.ObjTag?) { ContainerKeepsMeaning(node); }
  }

  lemma {:induction false} ContainerKeepsMeaning(node: Node)
    requires Settled(node) && (node.tag.ArrTag? || (node.tag.ObjTag? && ScalarCarrierValue(node).None?))
    ensures FromNode(SemanticContainer(node)) == FromNode(node)
    decreases node, 1
  {
    if node.tag.ArrTag? {
      ElementsKeepMeaning(node);
    } else if Transparent(node.content) {
      assert SemanticContainer(node).content == [SemanticMember(node.content[0])];
      assert FromNode(node) == FromItem(node.content[0]);
      if Elementless(node) { ElementlessBelow(node, 0); }
      TransparentKeepsMeaning(node.content[0]);
    } else {
      MembersKeepMeaning(node);
    }
  }

  lemma {:induction false} ElementsKeepMeaning(node: Node)
    requires Settled(node) && node.tag.ArrTag?
    ensures FromNode(SemanticContainer(node)) == FromNode(node)
    decreases node, 0
  {
    var r, content := SemanticContainer(node), node.content;
    forall i: nat | i < |content| ensures FromElement(r.content[i], i) == FromElement(content[i], i) {
      assert r.content[i] == SemanticElement(content[i]);
      assert FromElement(content[i], i).Some? || ElementlessItem(content[i]);
      ElementKeepsMeaning(content[i], i);
    }
    if forall i: nat | i < |content| :: FromElement(content[i], i).Some? {
      assert FromNode(r).value.items == FromNode(node).value.items;
    }
  }

  lemma {:induction false} MembersKeepMeaning(node: Node)
    requires Settled(node) && node.tag.ObjTag? && !Transparent(node.content)
    ensures FromNode(SemanticContainer(node)) == FromNode(node)
    decreases node, 0
  {
    var r, content := SemanticContainer(node), node.content;
    forall i: nat | i < |content|
      ensures FromProperty(r.content[i]) == FromProperty(content[i]) && SameHold(r.content[i], content[i])
    {
      assert r.content[i] == SemanticMember(content[i]);
      assert FromProperty(content[i]).Some? || ElementlessItem(content[i]);
      MemberKeepsMeaning(content[i]);
    }
    assert !Transparent(r.content);
    if forall i: nat | i < |content| :: FromProperty(content[i]).Some? {
      assert Entries(r.content) == Entries(content);
    }
  }

  /** Both are nodes of one tag, or neither is a node. */
  predicate SameHold(a: Item, b: Item) {
    IsNode(a) == IsNode(b) && (IsNode(a) ==> a.node.tag == b.node.tag)
  }

  lemma SemanticStaysNode(node: Node)
    requires !OldShaped(node)
    ensures !OldShaped(Semantic(node))
  {
  }

  lemma {:induction false} ElementKeepsMeaning(item: Item, index: nat)
    requires FromElement(item, index).Some? || ElementlessItem(item)
    ensures FromElement(SemanticElement(item), index) == FromElement(item, index)
    decreases item
  {
    if HasOnlyNode(item) && item.node.tag.ItemTag? {
      assert item.node.content[0].node < item;
      assert FromElement(item, index).Some? ==> FromItem(item.node.content[0]).Some?;
      if ElementlessItem(item) { ElementlessBelow(item.node, 0); }
      SemanticKeepsMeaning(item.node.content[0].node);
      SemanticStaysNode(item.node.content[0].node);
    }
  }

  lemma {:induction false} MemberKeepsMeaning(item: Item)
    requires FromProperty(item).Some? || ElementlessItem(item)
    ensures FromProperty(SemanticMember(item)) == FromProperty(item) && SameHold(SemanticMember(item), item)
    decreases item
  {
    if HasOnlyNode(item) {
      assert item.node.content[0].node < item;
      var relationship := item.node.content[0].node;
      assert FromProperty(item).Some? ==> FromItem(item.node.content[0]).Some?;
      if ElementlessItem(item) { ElementlessBelow(item.node, 0); }
      if relationship.tag.ArrTag? || (relationship.tag.ObjTag? && ScalarCarrierValue(relationship).None?) {
        ContainerKeepsMeaning(relationship);
        assert SemanticMember(item).node.content == [Sub(SemanticContainer(relationship))];
      }
    }
  }

  /** The lone structural child of a transparent object keeps its meaning too. */
  lemma {:induction false} TransparentKeepsMeaning(item: Item)
    requires IsNode(item) && (item.node.tag.ArrTag? || item.node.tag.ObjTag?) && Settled(item.node)
    ensures SameHold(SemanticMember(item), item)
    ensures FromNode(SemanticMember(item).node) == FromNode(item.node)
    decreases item
  {
    if HasOnlyNode(item) {
      assert item.node.content[0].node < item;
      var relationship := item.node.content[0].node;
      if relationship.tag.ArrTag? || (relationship.tag.ObjTag? && ScalarCarrierValue(relationship).None?) {
        assert item.node.tag.ArrTag? ==> FromElement(item.node.content[0], 0).None?;
        assert item.node.tag.ObjTag? ==> FromNode(item.node) == FromItem(item.node.content[0]);
        if Elementless(item.node) { ElementlessBelow(item.node, 0); }
        ContainerKeepsMeaning(relationship);
        assert SemanticMember(item).node.content == [Sub(SemanticContainer(relationship))];
        assert item.node.tag.ArrTag? ==> FromElement(SemanticMember(item).node.content[0], 0).None?;
      }
    }
  }

  /** Normalizing a tree that projects brings in no element wrapper. */
  lemma {:induction false} VisitIsElementless(node: Node, required: Option<Mode>)
    requires FromNode(node).Some? && Visit(node, required).Some?
    ensures Elementless(Visit(node, required).value.part)
    decreases node, 1
  {
    var mode := ChildMode(node.tag, required);
    var children := VisitContent(node.content, mode).value.part;
    forall i: nat | i < |children| ensures ElementlessItem(children[i]) {
      VisitContentAt(node.content, mode, i);
      ChildIsElementless(node, mode, i);
    }
    if node.tag.ArrTag? { ElementsArranged(node.content); }
  }

  lemma {:induction false} ChildIsElementless(node: Node, mode: Option<Mode>, i: nat)
    requires FromNode(node).Some? && i < |node.content| && VisitItem(node.content[i], mode).Some?
    requires node.tag.ArrTag? ==> mode.None?
    requires node.tag.ObjTag? ==> mode == Some(ObjectMode)
    ensures ElementlessItem(VisitItem(node.content[i], mode).value.part)
    decreases node, 0
  {
    var item := node.content[i];
    match node.tag
    case RootTag => VisitIsElementless(item.node, mode);
    case ArrTag => assert FromElement(item, i).Some?; ElementIsElementless(item, i);
    case ObjTag =>
      if Transparent(node.content) { VisitIsElementless(item.node, mode); }
      else { assert FromProperty(item).Some?; PropertyIsElementless(item); }
    case _ =>
  }

  lemma {:induction false} ElementIsElementless(item: Item, index: nat)
    requires FromElement(item, index).Some? && VisitItem(item, None).Some?
    ensures ElementlessItem(VisitItem(item, None).value.part)
    decreases item
  {
    var child := item.node.content[0];
    assert child.node < item && FromItem(child).Some?;
    VisitOnly(item.node.content, None);
    VisitIsElementless(child.node, None);
    var only := Sub(Visit(child.node, None).value.part);
    assert ElementlessItem(only) && VisitItem(item, None).value.part.node.content == [only];
  }

  lemma {:induction false} PropertyIsElementless(item: Item)
    requires FromProperty(item).Some? && VisitItem(item, Some(ObjectMode)).Some?
    ensures ElementlessItem(VisitItem(item, Some(ObjectMode)).value.part)
    decreases item
  {
    var child := item.node.content[0];
    assert child.node < item && FromItem(child).Some?;
    VisitOnly(item.node.content, Some(ObjectMode));
    VisitIsElementless(child.node, Some(ObjectMode));
    var only := Sub(Visit(child.node, Some(ObjectMode)).value.part);
    var after := VisitItem(item, Some(ObjectMode)).value.part;
    assert ElementlessItem(only);
    if child.node.tag.ArrTag? || child.node.tag.ObjTag? {
      WrapperKept(only);
      assert after.node.content == [only];
    } else {
      ScalarWrapped(only);
      var wrapper := Plain(ObjTag, [only]);
      assert wrapper.content == [only] && ElementlessItem(Sub(wrapper)) && after.node.content == [Sub(wrapper)];
    }
  }

  /** The semantic normalizer leaves no carrier at a value boundary, is idempotent, and its result is still in graph normal form. */
  lemma NormalizeDetachedIdempotent(input: Node)
    requires NormalizeDetached(input).Some?
    ensures Normal(NormalizeDetached(input).value) && Collapsed(NormalizeDetached(input).value)
    ensures NormalizeDetached(NormalizeDetached(input).value) == NormalizeDetached(input)
  {
    NormalizeGraphIdempotent(input);
    var canonical := NormalizeGraph(input).value;
    var once := Semantic(canonical);
    SemanticIsNormal(canonical);
    SemanticCollapses(canonical);
    SemanticFixed(canonical);
    NormalIsUnchanged(once, None);
    assert NormalizeGraph(once) == Some(once);
  }

  /**
   * Both normalizers keep the value of every tree that has one, exactly when they accept its heads
   * and no property of it holds a root carrier.
   */
  lemma NormalizersKeepMeaningIff(input: Node)
    requires FromNode(input).Some?
    ensures NormalizeGraph(input).Some? <==> Tidy(input)
    ensures (NormalizeGraph(input).Some? && FromNode(NormalizeGraph(input).value) == FromNode(input))
              <==> Tidy(input) && !RootValued(input)
    ensures (NormalizeDetached(input).Some? && FromNode(NormalizeDetached(input).value) == FromNode(input))
              <==> Tidy(input) && !RootValued(input)
  {
    VisitKeepsMeaningIff(input, None);
    if Tidy(input) {
      NormalizeGraphIdempotent(input);
      VisitIsElementless(input, None);
      SemanticKeepsMeaning(NormalizeGraph(input).value);
    }
  }

  /** A text in a root carrier, and {"a": "x"} with that carrier as its property. */
  function HeldRoot(): Node {
    Plain(RootTag, [Sub(Build(Str("x")))])
  }

  function RootHeld(): Node {
    Plain(ObjTag, [Sub(Plain(Ordinary("a"), [Sub(HeldRoot())]))])
  }

  lemma HeldRootReads()
    ensures FromNode(HeldRoot()) == Some(Str("x")) && Tidy(HeldRoot())
  {
    RoundTrip(Str("x"));
    assert FromItem(HeldRoot().content[0]) == Some(Str("x"));
    assert TidyItem(HeldRoot().content[0]);
  }

  lemma RootHeldReads()
    ensures FromNode(RootHeld()) == Some(Obj([Entry("a", Str("x"))])) && RootValued(RootHeld()) && Tidy(RootHeld())
  {
    var item := RootHeld().content[0];
    HeldRootReads();
    assert FromItem(item.node.content[0]) == Some(Str("x")) && FromProperty(item) == Some(Entry("a", Str("x")));
    assert Entries(RootHeld().content) == [Entry("a", Str("x"))];
    assert RootValuedWrapper(item, true);
    assert TidyItem(item.node.content[0]) && TidyItem(item);
  }

  /** It projects and normalizes, and then projects no more. */
  lemma RootHeldIsLost()
    ensures FromNode(RootHeld()) == Some(Obj([Entry("a", Str("x"))]))
    ensures NormalizeGraph(RootHeld()).Some? && FromNode(NormalizeGraph(RootHeld()).value).None?
  {
    RootHeldReads();
    VisitSucceedsIff(RootHeld(), None);
    VisitKeepsMeaning(RootHeld(), None);
    NormalizeGraphIdempotent(RootHeld());
  }

  /** A text below a root whose metadata is `[]` projects, and normalization refuses it. */
  lemma UntidyRootIsRefused()
    ensures var untidy := Plain(RootTag, [Sub(Build(Str("x")))]).(meta := EmptyArray);
            FromNode(untidy) == Some(Str("x")) && NormalizeGraph(untidy).None?
  {
    var untidy := Plain(RootTag, [Sub(Build(Str("x")))]).(meta := EmptyArray);
    RoundTrip(Str("x"));
    assert FromItem(untidy.content[0]) == Some(Str("x"));
    VisitKeepsMeaningIff(untidy, None);
  }
}
