/** What passing the checks means: which admitted graphs can be read, which are normal, and how their branches part. */
module GrammarLaws {
  import opened Prelude
  import opened HsonGraph
  import opened ArrayIndexes
  import opened Projection
  import opened Normalize
  import opened Invariants
  import QuidCodec

  // ---------------------------------------------------------------- reading

  predicate IsData(tag: Tag) {
    tag in {RootTag, StrTag, ValTag, ArrTag, ObjTag}
  }

  /** Every object holds properties only, or stands around one value; every root holds one value. */
  predicate Unmixed(n: Node)
    decreases n
  {
    match n.tag
    case RootTag => |n.content| == 1 && n.content[0].Sub? && IsData(n.content[0].node.tag) && UnmixedItem(n.content[0])
    case ArrTag => forall i | 0 <= i < |n.content| :: UnmixedWrapper(n.content[i])
    case ObjTag =>
      if Transparent(n.content) then UnmixedItem(n.content[0])
      else forall i | 0 <= i < |n.content| :: n.content[i].Sub? && n.content[i].node.tag.Ordinary? && UnmixedWrapper(n.content[i])
    case _ => true
  }

  predicate UnmixedItem(item: Item)
    decreases item
  {
    item.Sub? && Unmixed(item.node)
  }

  predicate UnmixedWrapper(item: Item)
    decreases item
  {
    item.Sub? && |item.node.content| == 1 && UnmixedItem(item.node.content[0])
  }

  /** An admitted data graph can be read exactly when no object of it mixes other nodes into its properties. */
  lemma {:induction false} AdmittedReadsIff(n: Node, parent: Tag)
    requires Grammar(n, parent) && IsData(n.tag)
    ensures FromNode(n).Some? <==> Unmixed(n)
    decreases n, 1
  {
    match n.tag
    case RootTag =>
      if |n.content| == 1 {
        assert GrammarItem(n.content[0], RootTag);
        ItemReadsIff(n, 0);
      }
    case ArrTag => ArrayReadsIff(n, parent);
    case ObjTag =>
      if Transparent(n.content) {
        assert GrammarItem(n.content[0], ObjTag);
        ItemReadsIff(n, 0);
      } else {
        ObjectReadsIff(n, parent);
      }
    case _ =>
  }

  lemma {:induction false} ItemReadsIff(n: Node, i: nat)
    requires i < |n.content| && GrammarItem(n.content[i], n.tag)
    ensures n.content[i].Sub? && (FromNode(n.content[i].node).Some? <==> IsData(n.content[i].node.tag) && Unmixed(n.content[i].node))
    decreases n, 0
  {
    assert n.content[i].node < n.content[i];
    if IsData(n.content[i].node.tag) { AdmittedReadsIff(n.content[i].node, n.tag); }
  }

  lemma {:induction false} ArrayReadsIff(n: Node, parent: Tag)
    requires Grammar(n, parent) && n.tag.ArrTag?
    ensures FromNode(n).Some? <==> Unmixed(n)
    decreases n, 0
  {
    forall i: nat | i < |n.content| ensures FromElement(n.content[i], i).Some? <==> UnmixedWrapper(n.content[i]) {
      var item := n.content[i];
      assert GrammarItem(item, ArrTag) && IsItem(item);
      assert IndexOf(Arrange(n.content)[i]) == Decimal(i);
      assert item.node < item;
      ElementReadsIff(item, i);
    }
  }

  lemma {:induction false} ElementReadsIff(item: Item, i: nat)
    requires GrammarItem(item, ArrTag) && HasIndex(item) && IndexOf(item) == Decimal(i)
    ensures FromElement(item, i).Some? <==> UnmixedWrapper(item)
    decreases item
  {
    assert item.node < item;
    ItemReadsIff(item.node, 0);
    NoItemInItem(item.node.content[0].node);
  }

  /** An item only stands in an array, and no element wrapper or ordinary node stands in an item. */
  lemma {:induction false} NoItemInItem(n: Node)
    requires Grammar(n, ItemTag)
    ensures !n.tag.ItemTag?
  {
  }

  lemma {:induction false} ObjectReadsIff(n: Node, parent: Tag)
    requires Grammar(n, parent) && n.tag.ObjTag? && !Transparent(n.content)
    ensures FromNode(n).Some? <==> Unmixed(n)
    decreases n, 0
  {
    forall i: nat | i < |n.content|
      ensures FromProperty(n.content[i]).Some? <==> n.content[i].node.tag.Ordinary? && UnmixedWrapper(n.content[i])
    {
      assert GrammarItem(n.content[i], ObjTag);
      assert n.content[i].node < n.content[i];
      PropertyReadsIff(n.content[i]);
    }
    if forall i: nat | i < |n.content| :: FromProperty(n.content[i]).Some? {
      var entries := Entries(n.content);
      forall i: nat, j: nat | i < j < |entries| ensures entries[i].key != entries[j].key {
        assert Named(n.content[i]) && Named(n.content[j]) && UniqueTags(n.content);
      }
    }
  }

  lemma {:induction false} PropertyReadsIff(item: Item)
    requires GrammarItem(item, ObjTag)
    ensures FromProperty(item).Some? <==> item.node.tag.Ordinary? && UnmixedWrapper(item)
    decreases item
  {
    assert item.node < item;
    if item.node.tag.Ordinary? {
      assert |item.node.content| == 1 && GrammarItem(item.node.content[0], item.node.tag);
      ItemReadsIff(item.node, 0);
    }
  }

  // ---------------------------------------------------------------- normal form

  /** No ordinary node holds a bare text or scalar, and attributes are texts and styles. */
  predicate Wrapped(n: Node)
    decreases n
  {
    && (n.attrs.Record? ==> TidyAttrs(n.attrs.fields))
    && (n.tag.Ordinary? && |n.content| == 1 && n.content[0].Sub? ==> !n.content[0].node.tag.StrTag? && !n.content[0].node.tag.ValTag?)
    && forall i | 0 <= i < |n.content| :: WrappedItem(n.content[i])
  }

  predicate WrappedItem(item: Item)
    decreases item
  {
    item.Sub? ==> Wrapped(item.node)
  }

  lemma {:induction false} ScalarContent(n: Node, parent: Tag)
    requires Grammar(n, parent) && (n.tag.StrTag? || n.tag.ValTag?)
    ensures |n.content| == 1 && n.content[0].Prim?
  {
  }

  /** An admitted graph is in normal form exactly when its ordinary nodes hold wrappers and its attributes are texts. */
  lemma {:induction false} AdmittedNormalIff(n: Node, parent: Tag)
    requires Shaped(n) && Grammar(n, parent)
    ensures Normal(n) <==> Wrapped(n)
    decreases n
  {
    if n.tag.StrTag? || n.tag.ValTag? {
      ScalarContent(n, parent);
    } else {
      forall i: nat | i < |n.content| ensures NormalItem(n.content[i]) <==> WrappedItem(n.content[i]) {
        assert GrammarItem(n.content[i], n.tag) && ShapedItem(n.content[i]);
        assert n.content[i].node < n.content[i];
        AdmittedNormalIff(n.content[i].node, n.tag);
      }
      ShapeNormalIff(n, parent);
    }
  }

  lemma {:induction false} ShapeNormalIff(n: Node, parent: Tag)
    requires Shaped(n) && Grammar(n, parent)
    ensures NormalShape(n.tag, n.content) <==>
              !(n.tag.Ordinary? && |n.content| == 1 && n.content[0].Sub?
                && (n.content[0].node.tag.StrTag? || n.content[0].node.tag.ValTag?))
    ensures NormalContainers(n) <==> (n.attrs.Record? ==> TidyAttrs(n.attrs.fields))
  {
  }

  /** So normalization gives exactly those back untouched. */
  lemma AdmittedIsFixedIff(root: Node)
    requires Canonical(root)
    ensures Visit(root, None) == Some(Visited(root, false)) <==> Wrapped(root)
  {
    AdmittedNormalIff(root, root.tag);
    if Wrapped(root) {
      NormalIsUnchanged(root, None);
    } else if Visit(root, None).Some? {
      VisitIsNormal(root, None);
    }
  }

  // ---------------------------------------------------------------- branches

  /** No root carrier stands inside the tree. */
  predicate Rootless(n: Node)
    decreases n
  {
    forall i | 0 <= i < |n.content| :: RootlessItem(n.content[i])
  }

  predicate RootlessItem(item: Item)
    decreases item
  {
    item.Sub? ==> item.node.tag != RootTag && Rootless(item.node)
  }

  /** A tree of these tags only. */
  predicate OfTags(n: Node, tags: set<Tag>)
    decreases n
  {
    (n.tag.Ordinary? || n.tag in tags) && forall i | 0 <= i < |n.content| :: OfTagsItem(n.content[i], tags)
  }

  predicate OfTagsItem(item: Item, tags: set<Tag>)
    decreases item
  {
    item.Sub? ==> OfTags(item.node, tags)
  }

  /** Below an element wrapper there are elements and texts only, all the way down. */
  lemma {:induction false} ElementBranchIsPure(n: Node, parent: Tag)
    requires Grammar(n, parent) && Rootless(n)
    requires n.tag.ElemTag? || n.tag.StrTag? || (n.tag.Ordinary? && parent == ElemTag)
    ensures OfTags(n, {ElemTag, StrTag})
    decreases n
  {
    if n.tag.StrTag? {
      ScalarContent(n, parent);
    } else {
      forall i: nat | i < |n.content| ensures OfTagsItem(n.content[i], {ElemTag, StrTag}) {
        assert GrammarItem(n.content[i], n.tag) && RootlessItem(n.content[i]);
        assert n.content[i].node < n.content[i];
        if n.tag.ElemTag? { assert ElementChild(n.content[i]); }
        ElementBranchIsPure(n.content[i].node, n.tag);
      }
    }
  }

  /** Below an object or an array there is no element wrapper, all the way down. */
  lemma {:induction false} DataBranchIsPure(n: Node, parent: Tag)
    requires Grammar(n, parent) && Rootless(n) && n.tag != ElemTag && n.tag != RootTag
    requires n.tag.Ordinary? ==> parent == ObjTag
    ensures OfTags(n, {ObjTag, ArrTag, ItemTag, StrTag, ValTag})
    decreases n
  {
    if n.tag.StrTag? || n.tag.ValTag? {
      ScalarContent(n, parent);
    } else {
      forall i: nat | i < |n.content| ensures OfTagsItem(n.content[i], {ObjTag, ArrTag, ItemTag, StrTag, ValTag}) {
        assert GrammarItem(n.content[i], n.tag) && RootlessItem(n.content[i]);
        assert n.content[i].node < n.content[i];
        if n.tag.ObjTag? { assert ObjectChild(n.content[i]); }
        if n.tag.ArrTag? { assert IsItem(n.content[i]); }
        DataBranchIsPure(n.content[i].node, n.tag);
      }
    }
  }

  // ---------------------------------------------------------------- identities

  /** The same node with this identity as its only metadata. */
  function Identified(n: Node, quid: string): Node {
    n.(meta := Record(map[QUID_KEY := MText(quid)]))
  }

  /** Elements, arrays and objects of properties may be given an identity, of the persisted spelling; no other node may. */
  lemma IdentityAdmittedIff(n: Node, parent: Tag, quid: string)
    requires Grammar(n, parent) && n.meta.Missing?
    ensures Grammar(Identified(n, quid), parent) <==>
              && QuidCodec.IsPersisted(quid)
              && (n.tag.Ordinary? || n.tag.ArrTag? || (n.tag.ObjTag? && !Transparent(n.content)))
  {
    var m := Identified(n, quid);
    assert QUID_KEY in m.meta.fields;
    assert HeadGrammar(m) <==>
             && QuidCodec.IsPersisted(quid)
             && (n.tag.Ordinary? || n.tag.ArrTag? || (n.tag.ObjTag? && !Transparent(n.content)));
    if n.tag.Ordinary? { assert Classify(m) == Classify(n); }
    assert ShapeGrammar(m, parent);
  }
}
