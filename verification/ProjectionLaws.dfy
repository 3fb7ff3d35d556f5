/** Reading loses carriers, attributes and metadata other than indexes, and nothing else. */
module ProjectionLaws {
  import opened Prelude
  import opened OrderedValue
  import opened HsonGraph
  import opened Projection

  /** A carrier around one value: a root, also around another root, or an object. */
  predicate IsCarrier(node: Node) {
    && |node.content| == 1 && IsNode(node.content[0])
    && var tag := node.content[0].node.tag;
       || (node.tag.ObjTag? && tag in {StrTag, ValTag, ArrTag, ObjTag})
       || (node.tag.RootTag? && tag in {StrTag, ValTag, ArrTag, ObjTag, RootTag})
  }

  function IndexOnly(meta: Container<MetaValue>): Container<MetaValue> {
    if meta.Record? && INDEX_KEY in meta.fields then Record(map[INDEX_KEY := meta.fields[INDEX_KEY]]) else Missing
  }

  /** A node without its carriers, its attributes, and all metadata but the index of an item. */
  function Skeleton(node: Node): Node
    decreases node
  {
    if IsCarrier(node) then
      assert node.content[0].node < node.content[0];
      Skeleton(node.content[0].node)
    else Node(node.tag, Skeletons(node.content), Missing, if node.tag.ItemTag? then IndexOnly(node.meta) else Missing)
  }

  function ItemSkeleton(item: Item): Item
    decreases item
  {
    match item
    case Prim(_) => item
    case Sub(child) => Sub(Skeleton(child))
  }

  function Skeletons(content: seq<Item>): (r: seq<Item>)
    ensures |r| == |content|
    ensures forall i | 0 <= i < |r| :: r[i] == ItemSkeleton(content[i])
    decreases content
  {
    if content == [] then [] else [ItemSkeleton(content[0])] + Skeletons(content[1..])
  }

  lemma OneSkeleton(item: Item)
    ensures Skeletons([item]) == [ItemSkeleton(item)]
  {
  }

  lemma {:induction false} RootIsCarrier(node: Node)
    requires FromNode(node).Some?
    ensures node.tag.RootTag? ==> IsCarrier(node)
  {
    if node.tag.RootTag? {
      var child := node.content[0].node;
      assert FromNode(child).Some?;
      assert !child.tag.Ordinary? && !child.tag.ItemTag? && !child.tag.ElemTag?;
    }
  }

  /** What a node reads as determines the node, up to its skeleton: it is the one the value is built as. */
  lemma {:induction false} ReadingDetermines(node: Node, v: Value)
    requires FromNode(node) == Some(v)
    ensures Skeleton(node) == Skeleton(Build(v))
    decreases node
  {
    RootIsCarrier(node);
    if IsCarrier(node) {
      assert node.content[0].node < node.content[0];
      assert FromNode(node) == FromItem(node.content[0]);
      ReadingDetermines(node.content[0].node, v);
    } else if node.tag.ArrTag? {
      ArrayDetermines(node, v);
    } else if node.tag.ObjTag? {
      ObjectDetermines(node, v);
    } else {
      assert node.content == Build(v).content && node.tag == Build(v).tag;
    }
  }

  lemma {:induction false} ArrayDetermines(node: Node, v: Value)
    requires node.tag.ArrTag? && FromNode(node) == Some(v)
    ensures Skeleton(node) == Skeleton(Build(v))
    decreases node, 0
  {
    var content, built := node.content, Build(v).content;
    forall i: nat | i < |content| ensures ItemSkeleton(content[i]) == ItemSkeleton(built[i]) {
      assert FromElement(content[i], i) == Some(v.items[i]);
      assert built[i] == Sub(ItemNode(i, v.items[i]));
      ElementDetermines(content[i], i, v.items[i]);
    }
    assert Skeletons(content) == Skeletons(built);
  }

  lemma {:induction false} ElementDetermines(item: Item, index: nat, v: Value)
    requires FromElement(item, index) == Some(v)
    ensures ItemSkeleton(item) == ItemSkeleton(Sub(ItemNode(index, v)))
    decreases item
  {
    var only := item.node.content[0];
    assert only.node < item && item.node.content == [only] && FromItem(only) == Some(v);
    ReadingDetermines(only.node, v);
    OneSkeleton(only);
    OneSkeleton(Sub(Build(v)));
  }

  lemma {:induction false} PayloadSkeleton(v: Value)
    ensures Skeleton(Payload(v)) == Skeleton(Build(v))
  {
  }

  lemma {:induction false} PropertyDetermines(item: Item, entry: Entry)
    requires FromProperty(item) == Some(entry)
    ensures ItemSkeleton(item) == ItemSkeleton(Sub(PropertyNode(entry.key, entry.value)))
    decreases item
  {
    var only := item.node.content[0];
    assert only.node < item && item.node.content == [only] && FromItem(only) == Some(entry.value);
    ReadingDetermines(only.node, entry.value);
    PayloadSkeleton(entry.value);
    OneSkeleton(only);
    OneSkeleton(Sub(Payload(entry.value)));
  }

  lemma {:induction false} ObjectDetermines(node: Node, v: Value)
    requires node.tag.ObjTag? && !IsCarrier(node) && FromNode(node) == Some(v)
    ensures Skeleton(node) == Skeleton(Build(v))
    decreases node, 0
  {
    var content, built := node.content, Build(v).content;
    assert !Transparent(content) && v.entries == Entries(content);
    forall i: nat | i < |content| ensures ItemSkeleton(content[i]) == ItemSkeleton(built[i]) {
      assert FromProperty(content[i]) == Some(v.entries[i]);
      assert built[i] == Sub(PropertyNode(v.entries[i].key, v.entries[i].value));
      PropertyDetermines(content[i], v.entries[i]);
    }
    assert Skeletons(content) == Skeletons(built);
    if |built| == 1 { assert built[0] == Sub(PropertyNode(v.entries[0].key, v.entries[0].value)); }
  }

  // ---------------------------------------------------------------- and the skeleton determines the reading

  /** No node below is of the retired shape. */
  predicate Modern(node: Node)
    decreases node
  {
    forall i | 0 <= i < |node.content| :: ModernItem(node.content[i])
  }

  predicate ModernItem(item: Item)
    decreases item
  {
    item.Sub? ==> !OldShaped(item.node) && Modern(item.node)
  }

  lemma {:induction false} BuiltIsNoCarrier(v: Value)
    ensures !IsCarrier(Build(v))
    ensures Skeleton(Build(v)).tag == Build(v).tag && |Skeleton(Build(v)).content| == |Build(v).content|
  {
    if v.Obj? && |v.entries| == 1 { assert Build(v).content[0] == Sub(PropertyNode(v.entries[0].key, v.entries[0].value)); }
  }

  /** The skeleton of a property or of an item, taken apart. */
  lemma {:induction false} WrapperSkeleton(item: Item, tag: Tag, value: Node, meta: Container<MetaValue>)
    requires ModernItem(item) && !tag.RootTag? && !tag.ObjTag? && tag !in {StrTag, ValTag, ArrTag}
    requires ItemSkeleton(item) == Sub(Node(tag, [Sub(value)], Missing, meta))
    ensures IsNode(item) && item.node.tag == tag && |item.node.content| == 1 && item.node.content[0].Sub?
    ensures IsNode(item.node.content[0]) && Modern(item.node.content[0].node)
    ensures Skeleton(item.node.content[0].node) == value
    ensures meta == if tag.ItemTag? then IndexOnly(item.node.meta) else Missing
  {
    CarrierIsValue(item.node);
    assert Skeletons(item.node.content)[0] == ItemSkeleton(item.node.content[0]);
    assert ModernItem(item.node.content[0]);
  }

  /** What a carrier stands for is a value or a root, so no wrapper is one. */
  lemma {:induction false} CarrierIsValue(node: Node)
    ensures IsCarrier(node) ==> Skeleton(node).tag in {StrTag, ValTag, ArrTag, ObjTag, RootTag}
    decreases node
  {
    if IsCarrier(node) {
      assert node.content[0].node < node.content[0];
      CarrierIsValue(node.content[0].node);
    }
  }

  lemma {:induction false} SkeletonReads(node: Node, v: Value)
    requires Modern(node) && WellFormed(v) && Clean(v) && Skeleton(node) == Skeleton(Build(v))
    ensures FromNode(node) == Some(v)
    decreases node
  {
    BuiltIsNoCarrier(v);
    if IsCarrier(node) {
      assert node.content[0].node < node.content[0] && ModernItem(node.content[0]);
      SkeletonReads(node.content[0].node, v);
    } else {
      assert node.tag == Build(v).tag && |node.content| == |Build(v).content|;
      match v
      case Arr(_) => SkeletonReadsArray(node, v);
      case Obj(_) => SkeletonReadsObject(node, v);
      case _ => assert Skeletons(node.content)[0] == Skeletons(Build(v).content)[0];
    }
  }

  lemma {:induction false} BuiltItemSkeleton(index: nat, x: Value)
    ensures ItemSkeleton(Sub(ItemNode(index, x))) ==
            Sub(Node(ItemTag, [Sub(Skeleton(Build(x)))], Missing, Record(map[INDEX_KEY := MText(Decimal(index))])))
  {
    OneSkeleton(Sub(Build(x)));
    assert IndexOnly(ItemNode(index, x).meta) == ItemNode(index, x).meta;
  }

  lemma {:induction false} BuiltPropertySkeleton(key: string, x: Value)
    ensures ItemSkeleton(Sub(PropertyNode(key, x))) == Sub(Node(Ordinary(key), [Sub(Skeleton(Build(x)))], Missing, Missing))
  {
    OneSkeleton(Sub(Payload(x)));
    PayloadSkeleton(x);
  }

  lemma {:induction false} ElementReads(item: Item, index: nat, x: Value)
    requires ModernItem(item) && WellFormed(x) && Clean(x)
    requires ItemSkeleton(item) == ItemSkeleton(Sub(ItemNode(index, x)))
    ensures FromElement(item, index) == Some(x)
    decreases item
  {
    BuiltItemSkeleton(index, x);
    WrapperSkeleton(item, ItemTag, Skeleton(Build(x)), Record(map[INDEX_KEY := MText(Decimal(index))]));
    IndexRead(item.node.meta, index);
    assert item.node.content[0].node < item;
    SkeletonReads(item.node.content[0].node, x);
  }

  lemma {:induction false} IndexRead(meta: Container<MetaValue>, index: nat)
    requires IndexOnly(meta) == Record(map[INDEX_KEY := MText(Decimal(index))])
    ensures meta.Record? && INDEX_KEY in meta.fields && meta.fields[INDEX_KEY] == MText(Decimal(index))
  {
    assert INDEX_KEY in IndexOnly(meta).fields;
  }

  lemma {:induction false} PropertyReads(item: Item, entry: Entry)
    requires ModernItem(item) && !Reserved(entry.key) && WellFormed(entry.value) && Clean(entry.value)
    requires ItemSkeleton(item) == ItemSkeleton(Sub(PropertyNode(entry.key, entry.value)))
    ensures FromProperty(item) == Some(entry) && item.node.tag.Ordinary?
    decreases item
  {
    BuiltPropertySkeleton(entry.key, entry.value);
    WrapperSkeleton(item, Ordinary(entry.key), Skeleton(Build(entry.value)), Missing);
    assert item.node.content[0].node < item;
    SkeletonReads(item.node.content[0].node, entry.value);
  }

  lemma {:induction false} SkeletonReadsArray(node: Node, v: Value)
    requires Modern(node) && WellFormed(v) && Clean(v) && v.Arr? && node.tag.ArrTag? && |node.content| == |v.items|
    requires Skeletons(node.content) == Skeletons(Build(v).content)
    ensures FromNode(node) == Some(v)
    decreases node, 0
  {
    forall i: nat | i < |node.content| ensures FromElement(node.content[i], i) == Some(v.items[i]) {
      assert Build(v).content[i] == Sub(ItemNode(i, v.items[i]));
      assert Skeletons(node.content)[i] == Skeletons(Build(v).content)[i] && ModernItem(node.content[i]);
      ElementReads(node.content[i], i, v.items[i]);
    }
    assert FromNode(node).value.items == v.items;
  }

  lemma {:induction false} SkeletonReadsObject(node: Node, v: Value)
    requires Modern(node) && WellFormed(v) && Clean(v) && v.Obj? && node.tag.ObjTag? && |node.content| == |v.entries|
    requires Skeletons(node.content) == Skeletons(Build(v).content)
    ensures FromNode(node) == Some(v)
    decreases node, 0
  {
    forall i: nat | i < |node.content|
      ensures FromProperty(node.content[i]) == Some(v.entries[i]) && node.content[i].node.tag.Ordinary?
    {
      assert Build(v).content[i] == Sub(PropertyNode(v.entries[i].key, v.entries[i].value));
      assert Skeletons(node.content)[i] == Skeletons(Build(v).content)[i] && ModernItem(node.content[i]);
      PropertyReads(node.content[i], v.entries[i]);
    }
    PropertiesRead(node, v.entries);
  }

  lemma {:induction false} PropertiesRead(node: Node, entries: seq<Entry>)
    requires node.tag.ObjTag? && |node.content| == |entries| && UniqueKeys(entries)
    requires forall i: nat | i < |node.content| ::
               node.content[i].Sub? && FromProperty(node.content[i]) == Some(entries[i]) && node.content[i].node.tag.Ordinary?
    ensures FromNode(node) == Some(Obj(entries))
  {
    assert !Transparent(node.content) && Entries(node.content) == entries;
  }

  /**
   * What reading is, exactly: a node reads as an admitted value iff it is the node that value is built
   * as, up to carriers, attributes and metadata other than item indexes.
   */
  lemma ReadsIff(node: Node, v: Value)
    requires Modern(node) && WellFormed(v) && Clean(v)
    ensures FromNode(node) == Some(v) <==> Skeleton(node) == Skeleton(Build(v))
  {
    if FromNode(node) == Some(v) { ReadingDetermines(node, v); }
    if Skeleton(node) == Skeleton(Build(v)) { SkeletonReads(node, v); }
  }

  /** So nodes that read alike have one skeleton. */
  lemma ReadAlike(a: Node, b: Node)
    requires FromNode(a).Some? && FromNode(a) == FromNode(b)
    ensures Skeleton(a) == Skeleton(b)
  {
    ReadingDetermines(a, FromNode(a).value);
    ReadingDetermines(b, FromNode(a).value);
  }
}
