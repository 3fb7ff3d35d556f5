/** What the detached semantic normalizer keeps: every node but the scalar carriers, and every primitive, in order. */
module SemanticLaws {
  import opened HsonGraph
  import opened SemanticValue

  datatype Piece = Head(tag: Tag, attrs: Container<AttrValue>, meta: Container<MetaValue>) | Leaf(primitive: Primitive)

  /** A wrapper around one scalar leaf: an object around a text or any other scalar, an element around a text only. */
  predicate IsCarrier(node: Node) {
    && |node.content| == 1 && IsNode(node.content[0])
    && ((node.tag.ObjTag? && node.content[0].node.tag.ValTag?)
        || ((node.tag.ObjTag? || node.tag.ElemTag?) && node.content[0].node.tag.StrTag?))
  }

  lemma CarrierIff(node: Node)
    ensures IsCarrier(node) <==> ScalarCarrierValue(node).Some?
  {
  }

  /** The nodes of a tree with their attributes and metadata, scalar carriers aside, and its primitives, in order. */
  function Pieces(node: Node): seq<Piece>
    decreases node
  {
    (if IsCarrier(node) then [] else [Head(node.tag, node.attrs, node.meta)]) + ItemsPieces(node.content)
  }

  function ItemPieces(item: Item): seq<Piece>
    decreases item
  {
    match item
    case Prim(p) => [Leaf(p)]
    case Sub(child) => Pieces(child)
  }

  function ItemsPieces(content: seq<Item>): seq<Piece>
    decreases content
  {
    if content == [] then [] else ItemPieces(content[0]) + ItemsPieces(content[1..])
  }

  lemma OnePieces(item: Item)
    ensures ItemsPieces([item]) == ItemPieces(item)
  {
    assert [item][1..] == [] && ItemPieces(item) + [] == ItemPieces(item);
  }

  lemma {:induction false} SamePieces(a: seq<Item>, b: seq<Item>)
    requires |a| == |b| && forall i | 0 <= i < |a| :: ItemPieces(a[i]) == ItemPieces(b[i])
    ensures ItemsPieces(a) == ItemsPieces(b)
    decreases |a|
  {
    if a != [] { SamePieces(a[1..], b[1..]); }
  }

  /** Collapsing takes away scalar carriers and nothing else. */
  lemma {:induction false} SemanticKeepsPieces(node: Node)
    ensures Pieces(Semantic(node)) == Pieces(node)
    decreases node, 2
  {
    CarrierIff(node);
    if ScalarCarrierValue(node).Some? {
      assert node.content == [node.content[0]];
      OnePieces(node.content[0]);
    } else if node.tag.ArrTag? || node.tag.ObjTag? {
      ContainerKeepsPieces(node);
    }
  }

  lemma {:induction false} ContainerKeepsPieces(node: Node)
    requires node.tag.ArrTag? || node.tag.ObjTag?
    ensures Pieces(SemanticContainer(node)) == Pieces(node)
    decreases node, 1
  {
    var r := SemanticContainer(node);
    forall i: nat | i < |node.content| ensures ItemPieces(r.content[i]) == ItemPieces(node.content[i]) {
      if node.tag.ArrTag? {
        assert r.content[i] == SemanticElement(node.content[i]);
        ElementKeepsPieces(node.content[i]);
      } else {
        assert r.content[i] == SemanticMember(node.content[i]);
        MemberKeepsPieces(node.content[i]);
      }
    }
    SamePieces(r.content, node.content);
    ContainerKeepsCarrier(node);
    CarrierIff(node);
    CarrierIff(r);
  }

  lemma {:induction false} ElementKeepsPieces(item: Item)
    ensures ItemPieces(SemanticElement(item)) == ItemPieces(item)
    decreases item
  {
    if HasOnlyNode(item) && item.node.tag.ItemTag? {
      assert item.node.content[0].node < item && item.node.content == [item.node.content[0]];
      SemanticKeepsPieces(item.node.content[0].node);
      OnePieces(item.node.content[0]);
      OnePieces(Sub(Semantic(item.node.content[0].node)));
    }
  }

  lemma {:induction false} MemberKeepsPieces(item: Item)
    ensures ItemPieces(SemanticMember(item)) == ItemPieces(item)
    decreases item
  {
    if HasOnlyNode(item) {
      assert item.node.content[0].node < item && item.node.content == [item.node.content[0]];
      var relationship := item.node.content[0].node;
      if relationship.tag.ArrTag? || (relationship.tag.ObjTag? && ScalarCarrierValue(relationship).None?) {
        ContainerKeepsPieces(relationship);
        OnePieces(item.node.content[0]);
        OnePieces(Sub(SemanticContainer(relationship)));
        assert SemanticMember(item).node == item.node.(content := [Sub(SemanticContainer(relationship))]);
      }
    }
  }
}
