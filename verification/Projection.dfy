/** The projection between ordered carriers and canonical HSON value nodes. */
module Projection {
  import opened Prelude
  import opened OrderedValue
  import opened HsonGraph

  /** No object key, at any depth, begins with the reserved prefix. */
  predicate Clean(v: Value) {
    match v
    case Arr(items) => forall i | 0 <= i < |items| :: Clean(items[i])
    case Obj(entries) => forall i | 0 <= i < |entries| :: !Reserved(entries[i].key) && Clean(entries[i].value)
    case _ => true
  }

  predicate IsScalar(v: Value) {
    !v.Arr? && !v.Obj?
  }

  /** The value node of a carrier. */
  function Build(v: Value): (n: Node)
    ensures !OldShaped(n)
    decreases v, 0
  {
    match v
    case Str(text) => Plain(StrTag, [Prim(PStr(text))])
    case Null => Plain(ValTag, [Prim(PNull)])
    case Bool(flag) => Plain(ValTag, [Prim(PBool(flag))])
    case Num(number) => Plain(ValTag, [Prim(PNum(number))])
    case Arr(items) => Plain(ArrTag, seq(|items|, (i: nat) requires i < |items| => Sub(ItemNode(i, items[i]))))
    case Obj(entries) =>
      Plain(ObjTag, seq(|entries|, (i: nat) requires i < |entries| => Sub(PropertyNode(entries[i].key, entries[i].value))))
  }

  /** Scalars below a property travel inside an object carrier. */
  function Payload(v: Value): (n: Node)
    ensures !OldShaped(n)
    decreases v, 1
  {
    if IsScalar(v) then Plain(ObjTag, [Sub(Build(v))]) else Build(v)
  }

  function PropertyNode(key: string, v: Value): (n: Node)
    ensures !OldShaped(n)
    decreases v, 2
  {
    Plain(Ordinary(key), [Sub(Payload(v))])
  }

  function ItemNode(index: nat, v: Value): (n: Node)
    ensures !OldShaped(n)
    decreases v, 2
  {
    Node(ItemTag, [Sub(Build(v))], Missing, Record(map[INDEX_KEY := MText(Decimal(index))]))
  }

  /** Construction as the source runs it: a reserved key anywhere throws. */
  function ToNode(v: Value): Option<Node> {
    if Clean(v) then Some(Build(v)) else None
  }

  function ToRoot(v: Value): Option<Node> {
    if Clean(v) then Some(Plain(RootTag, [Sub(Build(v))])) else None
  }

  /** Whether a lone child makes its object node a transparent carrier. */
  predicate Transparent(content: seq<Item>) {
    |content| == 1 && IsNode(content[0]) && content[0].node.tag in {StrTag, ValTag, ArrTag, ObjTag}
  }

  /** The carrier a value node or root stands for, or nothing when the node is not projectable. */
  function FromNode(node: Node): Option<Value>
    decreases node
  {
    var content := node.content;
    match node.tag
    case RootTag =>
      if |content| == 1 && IsNode(content[0]) then FromItem(content[0]) else None
    case StrTag =>
      if |content| == 1 && content[0].Prim? && content[0].primitive.PStr? then Some(Str(content[0].primitive.text)) else None
    case ValTag =>
      if |content| == 1 && content[0].Prim? then FromScalar(content[0].primitive) else None
    case ArrTag =>
      if forall i: nat | i < |content| :: FromElement(content[i], i).Some? then
        Some(Arr(seq(|content|, (i: nat) requires i < |content| && FromElement(content[i], i).Some? =>
          FromElement(content[i], i).value)))
      else None
    case ObjTag =>
      if Transparent(content) then FromItem(content[0])
      else if forall i | 0 <= i < |content| :: FromProperty(content[i]).Some? then
        var entries := seq(|content|, (i: nat) requires i < |content| && FromProperty(content[i]).Some? =>
          FromProperty(content[i]).value);
        if UniqueKeys(entries) then Some(Obj(entries)) else None
      else None
    case _ => None
  }

  function FromItem(item: Item): Option<Value>
    requires item.Sub?
    decreases item
  {
    FromNode(item.node)
  }

  function FromScalar(p: Primitive): Option<Value> {
    match p
    case PNull => Some(Null)
    case PBool(flag) => Some(Bool(flag))
    case PNum(number) => Some(Num(number))
    case PStr(_) => None
  }

  /** An array element: an item wrapper spelled with its position, around exactly one value node. */
  function FromElement(item: Item, index: nat): Option<Value>
    decreases item
  {
    if !IsNodeTagged(item, ItemTag) then None
    else
      var wrapper := item.node;
      if !wrapper.meta.Record? || INDEX_KEY !in wrapper.meta.fields then None
      else if wrapper.meta.fields[INDEX_KEY] != MText(Decimal(index)) then None
      else if |wrapper.content| != 1 || !IsNode(wrapper.content[0]) then None
      else FromItem(wrapper.content[0])
  }

  /** An object property: an unreserved tag around exactly one value relationship. */
  function FromProperty(item: Item): Option<Entry>
    decreases item
  {
    if !IsNode(item) || StartsWithSystemPrefix(item.node.tag) then None
    else if |item.node.content| != 1 || !IsNode(item.node.content[0]) then None
    else match FromItem(item.node.content[0])
      case None => None
      case Some(v) => Some(Entry(item.node.tag.name, v))
  }

  /** The entries of an object's properties, in order. */
  function Entries(content: seq<Item>): (r: seq<Entry>)
    requires forall i | 0 <= i < |content| :: FromProperty(content[i]).Some?
    ensures |r| == |content|
  {
    seq(|content|, (i: nat) requires i < |content| && FromProperty(content[i]).Some? => FromProperty(content[i]).value)
  }

  // ---------------------------------------------------------------- round trip

  lemma {:induction false} PayloadRoundTrip(v: Value)
    requires WellFormed(v) && Clean(v) && FromNode(Build(v)) == Some(v)
    ensures FromNode(Payload(v)) == Some(v)
  {
  }

  lemma PropertyRoundTrip(entry: Entry)
    requires WellFormed(entry.value) && Clean(entry.value) && !Reserved(entry.key)
    requires FromNode(Build(entry.value)) == Some(entry.value)
    ensures FromProperty(Sub(PropertyNode(entry.key, entry.value))) == Some(entry)
  {
    PayloadRoundTrip(entry.value);
    assert PropertyNode(entry.key, entry.value).content == [Sub(Payload(entry.value))];
  }

  /** Every well-formed carrier without reserved keys comes back from its node, in order and exactly. */
  lemma {:induction false} RoundTrip(v: Value)
    requires WellFormed(v) && Clean(v)
    ensures FromNode(Build(v)) == Some(v)
    decreases v
  {
    var content := Build(v).content;
    match v
    case Arr(items) =>
      forall i: nat | i < |items| ensures FromElement(content[i], i) == Some(items[i]) {
        RoundTrip(items[i]);
        assert content[i] == Sub(ItemNode(i, items[i]));
        assert FromItem(ItemNode(i, items[i]).content[0]) == Some(items[i]);
      }
      assert FromNode(Build(v)).value.items == items;
    case Obj(entries) =>
      forall i: nat | i < |entries| ensures FromProperty(content[i]) == Some(entries[i]) {
        RoundTrip(entries[i].value);
        PropertyRoundTrip(entries[i]);
        assert content[i] == Sub(PropertyNode(entries[i].key, entries[i].value));
      }
      assert seq(|content|, (i: nat) requires i < |content| && FromProperty(content[i]).Some? =>
        FromProperty(content[i]).value) == entries;
    case _ =>
  }

  lemma RootRoundTrip(v: Value)
    requires WellFormed(v) && Clean(v)
    ensures ToNode(v).Some? && FromNode(ToNode(v).value) == Some(v)
    ensures ToRoot(v).Some? && FromNode(ToRoot(v).value) == Some(v)
  {
    RoundTrip(v);
    assert ToRoot(v).value.content[0].node == Build(v);
  }

  /** Distinct carriers have distinct nodes. */
  lemma BuildInjective(v: Value, w: Value)
    requires WellFormed(v) && Clean(v) && WellFormed(w) && Clean(w)
    requires ToNode(v) == ToNode(w)
    ensures v == w
  {
    RoundTrip(v);
    RoundTrip(w);
  }

  /** Whatever projects is a well-formed carrier without reserved keys. */
  lemma {:induction false} ProjectedIsWellFormed(node: Node)
    requires FromNode(node).Some?
    ensures WellFormed(FromNode(node).value) && Clean(FromNode(node).value)
    decreases node
  {
    var content := node.content;
    if node.tag == RootTag || (node.tag == ObjTag && Transparent(content)) {
      ProjectedIsWellFormed(content[0].node);
    } else if node.tag == ArrTag {
      forall i: nat | i < |content|
        ensures WellFormed(FromElement(content[i], i).value) && Clean(FromElement(content[i], i).value)
      {
        assert FromElement(content[i], i) == FromItem(content[i].node.content[0]);
        ProjectedIsWellFormed(content[i].node.content[0].node);
      }
    } else if node.tag == ObjTag {
      forall i: nat | i < |content|
        ensures var e := FromProperty(content[i]).value; WellFormed(e.value) && Clean(e.value) && !Reserved(e.key)
      {
        assert FromProperty(content[i]).Some?;
        assert FromProperty(content[i]).value.value == FromItem(content[i].node.content[0]).value;
        ProjectedIsWellFormed(content[i].node.content[0].node);
      }
    }
  }
}
