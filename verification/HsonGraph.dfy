/** HSON nodes as finite trees, their structural tags, and decimal index spellings. */
module HsonGraph {
  import opened OrderedValue

  datatype Primitive = PNull | PBool(flag: bool) | PNum(number: Number) | PStr(text: string)

  /** The seven structural tags, and every other tag by its spelling. */
  datatype Tag = StrTag | ValTag | RootTag | ItemTag | ObjTag | ArrTag | ElemTag | Ordinary(name: string)

  /** An optional node container: absent, present as `undefined` or `[]`, or a plain record. */
  datatype Container<T> = Missing | Undefined | EmptyArray | Record(fields: map<string, T>)

  /** Attribute values by what admission does with them; a style record is a map of declarations. */
  datatype AttrValue =
    | AText(text: string)
    | AScalar(scalar: Primitive)
    | AStyle(style: map<string, string>)
    | AUndefined
    | AMalformed

  datatype MetaValue = MText(text: string) | MOther

  datatype Node = Node(tag: Tag, content: seq<Item>, attrs: Container<AttrValue>, meta: Container<MetaValue>)

  datatype Item = Prim(primitive: Primitive) | Sub(node: Node)

  const SYSTEM_PREFIX := "_hson_"
  const INDEX_KEY := "index"
  const QUID_KEY := "quid"

  predicate Reserved(name: string) {
    SYSTEM_PREFIX <= name
  }

  /** The tag a spelling names. */
  function TagOf(name: string): Tag {
    if name == "_hson_str" then StrTag
    else if name == "_hson_val" then ValTag
    else if name == "_hson_root" then RootTag
    else if name == "_hson_ii" then ItemTag
    else if name == "_hson_obj" then ObjTag
    else if name == "_hson_arr" then ArrTag
    else if name == "_hson_elem" then ElemTag
    else Ordinary(name)
  }

  lemma TagOfUnreserved(name: string)
    requires !Reserved(name)
    ensures TagOf(name) == Ordinary(name)
  {
  }

  predicate IsVsn(tag: Tag) {
    !tag.Ordinary?
  }

  predicate StartsWithSystemPrefix(tag: Tag) {
    tag.Ordinary? ==> Reserved(tag.name)
  }

  /** Metadata of the retired node shape, which the node guard refuses. */
  predicate OldShaped(node: Node) {
    node.meta.Record? && ("attrs" in node.meta.fields || "flags" in node.meta.fields)
  }

  predicate IsNode(item: Item) {
    item.Sub? && !OldShaped(item.node)
  }

  predicate IsNodeTagged(item: Item, tag: Tag) {
    IsNode(item) && item.node.tag == tag
  }

  /** A node with neither attributes nor metadata. */
  function Plain(tag: Tag, content: seq<Item>): Node {
    Node(tag, content, Missing, Missing)
  }

  // ---------------------------------------------------------------- structural modes

  datatype Structure =
    | EmptyElement
    | LegacyEmptyElementWrapper
    | Element
    | Object
    | ObjectScalar
    | Array
    | InvalidStructure

  /** The relationship one ordinary node retains, judged without looking below its wrapper. */
  function Classify(node: Node): Structure {
    if IsVsn(node.tag) then InvalidStructure
    else if node.content == [] then EmptyElement
    else if |node.content| != 1 || !IsNode(node.content[0]) then InvalidStructure
    else
      var cluster := node.content[0].node;
      match cluster.tag
      case StrTag => ObjectScalar
      case ValTag => ObjectScalar
      case ElemTag => if cluster.content == [] then LegacyEmptyElementWrapper else Element
      case ObjTag => Object
      case ArrTag => Array
      case _ => InvalidStructure
  }

  // ---------------------------------------------------------------- decimal spellings

  function Decimal(n: nat): (s: string)
    ensures s != []
  {
    var digit := ('0' as int + n % 10) as char;
    if n < 10 then [digit] else Decimal(n / 10) + [digit]
  }

  function Read(s: string): int {
    if s == [] then 0 else Read(s[..|s| - 1]) * 10 + (s[|s| - 1] as int - '0' as int)
  }

  lemma {:induction false} ReadDecimal(n: nat)
    ensures Read(Decimal(n)) == n
  {
    var s := Decimal(n);
    if n >= 10 {
      ReadDecimal(n / 10);
      assert s[..|s| - 1] == Decimal(n / 10);
    } else {
      assert s[..|s| - 1] == [];
    }
  }

  /** Distinct positions have distinct spellings. */
  lemma DecimalInjective(m: nat, n: nat)
    requires Decimal(m) == Decimal(n)
    ensures m == n
  {
    ReadDecimal(m);
    ReadDecimal(n);
  }
}
