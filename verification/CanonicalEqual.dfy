/** Strict comparison of canonical graphs, on trees: the kind of the first difference, or none. */
module CanonicalEqual {
  import opened Prelude
  import opened OrderedValue
  import opened HsonGraph

  /** Anything a canonical graph may hold. Numbers are finite; other numbers make the comparison throw. */
  datatype Thing =
    | Undef
    | Scalar(primitive: Primitive)
    | List(items: seq<Thing>)
    | Rec(fields: Fields)
    | Elem(tag: Tag, attrs: Fields, meta: Fields, content: seq<Thing>)

  /**
   * The own fields of a record, or of a node's attribute or metadata container. A container that
   * is present with value `undefined` reads as one without fields; a record's own are present.
   */
  datatype Fields = Absent | Present(of: map<string, Thing>)

  datatype Kind =
    | ArrayIndexDifference
    | AttributePresence
    | AttributeValue
    | ContentLength(missing: bool)
    | ContentOrdering
    | FieldPresence
    | MetadataPresence
    | MetadataValue
    | NegativeZeroMismatch
    | NodeNameMismatch
    | QuidDifference
    | RootLeakage
    | ScalarValueMismatch
    | StructuralModeMismatch
    | ValueTypeMismatch
    | VsnMismatch

  datatype Field = AttributeField | MetadataField | RecordField

  // ---------------------------------------------------------------- sorted keys

  /** A character's UTF-16 code units: one, or a surrogate pair above the basic plane. */
  function Units(c: char): seq<nat> {
    var n := c as nat;
    if n < 0x1_0000 then [n] else [0xD800 + (n - 0x1_0000) / 0x400, 0xDC00 + (n - 0x1_0000) % 0x400]
  }

  function Encoded(s: string): seq<nat> {
    if s == [] then [] else Units(s[0]) + Encoded(s[1..])
  }

  /** The first code unit tells a pair from a single unit, which is never a surrogate. */
  lemma UnitsInjective(c: char, d: char, s: seq<nat>, t: seq<nat>)
    requires Units(c) + s == Units(d) + t
    ensures c == d && s == t
  {
    assert (Units(c) + s)[0] == Units(c)[0] && (Units(d) + t)[0] == Units(d)[0];
    if |Units(c)| == 2 && |Units(d)| == 2 {
      assert (Units(c) + s)[1] == Units(c)[1] && (Units(d) + t)[1] == Units(d)[1];
    }
    assert c == d;
    assert (Units(c) + s)[|Units(c)|..] == s && (Units(c) + t)[|Units(c)|..] == t;
  }

  lemma {:induction false} EncodedInjective(a: string, b: string)
    requires Encoded(a) == Encoded(b)
    ensures a == b
  {
    if a != [] && b != [] {
      UnitsInjective(a[0], b[0], Encoded(a[1..]), Encoded(b[1..]));
      EncodedInjective(a[1..], b[1..]);
      assert a == [a[0]] + a[1..] && b == [b[0]] + b[1..];
    }
  }

  /** A pair is a high and a low surrogate, and the two spell the character. */
  lemma PairSpells(c: char)
    requires |Units(c)| == 2
    ensures 0xD800 <= Units(c)[0] < 0xDC00 && 0xDC00 <= Units(c)[1] < 0xE000
    ensures c as nat == 0x1_0000 + (Units(c)[0] - 0xD800) * 0x400 + (Units(c)[1] - 0xDC00)
  {
  }

  predicate UnitsLeq(a: seq<nat>, b: seq<nat>) {
    a == [] || (b != [] && (a[0] < b[0] || (a[0] == b[0] && UnitsLeq(a[1..], b[1..]))))
  }

  lemma {:induction false} UnitsTotal(a: seq<nat>, b: seq<nat>)
    ensures UnitsLeq(a, b) || UnitsLeq(b, a)
    ensures UnitsLeq(a, b) && UnitsLeq(b, a) ==> a == b
  {
    if a != [] && b != [] && a[0] == b[0] {
      UnitsTotal(a[1..], b[1..]);
      assert a == [a[0]] + a[1..] && b == [b[0]] + b[1..];
    }
  }

  lemma {:induction false} UnitsTransitive(a: seq<nat>, b: seq<nat>, c: seq<nat>)
    requires UnitsLeq(a, b) && UnitsLeq(b, c)
    ensures UnitsLeq(a, c)
  {
    if a != [] && a[0] == b[0] == c[0] { UnitsTransitive(a[1..], b[1..], c[1..]); }
  }

  /** The code-unit order of strings. */
  predicate Leq(a: string, b: string) {
    UnitsLeq(Encoded(a), Encoded(b))
  }

  lemma LeqTotal(a: string, b: string)
    ensures Leq(a, b) || Leq(b, a)
    ensures Leq(a, b) && Leq(b, a) ==> a == b
  {
    UnitsTotal(Encoded(a), Encoded(b));
    if Encoded(a) == Encoded(b) { EncodedInjective(a, b); }
  }

  lemma LeqTransitive(a: string, b: string, c: string)
    requires Leq(a, b) && Leq(b, c)
    ensures Leq(a, c)
  {
    UnitsTransitive(Encoded(a), Encoded(b), Encoded(c));
  }

  lemma {:induction false} LeastOf(keys: set<string>) returns (k: string)
    requires keys != {}
    ensures k in keys && forall j | j in keys :: Leq(k, j)
  {
    k :| k in keys;
    LeqTotal(k, k);
    var rest := keys - {k};
    assert forall j | j in keys :: j == k || j in rest;
    if rest != {} {
      var least := LeastOf(rest);
      LeqTotal(k, least);
      if Leq(k, least) {
        forall j | j in rest ensures Leq(k, j) { LeqTransitive(k, least, j); }
      } else {
        k := least;
      }
    }
  }

  lemma LeastExists(keys: set<string>)
    requires keys != {}
    ensures exists k :: k in keys && forall j | j in keys :: Leq(k, j)
  {
    var k := LeastOf(keys);
  }

  lemma Antisymmetric()
    ensures forall a, b | Leq(a, b) && Leq(b, a) :: a == b
  {
    forall a, b | Leq(a, b) && Leq(b, a) ensures a == b { LeqTotal(a, b); }
  }

  function Least(keys: set<string>): (k: string)
    requires keys != {}
    ensures k in keys && forall j | j in keys :: Leq(k, j)
  {
    LeastExists(keys);
    Antisymmetric();
    var k :| k in keys && forall j | j in keys :: Leq(k, j);
    k
  }

  /** The keys in ascending order. */
  function Sorted(keys: set<string>): (r: seq<string>)
    ensures forall k :: k in r <==> k in keys
    ensures forall i, j | 0 <= i < j < |r| :: Leq(r[i], r[j])
  {
    if keys == {} then [] else [Least(keys)] + Sorted(keys - {Least(keys)})
  }

  // ---------------------------------------------------------------- the first difference

  function TypeOf(t: Thing): nat {
    match t
    case Undef => 0
    case Scalar(PBool(_)) => 1
    case Scalar(PNum(_)) => 2
    case Scalar(PStr(_)) => 3
    case _ => 4
  }

  predicate IsNumber(t: Thing) {
    t.Scalar? && t.primitive.PNum?
  }

  predicate IsMinusZero(t: Thing) {
    t == Scalar(PNum(NegativeZero))
  }

  predicate Flat(t: Thing) {
    t.Undef? || t.Scalar?
  }

  function ScalarDifference(l: Thing, r: Thing): Kind {
    if IsNumber(l) && IsNumber(r) && (IsMinusZero(l) || IsMinusZero(r)) then NegativeZeroMismatch
    else if TypeOf(l) != TypeOf(r) || l == Scalar(PNull) || r == Scalar(PNull) then ValueTypeMismatch
    else ScalarValueMismatch
  }

  function TagDifference(l: Tag, r: Tag): Kind {
    if (l == RootTag) != (r == RootTag) then RootLeakage
    else if (l == ObjTag && r == ElemTag) || (l == ElemTag && r == ObjTag) then StructuralModeMismatch
    else if StartsWithSystemPrefix(l) || StartsWithSystemPrefix(r) then VsnMismatch
    else NodeNameMismatch
  }

  function PresenceKind(field: Field): Kind {
    match field
    case AttributeField => AttributePresence
    case MetadataField => MetadataPresence
    case RecordField => FieldPresence
  }

  /** How a difference inside a named field is reported. */
  function FieldKind(field: Field, key: string, found: Kind): Kind {
    match field
    case AttributeField => AttributeValue
    case MetadataField =>
      if key == QUID_KEY then QuidDifference else if key == INDEX_KEY then ArrayIndexDifference else MetadataValue
    case RecordField => found
  }

  /** The kind of the first difference between two values; `ordering` asks for the ordering diagnosis. */
  function Difference(l: Thing, r: Thing, ordering: bool): Option<Kind>
    decreases l
  {
    if Flat(l) || Flat(r) then
      if l == r then None else Some(ScalarDifference(l, r))
    else match (l, r)
      case (List(a), List(b)) => ArrayDifference(a, b, ordering)
      case (Rec(a), Rec(b)) => FieldsDifference(a, b, RecordField, ordering)
      case (Elem(_, _, _, _), Elem(_, _, _, _)) =>
        if l.tag != r.tag then Some(TagDifference(l.tag, r.tag))
        else
          var attrs := FieldsDifference(l.attrs, r.attrs, AttributeField, ordering);
          var meta := FieldsDifference(l.meta, r.meta, MetadataField, ordering);
          if attrs.Some? then attrs else if meta.Some? then meta
          else ArrayDifference(l.content, r.content, ordering)
      case _ => Some(ValueTypeMismatch)
  }

  function FieldsDifference(l: Fields, r: Fields, field: Field, ordering: bool): Option<Kind>
    decreases l
  {
    match (l, r)
    case (Absent, Absent) => None
    case (Present(a), Present(b)) => FirstField(l, r, Sorted(a.Keys + b.Keys), field, ordering)
    case _ => Some(PresenceKind(field))
  }

  /** One side or the other holds each of these keys. */
  predicate Held(l: Fields, r: Fields, keys: seq<string>)
    requires l.Present? && r.Present?
  {
    forall k | k in keys :: k in l.of || k in r.of
  }

  /** The first of these keys with a difference decides. */
  function FirstField(l: Fields, r: Fields, keys: seq<string>, field: Field, ordering: bool): Option<Kind>
    requires l.Present? && r.Present? && Held(l, r, keys)
    decreases l, |keys|
  {
    if keys == [] then None
    else
      var key := keys[0];
      if (key in l.of) != (key in r.of) then Some(PresenceKind(field))
      else match Difference(l.of[key], r.of[key], ordering)
        case Some(found) => Some(FieldKind(field, key, found))
        case None => FirstField(l, r, keys[1..], field, ordering)
  }

  /** Arrays of one length that hold the same values in another order are told apart from other differences. */
  function ArrayDifference(l: seq<Thing>, r: seq<Thing>, ordering: bool): Option<Kind>
    decreases l, 1
  {
    if |l| != |r| then Some(ContentLength(|l| < |r|))
    else if ordering && l != r && multiset(l) == multiset(r) then Some(ContentOrdering)
    else FirstItem(l, r, ordering)
  }

  function FirstItem(l: seq<Thing>, r: seq<Thing>, ordering: bool): Option<Kind>
    requires |l| == |r|
    decreases l, 0
  {
    if l == [] then None
    else match Difference(l[0], r[0], ordering)
      case Some(found) => Some(found)
      case None => FirstItem(l[1..], r[1..], ordering)
  }

  // ---------------------------------------------------------------- no difference means equality

  /** No difference is reported iff the trees are equal, attributes and metadata as maps. */
  lemma {:induction false} NoDifferenceIffEqual(l: Thing, r: Thing, ordering: bool)
    ensures Difference(l, r, ordering).None? <==> l == r
    decreases l
  {
    match (l, r)
    case (List(a), List(b)) => ArrayNoneIff(a, b, ordering);
    case (Rec(a), Rec(b)) => FieldsNoneIff(a, b, RecordField, ordering);
    case (Elem(tag, attrs, meta, content), Elem(tag', attrs', meta', content')) =>
      FieldsNoneIff(attrs, attrs', AttributeField, ordering);
      FieldsNoneIff(meta, meta', MetadataField, ordering);
      ArrayNoneIff(content, content', ordering);
    case (Undef, _) =>
    case (Scalar(_), _) =>
    case (_, Undef) =>
    case (_, Scalar(_)) =>
    case _ =>
  }

  lemma {:induction false} ArrayNoneIff(l: seq<Thing>, r: seq<Thing>, ordering: bool)
    ensures ArrayDifference(l, r, ordering).None? <==> l == r
    decreases l, 1
  {
    if |l| == |r| { ItemsNoneIff(l, r, ordering); }
  }

  lemma {:induction false} ItemsNoneIff(l: seq<Thing>, r: seq<Thing>, ordering: bool)
    requires |l| == |r|
    ensures FirstItem(l, r, ordering).None? <==> l == r
    decreases l, 0
  {
    if l != [] {
      NoDifferenceIffEqual(l[0], r[0], ordering);
      ItemsNoneIff(l[1..], r[1..], ordering);
      assert l == [l[0]] + l[1..] && r == [r[0]] + r[1..];
    }
  }

  lemma {:induction false} FieldsNoneIff(l: Fields, r: Fields, field: Field, ordering: bool)
    ensures FieldsDifference(l, r, field, ordering).None? <==> l == r
    decreases l
  {
    if l.Present? && r.Present? {
      var keys := Sorted(l.of.Keys + r.of.Keys);
      FirstFieldNoneIff(l, r, keys, field, ordering);
      if forall k | k in keys :: k in l.of && k in r.of && l.of[k] == r.of[k] {
        assert forall k | k in l.of || k in r.of :: k in keys;
        assert l.of == r.of;
      }
    }
  }

  lemma {:induction false} FirstFieldNoneIff(l: Fields, r: Fields, keys: seq<string>, field: Field, ordering: bool)
    requires l.Present? && r.Present? && Held(l, r, keys)
    ensures FirstField(l, r, keys, field, ordering).None? <==>
              forall k | k in keys :: k in l.of && k in r.of && l.of[k] == r.of[k]
    decreases l, |keys|
  {
    if keys != [] {
      var key := keys[0];
      if key in l.of && key in r.of {
        NoDifferenceIffEqual(l.of[key], r.of[key], ordering);
        FirstFieldNoneIff(l, r, keys[1..], field, ordering);
        assert keys == [key] + keys[1..];
      }
    }
  }

  // ---------------------------------------------------------------- what a report means

  /** Which operand lacks nodes is the only thing that depends on their order. */
  function Flip(found: Option<Kind>): Option<Kind> {
    match found
    case Some(ContentLength(missing)) => Some(ContentLength(!missing))
    case _ => found
  }

  /** Comparing the operands the other way round reports the same kind of difference. */
  lemma {:induction false} DifferenceFlips(l: Thing, r: Thing, ordering: bool)
    ensures Difference(r, l, ordering) == Flip(Difference(l, r, ordering))
    decreases l
  {
    match (l, r)
    case (List(a), List(b)) => ArrayFlips(a, b, ordering);
    case (Rec(a), Rec(b)) => FieldsFlip(a, b, RecordField, ordering);
    case (Elem(_, _, _, _), Elem(_, _, _, _)) =>
      FieldsFlip(l.attrs, r.attrs, AttributeField, ordering);
      FieldsFlip(l.meta, r.meta, MetadataField, ordering);
      ArrayFlips(l.content, r.content, ordering);
    case _ =>
  }

  lemma {:induction false} ArrayFlips(l: seq<Thing>, r: seq<Thing>, ordering: bool)
    ensures ArrayDifference(r, l, ordering) == Flip(ArrayDifference(l, r, ordering))
    decreases l, 1
  {
    if |l| == |r| { ItemsFlip(l, r, ordering); }
  }

  lemma {:induction false} ItemsFlip(l: seq<Thing>, r: seq<Thing>, ordering: bool)
    requires |l| == |r|
    ensures FirstItem(r, l, ordering) == Flip(FirstItem(l, r, ordering))
    decreases l, 0
  {
    if l != [] {
      DifferenceFlips(l[0], r[0], ordering);
      ItemsFlip(l[1..], r[1..], ordering);
    }
  }

  lemma {:induction false} FieldsFlip(l: Fields, r: Fields, field: Field, ordering: bool)
    ensures FieldsDifference(r, l, field, ordering) == Flip(FieldsDifference(l, r, field, ordering))
    decreases l
  {
    if l.Present? && r.Present? {
      assert l.of.Keys + r.of.Keys == r.of.Keys + l.of.Keys;
      FirstFieldFlips(l, r, Sorted(l.of.Keys + r.of.Keys), field, ordering);
    }
  }

  lemma {:induction false} FirstFieldFlips(l: Fields, r: Fields, keys: seq<string>, field: Field, ordering: bool)
    requires l.Present? && r.Present? && Held(l, r, keys)
    ensures FirstField(r, l, keys, field, ordering) == Flip(FirstField(l, r, keys, field, ordering))
    decreases l, |keys|
  {
    if keys != [] {
      var key := keys[0];
      if key in l.of && key in r.of {
        DifferenceFlips(l.of[key], r.of[key], ordering);
        FirstFieldFlips(l, r, keys[1..], field, ordering);
      }
    }
  }

  /** The report of an array is that of its first pair of unequal items. */
  lemma {:induction false} FirstItemIsFirst(l: seq<Thing>, r: seq<Thing>, ordering: bool, i: nat)
    requires |l| == |r| && i < |l| && l[..i] == r[..i] && l[i] != r[i]
    ensures FirstItem(l, r, ordering) == Difference(l[i], r[i], ordering)
    decreases l
  {
    NoDifferenceIffEqual(l[0], r[0], ordering);
    if i > 0 {
      assert l[0] == l[..i][0] == r[..i][0] == r[0];
      assert l[1..][..i - 1] == l[..i][1..] == r[..i][1..] == r[1..][..i - 1];
      FirstItemIsFirst(l[1..], r[1..], ordering, i - 1);
    }
  }

  /**
   * Ordering is what two arrays differ in iff they have one length, are unequal, and are either
   * permutations of each other or else equal up to two items that differ in ordering.
   */
  lemma OrderingReportedIff(l: seq<Thing>, r: seq<Thing>)
    ensures ArrayDifference(l, r, true) == Some(ContentOrdering) <==>
              && |l| == |r| && l != r
              && (|| multiset(l) == multiset(r)
                  || exists i: nat :: i < |l| && l[..i] == r[..i] && Difference(l[i], r[i], true) == Some(ContentOrdering))
  {
    ArrayNoneIff(l, r, true);
    if |l| == |r| && l != r {
      var i := FirstUnequal(l, r);
      FirstItemIsFirst(l, r, true, i);
      if j: nat :| j < |l| && l[..j] == r[..j] && Difference(l[j], r[j], true) == Some(ContentOrdering) {
        NoDifferenceIffEqual(l[j], r[j], true);
        FirstItemIsFirst(l, r, true, j);
      }
    }
  }

  lemma {:induction false} FirstUnequal(l: seq<Thing>, r: seq<Thing>) returns (i: nat)
    requires |l| == |r| && l != r
    ensures i < |l| && l[..i] == r[..i] && l[i] != r[i]
  {
    if l[0] != r[0] {
      i := 0;
    } else {
      assert l == [l[0]] + l[1..] && r == [r[0]] + r[1..];
      i := FirstUnequal(l[1..], r[1..]);
      assert l[..i + 1] == [l[0]] + l[1..][..i] && r[..i + 1] == [r[0]] + r[1..][..i];
      i := i + 1;
    }
  }

  // ---------------------------------------------------------------- what one change reports

  /** The first key in order whose fields differ decides: it is missing on one side, or its values differ. */
  lemma {:induction false} FirstKeyReports(l: Fields, r: Fields, keys: seq<string>, field: Field, ordering: bool, key: string)
    requires l.Present? && r.Present? && Held(l, r, keys) && key in keys
    requires forall i, j | 0 <= i < j < |keys| :: Leq(keys[i], keys[j])
    requires forall k | k in keys && k != key && Leq(k, key) :: k in l.of && k in r.of && l.of[k] == r.of[k]
    requires key in l.of && key in r.of ==> l.of[key] != r.of[key]
    ensures (key in l.of) != (key in r.of) ==> FirstField(l, r, keys, field, ordering) == Some(PresenceKind(field))
    ensures key in l.of && key in r.of ==>
              var found := Difference(l.of[key], r.of[key], ordering);
              found.Some? && FirstField(l, r, keys, field, ordering) == Some(FieldKind(field, key, found.value))
    decreases |keys|
  {
    if key in l.of && key in r.of { NoDifferenceIffEqual(l.of[key], r.of[key], ordering); }
    if keys[0] != key {
      assert Leq(keys[0], key);
      NoDifferenceIffEqual(l.of[keys[0]], r.of[keys[0]], ordering);
      FirstKeyReports(l, r, keys[1..], field, ordering, key);
    }
  }

  lemma AttributesDecide(l: Thing, attrs: Fields, ordering: bool)
    requires l.Elem? && FieldsDifference(l.attrs, attrs, AttributeField, ordering).Some?
    ensures Difference(l, l.(attrs := attrs), ordering) == FieldsDifference(l.attrs, attrs, AttributeField, ordering)
  {
  }

  lemma MetadataDecides(l: Thing, meta: Fields, ordering: bool)
    requires l.Elem? && FieldsDifference(l.meta, meta, MetadataField, ordering).Some?
    ensures Difference(l, l.(meta := meta), ordering) == FieldsDifference(l.meta, meta, MetadataField, ordering)
  {
    FieldsNoneIff(l.attrs, l.attrs, AttributeField, ordering);
  }

  /** The same node with one attribute changed or taken away reports that attribute, whatever its values are. */
  lemma AttributeReports(l: Thing, key: string, value: Thing, ordering: bool)
    requires l.Elem? && l.attrs.Present? && key in l.attrs.of && value != l.attrs.of[key]
    ensures Difference(l, l.(attrs := Present(l.attrs.of[key := value])), ordering) == Some(AttributeValue)
    ensures Difference(l, l.(attrs := Present(l.attrs.of - {key})), ordering) == Some(AttributePresence)
  {
    FieldReports(l.attrs, key, value, AttributeField, ordering);
    AttributesDecide(l, Present(l.attrs.of[key := value]), ordering);
    AttributesDecide(l, Present(l.attrs.of - {key}), ordering);
  }

  /** So does a node with one metadata field changed: identities, indexes and others each by their own kind. */
  lemma MetadataReports(l: Thing, key: string, value: Thing, ordering: bool)
    requires l.Elem? && l.meta.Present? && key in l.meta.of && value != l.meta.of[key]
    ensures Difference(l, l.(meta := Present(l.meta.of[key := value])), ordering) ==
            Some(if key == "quid" then QuidDifference else if key == "index" then ArrayIndexDifference else MetadataValue)
    ensures Difference(l, l.(meta := Present(l.meta.of - {key})), ordering) == Some(MetadataPresence)
  {
    FieldReports(l.meta, key, value, MetadataField, ordering);
    MetadataDecides(l, Present(l.meta.of[key := value]), ordering);
    MetadataDecides(l, Present(l.meta.of - {key}), ordering);
  }

  /** A record with one field changed reports what differs inside it, and a missing field as missing. */
  lemma RecordReports(l: Fields, key: string, value: Thing, ordering: bool)
    requires l.Present? && key in l.of && value != l.of[key]
    ensures Difference(Rec(l), Rec(Present(l.of[key := value])), ordering) == Difference(l.of[key], value, ordering)
    ensures Difference(Rec(l), Rec(Present(l.of - {key})), ordering) == Some(FieldPresence)
  {
    FieldReports(l, key, value, RecordField, ordering);
    RecordIsFields(l, Present(l.of[key := value]), ordering);
    RecordIsFields(l, Present(l.of - {key}), ordering);
  }

  lemma RecordIsFields(l: Fields, r: Fields, ordering: bool)
    ensures Difference(Rec(l), Rec(r), ordering) == FieldsDifference(l, r, RecordField, ordering)
  {
  }

  lemma FieldReports(l: Fields, key: string, value: Thing, field: Field, ordering: bool)
    requires l.Present? && key in l.of && value != l.of[key]
    ensures var found := Difference(l.of[key], value, ordering);
            found.Some? && FieldsDifference(l, Present(l.of[key := value]), field, ordering) == Some(FieldKind(field, key, found.value))
    ensures FieldsDifference(l, Present(l.of - {key}), field, ordering) == Some(PresenceKind(field))
  {
    var changed, missing := Present(l.of[key := value]), Present(l.of - {key});
    NoDifferenceIffEqual(l.of[key], value, ordering);
    assert l.of.Keys + changed.of.Keys == l.of.Keys && l.of.Keys + missing.of.Keys == l.of.Keys;
    var keys := Sorted(l.of.Keys);
    assert key in keys;
    FirstKeyReports(l, changed, keys, field, ordering, key);
    FirstKeyReports(l, missing, keys, field, ordering, key);
  }

  /** Another tag is reported before anything else, by what the two tags are. */
  lemma TagReports(l: Thing, r: Thing, ordering: bool)
    requires l.Elem? && r.Elem? && l.tag != r.tag
    ensures var found := Difference(l, r, ordering);
            && (found == Some(RootLeakage) <==> l.tag == RootTag || r.tag == RootTag)
            && (found == Some(StructuralModeMismatch) <==> {l.tag, r.tag} == {ObjTag, ElemTag})
            && (found == Some(NodeNameMismatch) <==> !StartsWithSystemPrefix(l.tag) && !StartsWithSystemPrefix(r.tag))
            && found in {Some(RootLeakage), Some(StructuralModeMismatch), Some(VsnMismatch), Some(NodeNameMismatch)}
  {
    assert {l.tag, r.tag} == {ObjTag, ElemTag} <==>
           (l.tag == ObjTag && r.tag == ElemTag) || (l.tag == ElemTag && r.tag == ObjTag) by {
      assert l.tag in {l.tag, r.tag} && r.tag in {l.tag, r.tag};
      if {l.tag, r.tag} == {ObjTag, ElemTag} { assert ObjTag in {l.tag, r.tag} && ElemTag in {l.tag, r.tag}; }
    }
  }

  /** A container only one node has is reported as missing. */
  lemma ContainerReports(l: Thing, ordering: bool)
    requires l.Elem?
    ensures l.attrs.Present? ==> Difference(l, l.(attrs := Absent), ordering) == Some(AttributePresence)
    ensures l.meta.Present? ==> Difference(l, l.(meta := Absent), ordering) == Some(MetadataPresence)
  {
    FieldsNoneIff(l.attrs, l.attrs, AttributeField, ordering);
  }

  /** Things of different shapes do not compare. */
  lemma ShapesReport(l: Thing, r: Thing, ordering: bool)
    requires (l.Undef? != r.Undef?) || (l.Scalar? != r.Scalar?) || (l.List? != r.List?) || (l.Rec? != r.Rec?)
    ensures Difference(l, r, ordering) == Some(ValueTypeMismatch)
  {
  }

  /** A node with more content reports which side lacks some. */
  lemma ContentReports(l: Thing, extra: seq<Thing>, ordering: bool)
    requires l.Elem? && extra != []
    ensures Difference(l, l.(content := l.content + extra), ordering) == Some(ContentLength(true))
    ensures Difference(l.(content := l.content + extra), l, ordering) == Some(ContentLength(false))
  {
    FieldsNoneIff(l.attrs, l.attrs, AttributeField, ordering);
    FieldsNoneIff(l.meta, l.meta, MetadataField, ordering);
  }

  /** Unequal primitives: -0 beside any number is told apart, other values of one kind differ, kinds do not match. */
  lemma ScalarReports(a: Primitive, b: Primitive, ordering: bool)
    requires a != b
    ensures var found := Difference(Scalar(a), Scalar(b), ordering);
            && (found == Some(NegativeZeroMismatch) <==>
                  a.PNum? && b.PNum? && (a.number.NegativeZero? || b.number.NegativeZero?))
            && (found == Some(ScalarValueMismatch) <==>
                  || (a.PNum? && b.PNum? && a.number.Finite? && b.number.Finite?)
                  || (a.PStr? && b.PStr?) || (a.PBool? && b.PBool?))
            && (found == Some(ValueTypeMismatch) <==>
                  !((a.PNum? && b.PNum?) || (a.PStr? && b.PStr?) || (a.PBool? && b.PBool?)))
  {
  }

  // ---------------------------------------------------------------- the greedy matcher

  /** The values at positions not consumed yet. */
  function Rest(s: seq<Thing>, consumed: set<nat>): seq<Thing> {
    if s == [] then []
    else
      var last := |s| - 1;
      Rest(s[..last], consumed) + if last in consumed then [] else [s[last]]
  }

  lemma {:induction false} RestOfNone(s: seq<Thing>)
    ensures Rest(s, {}) == s
  {
    if s != [] { RestOfNone(s[..|s| - 1]); }
  }

  lemma {:induction false} RestUntouched(s: seq<Thing>, consumed: set<nat>, j: nat)
    requires |s| <= j
    ensures Rest(s, consumed + {j}) == Rest(s, consumed)
  {
    if s != [] { RestUntouched(s[..|s| - 1], consumed, j); }
  }

  /** Consuming a position takes exactly its value away. */
  lemma {:induction false} RestConsumes(s: seq<Thing>, consumed: set<nat>, j: nat)
    requires j < |s| && j !in consumed
    ensures multiset(Rest(s, consumed)) == multiset(Rest(s, consumed + {j})) + multiset{s[j]}
  {
    var last := |s| - 1;
    if j == last {
      RestUntouched(s[..last], consumed, j);
    } else {
      RestConsumes(s[..last], consumed, j);
    }
  }

  lemma {:induction false} RestHolds(s: seq<Thing>, consumed: set<nat>, v: Thing)
    requires forall j: nat | j < |s| && j !in consumed :: s[j] != v
    ensures v !in Rest(s, consumed)
  {
    if s != [] {
      RestHolds(s[..|s| - 1], consumed, v);
    }
  }

  method ValuesEqual(l: Thing, r: Thing) returns (equal: bool)
    ensures equal <==> l == r
    decreases l, 1
  {
    var found := CompareValue(l, r, false);
    NoDifferenceIffEqual(l, r, false);
    equal := found.None?;
  }

  /** One left value takes the first equal right value not consumed yet. */
  method Match(v: Thing, right: seq<Thing>, consumed: set<nat>) returns (index: Option<nat>)
    ensures index.Some? ==> index.value < |right| && index.value !in consumed && right[index.value] == v
    ensures index.None? ==> forall j: nat | j < |right| && j !in consumed :: right[j] != v
    decreases v, 2
  {
    for j := 0 to |right|
      invariant forall k: nat | k < j && k !in consumed :: right[k] != v
    {
      if j in consumed { continue; }
      var equal := ValuesEqual(v, right[j]);
      if equal { return Some(j); }
    }
    index := None;
  }

  /** The first n left values and what is left of the right side make up the right side. */
  ghost predicate Matched(left: seq<Thing>, n: nat, right: seq<Thing>, consumed: set<nat>) {
    n <= |left| && multiset(right) == multiset(left[..n]) + multiset(Rest(right, consumed))
  }

  lemma MatchStart(left: seq<Thing>, right: seq<Thing>)
    ensures Matched(left, 0, right, {})
  {
    RestOfNone(right);
  }

  lemma MatchStep(left: seq<Thing>, n: nat, right: seq<Thing>, consumed: set<nat>, j: nat)
    requires n < |left| && Matched(left, n, right, consumed)
    requires j < |right| && j !in consumed && right[j] == left[n]
    ensures Matched(left, n + 1, right, consumed + {j})
  {
    assert left[..n + 1] == left[..n] + [left[n]];
    RestConsumes(right, consumed, j);
  }

  lemma CountsMore(s: seq<Thing>, n: nat)
    requires n < |s|
    ensures multiset(s)[s[n]] > multiset(s[..n])[s[n]]
  {
    assert s == s[..n] + s[n..];
    assert multiset(s) == multiset(s[..n]) + multiset(s[n..]);
    assert s[n] in s[n..];
  }

  lemma MatchFails(left: seq<Thing>, n: nat, right: seq<Thing>, consumed: set<nat>)
    requires n < |left| && Matched(left, n, right, consumed)
    requires forall j: nat | j < |right| && j !in consumed :: right[j] != left[n]
    ensures multiset(left) != multiset(right)
  {
    RestHolds(right, consumed, left[n]);
    CountsMore(left, n);
    assert multiset(right)[left[n]] == multiset(left[..n])[left[n]];
  }

  lemma MatchedAll(left: seq<Thing>, right: seq<Thing>, consumed: set<nat>)
    requires Matched(left, |left|, right, consumed) && |left| == |right|
    ensures multiset(left) == multiset(right)
  {
    assert left[..|left|] == left;
    assert |multiset(right)| == |multiset(left)| + |multiset(Rest(right, consumed))|;
    assert Rest(right, consumed) == [];
  }

  /** The greedy matcher decides whether two arrays of one length are permutations of each other. */
  method ArraysArePermutations(left: seq<Thing>, right: seq<Thing>) returns (permuted: bool)
    requires |left| == |right|
    ensures permuted <==> multiset(left) == multiset(right)
    decreases left, 2
  {
    var consumed: set<nat> := {};
    MatchStart(left, right);
    for n := 0 to |left|
      invariant Matched(left, n, right, consumed)
    {
      var index := Match(left[n], right, consumed);
      if index.None? {
        MatchFails(left, n, right, consumed);
        permuted := false;
        return;
      }
      MatchStep(left, n, right, consumed, index.value);
      consumed := consumed + {index.value};
    }
    MatchedAll(left, right, consumed);
    permuted := true;
  }

  // ---------------------------------------------------------------- the comparison as it runs

  method CompareArray(left: seq<Thing>, right: seq<Thing>, ordering: bool) returns (found: Option<Kind>)
    ensures found == ArrayDifference(left, right, ordering)
    decreases left, 3
  {
    if |left| != |right| { return Some(ContentLength(|left| < |right|)); }
    if ordering {
      var same := true;
      for i := 0 to |left|
        invariant same <==> left[..i] == right[..i]
      {
        assert left[..i + 1] == left[..i] + [left[i]] && right[..i + 1] == right[..i] + [right[i]];
        if same { same := ValuesEqual(left[i], right[i]); }
      }
      assert left[..|left|] == left && right[..|right|] == right;
      if !same {
        var permuted := ArraysArePermutations(left, right);
        if permuted { return Some(ContentOrdering); }
      }
    }
    assert left[0..] == left && right[0..] == right;
    for i := 0 to |left|
      invariant FirstItem(left, right, ordering) == FirstItem(left[i..], right[i..], ordering)
    {
      found := CompareValue(left[i], right[i], ordering);
      assert left[i..][1..] == left[i + 1..] && right[i..][1..] == right[i + 1..];
      if found.Some? { return found; }
    }
    found := None;
  }

  method CompareNamedRecord(left: Fields, right: Fields, ordering: bool, field: Field) returns (found: Option<Kind>)
    requires left.Present? && right.Present?
    ensures found == FieldsDifference(left, right, field, ordering)
    decreases left, 0
  {
    var keys := Sorted(left.of.Keys + right.of.Keys);
    ghost var rest := keys;
    for i := 0 to |keys|
      invariant rest == keys[i..] && Held(left, right, rest)
      invariant FieldsDifference(left, right, field, ordering) == FirstField(left, right, rest, field, ordering)
    {
      var key := keys[i];
      assert key == rest[0] && keys[i..][1..] == keys[i + 1..];
      rest := rest[1..];
      if (key in left.of) != (key in right.of) { return Some(PresenceKind(field)); }
      found := CompareValue(left.of[key], right.of[key], ordering);
      if found.Some? { return Some(FieldKind(field, key, found.value)); }
    }
    found := None;
  }

  method CompareNode(left: Thing, right: Thing, ordering: bool) returns (found: Option<Kind>)
    requires left.Elem? && right.Elem?
    ensures found == Difference(left, right, ordering)
    decreases left, -1
  {
    if left.tag != right.tag { return Some(TagDifference(left.tag, right.tag)); }
    if left.attrs.Present? != right.attrs.Present? { return Some(AttributePresence); }
    if left.attrs.Present? {
      found := CompareNamedRecord(left.attrs, right.attrs, ordering, AttributeField);
      if found.Some? { return found; }
    }
    if left.meta.Present? != right.meta.Present? { return Some(MetadataPresence); }
    if left.meta.Present? {
      found := CompareNamedRecord(left.meta, right.meta, ordering, MetadataField);
      if found.Some? { return found; }
    }
    found := CompareArray(left.content, right.content, ordering);
  }

  method CompareValue(left: Thing, right: Thing, ordering: bool) returns (found: Option<Kind>)
    ensures found == Difference(left, right, ordering)
    decreases left, 0
  {
    if Flat(left) || Flat(right) {
      return if left == right then None else Some(ScalarDifference(left, right));
    }
    match (left, right) {
      case (List(a), List(b)) => found := CompareArray(a, b, ordering);
      case (Rec(a), Rec(b)) =>
        if a.Absent? || b.Absent? {
          return if a == b then None else Some(FieldPresence);
        }
        found := CompareNamedRecord(a, b, ordering, RecordField);
      case (Elem(_, _, _, _), Elem(_, _, _, _)) => found := CompareNode(left, right, ordering);
      case _ => found := Some(ValueTypeMismatch);
    }
  }

  method GraphDifference(left: Thing, right: Thing) returns (found: Option<Kind>)
    ensures found == Difference(left, right, true)
    ensures found.None? <==> left == right
  {
    found := CompareValue(left, right, true);
    NoDifferenceIffEqual(left, right, true);
  }
}
