/**
 * The immutable carrier for one projected JSON-like value: property order is data,
 * object keys are unique, and 0 and -0 are different numbers.
 */
module OrderedValue {
  import opened Prelude

  /**
   * A finite number, named by the spelling JavaScript's String gives it. That spelling
   * determines a finite number, except that -0 is spelled like 0 and is kept apart.
   */
  datatype Number = NegativeZero | Finite(text: string)

  datatype Value =
    | Null
    | Bool(flag: bool)
    | Num(number: Number)
    | Str(text: string)
    | Arr(items: seq<Value>)
    | Obj(entries: seq<Entry>)

  datatype Entry = Entry(key: string, value: Value)

  predicate UniqueKeys(entries: seq<Entry>) {
    forall i, j | 0 <= i < j < |entries| :: entries[i].key != entries[j].key
  }

  /** What the carrier constructors admit: unique keys in every object, at every depth. */
  predicate WellFormed(v: Value) {
    match v
    case Arr(items) => forall i | 0 <= i < |items| :: WellFormed(items[i])
    case Obj(entries) => UniqueKeys(entries) && forall i | 0 <= i < |entries| :: WellFormed(entries[i].value)
    case _ => true
  }

  /** Exact ordered structural comparison, entry by entry and item by item. */
  predicate Same(left: Value, right: Value) {
    match (left, right)
    case (Arr(a), Arr(b)) => |a| == |b| && forall i | 0 <= i < |a| :: Same(a[i], b[i])
    case (Obj(a), Obj(b)) =>
      |a| == |b| && forall i | 0 <= i < |a| :: a[i].key == b[i].key && Same(a[i].value, b[i].value)
    case (Arr(_), _) => false
    case (_, Arr(_)) => false
    case (Obj(_), _) => false
    case (_, Obj(_)) => false
    case _ => left == right
  }

  /** The structural comparison decides identity of carriers, so it is an equivalence. */
  lemma {:induction false} SameIsIdentity(left: Value, right: Value)
    ensures Same(left, right) <==> left == right
  {
    match (left, right)
    case (Arr(a), Arr(b)) =>
      if |a| == |b| {
        forall i | 0 <= i < |a| ensures Same(a[i], b[i]) <==> a[i] == b[i] {
          SameIsIdentity(a[i], b[i]);
        }
      }
    case (Obj(a), Obj(b)) =>
      if |a| == |b| {
        forall i | 0 <= i < |a| ensures Same(a[i].value, b[i].value) <==> a[i].value == b[i].value {
          SameIsIdentity(a[i].value, b[i].value);
        }
      }
    case _ =>
  }

  /** Position of the first entry with this key. */
  function FindKey(entries: seq<Entry>, key: string): (r: Option<nat>)
    ensures r.Some? ==> r.value < |entries| && entries[r.value].key == key
    ensures r.Some? ==> forall j | 0 <= j < r.value :: entries[j].key != key
    ensures r.None? ==> forall j | 0 <= j < |entries| :: entries[j].key != key
  {
    if entries == [] then None
    else if entries[0].key == key then Some(0)
    else match FindKey(entries[1..], key)
      case None => None
      case Some(i) => Some(i + 1)
  }
}
