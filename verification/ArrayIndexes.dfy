/** Array item wrappers: exact index analysis, and canonical physical order across a tree. */
module ArrayIndexes {
  import opened Prelude
  import opened HsonGraph

  datatype Analysis =
    | Valid(canonical: seq<Item>, reordered: bool)
    | Invalid(reason: Reason)

  datatype Reason = NotAnItem | NoIndexText | NotAnExactIndex | DuplicateIndex | MissingIndex

  predicate IsItem(item: Item) {
    IsNodeTagged(item, ItemTag)
  }

  predicate HasIndex(item: Item) {
    && IsItem(item)
    && item.node.meta.Record?
    && INDEX_KEY in item.node.meta.fields
    && item.node.meta.fields[INDEX_KEY].MText?
  }

  function IndexOf(item: Item): string
    requires HasIndex(item)
  {
    item.node.meta.fields[INDEX_KEY].text
  }

  /** The first position holding an item with this index spelling. */
  function Find(content: seq<Item>, index: string): (r: Option<nat>)
    ensures r.Some? ==> r.value < |content| && HasIndex(content[r.value]) && IndexOf(content[r.value]) == index
    ensures r.None? ==> forall j | 0 <= j < |content| :: HasIndex(content[j]) ==> IndexOf(content[j]) != index
  {
    if content == [] then None
    else if HasIndex(content[0]) && IndexOf(content[0]) == index then Some(0)
    else match Find(content[1..], index)
      case None => None
      case Some(i) => Some(i + 1)
  }

  predicate Arrangeable(content: seq<Item>) {
    && (forall i | 0 <= i < |content| :: HasIndex(content[i]))
    && forall k: nat | k < |content| :: Find(content, Decimal(k)).Some?
  }

  /** The items by index: position k holds the item spelled k. */
  function Arrange(content: seq<Item>): (r: seq<Item>)
    requires Arrangeable(content)
    ensures |r| == |content|
    ensures forall k: nat | k < |r| :: HasIndex(r[k]) && IndexOf(r[k]) == Decimal(k) && r[k] in content
  {
    seq(|content|, (k: nat) requires k < |content| => content[Find(content, Decimal(k)).value])
  }

  function Indexes(content: seq<Item>): (r: seq<string>)
    requires forall i | 0 <= i < |content| :: HasIndex(content[i])
    ensures |r| == |content|
    ensures forall i | 0 <= i < |content| :: r[i] == IndexOf(content[i])
  {
    seq(|content|, i requires 0 <= i < |content| => IndexOf(content[i]))
  }

  function Spellings(n: nat): (r: seq<string>)
    ensures |r| == n
    ensures forall k: nat | k < n :: r[k] == Decimal(k)
  {
    seq(n, (k: nat) => Decimal(k))
  }

  // ---------------------------------------------------------------- pigeonhole

  function Elements<T>(s: seq<T>): set<T> {
    set x | x in s
  }

  function Below(n: nat): (s: set<nat>)
    ensures |s| == n && forall k: nat :: k in s <==> k < n
  {
    if n == 0 then {} else Below(n - 1) + {n - 1}
  }

  predicate Distinct<T(==)>(s: seq<T>) {
    forall i, j | 0 <= i < j < |s| :: s[i] != s[j]
  }

  lemma {:induction false} DistinctCount<T>(s: seq<T>)
    requires Distinct(s)
    ensures |Elements(s)| == |s|
  {
    if s != [] {
      var last := |s| - 1;
      DistinctCount(s[..last]);
      assert s == s[..last] + [s[last]];
      assert Elements(s) == Elements(s[..last]) + {s[last]};
    }
  }

  lemma {:induction false} SubsetCount<T>(a: set<T>, b: set<T>)
    requires a <= b
    ensures |a| <= |b|
  {
    if a != {} {
      var x :| x in a;
      SubsetCount(a - {x}, b - {x});
    }
  }

  /** n distinct positions below n are all of them. */
  lemma Pigeonhole(positions: seq<nat>)
    requires Distinct(positions) && forall i | 0 <= i < |positions| :: positions[i] < |positions|
    ensures forall k: nat | k < |positions| :: k in positions
  {
    DistinctCount(positions);
    var all, below := Elements(positions), Below(|positions|);
    forall k: nat | k < |positions| ensures k in positions {
      if k !in all { SubsetCount(all, below - {k}); }
    }
  }

  // ---------------------------------------------------------------- analysis

  lemma FoundDistinct(content: seq<Item>) returns (found: seq<nat>)
    requires Arrangeable(content)
    ensures |found| == |content| && Distinct(found)
    ensures forall k: nat | k < |content| :: found[k] == Find(content, Decimal(k)).value
    ensures forall i: nat | i < |content| :: i in found
  {
    found := seq(|content|, (k: nat) requires k < |content| => Find(content, Decimal(k)).value);
    forall a: nat, b: nat | a < b < |found| ensures found[a] != found[b] {
      if Decimal(a) == Decimal(b) { DecimalInjective(a, b); }
    }
    Pigeonhole(found);
  }

  /** In an arrangeable array every index is an exact position, and no two are equal. */
  lemma ArrangeableIndexes(content: seq<Item>)
    requires Arrangeable(content)
    ensures forall i | 0 <= i < |content| :: Indexes(content)[i] in Spellings(|content|)
    ensures Distinct(Indexes(content))
  {
    var found := FoundDistinct(content);
    forall i: nat | i < |content| ensures Indexes(content)[i] in Spellings(|content|) {
      assert i in found;
      var k :| 0 <= k < |found| && found[k] == i;
      assert Spellings(|content|)[k] == Indexes(content)[i];
    }
    forall i: nat, j: nat | i < j < |content| ensures IndexOf(content[i]) != IndexOf(content[j]) {
      assert i in found && j in found;
      var k :| 0 <= k < |found| && found[k] == i;
      var l :| 0 <= l < |found| && found[l] == j;
      if Decimal(k) == Decimal(l) { DecimalInjective(k, l); }
    }
  }

  /** Every item read so far is in the slot its index spells, and no other slot is taken. */
  ghost predicate Slotted(content: seq<Item>, slots: seq<Option<Item>>, positions: seq<nat>) {
    && |positions| <= |content| == |slots|
    && Distinct(positions)
    && (forall i | 0 <= i < |positions| ::
          && HasIndex(content[i]) && positions[i] < |content|
          && IndexOf(content[i]) == Decimal(positions[i]) && slots[positions[i]] == Some(content[i]))
    && forall k: nat | k < |slots| && slots[k].Some? :: k in positions
  }

  lemma SlottedStep(content: seq<Item>, slots: seq<Option<Item>>, positions: seq<nat>, slot: nat)
    requires Slotted(content, slots, positions) && |positions| < |content|
    requires HasIndex(content[|positions|]) && slot < |content| && IndexOf(content[|positions|]) == Decimal(slot)
    requires slots[slot].None?
    ensures Slotted(content, slots[slot := Some(content[|positions|])], positions + [slot])
  {
    forall i | 0 <= i < |positions| ensures positions[i] != slot {}
    assert slot in positions + [slot];
    assert forall k | k in positions :: k in positions + [slot];
  }

  lemma StrayIndex(content: seq<Item>, i: nat)
    requires i < |content| && HasIndex(content[i]) && forall k: nat | k < |content| :: IndexOf(content[i]) != Decimal(k)
    ensures !Arrangeable(content)
  {
    if Arrangeable(content) { ArrangeableIndexes(content); }
  }

  lemma FreshSlot(content: seq<Item>, slots: seq<Option<Item>>, positions: seq<nat>, slot: nat)
    requires Slotted(content, slots, positions) && |positions| < |content| && Arrangeable(content)
    requires slot < |content| && IndexOf(content[|positions|]) == Decimal(slot)
    ensures slots[slot].None?
  {
    ArrangeableIndexes(content);
    forall i | 0 <= i < |positions| ensures positions[i] != slot {
      assert Indexes(content)[i] != Indexes(content)[|positions|];
    }
  }

  lemma SlottedArranges(content: seq<Item>, slots: seq<Option<Item>>, positions: seq<nat>)
    requires Slotted(content, slots, positions) && |positions| == |content|
    ensures Arrangeable(content)
    ensures forall k: nat | k < |content| :: slots[k] == Some(Arrange(content)[k])
  {
    Pigeonhole(positions);
    forall k: nat | k < |content|
      ensures Find(content, Decimal(k)).Some? && slots[k] == Some(content[Find(content, Decimal(k)).value])
    {
      assert k in positions;
      var i :| 0 <= i < |positions| && positions[i] == k;
      var f := Find(content, Decimal(k)).value;
      DecimalInjective(positions[f], k);
    }
  }

  method ExpectedIndexes(n: nat) returns (expected: map<string, nat>)
    ensures forall k: nat | k < n :: Decimal(k) in expected && expected[Decimal(k)] == k
    ensures forall s | s in expected :: expected[s] < n && s == Decimal(expected[s])
  {
    expected := map[];
    for position := 0 to n
      invariant forall k: nat | k < position :: Decimal(k) in expected && expected[Decimal(k)] == k
      invariant forall s | s in expected :: expected[s] < position && s == Decimal(expected[s])
    {
      forall k: nat | k < position ensures Decimal(k) != Decimal(position) {
        if Decimal(k) == Decimal(position) { DecimalInjective(k, position); }
      }
      expected := expected[Decimal(position) := position];
    }
  }

  /** The slot-filling loop: it stops at the first child without a fresh exact index. */
  method FillSlots(content: seq<Item>, canonical: array<Option<Item>>) returns (fault: Option<Reason>)
    requires canonical.Length == |content| && forall k | 0 <= k < canonical.Length :: canonical[k].None?
    modifies canonical
    ensures fault.None? <==> Arrangeable(content)
    ensures fault.None? ==> forall k: nat | k < |content| :: canonical[k] == Some(Arrange(content)[k])
    ensures fault != Some(MissingIndex)
  {
    var expected := ExpectedIndexes(|content|);
    ghost var positions: seq<nat> := [];
    for physical := 0 to |content|
      invariant |positions| == physical && Slotted(content, canonical[..], positions)
    {
      var child := content[physical];
      if !IsItem(child) { return Some(NotAnItem); }
      if !HasIndex(child) { return Some(NoIndexText); }
      if IndexOf(child) !in expected {
        StrayIndex(content, physical);
        return Some(NotAnExactIndex);
      }
      var slot := expected[IndexOf(child)];
      if canonical[slot].Some? {
        if Arrangeable(content) { FreshSlot(content, canonical[..], positions, slot); }
        return Some(DuplicateIndex);
      }
      SlottedStep(content, canonical[..], positions, slot);
      canonical[slot] := Some(child);
      positions := positions + [slot];
    }
    SlottedArranges(content, canonical[..], positions);
    fault := None;
  }

  /**
   * The whole analysis. It accepts exactly the arrangeable arrays, with their arranged order,
   * and its last rejection, a missing index, is never reached.
   */
  method Analyze(content: seq<Item>) returns (r: Analysis)
    ensures Arrangeable(content) ==> r == Valid(Arrange(content), Arrange(content) != content)
    ensures !Arrangeable(content) ==> r.Invalid? && r.reason != MissingIndex
  {
    var canonical := new Option<Item>[|content|](_ => None);
    var fault := FillSlots(content, canonical);
    if fault.Some? { return Invalid(fault.value); }
    var ordered: seq<Item> := [];
    for position := 0 to |content|
      invariant |ordered| == position && forall k: nat | k < position :: ordered[k] == Arrange(content)[k]
    {
      if canonical[position].None? { return Invalid(MissingIndex); }
      ordered := ordered + [canonical[position].value];
    }
    assert ordered == Arrange(content);
    r := Valid(ordered, ordered != content);
  }

  // ---------------------------------------------------------------- what the analysis decides

  lemma {:induction false} CountAtMostOnce<T>(s: seq<T>, x: T)
    requires Distinct(s)
    ensures multiset(s)[x] == if x in s then 1 else 0
  {
    if s != [] {
      var last := |s| - 1;
      CountAtMostOnce(s[..last], x);
      assert s == s[..last] + [s[last]];
    }
  }

  lemma SpellingsDistinct(n: nat)
    ensures Distinct(Spellings(n))
  {
    var spellings := Spellings(n);
    forall i: nat, j: nat | i < j < n ensures spellings[i] != spellings[j] {
      if Decimal(i) == Decimal(j) { DecimalInjective(i, j); }
    }
  }

  lemma SameMembersSameMultiset<T>(a: seq<T>, b: seq<T>)
    requires Distinct(a) && Distinct(b)
    requires forall x :: x in a <==> x in b
    ensures multiset(a) == multiset(b)
  {
    forall x ensures multiset(a)[x] == multiset(b)[x] {
      CountAtMostOnce(a, x);
      CountAtMostOnce(b, x);
    }
  }

  /** Analysis accepts iff every child is an item wrapper and the indexes are a permutation of 0..n-1. */
  lemma ArrangeableIffPermutation(content: seq<Item>)
    requires forall i | 0 <= i < |content| :: HasIndex(content[i])
    ensures Arrangeable(content) <==> multiset(Indexes(content)) == multiset(Spellings(|content|))
  {
    var indexes, spellings := Indexes(content), Spellings(|content|);
    SpellingsDistinct(|content|);
    if Arrangeable(content) {
      ArrangeableIndexes(content);
      forall x ensures x in indexes <==> x in spellings {
        if x in spellings {
          var k :| 0 <= k < |spellings| && spellings[k] == x;
          assert indexes[Find(content, Decimal(k)).value] == x;
        }
      }
      SameMembersSameMultiset(indexes, spellings);
    }
    if multiset(indexes) == multiset(spellings) {
      forall k: nat | k < |content| ensures Find(content, Decimal(k)).Some? {
        assert spellings[k] in multiset(spellings);
        assert spellings[k] in indexes;
      }
    }
  }

  lemma SameIndexSameItem(content: seq<Item>, i: nat, j: nat)
    requires Arrangeable(content) && i < |content| && j < |content| && IndexOf(content[i]) == IndexOf(content[j])
    ensures i == j
  {
    ArrangeableIndexes(content);
    assert Indexes(content)[i] == Indexes(content)[j];
  }

  /** The arranged array is the one permutation of the content whose indexes count up from 0. */
  lemma ArrangedIsUnique(content: seq<Item>, sorted: seq<Item>)
    requires Arrangeable(content) && |sorted| == |content|
    requires forall k: nat | k < |sorted| :: sorted[k] in content && IndexOf(sorted[k]) == Decimal(k)
    ensures sorted == Arrange(content)
  {
    forall k: nat | k < |sorted| ensures sorted[k] == Arrange(content)[k] {
      var i: nat :| i < |content| && content[i] == sorted[k];
      SameIndexSameItem(content, i, Find(content, Decimal(k)).value);
    }
  }

  lemma DistinctItems(content: seq<Item>)
    requires Arrangeable(content)
    ensures Distinct(content)
  {
    ArrangeableIndexes(content);
    forall i, j | 0 <= i < j < |content| ensures content[i] != content[j] {
      assert Indexes(content)[i] != Indexes(content)[j];
    }
  }

  /** Analysing an arranged array again finds nothing to reorder. */
  lemma ArrangeIsFixpoint(content: seq<Item>)
    requires Arrangeable(content)
    ensures Arrangeable(Arrange(content)) && Arrange(Arrange(content)) == Arrange(content)
  {
    var sorted := Arrange(content);
    forall k: nat | k < |sorted| ensures Find(sorted, Decimal(k)).Some? && Find(sorted, Decimal(k)).value == k {
      assert IndexOf(sorted[k]) == Decimal(k);
      DecimalInjective(Find(sorted, Decimal(k)).value, k);
    }
  }

  /** Items spelled with their own positions are arranged already. */
  lemma CanonicalIsArranged(content: seq<Item>)
    requires forall k: nat | k < |content| :: HasIndex(content[k]) && IndexOf(content[k]) == Decimal(k)
    ensures Arrangeable(content) && Arrange(content) == content
  {
    forall k: nat | k < |content| ensures Find(content, Decimal(k)) == Some(k) {
      assert IndexOf(content[k]) == Decimal(k);
      DecimalInjective(Find(content, Decimal(k)).value, k);
    }
  }

  /** Arranging keeps exactly the items. */
  lemma ArrangeIsPermutation(content: seq<Item>)
    requires Arrangeable(content)
    ensures multiset(Arrange(content)) == multiset(content)
  {
    var sorted := Arrange(content);
    ArrangeIsFixpoint(content);
    DistinctItems(content);
    DistinctItems(sorted);
    var found := FoundDistinct(content);
    forall x ensures x in sorted <==> x in content {
      if x in content {
        var i: nat :| i < |content| && content[i] == x;
        assert i in found;
        var k :| 0 <= k < |found| && found[k] == i;
        assert sorted[k] == x;
      }
    }
    SameMembersSameMultiset(sorted, content);
  }

  // ---------------------------------------------------------------- whole trees

  /** Arrange every array of a tree; no value when some array has no exact index set. */
  function OrderTree(node: Node): Option<Node>
    decreases node
  {
    match OrderContent(node.content)
    case None => None
    case Some(content) =>
      if node.tag != ArrTag then Some(node.(content := content))
      else if Arrangeable(content) then Some(node.(content := Arrange(content)))
      else None
  }

  function OrderItem(item: Item): Option<Item>
    decreases item
  {
    match item
    case Prim(_) => Some(item)
    case Sub(child) => match OrderTree(child)
      case None => None
      case Some(ordered) => Some(Sub(ordered))
  }

  function OrderContent(content: seq<Item>): (r: Option<seq<Item>>)
    ensures r.Some? ==> |r.value| == |content|
    decreases content
  {
    if content == [] then Some([])
    else
      var first, rest := OrderItem(content[0]), OrderContent(content[1..]);
      if first.None? || rest.None? then None else Some([first.value] + rest.value)
  }

  lemma {:induction false} OrderContentAt(content: seq<Item>, i: nat)
    requires i < |content| && OrderContent(content).Some?
    ensures OrderItem(content[i]) == Some(OrderContent(content).value[i])
    decreases |content|
  {
    if i > 0 { OrderContentAt(content[1..], i - 1); }
  }

  lemma {:induction false} OrderContentFixed(content: seq<Item>)
    requires forall i | 0 <= i < |content| :: OrderItem(content[i]) == Some(content[i])
    ensures OrderContent(content) == Some(content)
  {
    if content != [] {
      OrderContentFixed(content[1..]);
      assert content == [content[0]] + content[1..];
    }
  }

  /** Ordering an ordered tree changes nothing. */
  lemma {:induction false} OrderTreeIdempotent(node: Node)
    requires OrderTree(node).Some?
    ensures OrderTree(OrderTree(node).value) == OrderTree(node)
    decreases node
  {
    var content := OrderContent(node.content).value;
    forall i | 0 <= i < |content| ensures OrderItem(content[i]) == Some(content[i]) {
      OrderContentAt(node.content, i);
      if content[i].Sub? { OrderTreeIdempotent(node.content[i].node); }
    }
    if node.tag == ArrTag {
      ArrangeIsFixpoint(content);
      var sorted := Arrange(content);
      forall i | 0 <= i < |sorted| ensures OrderItem(sorted[i]) == Some(sorted[i]) {
        assert sorted[i] in content;
      }
      OrderContentFixed(sorted);
    } else {
      OrderContentFixed(content);
    }
  }

  lemma OrderItemKeepsIndex(item: Item)
    requires OrderItem(item).Some? && HasIndex(item)
    ensures HasIndex(OrderItem(item).value) && IndexOf(OrderItem(item).value) == IndexOf(item)
  {
  }

  /** Reordering is visible: it never undoes what ordering below the items changed. */
  lemma ReorderIsVisible(node: Node, content: seq<Item>)
    requires OrderContent(node.content) == Some(content) && Arrangeable(content) && Arrange(content) == node.content
    ensures content == node.content
  {
    forall k: nat | k < |content| ensures content[k] in content && IndexOf(content[k]) == Decimal(k) {
      OrderContentAt(node.content, k);
      OrderItemKeepsIndex(node.content[k]);
    }
    ArrangedIsUnique(content, content);
  }

  function Ahead(content: seq<Item>, r: Option<seq<Item>>): Option<seq<Item>> {
    if r.None? then None else Some(content + r.value)
  }

  lemma AheadNested(a: seq<Item>, b: seq<Item>, r: Option<seq<Item>>)
    ensures Ahead(a, Ahead(b, r)) == Ahead(a + b, r) && Ahead([], r) == r
  {
    if r.Some? {
      assert a + (b + r.value) == a + b + r.value;
      assert [] + r.value == r.value;
    }
  }

  /** The content loop of the normalizer: children ordered in place, and whether any of them changed. */
  method NormalizeContent(content: seq<Item>) returns (r: Option<seq<Item>>, changed: bool)
    ensures r == OrderContent(content)
    ensures r.Some? ==> changed == (r.value != content)
    decreases content
  {
    changed := false;
    var ordered: seq<Item> := [];
    assert content[0..] == content;
    AheadNested([], [], OrderContent(content));
    for position := 0 to |content|
      invariant |ordered| == position
      invariant OrderContent(content) == Ahead(ordered, OrderContent(content[position..]))
      invariant changed == (ordered != content[..position])
    {
      assert content[position..][1..] == content[position + 1..];
      var item, itemChanged := NormalizeItem(content[position]);
      if item.None? { return None, changed; }
      AheadNested(ordered, [item.value], OrderContent(content[position + 1..]));
      assert content[..position + 1] == content[..position] + [content[position]];
      ordered, changed := ordered + [item.value], changed || itemChanged;
    }
    assert ordered + [] == ordered && content[..|content|] == content;
    r := Some(ordered);
  }

  method NormalizeItem(item: Item) returns (r: Option<Item>, changed: bool)
    ensures r == OrderItem(item)
    ensures r.Some? ==> changed == (r.value != item)
    decreases item
  {
    match item {
      case Prim(_) => r, changed := Some(item), false;
      case Sub(child) =>
        var normalized, childChanged := NormalizeOrder(child);
        r, changed := if normalized.None? then None else Some(Sub(normalized.value)), childChanged;
    }
  }

  /** The recursive normalizer: unchanged trees are handed back as they are. */
  method NormalizeOrder(node: Node) returns (r: Option<Node>, changed: bool)
    ensures r == OrderTree(node)
    ensures r.Some? ==> changed == (r.value != node)
    decreases node
  {
    var content;
    r, changed := None, false;
    content, changed := NormalizeContent(node.content);
    if content.None? { return; }
    var items := content.value;
    if node.tag == ArrTag {
      var analysis := Analyze(items);
      if analysis.Invalid? { return; }
      if analysis.reordered {
        changed := true;
        if analysis.canonical == node.content { ReorderIsVisible(node, items); }
        items := analysis.canonical;
      }
    }
    r := Some(if changed then node.(content := items) else node);
  }
}
