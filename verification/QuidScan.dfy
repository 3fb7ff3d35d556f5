/**
 * Collecting persisted identities over a node graph that may share nodes or run in cycles,
 * and building the index of their one owner each.
 */
module QuidScan {
  import opened Prelude
  import opened HsonGraph
  import opened QuidCodec
  import opened NodeGraph

  datatype QuidField = NoQuid | QuidText(text: string) | QuidOther

  /** A content slot: a primitive, an object the node guard refuses, or a node by its number. */
  datatype Slot = Scalar | OldObject | To(node: nat)

  datatype Vertex = Vertex(tag: Tag, quid: QuidField, content: seq<Slot>)

  type Graph = seq<Vertex>

  datatype Code = IneligibleQuid | MalformedQuid

  datatype Claim = Claim(quid: string, node: nat)

  datatype Fault = Fault(code: Code, node: nat)

  predicate InGraph(g: Graph) {
    forall v: nat, i: nat | v < |g| && i < |g[v].content| :: g[v].content[i].To? ==> g[v].content[i].node < |g|
  }

  function Nodes(content: seq<Slot>): (r: seq<nat>)
    ensures forall v | v in r :: To(v) in content
    ensures forall v :: To(v) in content ==> v in r
  {
    if content == [] then []
    else (if content[0].To? then [content[0].node] else []) + Nodes(content[1..])
  }

  function Edges(g: Graph): (r: seq<seq<nat>>)
    ensures |r| == |g|
    ensures forall v: nat | v < |g| :: r[v] == Nodes(g[v].content)
  {
    seq(|g|, (v: nat) requires v < |g| => Nodes(g[v].content))
  }

  lemma EdgesClosed(g: Graph)
    requires InGraph(g)
    ensures Closed(Edges(g))
  {
    forall v: nat, i: nat | v < |g| && i < |Edges(g)[v]| ensures Edges(g)[v][i] < |g| {
      assert To(Edges(g)[v][i]) in g[v].content;
    }
  }

  // ---------------------------------------------------------------- reading one node

  /** Ordinary nodes, arrays, and objects that are not a transparent carrier of one value. */
  predicate Eligible(g: Graph, v: nat)
    requires v < |g| && InGraph(g)
  {
    match g[v].tag
    case Ordinary(name) => !Reserved(name)
    case ArrTag => true
    case ObjTag =>
      var content := g[v].content;
      |content| == 1 && content[0].To? ==> g[content[0].node].tag !in {StrTag, ValTag, ArrTag, ObjTag}
    case _ => false
  }

  function ReadQuid(g: Graph, v: nat): Result<Option<string>, Code>
    requires v < |g| && InGraph(g)
  {
    match g[v].quid
    case NoQuid => Success(None)
    case QuidText(text) =>
      if !Eligible(g, v) then Failure(IneligibleQuid)
      else if IsPersisted(text) then Success(Some(text))
      else Failure(MalformedQuid)
    case QuidOther => if Eligible(g, v) then Failure(MalformedQuid) else Failure(IneligibleQuid)
  }

  // ---------------------------------------------------------------- recursive preorder

  function Unseen(n: nat, seen: seq<nat>): set<nat> {
    set v: nat | v < n && v !in seen
  }

  /** The order of first visits of a recursive depth-first walk, given what was visited before. */
  function VisitNode(edges: seq<seq<nat>>, seen: seq<nat>, v: nat): (r: seq<nat>)
    requires Closed(edges) && v < |edges|
    ensures seen <= r
    decreases Unseen(|edges|, seen), 0
  {
    if v in seen then seen
    else
      assert v in Unseen(|edges|, seen) && v !in Unseen(|edges|, seen + [v]);
      VisitEach(edges, seen + [v], edges[v])
  }

  function VisitEach(edges: seq<seq<nat>>, seen: seq<nat>, vs: seq<nat>): (r: seq<nat>)
    requires Closed(edges) && forall i | 0 <= i < |vs| :: vs[i] < |edges|
    ensures seen <= r
    decreases Unseen(|edges|, seen), |vs|
  {
    if vs == [] then seen
    else
      var after := VisitNode(edges, seen, vs[0]);
      SeenShrinks(|edges|, seen, after);
      VisitEach(edges, after, vs[1..])
  }

  lemma SeenShrinks(n: nat, seen: seq<nat>, after: seq<nat>)
    requires seen <= after
    ensures Unseen(n, after) <= Unseen(n, seen)
    ensures Unseen(n, after) == Unseen(n, seen) || Unseen(n, after) < Unseen(n, seen)
  {
    assert forall v | v in seen :: v in after;
  }

  function Preorder(edges: seq<seq<nat>>, root: nat): seq<nat>
    requires Closed(edges) && root < |edges|
  {
    VisitNode(edges, [], root)
  }

  lemma {:induction false} VisitEachAppend(edges: seq<seq<nat>>, seen: seq<nat>, a: seq<nat>, b: seq<nat>)
    requires Closed(edges)
    requires forall i | 0 <= i < |a| :: a[i] < |edges|
    requires forall i | 0 <= i < |b| :: b[i] < |edges|
    ensures VisitEach(edges, seen, a + b) == VisitEach(edges, VisitEach(edges, seen, a), b)
    decreases |a|
  {
    if a == [] {
      assert a + b == b;
    } else {
      assert (a + b)[1..] == a[1..] + b;
      VisitEachAppend(edges, VisitNode(edges, seen, a[0]), a[1..], b);
    }
  }

  // ---------------------------------------------------------------- what the preorder holds

  predicate Distinct(s: seq<nat>) {
    forall i, j | 0 <= i < j < |s| :: s[i] != s[j]
  }

  /** The visits appended by r hold, with every node, everything it lists. */
  ghost predicate Explored(edges: seq<seq<nat>>, seen: seq<nat>, r: seq<nat>) {
    forall v | v in r && v !in seen :: v < |edges| && forall i | 0 <= i < |edges[v]| :: edges[v][i] in r
  }

  lemma {:induction false} VisitNodeCovers(edges: seq<seq<nat>>, seen: seq<nat>, v: nat)
    requires Closed(edges) && v < |edges|
    ensures var r := VisitNode(edges, seen, v);
            v in r && Explored(edges, seen, r) && (Distinct(seen) ==> Distinct(r))
    decreases Unseen(|edges|, seen), 0
  {
    if v !in seen {
      assert v in Unseen(|edges|, seen) && v !in Unseen(|edges|, seen + [v]);
      VisitEachCovers(edges, seen + [v], edges[v]);
      assert (seen + [v])[|seen|] == v;
    }
  }

  lemma {:induction false} VisitEachCovers(edges: seq<seq<nat>>, seen: seq<nat>, vs: seq<nat>)
    requires Closed(edges) && forall i | 0 <= i < |vs| :: vs[i] < |edges|
    ensures var r := VisitEach(edges, seen, vs);
            && (forall i | 0 <= i < |vs| :: vs[i] in r)
            && Explored(edges, seen, r) && (Distinct(seen) ==> Distinct(r))
    decreases Unseen(|edges|, seen), |vs|
  {
    if vs != [] {
      var after, r := VisitNode(edges, seen, vs[0]), VisitEach(edges, seen, vs);
      SeenShrinks(|edges|, seen, after);
      VisitNodeCovers(edges, seen, vs[0]);
      VisitEachCovers(edges, after, vs[1..]);
      assert forall v | v in after :: v in r;
      forall i | 0 <= i < |vs| ensures vs[i] in r {
        if i > 0 { assert vs[i] == vs[1..][i - 1]; }
      }
    }
  }

  lemma {:induction false} VisitNodeReached(edges: seq<seq<nat>>, seen: seq<nat>, v: nat, root: nat)
    requires Closed(edges) && v < |edges| && Reaches(edges, root, v)
    ensures forall w | w in VisitNode(edges, seen, v) && w !in seen :: Reaches(edges, root, w)
    decreases Unseen(|edges|, seen), 0
  {
    if v !in seen {
      assert v in Unseen(|edges|, seen) && v !in Unseen(|edges|, seen + [v]);
      forall i | 0 <= i < |edges[v]| ensures Reaches(edges, root, edges[v][i]) {
        ReachesNext(edges, root, v, edges[v][i]);
      }
      VisitEachReached(edges, seen + [v], edges[v], root);
    }
  }

  lemma {:induction false} VisitEachReached(edges: seq<seq<nat>>, seen: seq<nat>, vs: seq<nat>, root: nat)
    requires Closed(edges) && forall i | 0 <= i < |vs| :: vs[i] < |edges| && Reaches(edges, root, vs[i])
    ensures forall w | w in VisitEach(edges, seen, vs) && w !in seen :: Reaches(edges, root, w)
    decreases Unseen(|edges|, seen), |vs|
  {
    if vs != [] {
      var after := VisitNode(edges, seen, vs[0]);
      SeenShrinks(|edges|, seen, after);
      VisitNodeReached(edges, seen, vs[0], root);
      VisitEachReached(edges, after, vs[1..], root);
    }
  }

  /** The preorder visits exactly the reachable nodes, each once. */
  lemma PreorderIsReachable(edges: seq<seq<nat>>, root: nat)
    requires Closed(edges) && root < |edges|
    ensures Distinct(Preorder(edges, root))
    ensures forall v: nat :: v in Preorder(edges, root) <==> v < |edges| && Reaches(edges, root, v)
  {
    var r := Preorder(edges, root);
    VisitNodeCovers(edges, [], root);
    ReachesSelf(edges, root);
    VisitNodeReached(edges, [], root, root);
    var nodes := set v | v in r;
    forall v: nat | v < |edges| && Reaches(edges, root, v) ensures v in r {
      var p :| IsPath(edges, p) && p[0] == root && p[|p| - 1] == v;
      PathStays(edges, nodes, p, |p| - 1);
    }
  }

  // ---------------------------------------------------------------- claims

  /** The claims of these nodes in this order, or the first fault among them. */
  function Along(g: Graph, order: seq<nat>): Result<seq<Claim>, Fault>
    requires InGraph(g) && forall i | 0 <= i < |order| :: order[i] < |g|
  {
    if order == [] then Success([])
    else
      var last := |order| - 1;
      match Along(g, order[..last])
      case Failure(fault) => Failure(fault)
      case Success(claims) =>
        match ReadQuid(g, order[last])
        case Failure(code) => Failure(Fault(code, order[last]))
        case Success(None) => Success(claims)
        case Success(Some(quid)) => Success(claims + [Claim(quid, order[last])])
  }

  lemma {:induction false} FaultStays(g: Graph, order: seq<nat>, n: nat)
    requires InGraph(g) && forall i | 0 <= i < |order| :: order[i] < |g|
    requires n <= |order| && Along(g, order[..n]).Failure?
    ensures Along(g, order) == Along(g, order[..n])
  {
    if n < |order| {
      var last := |order| - 1;
      assert order[..last][..n] == order[..n];
      FaultStays(g, order[..last], n);
    } else {
      assert order[..n] == order;
    }
  }

  /** A graph is refused iff a reachable node holds an unreadable identity; otherwise every identity is claimed once. */
  lemma {:induction false} AlongHolds(g: Graph, order: seq<nat>)
    requires InGraph(g) && forall i | 0 <= i < |order| :: order[i] < |g|
    ensures Along(g, order).Success? <==> forall i | 0 <= i < |order| :: ReadQuid(g, order[i]).Success?
    ensures Along(g, order).Success? ==>
              forall quid, v :: Claim(quid, v) in Along(g, order).value <==> v in order && ReadQuid(g, v) == Success(Some(quid))
    ensures Along(g, order).Failure? ==>
              Along(g, order).error.node in order && ReadQuid(g, Along(g, order).error.node) == Failure(Along(g, order).error.code)
  {
    if order != [] {
      var last := |order| - 1;
      AlongHolds(g, order[..last]);
      assert order == order[..last] + [order[last]];
    }
  }

  function Pending(stack: seq<nat>): seq<nat> {
    if stack == [] then [] else [stack[|stack| - 1]] + Pending(stack[..|stack| - 1])
  }

  lemma PendingPush(stack: seq<nat>, v: nat)
    ensures Pending(stack + [v]) == [v] + Pending(stack)
  {
    assert (stack + [v])[..|stack|] == stack;
  }

  lemma {:induction false} PendingMembers(stack: seq<nat>, v: nat)
    ensures v in stack <==> v in Pending(stack)
  {
    if stack != [] {
      var last := |stack| - 1;
      PendingMembers(stack[..last], v);
      assert stack == stack[..last] + [stack[last]];
    }
  }

  lemma PushStep(content: seq<Slot>, index: nat, r: seq<nat>, stack: seq<nat>)
    requires index < |content| && Pending(r) == Nodes(content[index + 1..]) + Pending(stack)
    ensures content[index].To? ==> Pending(r + [content[index].node]) == Nodes(content[index..]) + Pending(stack)
    ensures !content[index].To? ==> Pending(r) == Nodes(content[index..]) + Pending(stack)
  {
    var rest := content[index..];
    assert rest[1..] == content[index + 1..];
    if content[index].To? {
      PendingPush(r, content[index].node);
      assert Nodes(rest) == [content[index].node] + Nodes(rest[1..]);
    } else {
      assert Nodes(rest) == Nodes(rest[1..]);
    }
  }

  method PushContent(content: seq<Slot>, stack: seq<nat>) returns (r: seq<nat>)
    ensures Pending(r) == Nodes(content) + Pending(stack)
  {
    r := stack;
    for index := |content| downto 0
      invariant Pending(r) == Nodes(content[index..]) + Pending(stack)
    {
      PushStep(content, index, r, stack);
      if content[index].To? { r := r + [content[index].node]; }
    }
    assert content[0..] == content;
  }

  /** What is left to do continues the recursive preorder, and the claims so far are those of the nodes seen. */
  ghost predicate Scanning(g: Graph, root: nat, stack: seq<nat>, seen: seq<nat>, claims: seq<Claim>) {
    && InGraph(g) && Closed(Edges(g)) && root < |g|
    && Within(stack, |g|) && Within(Pending(stack), |g|) && Within(seen, |g|)
    && VisitEach(Edges(g), seen, Pending(stack)) == Preorder(Edges(g), root)
    && Along(g, seen) == Success(claims)
  }

  lemma StartScanning(g: Graph, root: nat)
    requires InGraph(g) && root < |g|
    ensures Scanning(g, root, [root], [], [])
  {
    EdgesClosed(g);
    assert Pending([root]) == [root];
    assert VisitEach(Edges(g), VisitNode(Edges(g), [], root), []) == VisitNode(Edges(g), [], root);
  }

  predicate Within(s: seq<nat>, n: nat) {
    forall i | 0 <= i < |s| :: s[i] < n
  }

  lemma Popped(edges: seq<seq<nat>>, stack: seq<nat>, v: nat, seen: seq<nat>)
    requires Closed(edges) && Within(stack + [v], |edges|) && Within(Pending(stack + [v]), |edges|)
    ensures v < |edges| && Within(stack, |edges|) && Within(Pending(stack), |edges|)
    ensures VisitEach(edges, seen, Pending(stack + [v])) == VisitEach(edges, VisitNode(edges, seen, v), Pending(stack))
  {
    var all, rest := Pending(stack + [v]), Pending(stack);
    PendingPush(stack, v);
    assert all[1..] == rest && all[0] == v;
    forall i | 0 <= i < |rest| ensures rest[i] < |edges| {
      assert all[i + 1] == rest[i];
    }
    forall i | 0 <= i < |stack| ensures stack[i] < |edges| {
      assert (stack + [v])[i] == stack[i];
    }
  }

  lemma SkipSeen(g: Graph, root: nat, stack: seq<nat>, v: nat, seen: seq<nat>, claims: seq<Claim>)
    requires Scanning(g, root, stack + [v], seen, claims) && v in seen
    ensures Scanning(g, root, stack, seen, claims)
  {
    Popped(Edges(g), stack, v, seen);
  }

  lemma Deepened(edges: seq<seq<nat>>, stack: seq<nat>, v: nat, seen: seq<nat>, deeper: seq<nat>)
    requires Closed(edges) && v < |edges| && Within(Pending(stack), |edges|) && v !in seen
    requires Pending(deeper) == edges[v] + Pending(stack)
    ensures Within(deeper, |edges|) && Within(Pending(deeper), |edges|)
    ensures VisitEach(edges, VisitNode(edges, seen, v), Pending(stack)) == VisitEach(edges, seen + [v], Pending(deeper))
  {
    forall i | 0 <= i < |Pending(deeper)| ensures Pending(deeper)[i] < |edges| {
      if i >= |edges[v]| { assert Pending(deeper)[i] == Pending(stack)[i - |edges[v]|]; }
    }
    forall i | 0 <= i < |deeper| ensures deeper[i] < |edges| {
      PendingMembers(deeper, deeper[i]);
    }
    VisitEachAppend(edges, seen + [v], edges[v], Pending(stack));
  }

  /** A first visit: the node's own content comes before everything pending. */
  lemma VisitFirst(g: Graph, root: nat, stack: seq<nat>, v: nat, seen: seq<nat>, claims: seq<Claim>, deeper: seq<nat>)
    requires Scanning(g, root, stack + [v], seen, claims) && v !in seen
    requires v < |g| && Pending(deeper) == Edges(g)[v] + Pending(stack)
    requires ReadQuid(g, v).Success?
    ensures Scanning(g, root, deeper, seen + [v],
                     claims + if ReadQuid(g, v).value.Some? then [Claim(ReadQuid(g, v).value.value, v)] else [])
  {
    Popped(Edges(g), stack, v, seen);
    Deepened(Edges(g), stack, v, seen, deeper);
    assert (seen + [v])[..|seen|] == seen;
    assert claims + [] == claims;
  }

  /** A fault met on a first visit is the first fault of the whole preorder. */
  lemma FaultIsFirst(g: Graph, root: nat, stack: seq<nat>, v: nat, seen: seq<nat>, claims: seq<Claim>)
    requires Scanning(g, root, stack + [v], seen, claims) && v !in seen
    requires v < |g| && ReadQuid(g, v).Failure?
    requires forall i | 0 <= i < |Preorder(Edges(g), root)| :: Preorder(Edges(g), root)[i] < |g|
    ensures Along(g, Preorder(Edges(g), root)) == Failure(Fault(ReadQuid(g, v).error, v))
  {
    var order := Preorder(Edges(g), root);
    PendingPush(stack, v);
    assert Pending(stack + [v])[0] == v;
    assert seen + [v] <= VisitNode(Edges(g), seen, v) <= order;
    assert order[..|seen| + 1] == seen + [v] && (seen + [v])[..|seen|] == seen;
    FaultStays(g, order, |seen| + 1);
  }

  lemma PreorderInGraph(g: Graph, root: nat)
    requires InGraph(g) && root < |g|
    ensures Closed(Edges(g))
    ensures forall i | 0 <= i < |Preorder(Edges(g), root)| :: Preorder(Edges(g), root)[i] < |g|
  {
    EdgesClosed(g);
    PreorderIsReachable(Edges(g), root);
    forall i | 0 <= i < |Preorder(Edges(g), root)| ensures Preorder(Edges(g), root)[i] < |g| {
      assert Preorder(Edges(g), root)[i] in Preorder(Edges(g), root);
    }
  }

  lemma UnseenShrinks(n: nat, seen: seq<nat>, v: nat)
    requires v < n && v !in seen
    ensures Unseen(n, seen + [v]) < Unseen(n, seen)
  {
    assert v in Unseen(n, seen) && v !in Unseen(n, seen + [v]);
  }

  function Scanned(g: Graph, root: nat): Result<seq<Claim>, Fault>
    requires InGraph(g) && root < |g|
  {
    PreorderInGraph(g, root);
    Along(g, Preorder(Edges(g), root))
  }

  /**
   * The explicit-stack scan. It ends on cyclic graphs too, and finds what the recursive
   * preorder finds: the same claims in the same order, or the same first fault.
   */
  method Collect(g: Graph, root: nat) returns (r: Result<seq<Claim>, Fault>)
    requires InGraph(g) && root < |g|
    ensures r == Scanned(g, root)
  {
    var claims: seq<Claim> := [];
    var visited: set<nat> := {};
    var stack: seq<nat> := [root];
    ghost var seen: seq<nat> := [];
    PreorderInGraph(g, root);
    StartScanning(g, root);
    while stack != []
      invariant Scanning(g, root, stack, seen, claims)
      invariant forall v :: v in visited <==> v in seen
      decreases Unseen(|g|, seen), |stack|
    {
      var current := stack[|stack| - 1];
      assert stack == stack[..|stack| - 1] + [current];
      stack := stack[..|stack| - 1];
      if current in visited {
        SkipSeen(g, root, stack, current, seen, claims);
        continue;
      }
      visited := visited + {current};
      var quid := ReadQuid(g, current);
      if quid.Failure? {
        FaultIsFirst(g, root, stack, current, seen, claims);
        return Failure(Fault(quid.error, current));
      }
      var deeper := PushContent(g[current].content, stack);
      VisitFirst(g, root, stack, current, seen, claims, deeper);
      UnseenShrinks(|g|, seen, current);
      if quid.value.Some? { claims := claims + [Claim(quid.value.value, current)]; }
      stack, seen := deeper, seen + [current];
      assert claims + [] == claims;
    }
    r := Success(claims);
  }

  // ---------------------------------------------------------------- the ownership index

  /** No identity is claimed by two different nodes. */
  predicate Unique(claims: seq<Claim>) {
    forall i, j | 0 <= i < j < |claims| :: claims[i].quid == claims[j].quid ==> claims[i].node == claims[j].node
  }

  /** Each claimed identity, and nothing else, is mapped to its one owner. */
  predicate Owns(index: map<string, nat>, claims: seq<Claim>) {
    && (forall i | 0 <= i < |claims| :: claims[i].quid in index && index[claims[i].quid] == claims[i].node)
    && forall quid | quid in index :: Claim(quid, index[quid]) in claims
  }

  datatype Duplicate = Duplicate(claim: Claim, prior: nat)

  method IndexUnique(claims: seq<Claim>) returns (r: Result<map<string, nat>, Duplicate>)
    ensures r.Success? <==> Unique(claims)
    ensures r.Success? ==> Owns(r.value, claims)
    ensures r.Failure? ==> r.error.claim in claims && Claim(r.error.claim.quid, r.error.prior) in claims
    ensures r.Failure? ==> r.error.prior != r.error.claim.node
  {
    var indexed: map<string, nat> := map[];
    for n := 0 to |claims|
      invariant Unique(claims[..n]) && Owns(indexed, claims[..n])
    {
      var claim := claims[n];
      if claim.quid in indexed && indexed[claim.quid] != claim.node {
        assert Claim(claim.quid, indexed[claim.quid]) in claims[..n];
        return Failure(Duplicate(claim, indexed[claim.quid]));
      }
      assert claims[..n + 1] == claims[..n] + [claim];
      indexed := indexed[claim.quid := claim.node];
    }
    assert claims[..|claims|] == claims;
    r := Success(indexed);
  }

  /** A reachable node that holds a readable identity. */
  ghost predicate Holds(g: Graph, root: nat, quid: string, v: nat)
    requires InGraph(g)
  {
    v < |g| && Reaches(Edges(g), root, v) && ReadQuid(g, v) == Success(Some(quid))
  }

  /** The scan succeeds iff every reachable identity can be read; its claims are then exactly the reachable holders. */
  lemma ScannedHolds(g: Graph, root: nat)
    requires InGraph(g) && root < |g|
    ensures Scanned(g, root).Success? <==>
              forall v: nat | v < |g| && Reaches(Edges(g), root, v) :: ReadQuid(g, v).Success?
    ensures Scanned(g, root).Success? ==>
              forall quid, v :: Claim(quid, v) in Scanned(g, root).value <==> Holds(g, root, quid, v)
  {
    PreorderInGraph(g, root);
    PreorderIsReachable(Edges(g), root);
    AlongHolds(g, Preorder(Edges(g), root));
  }

  datatype ScanError = Unreadable(fault: Fault) | Shared(duplicate: Duplicate)

  /**
   * The ownership-domain scan. It succeeds iff every reachable identity is readable and no two
   * nodes hold the same one, and then the index maps exactly the held identities to their holders.
   */
  method ScanQuids(g: Graph, root: nat) returns (r: Result<map<string, nat>, ScanError>)
    requires InGraph(g) && root < |g|
    ensures r.Success? <==>
              && (forall v: nat | v < |g| && Reaches(Edges(g), root, v) :: ReadQuid(g, v).Success?)
              && forall quid, v, w | Holds(g, root, quid, v) && Holds(g, root, quid, w) :: v == w
    ensures r.Success? ==> forall quid, v :: Holds(g, root, quid, v) <==> quid in r.value && r.value[quid] == v
  {
    ScannedHolds(g, root);
    var claims := Collect(g, root);
    if claims.Failure? { return Failure(Unreadable(claims.error)); }
    var index := IndexUnique(claims.value);
    if index.Failure? {
      var duplicate := index.error;
      assert Holds(g, root, duplicate.claim.quid, duplicate.claim.node) by {
        assert duplicate.claim == Claim(duplicate.claim.quid, duplicate.claim.node);
      }
      assert Holds(g, root, duplicate.claim.quid, duplicate.prior);
      return Failure(Shared(duplicate));
    }
    UniqueHolders(g, root, claims.value, index.value);
    r := Success(index.value);
  }

  lemma UniqueHolders(g: Graph, root: nat, claims: seq<Claim>, index: map<string, nat>)
    requires InGraph(g) && Unique(claims) && Owns(index, claims)
    requires forall quid, v :: Claim(quid, v) in claims <==> Holds(g, root, quid, v)
    ensures forall quid, v, w | Holds(g, root, quid, v) && Holds(g, root, quid, w) :: v == w
    ensures forall quid, v :: Holds(g, root, quid, v) <==> quid in index && index[quid] == v
  {
    forall quid, v | Holds(g, root, quid, v) ensures quid in index && index[quid] == v {
      assert Claim(quid, v) in claims;
    }
    forall quid | quid in index ensures Holds(g, root, quid, index[quid]) {
      assert Claim(quid, index[quid]) in claims;
    }
  }
}
