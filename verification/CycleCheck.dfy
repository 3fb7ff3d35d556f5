/**
 * Admission of a shared, possibly cyclic node graph: an explicit stack of enter and leave frames,
 * with the nodes still being explored marked active and the finished ones marked complete.
 */
module CycleCheck {
  import opened NodeGraph

  /** One object: whether it has the shape of a node, whether it is a scalar leaf, and the objects in its content. */
  datatype Shape = Shape(sound: bool, leaf: bool, children: seq<nat>)

  type Graph = seq<Shape>

  /** The content of scalar leaves is not followed. */
  function Followed(g: Graph): (r: seq<seq<nat>>)
    ensures |r| == |g|
    ensures forall v: nat | v < |g| :: r[v] == if g[v].leaf then [] else g[v].children
  {
    seq(|g|, (v: nat) requires v < |g| => if g[v].leaf then [] else g[v].children)
  }

  datatype Frame = Enter(node: nat) | Leave(node: nat)

  datatype Verdict = Accepted | CycleAt(node: nat) | MalformedAt(node: nat)

  // ---------------------------------------------------------------- ranks

  /** A finishing order: each node comes after everything it lists. */
  predicate Ranked(edges: seq<seq<nat>>, order: seq<nat>) {
    forall k | 0 <= k < |order| ::
      order[k] < |edges| && forall i | 0 <= i < |edges[order[k]]| :: edges[order[k]][i] in order[..k]
  }

  /** Along a path inside a ranking, every next node stands strictly earlier. */
  lemma {:induction false} PathDescends(edges: seq<seq<nat>>, order: seq<nat>, p: seq<nat>, k: nat)
    requires Ranked(edges, order) && IsPath(edges, p) && k < |order| && p[0] == order[k]
    ensures |p| <= k + 1
    ensures |p| >= 2 ==> p[|p| - 1] in order[..k]
    decreases |p|
  {
    if |p| >= 2 {
      assert p[0 + 1] in edges[p[0]];
      assert p[1] in order[..k];
      var next :| 0 <= next < k && order[..k][next] == p[1];
      forall i: nat | i < |p[1..]| - 1 ensures p[1..][i + 1] in edges[p[1..][i]] {
        assert p[i + 1 + 1] in edges[p[i + 1]];
      }
      PathDescends(edges, order, p[1..], next);
      var last := p[1..][|p| - 2];
      if |p| >= 3 { assert last in order[..next]; }
    }
  }

  /** The ranking bounds every walk over the graph, which is why the checker that follows may recurse freely. */
  lemma RankBoundsWalks(edges: seq<seq<nat>>, order: seq<nat>, p: seq<nat>)
    requires Ranked(edges, order) && IsPath(edges, p) && p[0] in order
    ensures |p| <= |order|
  {
    var k :| 0 <= k < |order| && order[k] == p[0];
    PathDescends(edges, order, p, k);
  }

  lemma {:induction false} FirstPosition(order: seq<nat>, v: nat) returns (k: nat)
    requires v in order
    ensures k < |order| && order[k] == v && v !in order[..k]
  {
    if order[0] == v {
      k := 0;
    } else {
      assert v in order[1..];
      k := FirstPosition(order[1..], v);
      assert order[..k + 1] == [order[0]] + order[1..][..k];
      k := k + 1;
    }
  }

  lemma RankedIsAcyclic(edges: seq<seq<nat>>, order: seq<nat>, v: nat)
    requires Ranked(edges, order) && v in order
    ensures !OnCycle(edges, v)
  {
    if OnCycle(edges, v) {
      var p :| IsPath(edges, p) && |p| >= 2 && p[0] == v && p[|p| - 1] == v;
      var k := FirstPosition(order, v);
      PathDescends(edges, order, p, k);
    }
  }

  // ---------------------------------------------------------------- the stack

  /** The nodes being explored below a stack position, outermost first. */
  function Trail(stack: seq<Frame>): seq<nat> {
    if stack == [] then []
    else
      var last := |stack| - 1;
      Trail(stack[..last]) + if stack[last].Leave? then [stack[last].node] else []
  }

  lemma TrailPush(stack: seq<Frame>, frame: Frame)
    ensures Trail(stack + [frame]) == Trail(stack) + if frame.Leave? then [frame.node] else []
  {
    assert (stack + [frame])[..|stack|] == stack;
  }

  /** What a frame at this position continues: the innermost node being explored, or the root itself. */
  predicate Continues(edges: seq<seq<nat>>, root: nat, trail: seq<nat>, node: nat) {
    if trail == [] then node == root
    else
      var inner := trail[|trail| - 1];
      inner < |edges| && node in edges[inner]
  }

  predicate Waiting(stack: seq<Frame>, k: nat, node: nat) {
    exists j :: k < j < |stack| && stack[j].node == node
  }

  /** Everything a node still being explored lists is finished or waits above it. */
  predicate Covered(edges: seq<seq<nat>>, order: seq<nat>, stack: seq<Frame>, k: nat)
    requires k < |stack| && stack[k].node < |edges|
  {
    forall i | 0 <= i < |edges[stack[k].node]| ::
      edges[stack[k].node][i] in order || Waiting(stack, k, edges[stack[k].node][i])
  }

  /** Where the run stands: every frame continues the path of active nodes from the root. */
  predicate Grounded(edges: seq<seq<nat>>, root: nat, stack: seq<Frame>) {
    && (forall k | 0 <= k < |stack| :: stack[k].node < |edges|)
    && forall k | 0 <= k < |stack| :: Continues(edges, root, Trail(stack[..k]), stack[k].node)
  }

  lemma GroundedBelow(edges: seq<seq<nat>>, root: nat, stack: seq<Frame>, frame: Frame)
    requires Grounded(edges, root, stack + [frame])
    ensures Grounded(edges, root, stack) && frame.node < |edges|
    ensures Continues(edges, root, Trail(stack), frame.node)
  {
    var all := stack + [frame];
    assert all[|stack|] == frame && all[..|stack|] == stack;
    forall k | 0 <= k < |stack| ensures all[..k] == stack[..k] && all[k] == stack[k] {}
  }

  lemma PathStep(edges: seq<seq<nat>>, p: seq<nat>, v: nat)
    requires IsPath(edges, p) && v < |edges| && v in edges[p[|p| - 1]]
    ensures IsPath(edges, p + [v])
  {
  }

  /** The trail is a path from the root. */
  lemma {:induction false} TrailIsPath(edges: seq<seq<nat>>, root: nat, stack: seq<Frame>)
    requires Grounded(edges, root, stack)
    ensures Trail(stack) != [] ==> IsPath(edges, Trail(stack)) && Trail(stack)[0] == root
  {
    if stack != [] {
      var below, frame := stack[..|stack| - 1], stack[|stack| - 1];
      assert stack == below + [frame];
      GroundedBelow(edges, root, below, frame);
      TrailIsPath(edges, root, below);
      TrailContinues(edges, root, Trail(below), frame.node);
    }
  }

  lemma TrailContinues(edges: seq<seq<nat>>, root: nat, trail: seq<nat>, node: nat)
    requires node < |edges| && Continues(edges, root, trail, node)
    requires trail != [] ==> IsPath(edges, trail) && trail[0] == root
    ensures IsPath(edges, trail + [node]) && (trail + [node])[0] == root
  {
    if trail == [] { assert trail + [node] == [node]; } else { PathStep(edges, trail, node); }
  }

  lemma SuffixPath(edges: seq<seq<nat>>, p: seq<nat>, i: nat)
    requires IsPath(edges, p) && i < |p|
    ensures IsPath(edges, p[i..])
  {
    forall j: nat | j < |p[i..]| - 1 ensures p[i..][j + 1] in edges[p[i..][j]] {
      assert p[i + j + 1] in edges[p[i + j]];
    }
  }

  /** The path of active nodes, with the entered node at its end. */
  lemma EnteredIsReached(edges: seq<seq<nat>>, root: nat, stack: seq<Frame>, node: nat)
    requires Closed(edges) && Grounded(edges, root, stack) && node < |edges|
    requires Continues(edges, root, Trail(stack), node)
    ensures IsPath(edges, Trail(stack) + [node]) && (Trail(stack) + [node])[0] == root && Reaches(edges, root, node)
  {
    TrailIsPath(edges, root, stack);
    var trail := Trail(stack);
    if trail != [] {
      PathExtended(edges, trail, node);
    }
    assert (trail + [node])[|trail + [node]| - 1] == node;
  }

  /** Entering an active node closes a cycle. */
  lemma ReturnIsCycle(edges: seq<seq<nat>>, p: seq<nat>, i: nat)
    requires IsPath(edges, p) && i < |p| - 1 && p[i] == p[|p| - 1]
    ensures OnCycle(edges, p[i])
  {
    SuffixPath(edges, p, i);
    assert p[i..][0] == p[i] && p[i..][|p[i..]| - 1] == p[i];
  }

  /** What the checks on the run amount to, as a fact about the graph. */
  ghost predicate Explains(g: Graph, root: nat, verdict: Verdict) {
    match verdict
    case Accepted =>
      && (forall v | 0 <= v < |g| && Reaches(Followed(g), root, v) :: g[v].sound && !OnCycle(Followed(g), v))
      && exists order :: Ranked(Followed(g), order) && root in order
    case CycleAt(v) => v < |g| && Reaches(Followed(g), root, v) && OnCycle(Followed(g), v)
    case MalformedAt(v) => v < |g| && Reaches(Followed(g), root, v) && !g[v].sound
  }

  /** A ranking that holds the root holds everything reachable from it, and none of that is on a cycle. */
  lemma ReachedIsRanked(g: Graph, root: nat, order: seq<nat>)
    requires Ranked(Followed(g), order) && root in order
    ensures forall v | 0 <= v < |g| && Reaches(Followed(g), root, v) :: v in order && !OnCycle(Followed(g), v)
  {
    var edges := Followed(g);
    var nodes := set v | v in order;
    assert ClosedUnder(edges, nodes) by {
      forall v | v in nodes ensures v < |edges| && forall i | 0 <= i < |edges[v]| :: edges[v][i] in nodes {
        var k :| 0 <= k < |order| && order[k] == v;
      }
    }
    forall v | 0 <= v < |g| && Reaches(edges, root, v) ensures v in order && !OnCycle(edges, v) {
      var p :| IsPath(edges, p) && p[0] == root && p[|p| - 1] == v;
      PathStays(edges, nodes, p, |p| - 1);
      RankedIsAcyclic(edges, order, v);
    }
  }

  // ---------------------------------------------------------------- the run

  /** Finished nodes are ranked; everything an active node lists is finished or waits above it. */
  predicate Consistent(edges: seq<seq<nat>>, root: nat, stack: seq<Frame>, order: seq<nat>) {
    && Grounded(edges, root, stack)
    && (forall k: nat | k < |stack| && stack[k].Leave? :: Covered(edges, order, stack, k))
    && (forall k: nat | k < |stack| && stack[k].Leave? :: stack[k].node !in Trail(stack[..k]))
    && Ranked(edges, order)
    && (stack == [] ==> root in order)
  }

  /** What was covered stays covered when the top frame goes, once its node is finished. */
  lemma CoveredBelow(edges: seq<seq<nat>>, stack: seq<Frame>, frame: Frame, order: seq<nat>, order': seq<nat>, k: nat)
    requires k < |stack| && stack[k].node < |edges| && Covered(edges, order, stack + [frame], k)
    requires frame.node in order' && forall v | v in order :: v in order'
    ensures Covered(edges, order', stack, k)
  {
    var all := stack + [frame];
    assert all[k] == stack[k];
    forall i | 0 <= i < |edges[stack[k].node]|
      ensures edges[stack[k].node][i] in order' || Waiting(stack, k, edges[stack[k].node][i])
    {
      var v := edges[stack[k].node][i];
      if v !in order' {
        assert Waiting(all, k, v);
        var j :| k < j < |all| && all[j].node == v;
        assert stack[j].node == v;
      }
    }
  }

  lemma PopKeeps(edges: seq<seq<nat>>, root: nat, stack: seq<Frame>, frame: Frame, order: seq<nat>, order': seq<nat>)
    requires Consistent(edges, root, stack + [frame], order) && Ranked(edges, order')
    requires frame.node in order' && forall v | v in order :: v in order'
    ensures Consistent(edges, root, stack, order')
  {
    var all := stack + [frame];
    GroundedBelow(edges, root, stack, frame);
    forall k: nat | k < |stack| && stack[k].Leave?
      ensures Covered(edges, order', stack, k) && stack[k].node !in Trail(stack[..k])
    {
      assert all[k] == stack[k] && all[..k] == stack[..k];
      CoveredBelow(edges, stack, frame, order, order', k);
    }
    if stack == [] { assert all[..0] == [] && all[0] == frame; }
  }

  /** A node is finished when everything it lists is. */
  lemma LeaveRanks(edges: seq<seq<nat>>, root: nat, stack: seq<Frame>, v: nat, order: seq<nat>)
    requires Consistent(edges, root, stack + [Leave(v)], order)
    ensures Ranked(edges, order + [v])
  {
    var all := stack + [Leave(v)];
    assert all[|stack|] == Leave(v) && Covered(edges, order, all, |stack|);
    forall i | 0 <= i < |edges[v]| ensures edges[v][i] in order {
      assert edges[v][i] in order || Waiting(all, |stack|, edges[v][i]);
    }
    var longer := order + [v];
    forall k | 0 <= k < |longer|
      ensures longer[k] < |edges| && forall i | 0 <= i < |edges[longer[k]]| :: edges[longer[k]][i] in longer[..k]
    {
      if k < |order| {
        assert longer[k] == order[k] && longer[..k] == order[..k];
      } else {
        assert longer[..k] == order;
      }
    }
  }

  function Entries(children: seq<nat>): (r: seq<Frame>)
    ensures |r| == |children|
    ensures forall i | 0 <= i < |r| :: r[i] == Enter(children[|children| - 1 - i])
  {
    seq(|children|, i requires 0 <= i < |children| => Enter(children[|children| - 1 - i]))
  }

  lemma {:induction false} TrailOfEntries(stack: seq<Frame>, entries: seq<Frame>)
    requires forall i | 0 <= i < |entries| :: entries[i].Enter?
    ensures Trail(stack + entries) == Trail(stack)
  {
    if entries == [] {
      assert stack + entries == stack;
    } else {
      var last := |entries| - 1;
      TrailOfEntries(stack, entries[..last]);
      TrailPush(stack + entries[..last], entries[last]);
      assert stack + entries[..last] + [entries[last]] == stack + entries;
    }
  }

  lemma PushGrounded(edges: seq<seq<nat>>, root: nat, stack: seq<Frame>, v: nat)
    requires Closed(edges) && Grounded(edges, root, stack) && v < |edges| && Continues(edges, root, Trail(stack), v)
    ensures Grounded(edges, root, stack + [Leave(v)] + Entries(edges[v]))
  {
    var left := stack + [Leave(v)];
    var all := left + Entries(edges[v]);
    TrailPush(stack, Leave(v));
    forall k | 0 <= k < |all|
      ensures all[k].node < |edges| && Continues(edges, root, Trail(all[..k]), all[k].node)
    {
      if k < |stack| {
        assert all[k] == stack[k] && all[..k] == stack[..k];
      } else if k == |stack| {
        assert all[k] == Leave(v) && all[..k] == stack;
      } else {
        var i := k - |left|;
        assert all[k] == Entries(edges[v])[i] && all[..k] == left + Entries(edges[v])[..i];
        TrailOfEntries(left, Entries(edges[v])[..i]);
      }
    }
  }

  lemma CoveredAbove(edges: seq<seq<nat>>, stack: seq<Frame>, v: nat, order: seq<nat>, k: nat)
    requires v < |edges| && k < |stack| && stack[k].node < |edges| && Covered(edges, order, stack + [Enter(v)], k)
    ensures Covered(edges, order, stack + [Leave(v)] + Entries(edges[v]), k)
  {
    var was, all := stack + [Enter(v)], stack + [Leave(v)] + Entries(edges[v]);
    assert all[k] == stack[k] == was[k];
    forall i | 0 <= i < |edges[stack[k].node]|
      ensures edges[stack[k].node][i] in order || Waiting(all, k, edges[stack[k].node][i])
    {
      var w := edges[stack[k].node][i];
      if w !in order {
        assert Waiting(was, k, w);
        var j :| k < j < |was| && was[j].node == w;
        assert all[j].node == w;
      }
    }
  }

  lemma CoveredItself(edges: seq<seq<nat>>, stack: seq<Frame>, v: nat, order: seq<nat>)
    requires v < |edges|
    ensures var all := stack + [Leave(v)] + Entries(edges[v]); all[|stack|] == Leave(v) && Covered(edges, order, all, |stack|)
  {
    var all := stack + [Leave(v)] + Entries(edges[v]);
    forall i | 0 <= i < |edges[v]| ensures Waiting(all, |stack|, edges[v][i]) {
      assert all[|stack| + |edges[v]| - i].node == edges[v][i];
    }
  }

  lemma EnterCovers(edges: seq<seq<nat>>, root: nat, stack: seq<Frame>, v: nat, order: seq<nat>)
    requires Consistent(edges, root, stack + [Enter(v)], order) && v < |edges| && v !in Trail(stack)
    ensures var all := stack + [Leave(v)] + Entries(edges[v]);
            forall k: nat | k < |all| && all[k].Leave? ::
              all[k].node < |edges| && Covered(edges, order, all, k) && all[k].node !in Trail(all[..k])
  {
    var was, all := stack + [Enter(v)], stack + [Leave(v)] + Entries(edges[v]);
    CoveredItself(edges, stack, v, order);
    assert all[..|stack|] == stack;
    forall k: nat | k < |stack| && all[k].Leave?
      ensures all[k].node < |edges| && Covered(edges, order, all, k) && all[k].node !in Trail(all[..k])
    {
      assert all[k] == stack[k] == was[k] && all[..k] == stack[..k] == was[..k];
      CoveredAbove(edges, stack, v, order, k);
    }
  }

  /** An entered node becomes active, with everything it lists waiting above it. */
  lemma EnterKeeps(edges: seq<seq<nat>>, root: nat, stack: seq<Frame>, v: nat, order: seq<nat>)
    requires Closed(edges) && Consistent(edges, root, stack + [Enter(v)], order) && v !in Trail(stack)
    ensures v < |edges| && Consistent(edges, root, stack + [Leave(v)] + Entries(edges[v]), order)
    ensures Trail(stack + [Leave(v)] + Entries(edges[v])) == Trail(stack) + [v]
  {
    GroundedBelow(edges, root, stack, Enter(v));
    PushGrounded(edges, root, stack, v);
    TrailPush(stack, Leave(v));
    TrailOfEntries(stack + [Leave(v)], Entries(edges[v]));
    EnterCovers(edges, root, stack, v, order);
  }

  /** The marks agree with the stack and with the finishing order. */
  ghost predicate Exploring(g: Graph, root: nat, stack: seq<Frame>, order: seq<nat>, active: set<nat>, complete: set<nat>) {
    && Consistent(Followed(g), root, stack, order)
    && (forall v :: v in active <==> v in Trail(stack))
    && (forall v :: v in complete <==> v in order)
    && (forall v | v in active + complete :: v < |g| && g[v].sound)
  }

  lemma LeaveStep(g: Graph, root: nat, stack: seq<Frame>, v: nat, order: seq<nat>, active: set<nat>, complete: set<nat>)
    requires Exploring(g, root, stack + [Leave(v)], order, active, complete)
    ensures v in active && Exploring(g, root, stack, order + [v], active - {v}, complete + {v})
  {
    var all := stack + [Leave(v)];
    assert all[|stack|] == Leave(v) && all[..|stack|] == stack;
    TrailPush(stack, Leave(v));
    LeaveRanks(Followed(g), root, stack, v, order);
    PopKeeps(Followed(g), root, stack, Leave(v), order, order + [v]);
  }

  lemma SkipStep(g: Graph, root: nat, stack: seq<Frame>, v: nat, order: seq<nat>, active: set<nat>, complete: set<nat>)
    requires Exploring(g, root, stack + [Enter(v)], order, active, complete) && v in complete
    ensures Exploring(g, root, stack, order, active, complete)
  {
    TrailPush(stack, Enter(v));
    PopKeeps(Followed(g), root, stack, Enter(v), order, order);
  }

  lemma EnterStep(g: Graph, root: nat, stack: seq<Frame>, v: nat, order: seq<nat>, active: set<nat>, complete: set<nat>)
    requires Closed(Followed(g)) && Exploring(g, root, stack + [Enter(v)], order, active, complete)
    requires v < |g| && v !in active && g[v].sound
    ensures Exploring(g, root, stack + [Leave(v)] + Entries(Followed(g)[v]), order, active + {v}, complete)
  {
    TrailPush(stack, Enter(v));
    EnterKeeps(Followed(g), root, stack, v, order);
  }

  /** An entered node is reached from the root; if it is active it lies on a cycle. */
  lemma EnteredStep(g: Graph, root: nat, stack: seq<Frame>, v: nat, order: seq<nat>, active: set<nat>, complete: set<nat>)
    requires Closed(Followed(g)) && Exploring(g, root, stack + [Enter(v)], order, active, complete)
    ensures v < |g|
    ensures v in active ==> Explains(g, root, CycleAt(v))
    ensures !g[v].sound ==> Explains(g, root, MalformedAt(v))
  {
    TrailPush(stack, Enter(v));
    GroundedBelow(Followed(g), root, stack, Enter(v));
    EnteredIsReached(Followed(g), root, stack, v);
    if v in active {
      var trail := Trail(stack);
      var i :| 0 <= i < |trail| && trail[i] == v;
      ReturnIsCycle(Followed(g), trail + [v], i);
    }
  }

  function Unmarked(g: Graph, active: set<nat>, complete: set<nat>): set<nat> {
    set v: nat | v < |g| && v !in active && v !in complete
  }

  lemma MarksOnce(g: Graph, active: set<nat>, complete: set<nat>, v: nat)
    ensures v in active ==> Unmarked(g, active - {v}, complete + {v}) == Unmarked(g, active, complete)
    ensures v < |g| && v !in active && v !in complete ==>
              Unmarked(g, active + {v}, complete) < Unmarked(g, active, complete)
  {
    if v < |g| && v !in active && v !in complete {
      assert v in Unmarked(g, active, complete) && v !in Unmarked(g, active + {v}, complete);
    }
  }

  lemma Starts(g: Graph, root: nat)
    requires root < |g|
    ensures Exploring(g, root, [Enter(root)], [], {}, {})
  {
    var stack := [Enter(root)];
    assert stack[..0] == [];
  }

  lemma Finishes(g: Graph, root: nat, order: seq<nat>, active: set<nat>, complete: set<nat>)
    requires Exploring(g, root, [], order, active, complete)
    ensures Explains(g, root, Accepted)
  {
    ReachedIsRanked(g, root, order);
  }

  method PushContent(g: Graph, node: nat, stack: seq<Frame>) returns (r: seq<Frame>)
    requires node < |g|
    ensures r == stack + Entries(Followed(g)[node])
  {
    r := stack;
    if !g[node].leaf {
      var children := g[node].children;
      for index := |children| downto 0
        invariant r == stack + Entries(children)[..|children| - index]
      {
        r := r + [Enter(children[index])];
      }
    }
  }

  /** The check as it runs. Every object is entered at most once, so it ends on cyclic graphs too. */
  method Check(g: Graph, root: nat) returns (verdict: Verdict)
    requires root < |g| && Closed(Followed(g))
    ensures Explains(g, root, verdict)
  {
    var stack: seq<Frame> := [Enter(root)];
    var active: set<nat>, complete: set<nat> := {}, {};
    ghost var order: seq<nat> := [];
    Starts(g, root);
    while stack != []
      invariant Exploring(g, root, stack, order, active, complete)
      decreases Unmarked(g, active, complete), |stack|
    {
      var frame := stack[|stack| - 1];
      assert stack == stack[..|stack| - 1] + [frame];
      stack := stack[..|stack| - 1];
      var node := frame.node;
      MarksOnce(g, active, complete, node);
      if frame.Leave? {
        LeaveStep(g, root, stack, node, order, active, complete);
        active, complete, order := active - {node}, complete + {node}, order + [node];
      } else {
        EnteredStep(g, root, stack, node, order, active, complete);
        if node in active { return CycleAt(node); }
        if node in complete {
          SkipStep(g, root, stack, node, order, active, complete);
        } else {
          if !g[node].sound { return MalformedAt(node); }
          EnterStep(g, root, stack, node, order, active, complete);
          active := active + {node};
          stack := PushContent(g, node, stack + [Leave(node)]);
        }
      }
    }
    Finishes(g, root, order, active, complete);
    verdict := Accepted;
  }

  /** The graph is accepted iff it is ranked from the root by well-shaped objects. */
  lemma AcceptedIff(g: Graph, root: nat, verdict: Verdict)
    requires root < |g| && Explains(g, root, verdict)
    requires forall v | 0 <= v < |g| && Reaches(Followed(g), root, v) :: g[v].sound
    ensures verdict.Accepted? <==> exists order :: Ranked(Followed(g), order) && root in order
  {
    if order :| Ranked(Followed(g), order) && root in order {
      ReachedIsRanked(g, root, order);
    }
  }

  /** On well-shaped objects a cycle is reported iff one is reachable through what is followed. */
  lemma CycleReportedIff(g: Graph, root: nat, verdict: Verdict)
    requires root < |g| && Explains(g, root, verdict)
    requires forall v | 0 <= v < |g| && Reaches(Followed(g), root, v) :: g[v].sound
    ensures verdict.CycleAt? <==> exists v: nat :: v < |g| && Reaches(Followed(g), root, v) && OnCycle(Followed(g), v)
  {
  }
}
