/** Finite node graphs by number, where references may be shared and may form cycles. */
module NodeGraph {

  /** Every list names nodes of the graph. */
  predicate Closed(g: seq<seq<nat>>) {
    forall v: nat, i: nat | v < |g| && i < |g[v]| :: g[v][i] < |g|
  }

  /** A non-empty chain of nodes, each listed by the one before it. */
  predicate IsPath(g: seq<seq<nat>>, p: seq<nat>) {
    && p != []
    && (forall i | 0 <= i < |p| :: p[i] < |g|)
    && forall i: nat | i < |p| - 1 :: p[i + 1] in g[p[i]]
  }

  ghost predicate Reaches(g: seq<seq<nat>>, u: nat, v: nat) {
    exists p :: IsPath(g, p) && p[0] == u && p[|p| - 1] == v
  }

  /** The node lies on a cycle. */
  ghost predicate OnCycle(g: seq<seq<nat>>, v: nat) {
    exists p :: IsPath(g, p) && |p| >= 2 && p[0] == v && p[|p| - 1] == v
  }

  /** A set that holds every node its members list. */
  predicate ClosedUnder(g: seq<seq<nat>>, nodes: set<nat>) {
    forall v | v in nodes :: v < |g| && forall i | 0 <= i < |g[v]| :: g[v][i] in nodes
  }

  lemma ReachesSelf(g: seq<seq<nat>>, v: nat)
    requires v < |g|
    ensures Reaches(g, v, v)
  {
    assert IsPath(g, [v]);
  }

  lemma PathExtended(g: seq<seq<nat>>, p: seq<nat>, v: nat)
    requires Closed(g) && IsPath(g, p) && v in g[p[|p| - 1]]
    ensures IsPath(g, p + [v])
  {
  }

  lemma ReachesNext(g: seq<seq<nat>>, u: nat, v: nat, w: nat)
    requires Closed(g) && v < |g| && Reaches(g, u, v) && w in g[v]
    ensures Reaches(g, u, w)
  {
    var p :| IsPath(g, p) && p[0] == u && p[|p| - 1] == v;
    PathExtended(g, p, w);
    assert (p + [w])[0] == u && (p + [w])[|p|] == w;
  }

  /** A path never leaves a closed set. */
  lemma {:induction false} PathStays(g: seq<seq<nat>>, nodes: set<nat>, p: seq<nat>, i: nat)
    requires ClosedUnder(g, nodes) && IsPath(g, p) && p[0] in nodes && i < |p|
    ensures p[i] in nodes
  {
    if i > 0 {
      PathStays(g, nodes, p, i - 1);
      assert p[i - 1 + 1] in g[p[i - 1]];
    }
  }
}
