/** Finite digraphs with root 0, their paths, and dominance stated on paths alone. */
module FlowGraph {

  const ROOT: nat := 0

  datatype Edge = Edge(source: nat, target: nat)

  datatype Graph = Graph(n: nat, edges: seq<Edge>) {
    ghost predicate InRange() {
      forall e :: 0 <= e < |edges| ==> edges[e].source < n && edges[e].target < n
    }

    ghost predicate Valid() {
      0 < n && InRange()
    }

    ghost predicate Arc(u: int, v: int) {
      exists e :: 0 <= e < |edges| && edges[e].source == u && edges[e].target == v
    }
  }

  ghost predicate Path(g: Graph, p: seq<int>) {
    |p| > 0 && forall i, j :: 0 <= i && j == i + 1 && j < |p| ==> g.Arc(p[i], p[j])
  }

  ghost predicate PathBetween(g: Graph, u: int, v: int, p: seq<int>) {
    Path(g, p) && p[0] == u && p[|p| - 1] == v
  }

  ghost predicate Reachable(g: Graph, v: int) {
    exists p :: PathBetween(g, ROOT, v, p)
  }

  /** Every path from the root to `v` runs through `d`. */
  ghost predicate Dominates(g: Graph, d: int, v: int) {
    forall p :: PathBetween(g, ROOT, v, p) ==> d in p
  }

  /** `d` strictly dominates `v`, and every other strict dominator of `v` dominates `d`. */
  ghost predicate ImmediateDominator(g: Graph, d: int, v: int) {
    && d != v
    && Dominates(g, d, v)
    && forall e :: e != v && Dominates(g, e, v) ==> Dominates(g, e, d)
  }

  ghost function Dominators(g: Graph, v: int): set<int> {
    set d | 0 <= d < g.n && Dominates(g, d, v)
  }

  lemma ConcatPaths(g: Graph, u: int, v: int, w: int, p: seq<int>, q: seq<int>)
    requires PathBetween(g, u, v, p) && PathBetween(g, v, w, q)
    ensures PathBetween(g, u, w, p + q[1..])
    ensures forall x :: x in p + q[1..] ==> x in p || x in q
  {
  }

  lemma SlicePath(g: Graph, p: seq<int>, a: nat, b: nat)
    requires Path(g, p) && a < b <= |p|
    ensures PathBetween(g, p[a], p[b - 1], p[a..b])
  {
  }

  /** Dominance is transitive. */
  lemma DominatesTransitive(g: Graph, a: int, b: int, c: int)
    requires Dominates(g, a, b) && Dominates(g, b, c)
    ensures Dominates(g, a, c)
  {
    forall p | PathBetween(g, ROOT, c, p) ensures a in p {
      var i :| 0 <= i < |p| && p[i] == b;
      SlicePath(g, p, 0, i + 1);
      assert a in p[0..i + 1];
    }
  }
}
