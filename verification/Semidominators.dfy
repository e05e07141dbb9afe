/** Semidominators of a depth-first tree, and what they say about dominance. */
module Semidominators {
  import opened FlowGraph
  import opened DepthFirstTree

  /** A path from `x` to `w` whose interior is numbered above `w`. */
  ghost predicate SemiPath(d: Tree, x: int, w: int, p: seq<int>) {
    && PathBetween(d.g, x, w, p) && |p| >= 2 && d.Visited(x) && d.Visited(w)
    && forall i :: 0 < i < |p| - 1 ==> d.Visited(p[i]) && d.num[p[i]] > d.num[w]
  }

  ghost predicate Candidate(d: Tree, x: int, w: int) {
    exists p :: SemiPath(d, x, w, p)
  }

  /** `s` is the least number of a vertex with a semidominator path to `w`. */
  ghost predicate IsSemi(d: Tree, w: int, s: int) {
    && (exists x :: Candidate(d, x, w) && d.num[x] == s)
    && (forall x :: Candidate(d, x, w) ==> s <= d.num[x])
  }

  lemma {:induction false} LeastCandidate(d: Tree, w: int, x: int) returns (s: int)
    requires d.Visited(x) && Candidate(d, x, w)
    ensures IsSemi(d, w, s)
    decreases d.num[x]
  {
    if y :| Candidate(d, y, w) && d.num[y] < d.num[x] {
      s := LeastCandidate(d, w, y);
    } else {
      s := d.num[x];
    }
  }

  lemma ParentIsCandidate(d: Tree, w: int)
    requires d.Valid() && d.Visited(w) && w != ROOT
    ensures Candidate(d, d.parent[w], w)
  {
    assert d.TreeArc(w);
    assert SemiPath(d, d.parent[w], w, [d.parent[w], w]);
  }

  lemma SdomExists(d: Tree, w: int)
    requires d.Valid() && d.Visited(w) && w != ROOT
    ensures exists s :: IsSemi(d, w, s)
  {
    ParentIsCandidate(d, w);
    var s := LeastCandidate(d, w, d.parent[w]);
  }

  /** The number of the semidominator of `w`. */
  ghost function Sdom(d: Tree, w: int): (s: int)
    requires d.Valid() && d.Visited(w) && w != ROOT
    ensures IsSemi(d, w, s)
  {
    SdomExists(d, w);
    var s :| IsSemi(d, w, s);
    s
  }

  lemma SemiPathDescends(d: Tree, x: int, w: int, p: seq<int>)
    requires d.Valid() && SemiPath(d, x, w, p) && d.num[x] < d.num[w]
    ensures d.Anc(x, w)
  {
    HighPathDescends(d, p);
  }

  /** A path that realises the semidominator of `w`. */
  lemma SdomWitness(d: Tree, w: int) returns (x: int, p: seq<int>)
    requires d.Valid() && d.Visited(w) && w != ROOT
    ensures SemiPath(d, x, w, p) && d.num[x] == Sdom(d, w)
    ensures d.vertex[Sdom(d, w)] == x
  {
    var s := Sdom(d, w);
    assert IsSemi(d, w, s);
    x :| Candidate(d, x, w) && d.num[x] == s;
    p :| SemiPath(d, x, w, p);
  }

  lemma SdomBound(d: Tree, x: int, w: int, p: seq<int>)
    requires d.Valid() && d.Visited(w) && w != ROOT && SemiPath(d, x, w, p)
    ensures Sdom(d, w) <= d.num[x]
  {
  }

  /** The semidominator is a proper tree ancestor. */
  lemma SdomIsAncestor(d: Tree, w: int)
    requires d.Valid() && d.Visited(w) && w != ROOT
    ensures 1 <= Sdom(d, w) < d.num[w]
    ensures d.Visited(d.vertex[Sdom(d, w)]) && d.num[d.vertex[Sdom(d, w)]] == Sdom(d, w)
    ensures d.Anc(d.vertex[Sdom(d, w)], w)
  {
    assert d.TreeArc(w);
    SdomBound(d, d.parent[w], w, [d.parent[w], w]);
    var x, p := SdomWitness(d, w);
    SemiPathDescends(d, x, w, p);
  }

  /** An arc into `w` from a lower vertex is a semidominator path. */
  lemma LowArcBoundsSdom(d: Tree, v: int, w: int)
    requires d.Valid() && d.Visited(w) && w != ROOT && d.Visited(v) && d.g.Arc(v, w)
    ensures Sdom(d, w) <= d.num[v]
  {
    SdomBound(d, v, w, [v, w]);
  }

  /** The semidominator of a higher ancestor `u` of a predecessor of `w` also reaches `w`. */
  lemma HighAncestorBoundsSdom(d: Tree, u: int, v: int, w: int)
    requires d.Valid() && d.Visited(w) && w != ROOT && d.Visited(v) && d.g.Arc(v, w)
    requires d.Anc(u, v) && d.Visited(u) && u != ROOT && d.num[w] < d.num[u]
    ensures Sdom(d, w) <= Sdom(d, u)
  {
    var x, p := SdomWitness(d, u);
    var q := TreePath(d, u, v);
    ConcatPaths(d.g, x, u, v, p, q);
    var r := p + q[1..];
    ConcatPaths(d.g, x, v, w, r, [v, w]);
    assert PathBetween(d.g, v, w, [v, w]);
    var t := r + [v, w][1..];
    assert t == r + [w];
    forall i | 0 < i < |t| - 1 ensures d.Visited(t[i]) && d.num[t[i]] > d.num[w] {
      PathVisited(d, t, i);
      if i < |p| - 1 {
        assert t[i] == p[i];
      } else if i == |p| - 1 {
        assert t[i] == u;
      } else {
        assert t[i] == q[i - |p| + 1];
        assert t[i] in q;
        AncestorRank(d.num, d.parent, u, t[i]);
      }
    }
    SdomBound(d, x, w, t);
  }

  /** The interior vertex of a path with the least number. */
  lemma {:induction false} LowestInterior(d: Tree, p: seq<int>, k: nat) returns (j: nat)
    requires 2 <= k < |p| && forall i :: 0 < i < k ==> 0 <= p[i] < |d.num|
    ensures 0 < j < k && forall i :: 0 < i < k ==> d.num[p[j]] <= d.num[p[i]]
    ensures forall i :: 0 < i < j ==> d.num[p[j]] < d.num[p[i]]
  {
    if k == 2 {
      j := 1;
    } else {
      j := LowestInterior(d, p, k - 1);
      if d.num[p[k - 1]] < d.num[p[j]] {
        j := k - 1;
      }
    }
  }

  /** The semidominator of `w` is realised by an arc into `w`: directly, or through the
      semidominator of a higher ancestor of the arc's source. */
  lemma SdomRealised(d: Tree, w: int) returns (v: int, u: int)
    requires d.Valid() && d.Visited(w) && w != ROOT
    ensures d.Visited(v) && d.g.Arc(v, w)
    ensures || (d.num[v] == Sdom(d, w) && u == v)
            || (d.Anc(u, v) && d.Visited(u) && u != ROOT && d.num[w] < d.num[u] && Sdom(d, u) <= Sdom(d, w))
  {
    var x, p := SdomWitness(d, w);
    var k := |p| - 1;
    v := p[k - 1];
    assert d.g.Arc(p[k - 1], p[k]);
    if k == 1 {
      u := v;
    } else {
      var j := LowestInterior(d, p, k);
      u := p[j];
      var q := p[j..k];
      SlicePath(d.g, p, j, k);
      forall i | 0 <= i < |q| ensures 0 <= q[i] < d.g.n && d.num[q[0]] <= d.num[q[i]] {
        assert q[i] == p[j + i];
      }
      HighPathDescends(d, q);
      SlicePath(d.g, p, 0, j + 1);
      SdomBound(d, x, u, p[0..j + 1]);
    }
  }

  /** A dominator of a visited vertex is one of its tree ancestors. */
  lemma DominatorIsAncestor(d: Tree, e: int, w: int)
    requires d.Valid() && d.Visited(w) && Dominates(d.g, e, w)
    ensures d.Visited(e) && d.Anc(e, w)
  {
    RootIsAncestor(d, w);
    var p := TreePath(d, ROOT, w);
    assert e in p;
    AncestorRank(d.num, d.parent, ROOT, e);
  }

  /** `y` lies on the tree path from `e` to `w`, `e` excluded. */
  ghost predicate Between(d: Tree, e: int, y: int, w: int) {
    d.Visited(y) && y != ROOT && y != e && d.Anc(e, y) && d.Anc(y, w)
  }

  /** Nothing strictly below `e` on the way to `w` has a semidominator above `e`. */
  ghost predicate NoBypass(d: Tree, e: int, w: int)
    requires d.Valid() && d.Visited(e)
  {
    forall y :: Between(d, e, y, w) ==> d.num[e] <= Sdom(d, y)
  }

  /** A semidominator above `e` gives a path that goes around `e`. */
  lemma BypassAvoids(d: Tree, e: int, y: int, w: int)
    requires d.Valid() && d.Visited(w) && d.Visited(e) && d.Anc(e, w) && Between(d, e, y, w)
    requires Sdom(d, y) < d.num[e]
    ensures !Dominates(d.g, e, w)
  {
    SdomIsAncestor(d, y);
    var x := d.vertex[Sdom(d, y)];
    var x', p := SdomWitness(d, y);
    AncestorRank(d.num, d.parent, e, y);
    RootIsAncestor(d, x);
    var t := TreePath(d, ROOT, x);
    var q := TreePath(d, y, w);
    ConcatPaths(d.g, ROOT, x, y, t, p);
    ConcatPaths(d.g, ROOT, y, w, t + p[1..], q);
    var r := t + p[1..] + q[1..];
    assert e !in t by {
      if e in t {
        AncestorRank(d.num, d.parent, e, x);
      }
    }
    assert e !in p by {
      forall i | 0 <= i < |p| ensures p[i] != e {
      }
    }
    assert e !in q by {
      if e in q {
        AncestorRank(d.num, d.parent, y, e);
      }
    }
    assert PathBetween(d.g, ROOT, w, r);
  }

  lemma {:induction false} LastBelow(d: Tree, p: seq<int>, bound: int, k: nat) returns (a: nat)
    requires k < |p| && forall i :: 0 <= i < |p| ==> 0 <= p[i] < |d.num|
    requires d.num[p[0]] < bound && bound <= d.num[p[k]]
    ensures a < k && d.num[p[a]] < bound
    ensures forall i :: a < i <= k ==> bound <= d.num[p[i]]
  {
    if d.num[p[k - 1]] < bound {
      a := k - 1;
    } else {
      a := LastBelow(d, p, bound, k - 1);
    }
  }

  lemma {:induction false} FirstBetween(d: Tree, p: seq<int>, e: int, w: int, a: nat, k: nat) returns (b: nat)
    requires a < k < |p| && Between(d, e, p[k], w)
    ensures a < b <= k && Between(d, e, p[b], w)
    ensures forall i :: a < i < b ==> !Between(d, e, p[i], w)
    decreases k
  {
    if i :| a < i < k && Between(d, e, p[i], w) {
      b := FirstBetween(d, p, e, w, a, i);
    } else {
      b := k;
    }
  }

  /** Stretch `q` leaves the vertices numbered below `e` and ends in the first vertex between `e`
      and `w`: its interior is numbered above that vertex. */
  lemma StretchIsSemiPath(d: Tree, e: int, w: int, q: seq<int>)
    requires d.Valid() && d.Visited(w) && d.Visited(e) && d.Anc(e, w)
    requires |q| >= 2 && Path(d.g, q) && d.Visited(q[0]) && Between(d, e, q[|q| - 1], w)
    requires forall i :: 0 < i < |q| ==> d.Visited(q[i]) && d.num[e] < d.num[q[i]]
    requires forall i :: 0 < i < |q| - 1 ==> !Between(d, e, q[i], w)
    ensures SemiPath(d, q[0], q[|q| - 1], q)
  {
    var y := q[|q| - 1];
    if |q| > 2 {
      var j := LowestInterior(d, q, |q| - 1);
      var z := q[j];
      if d.num[z] <= d.num[y] {
        LowStretchReturns(d, e, w, q, j);
        assert false;
      }
    }
  }

  /** A lowest interior vertex not above the end of the stretch would itself lie between `e` and `w`. */
  lemma LowStretchReturns(d: Tree, e: int, w: int, q: seq<int>, j: nat)
    requires d.Valid() && d.Visited(w) && d.Visited(e) && d.Anc(e, w)
    requires 0 < j < |q| - 1 && Path(d.g, q) && Between(d, e, q[|q| - 1], w)
    requires forall i :: 0 < i < |q| ==> d.Visited(q[i]) && d.num[e] < d.num[q[i]]
    requires d.Visited(q[j])
    requires forall i :: 0 < i < |q| ==> d.Visited(q[i]) && d.num[q[j]] <= d.num[q[i]]
    ensures Between(d, e, q[j], w)
  {
    var r := q[j..|q|];
    SlicePath(d.g, q, j, |q|);
    forall h | 0 <= h < |r| ensures 0 <= r[h] < d.g.n && d.num[r[0]] <= d.num[r[h]] {
      assert r[h] == q[j + h];
    }
    HighPathDescends(d, r);
    AncestorTransitive(d.num, d.parent, q[j], q[|q| - 1], w);
    ChainOrdered(d, e, q[j], w);
  }

  lemma AvoidsByNumber(d: Tree, e: int, p: seq<int>)
    requires d.Valid() && d.Visited(e) && Path(d.g, p) && d.Visited(p[0]) && e !in p
    ensures forall i :: 0 <= i < |p| ==> d.Visited(p[i]) && d.num[p[i]] != d.num[e]
  {
    forall i | 0 <= i < |p| ensures d.Visited(p[i]) && d.num[p[i]] != d.num[e] {
      PathVisited(d, p, i);
      assert d.vertex[d.num[p[i]]] == p[i] && d.vertex[d.num[e]] == e;
    }
  }

  /** A path around `e` shows a vertex below `e` whose semidominator is above `e`. */
  lemma AvoidingPathBypasses(d: Tree, e: int, w: int, p: seq<int>)
    requires d.Valid() && d.Visited(w) && d.Visited(e) && d.Anc(e, w) && e != w
    requires PathBetween(d.g, ROOT, w, p) && e !in p
    ensures !NoBypass(d, e, w)
  {
    AncestorVisited(d, e, w);
    AvoidsByNumber(d, e, p);
    var a := LastBelow(d, p, d.num[e], |p| - 1);
    var b := FirstBetween(d, p, e, w, a, |p| - 1);
    var q := p[a..b + 1];
    SlicePath(d.g, p, a, b + 1);
    assert forall i :: 0 <= i < |q| ==> q[i] == p[a + i];
    StretchIsSemiPath(d, e, w, q);
    SdomBound(d, p[a], p[b], q);
  }

  /** A proper ancestor `e` of `w` dominates `w` exactly when nothing between them bypasses it. */
  lemma DominatesIffNoBypass(d: Tree, e: int, w: int)
    requires d.Valid() && d.Visited(w) && d.Visited(e) && d.Anc(e, w) && e != w
    ensures Dominates(d.g, e, w) <==> NoBypass(d, e, w)
  {
    if y :| Between(d, e, y, w) && Sdom(d, y) < d.num[e] {
      BypassAvoids(d, e, y, w);
    }
    if p :| PathBetween(d.g, ROOT, w, p) && e !in p {
      AvoidingPathBypasses(d, e, w, p);
    }
  }

  lemma RefinesBetween(d: Tree, e: int, s: int, w: int)
    requires d.Valid() && d.Visited(w) && d.Anc(e, s) && d.Anc(s, w)
    ensures forall y :: Between(d, e, y, s) ==> Between(d, e, y, w)
    ensures s != ROOT || e == s
  {
    forall y | Between(d, e, y, s) ensures Between(d, e, y, w) {
      AncestorTransitive(d.num, d.parent, y, s, w);
    }
    AncestorRank(d.num, d.parent, s, w);
    AncestorRank(d.num, d.parent, e, s);
  }

  /** A strict dominator of `w` is the semidominator or one of its ancestors. */
  lemma StrictDominatorAboveSdom(d: Tree, e: int, w: int)
    requires d.Valid() && d.Visited(w) && w != ROOT && e != w && Dominates(d.g, e, w)
    ensures d.Visited(e) && d.Anc(e, w) && NoBypass(d, e, w)
    ensures d.num[e] <= Sdom(d, w) && d.Anc(e, d.vertex[Sdom(d, w)])
  {
    DominatorIsAncestor(d, e, w);
    DominatesIffNoBypass(d, e, w);
    assert Between(d, e, w, w);
    SdomIsAncestor(d, w);
    var s := d.vertex[Sdom(d, w)];
    ChainOrdered(d, e, s, w);
  }

  /** When no vertex between the semidominator and `w` reaches higher, the semidominator is
      the immediate dominator. */
  lemma SdomIsImmediateDominator(d: Tree, w: int)
    requires d.Valid() && d.Visited(w) && w != ROOT
    requires var s := d.vertex[Sdom(d, w)];
      forall y :: Between(d, s, y, w) ==> Sdom(d, w) <= Sdom(d, y)
    ensures ImmediateDominator(d.g, d.vertex[Sdom(d, w)], w)
  {
    SdomIsAncestor(d, w);
    var s := d.vertex[Sdom(d, w)];
    DominatesIffNoBypass(d, s, w);
    forall e | e != w && Dominates(d.g, e, w) ensures Dominates(d.g, e, s) {
      StrictDominatorAboveSdom(d, e, w);
      RefinesBetween(d, e, s, w);
      if e == s {
        forall p | PathBetween(d.g, ROOT, s, p) ensures s in p {
          assert p[|p| - 1] in p;
        }
      } else {
        DominatesIffNoBypass(d, e, s);
      }
    }
  }

  /** Otherwise the vertex `u` in between that reaches highest has the same strict dominators. */
  lemma RelativeDominator(d: Tree, u: int, w: int)
    requires d.Valid() && d.Visited(w) && w != ROOT && Between(d, d.vertex[Sdom(d, w)], u, w)
    requires Sdom(d, u) < Sdom(d, w)
    requires forall y :: Between(d, d.vertex[Sdom(d, w)], y, w) ==> Sdom(d, u) <= Sdom(d, y)
    ensures u != w && d.num[u] < d.num[w]
    ensures forall i :: ImmediateDominator(d.g, i, u) ==> ImmediateDominator(d.g, i, w)
  {
    SdomIsAncestor(d, w);
    AncestorRank(d.num, d.parent, u, w);
    forall e ensures (e != w && Dominates(d.g, e, w)) <==> (e != u && Dominates(d.g, e, u)) {
      if e != w && Dominates(d.g, e, w) {
        StrictDominatesBelow(d, e, u, w);
      }
      if e != u && Dominates(d.g, e, u) {
        StrictDominatesAbove(d, e, u, w);
      }
    }
  }

  lemma StrictDominatesBelow(d: Tree, e: int, u: int, w: int)
    requires d.Valid() && d.Visited(w) && w != ROOT && Between(d, d.vertex[Sdom(d, w)], u, w)
    requires e != w && Dominates(d.g, e, w)
    ensures e != u && Dominates(d.g, e, u)
  {
    StrictDominatorAboveSdom(d, e, w);
    SdomIsAncestor(d, w);
    var s := d.vertex[Sdom(d, w)];
    AncestorTransitive(d.num, d.parent, e, s, u);
    AncestorRank(d.num, d.parent, s, u);
    RefinesBetween(d, e, u, w);
    DominatesIffNoBypass(d, e, u);
  }

  lemma StrictDominatesAbove(d: Tree, e: int, u: int, w: int)
    requires d.Valid() && d.Visited(w) && w != ROOT && Between(d, d.vertex[Sdom(d, w)], u, w)
    requires Sdom(d, u) < Sdom(d, w)
    requires forall y :: Between(d, d.vertex[Sdom(d, w)], y, w) ==> Sdom(d, u) <= Sdom(d, y)
    requires e != u && Dominates(d.g, e, u)
    ensures e != w && Dominates(d.g, e, w)
  {
    StrictDominatorAboveSdom(d, e, u);
    SdomIsAncestor(d, w);
    var s := d.vertex[Sdom(d, w)];
    AncestorRank(d.num, d.parent, s, u);
    AncestorRank(d.num, d.parent, u, w);
    AncestorTransitive(d.num, d.parent, e, u, w);
    forall y | Between(d, e, y, w) ensures d.num[e] <= Sdom(d, y) {
      if d.num[y] <= d.num[u] {
        ChainOrdered(d, y, u, w);
        assert Between(d, e, y, u);
      } else {
        ChainOrdered(d, s, y, w);
        assert Between(d, s, y, w);
      }
    }
    DominatesIffNoBypass(d, e, w);
  }

  /** At most one vertex is the immediate dominator of a reachable vertex. */
  lemma ImmediateDominatorUnique(d: Tree, a: int, b: int, w: int)
    requires d.Valid() && d.Visited(w)
    requires ImmediateDominator(d.g, a, w) && ImmediateDominator(d.g, b, w)
    ensures a == b
  {
    DominatorIsAncestor(d, a, w);
    DominatorIsAncestor(d, b, w);
    DominatorIsAncestor(d, a, b);
    DominatorIsAncestor(d, b, a);
    AncestorRank(d.num, d.parent, a, b);
    AncestorRank(d.num, d.parent, b, a);
  }

  /** The dominators of `w` are those of its immediate dominator, and `w`. */
  lemma DominatorsStep(d: Tree, i: int, w: int)
    requires d.Valid() && d.Visited(w) && ImmediateDominator(d.g, i, w)
    ensures w !in Dominators(d.g, i)
    ensures Dominators(d.g, w) == Dominators(d.g, i) + {w}
    ensures |Dominators(d.g, w)| == |Dominators(d.g, i)| + 1
  {
    DominatorIsAncestor(d, i, w);
    AncestorRank(d.num, d.parent, i, w);
    if Dominates(d.g, w, i) {
      DominatorIsAncestor(d, w, i);
      AncestorRank(d.num, d.parent, w, i);
      assert false;
    }
    forall e ensures e in Dominators(d.g, w) <==> e in Dominators(d.g, i) + {w} {
      if e == w {
        forall p | PathBetween(d.g, ROOT, w, p) ensures w in p {
          assert p[|p| - 1] in p;
        }
      } else if Dominates(d.g, e, i) {
        DominatesTransitive(d.g, e, i, w);
      }
    }
  }

  /** The root has only itself as a dominator. */
  lemma RootDominators(d: Tree)
    requires d.Valid()
    ensures Dominators(d.g, ROOT) == {ROOT}
  {
    assert PathBetween(d.g, ROOT, ROOT, [ROOT]);
    forall e ensures e in Dominators(d.g, ROOT) <==> e == ROOT {
      if Dominates(d.g, e, ROOT) {
        assert e in [ROOT];
      }
      forall p | PathBetween(d.g, ROOT, ROOT, p) ensures ROOT in p {
        assert p[0] in p;
      }
    }
  }
}
