/** The spanning tree a depth-first search leaves behind, read off its numbering and parent array. Vertices
    are numbered from one in the order of their visit, and an ancestor is numbered below its descendants.
    Two facts carry the theory of semidominators: the descendants of a vertex are numbered without gaps,
    and a path that is never numbered below its start stays among the descendants of that start. */
module DepthFirstTree {
  import opened FlowGraph

  /** `u` lies on the parent chain of `v`, `v` included. A parent counts only when it is numbered lower. */
  ghost predicate Ancestor(num: seq<int>, parent: seq<int>, u: int, v: int)
    decreases if 0 <= v < |num| && num[v] > 0 then num[v] else 0
  {
    || u == v
    || (&& |parent| == |num| && 0 <= v < |num| && 0 <= parent[v] < |num|
        && 0 < num[parent[v]] < num[v]
        && Ancestor(num, parent, u, parent[v]))
  }

  /** The outcome of a depth-first search from the root: `num` numbers the visited vertices from 1
      (0 is unvisited), `vertex` is its inverse and `parent` the tree. */
  datatype Tree = Tree(g: Graph, num: seq<int>, vertex: seq<int>, parent: seq<int>, count: int) {

    ghost predicate Visited(v: int) {
      0 <= v < g.n && v < |num| && num[v] > 0
    }

    ghost predicate Anc(u: int, v: int) {
      Ancestor(num, parent, u, v)
    }

    ghost predicate Shape() {
      && g.Valid()
      && |num| == |parent| == g.n && |vertex| == g.n + 1
      && 1 <= count <= g.n
      && num[ROOT] == 1 && parent[ROOT] == -1
    }

    /** `num` and `vertex` are mutually inverse on 1..count. */
    ghost predicate Numbered()
      requires Shape()
    {
      && (forall v :: 0 <= v < g.n ==> 0 <= num[v] <= count)
      && (forall v {:trigger Visited(v)} :: Visited(v) ==> vertex[num[v]] == v)
      && (forall i :: 1 <= i <= count ==> 0 <= vertex[i] < g.n && num[vertex[i]] == i)
    }

    ghost predicate TreeArc(v: int)
      requires Shape() && Visited(v)
    {
      g.Arc(parent[v], v)
    }

    /** Every visited non-root vertex hangs below a smaller visited vertex by an arc. */
    ghost predicate Spanning()
      requires Shape()
    {
      && (forall v {:trigger parent[v]} :: Visited(v) && v != ROOT ==>
            0 <= parent[v] < g.n && 0 < num[parent[v]] < num[v])
      && (forall v {:trigger TreeArc(v)} :: Visited(v) && v != ROOT ==> TreeArc(v))
    }

    /** The parent of the next vertex is on the chain of the previous one. */
    ghost predicate Follows(i: int)
      requires Shape() && Numbered() && 1 <= i < count
    {
      Anc(parent[vertex[i + 1]], vertex[i])
    }

    /** `num` is a preorder. */
    ghost predicate Preorder()
      requires Shape() && Numbered()
    {
      forall i :: 1 <= i < count ==> Follows(i)
    }

    /** Arcs never leave the visited set, and an arc to a higher number goes to a descendant. */
    ghost predicate Explored()
      requires Shape()
    {
      forall u, v {:trigger g.Arc(u, v)} :: g.Arc(u, v) && Visited(u) ==> Visited(v) && (num[u] < num[v] ==> Anc(u, v))
    }

    ghost predicate Valid() {
      Shape() && Numbered() && Spanning() && Preorder() && Explored()
    }
  }

  lemma {:induction false} AncestorTransitive(num: seq<int>, parent: seq<int>, u: int, v: int, w: int)
    requires Ancestor(num, parent, u, v) && Ancestor(num, parent, v, w)
    ensures Ancestor(num, parent, u, w)
    decreases if 0 <= w < |num| && num[w] > 0 then num[w] else 0
  {
    if v != w {
      AncestorTransitive(num, parent, u, v, parent[w]);
    }
  }

  lemma {:induction false} AncestorRank(num: seq<int>, parent: seq<int>, u: int, v: int)
    requires Ancestor(num, parent, u, v) && 0 <= v < |num|
    ensures 0 <= u < |num| && num[u] <= num[v] && (u != v ==> 0 < num[u] < num[v])
    decreases if 0 <= v < |num| && num[v] > 0 then num[v] else 0
  {
    if u != v {
      AncestorRank(num, parent, u, parent[v]);
    }
  }

  /** Two ancestors of one vertex are ordered by their numbers. */
  lemma {:induction false} AncestorsOrdered(num: seq<int>, parent: seq<int>, u: int, v: int, w: int)
    requires Ancestor(num, parent, u, w) && Ancestor(num, parent, v, w)
    requires 0 <= w < |num| && 0 <= u < |num| && 0 <= v < |num|
    requires num[u] < num[v] || u == v
    ensures Ancestor(num, parent, u, v)
    decreases if 0 <= w < |num| && num[w] > 0 then num[w] else 0
  {
    if u != v && v != w {
      AncestorRank(num, parent, v, w);
      AncestorsOrdered(num, parent, u, v, parent[w]);
    }
  }

  /** The chain of a numbered vertex does not change when an unnumbered vertex `t` is hung in. */
  lemma {:induction false} AncestorExtends(num: seq<int>, parent: seq<int>, t: int, k: int, s: int, u: int, v: int)
    requires |num| == |parent| && 0 <= t < |num| && num[t] == 0
    requires v != t && Ancestor(num, parent, u, v)
    ensures Ancestor(num[t := k], parent[t := s], u, v)
    decreases if 0 <= v < |num| && num[v] > 0 then num[v] else 0
  {
    if u != v {
      AncestorExtends(num, parent, t, k, s, u, parent[v]);
    }
  }

  lemma AncestorVisited(d: Tree, u: int, v: int)
    requires d.Valid() && d.Visited(v) && d.Anc(u, v)
    ensures d.Visited(u) && d.num[u] <= d.num[v] && (u != v ==> d.num[u] < d.num[v])
  {
    AncestorRank(d.num, d.parent, u, v);
  }

  lemma SameNumber(d: Tree, u: int, v: int)
    requires d.Valid() && d.Visited(u) && d.Visited(v) && d.num[u] == d.num[v]
    ensures u == v
  {
  }

  lemma OnlyRootIsFirst(d: Tree)
    requires d.Valid()
    ensures forall v :: d.Visited(v) && v != ROOT ==> d.num[v] >= 2
  {
    forall v | d.Visited(v) && d.num[v] == d.num[ROOT] ensures v == ROOT {
      SameNumber(d, v, ROOT);
    }
  }

  /** Two ancestors of one vertex are on one chain. */
  lemma ChainOrdered(d: Tree, u: int, v: int, w: int)
    requires d.Valid() && d.Visited(w) && d.Anc(u, w) && d.Anc(v, w) && d.Visited(u) && d.Visited(v)
    requires d.num[u] <= d.num[v]
    ensures d.Anc(u, v)
  {
    assert d.vertex[d.num[u]] == u && d.vertex[d.num[v]] == v;
    AncestorsOrdered(d.num, d.parent, u, v, w);
  }

  lemma {:induction false} RootIsAncestor(d: Tree, v: int)
    requires d.Valid() && d.Visited(v)
    ensures d.Anc(ROOT, v)
    decreases d.num[v]
  {
    if v != ROOT {
      RootIsAncestor(d, d.parent[v]);
    }
  }

  /** Descendants of `u` are numbered without gaps. */
  lemma {:induction false} DescendantsContiguous(d: Tree, u: int, x: int, w: int)
    requires d.Valid() && d.Visited(x) && d.Visited(w) && d.Visited(u)
    requires d.Anc(u, w) && d.num[u] <= d.num[x] <= d.num[w]
    ensures d.Anc(u, x)
    decreases d.num[w]
  {
    if d.num[x] < d.num[w] {
      var i := d.num[w] - 1;
      var y := d.vertex[i];
      assert d.vertex[i + 1] == w && d.Follows(i);
      assert w != ROOT;
      AncestorTransitive(d.num, d.parent, u, d.parent[w], y);
      DescendantsContiguous(d, u, x, y);
    } else {
      assert x == d.vertex[d.num[x]] == w;
    }
  }

  /** A path that never goes below the number of its first vertex stays among its descendants. */
  lemma {:induction false} HighPathDescends(d: Tree, p: seq<int>)
    requires d.Valid() && Path(d.g, p) && d.Visited(p[0])
    requires forall i :: 0 <= i < |p| ==> 0 <= p[i] < d.g.n && d.num[p[0]] <= d.num[p[i]]
    ensures d.Anc(p[0], p[|p| - 1])
    decreases |p|
  {
    if |p| > 1 {
      var k := |p| - 2;
      var q := p[..k + 1];
      SlicePath(d.g, p, 0, k + 1);
      assert p[0..k + 1] == q;
      HighPathDescends(d, q);
      assert q[|q| - 1] == p[k];
      var y, z := p[k], p[k + 1];
      assert d.g.Arc(y, z);
      assert d.Visited(y) && d.Visited(z);
      if d.num[y] < d.num[z] {
        AncestorTransitive(d.num, d.parent, p[0], y, z);
      } else {
        DescendantsContiguous(d, p[0], z, y);
      }
    }
  }

  /** Everything on a path out of a visited vertex is visited. */
  lemma {:induction false} PathVisited(d: Tree, p: seq<int>, i: nat)
    requires d.Valid() && Path(d.g, p) && d.Visited(p[0]) && i < |p|
    ensures d.Visited(p[i])
  {
    if i > 0 {
      PathVisited(d, p, i - 1);
      assert d.g.Arc(p[i - 1], p[i]);
    }
  }

  /** The tree path between an ancestor and a descendant. */
  lemma {:induction false} TreePath(d: Tree, u: int, v: int) returns (p: seq<int>)
    requires d.Valid() && d.Visited(v) && d.Anc(u, v)
    ensures PathBetween(d.g, u, v, p)
    ensures forall x :: x in p ==> d.Anc(u, x) && d.Anc(x, v)
    decreases d.num[v]
  {
    if u == v {
      p := [u];
    } else {
      var q := TreePath(d, u, d.parent[v]);
      p := q + [v];
      var w := d.parent[v];
      assert d.TreeArc(v);
      assert PathBetween(d.g, w, v, [w, v]);
      ConcatPaths(d.g, u, w, v, q, [w, v]);
      assert [w, v][1..] == [v];
      forall x | x in p ensures d.Anc(u, x) && d.Anc(x, v) {
        if x in q {
          AncestorTransitive(d.num, d.parent, x, w, v);
        }
      }
    }
  }

  /** The visited vertices are exactly the reachable ones. */
  lemma VisitedIsReachable(d: Tree, v: int)
    requires d.Valid()
    ensures d.Visited(v) <==> Reachable(d.g, v)
  {
    if d.Visited(v) {
      RootIsAncestor(d, v);
      var p := TreePath(d, ROOT, v);
      assert PathBetween(d.g, ROOT, v, p);
    }
    if Reachable(d.g, v) {
      var p :| PathBetween(d.g, ROOT, v, p);
      PathVisited(d, p, |p| - 1);
    }
  }

  /** Between a proper ancestor and a descendant there is a child of the ancestor. */
  lemma {:induction false} ChildToward(d: Tree, u: int, v: int) returns (c: int)
    requires d.Valid() && d.Visited(v) && d.Anc(u, v) && u != v
    ensures d.Visited(c) && c != ROOT && d.parent[c] == u && d.Anc(c, v)
    decreases d.num[v]
  {
    if d.parent[v] == u {
      c := v;
    } else {
      c := ChildToward(d, u, d.parent[v]);
      AncestorTransitive(d.num, d.parent, c, d.parent[v], v);
    }
  }
}
