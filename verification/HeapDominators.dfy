/** Immediate dominators of a strong-reference graph: semidominators in decreasing order over the
    link/eval forest, buckets, and the final pass. */
module HeapDominators {
  import opened Options
  import opened FlowGraph
  import opened LinkedLists
  import opened DepthFirstTree
  import opened Semidominators
  import opened LinkEval
  import DepthFirstSearch

  // ----- the forest after the vertices numbered above `order` have been linked

  ghost function Linked(d: Tree, order: int): (up: seq<int>)
    requires d.Shape()
    ensures |up| == d.g.n
    ensures forall v {:trigger up[v]} :: 0 <= v < d.g.n ==> up[v] == (if d.num[v] > order then d.parent[v] else -1)
  {
    seq(d.g.n, v requires 0 <= v < d.g.n => if d.num[v] > order then d.parent[v] else -1)
  }

  lemma {:induction false} ForestAncestorIsAncestor(d: Tree, order: int, u: int, v: int)
    requires d.Valid() && order >= 1 && Ancestor(d.num, Linked(d, order), u, v)
    ensures d.Anc(u, v)
    decreases if 0 <= v < |d.num| && d.num[v] > 0 then d.num[v] else 0
  {
    if u != v {
      ForestAncestorIsAncestor(d, order, u, d.parent[v]);
    }
  }

  lemma {:induction false} AncestorIsForestAncestor(d: Tree, order: int, u: int, v: int)
    requires d.Valid() && order >= 1 && d.Visited(v) && d.Visited(u) && d.Anc(u, v) && d.num[u] > order
    ensures Ancestor(d.num, Linked(d, order), u, v)
    decreases d.num[v]
  {
    if u != v {
      AncestorVisited(d, u, v);
      AncestorVisited(d, u, d.parent[v]);
      assert Linked(d, order)[v] == d.parent[v];
      AncestorIsForestAncestor(d, order, u, d.parent[v]);
    }
  }

  /** The forest path of `v` holds its tree ancestors numbered above `order`. */
  lemma OnPathMeans(d: Tree, order: int, u: int, v: int)
    requires d.Valid() && order >= 1 && d.Visited(v) && Forest(d.num, Linked(d, order))
    ensures OnPath(d.num, Linked(d, order), u, v) <==> d.Visited(u) && d.num[u] > order && d.Anc(u, v)
  {
    if OnPath(d.num, Linked(d, order), u, v) {
      ForestAncestorIsAncestor(d, order, u, v);
      AncestorVisited(d, u, v);
    }
    if d.Visited(u) && d.num[u] > order && d.Anc(u, v) {
      AncestorIsForestAncestor(d, order, u, v);
      assert u != ROOT;
      assert d.parent[u] >= 0;
    }
  }

  /** `semi` holds the semidominator numbers above `order`, and the numbering up to `order`. */
  ghost predicate SemiDone(d: Tree, order: int, semi: seq<int>)
    requires d.Valid() && order >= 1
  {
    && |semi| == d.g.n
    && forall v :: 0 <= v < d.g.n ==>
         semi[v] == if d.num[v] > order then Sdom(d, v) else d.num[v]
  }

  /** What an evaluation yields, in terms of the tree. */
  ghost predicate Evaluated(d: Tree, order: int, r: int, v: int)
    requires d.Valid() && order >= 1 && d.Visited(v)
  {
    if d.num[v] <= order then r == v
    else
      && d.Visited(r) && d.num[r] > order && d.Anc(r, v)
      && forall u :: d.Visited(u) && d.num[u] > order && d.Anc(u, v) ==> Sdom(d, r) <= Sdom(d, u)
  }

  lemma EvaluatedMeans(d: Tree, order: int, semi: seq<int>, r: int, v: int)
    requires d.Valid() && order >= 1 && d.Visited(v) && |semi| == d.g.n
    requires forall x :: 0 <= x < d.g.n && d.num[x] > order ==> semi[x] == Sdom(d, x)
    requires Forest(d.num, Linked(d, order))
    requires Linked(d, order)[v] < 0 ==> r == v
    requires Linked(d, order)[v] >= 0 ==> LeastOnPath(d.num, Linked(d, order), semi, r, v)
    ensures Evaluated(d, order, r, v)
  {
    if d.num[v] > order {
      assert v != ROOT && d.parent[v] >= 0;
      OnPathMeans(d, order, r, v);
      forall u | d.Visited(u) && d.num[u] > order && d.Anc(u, v) ensures Sdom(d, r) <= Sdom(d, u) {
        OnPathMeans(d, order, u, v);
      }
    }
  }

  // ----- the semidominator of one vertex

  /** `s` is at most what the arc from `v` offers the semidominator of `w`. */
  ghost predicate Offered(d: Tree, w: int, s: int, v: int)
    requires d.Valid() && d.Visited(w) && d.Visited(v)
  {
    && (d.num[v] <= d.num[w] ==> s <= d.num[v])
    && forall u :: d.Visited(u) && d.num[u] > d.num[w] && d.Anc(u, v) ==> s <= Sdom(d, u)
  }

  /** When every arc's offer is taken and none is undercut, the semidominator is found. */
  lemma AllOffersTaken(d: Tree, w: int, s: int)
    requires d.Valid() && d.Visited(w) && w != ROOT && Sdom(d, w) <= s <= d.num[w]
    requires forall v :: d.Visited(v) && d.g.Arc(v, w) ==> Offered(d, w, s, v)
    ensures s == Sdom(d, w)
  {
    var v, u := SdomRealised(d, w);
    assert Offered(d, w, s, v);
    SdomIsAncestor(d, w);
  }

  /** One predecessor: its offer is taken, and nothing better than the semidominator is invented. */
  lemma TakeOffer(d: Tree, w: int, v: int, r: int, s: int, offer: int)
    requires d.Valid() && d.Visited(w) && w != ROOT && d.Visited(v) && d.g.Arc(v, w)
    requires Sdom(d, w) <= s <= d.num[w] && Evaluated(d, d.num[w], r, v)
    requires offer == (if r == w then s else if d.num[r] > d.num[w] then Sdom(d, r) else d.num[r])
    ensures var s' := if offer < s then offer else s; Sdom(d, w) <= s' && Offered(d, w, s', v)
  {
    if d.num[v] <= d.num[w] {
      if v != w {
        LowArcBoundsSdom(d, v, w);
      }
      forall u | d.Visited(u) && d.num[u] > d.num[w] && d.Anc(u, v) ensures false {
        AncestorVisited(d, u, v);
      }
    } else {
      HighAncestorBoundsSdom(d, r, v, w);
    }
  }

  /** The forest before `node` is linked, with `semi` right except at `node`. */
  ghost predicate Ready(d: Tree, order: int, node: int, s: int, semi: seq<int>, ancestor: seq<int>, labels: seq<int>)
    requires d.Valid() && order >= 1
  {
    && 0 <= node < |semi| == d.g.n && semi[node] == s && SemiDone(d, order, semi[node := d.num[node]])
    && Represents(d.num, Linked(d, order), semi, ancestor, labels)
  }

  /** Every edge into `w` that is not in `rest` has made its offer. */
  ghost predicate OffersTaken(d: Tree, w: int, s: int, rest: seq<int>)
    requires d.Valid() && d.Visited(w)
  {
    && (forall e :: e in rest ==> 0 <= e < |d.g.edges| && d.g.edges[e].target == w)
    && (forall e {:trigger d.g.edges[e]} :: 0 <= e < |d.g.edges| && d.g.edges[e].target == w && e !in rest ==>
          d.Visited(d.g.edges[e].source) ==> Offered(d, w, s, d.g.edges[e].source))
  }

  lemma OfferTaken(d: Tree, w: int, s: int, s': int, rest: seq<int>)
    requires d.Valid() && d.Visited(w) && OffersTaken(d, w, s, rest) && s' <= s && rest != []
    requires 0 <= rest[0] < |d.g.edges| && rest[0] in rest
    requires d.Visited(d.g.edges[rest[0]].source) ==> Offered(d, w, s', d.g.edges[rest[0]].source)
    ensures OffersTaken(d, w, s', rest[1..])
  {
    forall e | 0 <= e < |d.g.edges| && d.g.edges[e].target == w && e !in rest[1..] && d.Visited(d.g.edges[e].source)
      ensures Offered(d, w, s', d.g.edges[e].source)
    {
      if e != rest[0] {
        assert rest == [rest[0]] + rest[1..];
        assert Offered(d, w, s, d.g.edges[e].source);
      }
    }
    forall e | e in rest[1..] ensures e in rest {
    }
  }

  lemma OffersComplete(d: Tree, w: int, s: int)
    requires d.Valid() && d.Visited(w) && w != ROOT && Sdom(d, w) <= s <= d.num[w] && OffersTaken(d, w, s, [])
    ensures s == Sdom(d, w)
  {
    forall v | d.Visited(v) && d.g.Arc(v, w) ensures Offered(d, w, s, v) {
      var e :| 0 <= e < |d.g.edges| && d.g.edges[e].source == v && d.g.edges[e].target == w;
    }
    AllOffersTaken(d, w, s);
  }

  /** Evaluates a visited predecessor; its label offers a better `semi` or does not. */
  method Offer(ghost d: Tree, semi: array<int>, ancestor: array<int>, labels: array<int>,
               ghost order: int, node: int, predecessor: int) returns (candidate: int)
    requires ancestor != labels && ancestor != semi && labels != semi
    requires d.Valid() && 2 <= order && d.Visited(node) && d.num[node] == order && node != ROOT
    requires d.Visited(predecessor) && d.g.Arc(predecessor, node)
    requires semi.Length == d.g.n && 1 <= Sdom(d, node) <= semi[node] <= order
    requires Ready(d, order, node, semi[node], semi[..], ancestor[..], labels[..])
    modifies ancestor, labels
    ensures Ready(d, order, node, semi[node], semi[..], ancestor[..], labels[..])
    ensures 0 <= candidate < semi.Length
    ensures var s := if semi[candidate] < semi[node] then semi[candidate] else semi[node];
      Sdom(d, node) <= s && Offered(d, node, s, predecessor)
  {
    candidate := EvaluateNode(d.num, Linked(d, order), semi, ancestor, labels, predecessor);
    ghost var sd := semi[..][node := d.num[node]];
    SemiVisited(d, order, node, semi[..], predecessor);
    EvaluatedMeans(d, order, semi[..], candidate, predecessor);
    assert candidate != node ==> semi[candidate] == sd[candidate];
    TakeOffer(d, node, predecessor, candidate, semi[node], semi[candidate]);
  }

  /** One round of the predecessor loop. */
  method TakePredecessor(ghost d: Tree, semi: array<int>, ancestor: array<int>, labels: array<int>,
                         ghost order: int, node: int, predecessor: int)
    requires ancestor != labels && ancestor != semi && labels != semi
    requires d.Valid() && 2 <= order && d.Visited(node) && d.num[node] == order && node != ROOT
    requires 0 <= predecessor < d.g.n && d.g.Arc(predecessor, node)
    requires semi.Length == d.g.n && 1 <= Sdom(d, node) <= semi[node] <= order
    requires Ready(d, order, node, semi[node], semi[..], ancestor[..], labels[..])
    modifies semi, ancestor, labels
    ensures Ready(d, order, node, semi[node], semi[..], ancestor[..], labels[..])
    ensures semi[..] == old(semi[..])[node := semi[node]]
    ensures Sdom(d, node) <= semi[node] <= old(semi[node])
    ensures d.Visited(predecessor) ==> Offered(d, node, semi[node], predecessor)
  {
    ghost var semi0 := semi[..];
    assert semi0 == semi0[node := semi0[node]];
    SemiVisited(d, order, node, semi0, predecessor);
    if semi[predecessor] != 0 {
      var candidate := Offer(d, semi, ancestor, labels, order, node, predecessor);
      if semi[candidate] < semi[node] {
        RootSemiStep(d.num, Linked(d, order), semi0, ancestor[..], labels[..], node, semi0[candidate]);
        semi[node] := semi[candidate];
        assert semi[..] == semi0[node := semi0[candidate]];
        assert semi[..][node := d.num[node]] == semi0[node := d.num[node]];
      }
    }
  }

  /** A zero in `semi` still marks exactly the unvisited vertices. */
  lemma SemiVisited(d: Tree, order: int, node: int, semi: seq<int>, v: int)
    requires d.Valid() && order >= 1 && 0 <= node < |semi| == d.g.n && 0 <= v < d.g.n
    requires SemiDone(d, order, semi[node := d.num[node]]) && d.Visited(node) && semi[node] >= 1
    ensures d.Visited(v) <==> semi[v] != 0
    ensures forall x :: 0 <= x < d.g.n && d.num[x] > order && x != node ==> semi[x] == Sdom(d, x)
  {
  }

  /** The predecessor loop: afterwards `semi[node]` is the number of the semidominator. */
  method ComputeSemi(ghost d: Tree, predecessorHead: array<int>, predecessorFrom: array<int>, predecessorNext: array<int>,
                     semi: array<int>, ancestor: array<int>, labels: array<int>, ghost order: int, node: int)
    requires ancestor != labels && ancestor != semi && labels != semi
    requires predecessorHead !in {semi, ancestor, labels} && predecessorFrom !in {semi, ancestor, labels}
    requires predecessorNext !in {semi, ancestor, labels}
    requires d.Valid() && 2 <= order && d.Visited(node) && d.num[node] == order && node != ROOT
    requires DepthFirstSearch.Adjacency(d.g, DepthFirstSearch.Targets(d.g), DepthFirstSearch.Sources(d.g),
      predecessorHead[..], predecessorFrom[..], predecessorNext[..])
    requires Ready(d, order, node, order, semi[..], ancestor[..], labels[..])
    modifies semi, ancestor, labels
    ensures semi[..] == old(semi[..])[node := Sdom(d, node)]
    ensures Represents(d.num, Linked(d, order), semi[..], ancestor[..], labels[..])
  {
    SdomIsAncestor(d, node);
    ghost var semi0 := semi[..];
    ghost var keys := DepthFirstSearch.Targets(d.g);
    ghost var rest := Keyed(keys, node, |keys|);
    KeyedMembers(keys, node, |keys|);
    var edge := predecessorHead[node];
    while edge >= 0
      invariant Chain(edge, predecessorNext[..], rest)
      invariant semi.Length == d.g.n && semi[..] == semi0[node := semi[node]]
      invariant 1 <= Sdom(d, node) <= semi[node] <= order
      invariant Ready(d, order, node, semi[node], semi[..], ancestor[..], labels[..])
      invariant OffersTaken(d, node, semi[node], rest)
      decreases |rest|
    {
      assert rest != [] && edge == rest[0] && edge in rest;
      var predecessor := predecessorFrom[edge];
      assert predecessor == d.g.edges[edge].source;
      ghost var s := semi[node];
      TakePredecessor(d, semi, ancestor, labels, order, node, predecessor);
      OfferTaken(d, node, s, semi[node], rest);
      rest := rest[1..];
      edge := predecessorNext[edge];
    }
    OffersComplete(d, node, semi[node]);
  }

  // ----- buckets

  /** The first answer for `w`: its semidominator when nothing below reaches higher, otherwise the
      vertex in between that reaches highest. */
  ghost predicate FirstAnswer(d: Tree, w: int, i: int)
    requires d.Valid() && d.Visited(w) && w != ROOT
  {
    var s := d.vertex[Sdom(d, w)];
    if i == s then forall y :: Between(d, s, y, w) ==> Sdom(d, w) <= Sdom(d, y)
    else
      && Between(d, s, i, w) && Sdom(d, i) < Sdom(d, w)
      && forall y :: Between(d, s, y, w) ==> Sdom(d, i) <= Sdom(d, y)
  }

  /** `w` can be answered now: its semidominator is the parent of `node`, and `node` leads to `w`. */
  ghost predicate Due(d: Tree, node: int, w: int)
    requires d.Valid() && d.Visited(node) && node != ROOT
  {
    d.Visited(w) && w != ROOT && d.vertex[Sdom(d, w)] == d.parent[node] && d.Anc(node, w)
  }

  /** The tree path below the parent of `node` is the part numbered from `node` on. */
  lemma BetweenFromChild(d: Tree, node: int, w: int, y: int)
    requires d.Valid() && d.Visited(node) && node != ROOT && d.Visited(w) && d.Anc(node, w)
    ensures Between(d, d.parent[node], y, w) <==> d.Visited(y) && d.num[y] >= d.num[node] && d.Anc(y, w)
  {
    var p := d.parent[node];
    assert d.Anc(p, node);
    if Between(d, p, y, w) {
      AncestorVisited(d, p, y);
      if d.num[y] < d.num[node] {
        ChainOrdered(d, y, node, w);
        assert d.Anc(y, p);
        AncestorVisited(d, y, p);
        assert false;
      }
    }
    if d.Visited(y) && d.num[y] >= d.num[node] && d.Anc(y, w) {
      ChainOrdered(d, node, y, w);
      AncestorTransitive(d.num, d.parent, p, node, y);
    }
  }

  /** What the bucket loop stores for `w` is its first answer. */
  lemma AnswerIsFirst(d: Tree, node: int, w: int, r: int)
    requires d.Valid() && d.Visited(node) && node != ROOT && d.num[node] >= 2 && Due(d, node, w)
    requires Evaluated(d, d.num[node] - 1, r, w)
    ensures d.num[r] >= d.num[node] && d.Visited(r)
    ensures FirstAnswer(d, w, if Sdom(d, r) < Sdom(d, w) then r else d.parent[node])
  {
    AncestorVisited(d, node, w);
    var p := d.parent[node];
    BetweenFromChild(d, node, w, r);
    forall y | Between(d, p, y, w) ensures Sdom(d, r) <= Sdom(d, y) {
      BetweenFromChild(d, node, w, y);
    }
  }

  /** A vertex of the bucket is linked below its parent when the bucket is emptied. */
  lemma DueIsLinked(d: Tree, node: int, w: int, semi: seq<int>)
    requires d.Valid() && d.Visited(node) && node != ROOT && d.num[node] >= 2 && Due(d, node, w)
    requires SemiDone(d, d.num[node] - 1, semi)
    ensures 0 <= w < |semi| == d.g.n && 0 <= Linked(d, d.num[node] - 1)[w]
  {
    AncestorVisited(d, node, w);
  }

  /** Comparing the stored semidominators of `w` and of the vertex its evaluation yields answers `w`. */
  lemma StoredAnswer(d: Tree, node: int, w: int, r: int, semi: seq<int>, ancestor: seq<int>, labels: seq<int>)
    requires d.Valid() && d.Visited(node) && node != ROOT && d.num[node] >= 2 && Due(d, node, w)
    requires SemiDone(d, d.num[node] - 1, semi)
    requires Represents(d.num, Linked(d, d.num[node] - 1), semi, ancestor, labels)
    requires 0 <= w < |semi| == d.g.n && 0 <= Linked(d, d.num[node] - 1)[w]
    requires LeastOnPath(d.num, Linked(d, d.num[node] - 1), semi, r, w)
    ensures 0 <= r < |semi| && FirstAnswer(d, w, if semi[r] < semi[w] then r else d.parent[node])
  {
    hide FirstAnswer, LeastOnPath;
    AncestorVisited(d, node, w);
    EvaluatedMeans(d, d.num[node] - 1, semi, r, w);
    AnswerIsFirst(d, node, w, r);
  }

  /** The first answer for one vertex of the bucket. */
  method Answer(ghost d: Tree, semi: array<int>, ancestor: array<int>, labels: array<int>,
                ghost node: int, parentNode: int, bucket: int) returns (i: int)
    requires ancestor != labels && ancestor != semi && labels != semi
    requires d.Valid() && d.Visited(node) && node != ROOT && d.num[node] >= 2 && parentNode == d.parent[node]
    requires SemiDone(d, d.num[node] - 1, semi[..]) && Due(d, node, bucket)
    requires Represents(d.num, Linked(d, d.num[node] - 1), semi[..], ancestor[..], labels[..])
    modifies ancestor, labels
    ensures Represents(d.num, Linked(d, d.num[node] - 1), semi[..], ancestor[..], labels[..])
    ensures FirstAnswer(d, bucket, i)
  {
    hide FirstAnswer, Represents, LeastOnPath, SemiDone, Due;
    ghost var up, s := Linked(d, d.num[node] - 1), semi[..];
    DueIsLinked(d, node, bucket, s);
    RepresentsShape(d.num, up, s, ancestor[..], labels[..]);
    var candidate := EvaluateNode(d.num, up, semi, ancestor, labels, bucket);
    assert semi[..] == s;
    StoredAnswer(d, node, bucket, candidate, s, ancestor[..], labels[..]);
    i := if semi[candidate] < semi[bucket] then candidate else parentNode;
  }

  /** From `before` to `after` exactly the vertices of the bucket `xs` received their first answer. */
  ghost predicate BucketAnswered(d: Tree, node: int, xs: seq<int>, before: seq<int>, after: seq<int>)
    requires d.Valid() && d.Visited(node) && node != ROOT
  {
    && |before| == |after| == d.g.n
    && (forall w :: w in xs ==> Due(d, node, w) && FirstAnswer(d, w, after[w]))
    && (forall w :: 0 <= w < d.g.n && w !in xs ==> after[w] == before[w])
  }

  /** Answers every vertex of one bucket. */
  method DrainBucket(ghost d: Tree, semi: array<int>, ancestor: array<int>, labels: array<int>, idom: array<int>,
                     bucketNext: array<int>, head: int, ghost node: int, parentNode: int, ghost xs: seq<int>)
    requires ancestor != labels && ancestor != semi && labels != semi
    requires idom !in {semi, ancestor, labels, bucketNext} && bucketNext !in {semi, ancestor, labels}
    requires d.Valid() && d.Visited(node) && node != ROOT && d.num[node] >= 2 && parentNode == d.parent[node]
    requires SemiDone(d, d.num[node] - 1, semi[..]) && idom.Length == d.g.n
    requires Represents(d.num, Linked(d, d.num[node] - 1), semi[..], ancestor[..], labels[..])
    requires Chain(head, bucketNext[..], xs) && forall w :: w in xs ==> Due(d, node, w)
    modifies ancestor, labels, idom
    ensures Represents(d.num, Linked(d, d.num[node] - 1), semi[..], ancestor[..], labels[..])
    ensures BucketAnswered(d, node, xs, old(idom[..]), idom[..])
  {
    hide FirstAnswer, Represents, SemiDone;
    ghost var rest := xs;
    var bucket := head;
    while bucket >= 0
      invariant Chain(bucket, bucketNext[..], rest)
      invariant forall w :: w in rest ==> w in xs
      invariant Represents(d.num, Linked(d, d.num[node] - 1), semi[..], ancestor[..], labels[..])
      invariant forall w :: w in xs && w !in rest ==> FirstAnswer(d, w, idom[w])
      invariant forall w :: 0 <= w < idom.Length && w !in xs ==> idom[w] == old(idom[w])
      decreases |rest|
    {
      assert rest != [] && bucket == rest[0] && bucket in rest;
      assert Due(d, node, bucket);
      var i := Answer(d, semi, ancestor, labels, node, parentNode, bucket);
      idom[bucket] := i;
      rest := rest[1..];
      bucket := bucketNext[bucket];
    }
  }

  /** `w` waits in the bucket of `p` until the child of `p` that leads to it is reached. */
  ghost predicate Waiting(d: Tree, order: int, p: int, w: int)
    requires d.Valid()
  {
    && d.Visited(w) && w != ROOT && d.num[w] > order && d.vertex[Sdom(d, w)] == p
    && forall c :: d.Visited(c) && c != ROOT && d.parent[c] == p && d.Anc(c, w) ==> d.num[c] <= order
  }

  ghost predicate Buckets(d: Tree, order: int, head: seq<int>, next: seq<int>, buckets: seq<seq<int>>)
    requires d.Valid()
  {
    && |head| == |next| == |buckets| == d.g.n
    && (forall p {:trigger buckets[p]} :: 0 <= p < d.g.n ==> Chain(head[p], next, buckets[p]))
    && (forall p, w :: 0 <= p < d.g.n && w in buckets[p] ==> Waiting(d, order, p, w))
  }

  /** Every processed vertex has its first answer or waits in the bucket of its semidominator. */
  ghost predicate Answered(d: Tree, order: int, idom: seq<int>, buckets: seq<seq<int>>)
    requires d.Valid() && |buckets| == d.g.n
  {
    && |idom| == d.g.n && idom[ROOT] == -1
    && forall w :: d.Visited(w) && w != ROOT && d.num[w] > order ==>
         FirstAnswer(d, w, idom[w]) || (0 <= d.vertex[Sdom(d, w)] < d.g.n && w in buckets[d.vertex[Sdom(d, w)]])
  }

  /** The one child of `p` still to come that leads to `w` is the vertex about to be linked. */
  lemma DueNow(d: Tree, node: int, w: int)
    requires d.Valid() && d.Visited(node) && node != ROOT && Waiting(d, d.num[node], d.parent[node], w)
    ensures Due(d, node, w)
  {
    var p := d.parent[node];
    SdomIsAncestor(d, w);
    var c := ChildToward(d, p, w);
    AncestorVisited(d, c, w);
    assert d.Anc(p, c);
    if c != node {
      assert d.vertex[d.num[c]] == c && d.vertex[d.num[node]] == node;
      DescendantsContiguous(d, c, node, w);
      assert d.Anc(c, p);
      AncestorVisited(d, c, p);
      assert false;
    }
  }

  /** A vertex waiting elsewhere goes on waiting. */
  lemma WaitsOn(d: Tree, node: int, p: int, w: int)
    requires d.Valid() && d.Visited(node) && node != ROOT && p != d.parent[node]
    requires Waiting(d, d.num[node], p, w) || (w == node && p == d.vertex[Sdom(d, node)])
    ensures Waiting(d, d.num[node] - 1, p, w)
  {
    forall c | d.Visited(c) && c != ROOT && d.parent[c] == p && d.Anc(c, w) ensures d.num[c] <= d.num[node] - 1 {
      assert d.vertex[d.num[c]] == c && d.vertex[d.num[node]] == node;
      AncestorVisited(d, c, w);
      assert d.num[c] == d.num[node] ==> c == node;
    }
  }

  /** The buckets once `node` is in: the bucket of its parent is due, the others go on waiting. */
  ghost predicate Placed(d: Tree, node: int, head: seq<int>, next: seq<int>, buckets: seq<seq<int>>)
    requires d.Valid() && d.Visited(node) && node != ROOT
  {
    && |head| == |next| == |buckets| == d.g.n
    && (forall p {:trigger buckets[p]} :: 0 <= p < d.g.n ==> Chain(head[p], next, buckets[p]))
    && (forall w :: w in buckets[d.parent[node]] ==> Due(d, node, w))
    && (forall p, w :: 0 <= p < d.g.n && p != d.parent[node] && w in buckets[p] ==> Waiting(d, d.num[node] - 1, p, w))
  }

  lemma EmptyParentBucket(d: Tree, node: int, head: seq<int>, next: seq<int>, buckets: seq<seq<int>>)
    requires d.Valid() && d.Visited(node) && node != ROOT && Placed(d, node, head, next, buckets)
    ensures var p := d.parent[node]; Buckets(d, d.num[node] - 1, head[p := -1], next, buckets[p := []])
  {
  }

  /** Putting `node` into the bucket of its semidominator. */
  lemma PushBucket(d: Tree, node: int, head: seq<int>, next: seq<int>, buckets: seq<seq<int>>)
    requires d.Valid() && d.Visited(node) && node != ROOT && Buckets(d, d.num[node], head, next, buckets)
    ensures 0 <= d.vertex[Sdom(d, node)] < d.g.n
    ensures var b := d.vertex[Sdom(d, node)];
      var head', next', buckets' := head[b := node], next[node := head[b]], buckets[b := [node] + buckets[b]];
      Placed(d, node, head', next', buckets')
  {
    SdomIsAncestor(d, node);
    var b := d.vertex[Sdom(d, node)];
    var head', next', buckets' := head[b := node], next[node := head[b]], buckets[b := [node] + buckets[b]];
    forall p | 0 <= p < d.g.n ensures Chain(head'[p], next', buckets'[p]) {
      assert node !in buckets[p];
      ChainFrame(head[p], next, buckets[p], node, head[b]);
      if p == b {
        assert buckets'[p][1..] == buckets[p];
      }
    }
    forall w | w in buckets'[d.parent[node]] ensures Due(d, node, w) {
      if w != node {
        assert w in buckets[d.parent[node]];
        DueNow(d, node, w);
      }
    }
    forall p, w | 0 <= p < d.g.n && p != d.parent[node] && w in buckets'[p] ensures Waiting(d, d.num[node] - 1, p, w) {
      if w != node {
        assert w in buckets[p];
      }
      WaitsOn(d, node, p, w);
    }
  }

  /** After the drain the bucket of the parent is empty and everything processed is accounted for. */
  lemma DrainedBuckets(d: Tree, node: int, buckets: seq<seq<int>>, buckets': seq<seq<int>>, idom: seq<int>, idom': seq<int>)
    requires d.Valid() && d.Visited(node) && node != ROOT && |buckets| == |buckets'| == d.g.n == |idom'|
    requires Answered(d, d.num[node], idom, buckets)
    requires 0 <= d.vertex[Sdom(d, node)] < d.g.n
    requires var b := d.vertex[Sdom(d, node)]; buckets' == buckets[b := [node] + buckets[b]]
    requires BucketAnswered(d, node, buckets'[d.parent[node]], idom, idom')
    ensures Answered(d, d.num[node] - 1, idom', buckets'[d.parent[node] := []])
  {
    hide FirstAnswer;
    var p := d.parent[node];
    var final := buckets'[p := []];
    assert ROOT !in buckets'[p];
    hide Due;
    forall w | d.Visited(w) && w != ROOT && d.num[w] > d.num[node] - 1
      ensures FirstAnswer(d, w, idom'[w]) || (0 <= d.vertex[Sdom(d, w)] < d.g.n && w in final[d.vertex[Sdom(d, w)]])
    {
      var q := d.vertex[Sdom(d, w)];
      if w !in buckets'[p] {
        if w == node {
          assert w in buckets'[q];
        } else {
          assert d.vertex[d.num[w]] == w && d.vertex[d.num[node]] == node;
          if w in buckets[q] {
            assert w in buckets'[q];
          }
        }
      }
    }
  }

  lemma LinkNode(d: Tree, node: int)
    requires d.Valid() && d.Visited(node) && node != ROOT
    ensures Linked(d, d.num[node])[node := d.parent[node]] == Linked(d, d.num[node] - 1)
  {
    var a, b := Linked(d, d.num[node])[node := d.parent[node]], Linked(d, d.num[node] - 1);
    forall v | 0 <= v < d.g.n ensures a[v] == b[v] {
      if d.num[v] == d.num[node] {
        assert d.Visited(v) && d.vertex[d.num[v]] == v && d.vertex[d.num[node]] == node;
      }
    }
  }

  // ----- the whole computation

  /** Between two rounds of the descending loop. */
  ghost predicate Descending(d: Tree, order: int, semi: seq<int>, ancestor: seq<int>, labels: seq<int>)
    requires d.Valid() && order >= 1
  {
    SemiDone(d, order, semi) && Represents(d.num, Linked(d, order), semi, ancestor, labels)
  }

  lemma NothingLinked(d: Tree, labels: seq<int>)
    requires d.Valid() && |labels| == d.g.n
    requires forall v :: 0 <= v < d.g.n && d.num[v] > 0 ==> labels[v] == v
    ensures Descending(d, d.count, d.num, seq(d.g.n, _ => -1), labels)
  {
  }

  /** One vertex: its semidominator, its link below its parent. */
  method LinkBelowParent(ghost d: Tree, predecessorHead: array<int>, predecessorFrom: array<int>, predecessorNext: array<int>,
                         parent: array<int>, semi: array<int>, ancestor: array<int>, labels: array<int>, node: int)
    returns (parentNode: int)
    requires ancestor != labels && ancestor != semi && labels != semi && parent !in {semi, ancestor, labels}
    requires predecessorHead !in {semi, ancestor, labels} && predecessorFrom !in {semi, ancestor, labels}
    requires predecessorNext !in {semi, ancestor, labels}
    requires d.Valid() && d.Visited(node) && node != ROOT && d.num[node] >= 2 && parent[..] == d.parent
    requires DepthFirstSearch.Adjacency(d.g, DepthFirstSearch.Targets(d.g), DepthFirstSearch.Sources(d.g),
      predecessorHead[..], predecessorFrom[..], predecessorNext[..])
    requires Descending(d, d.num[node], semi[..], ancestor[..], labels[..])
    modifies semi, ancestor, labels
    ensures parentNode == d.parent[node] && semi.Length == d.g.n && semi[node] == Sdom(d, node)
    ensures Descending(d, d.num[node] - 1, semi[..], ancestor[..], labels[..])
  {
    ghost var order := d.num[node];
    ghost var semi0 := semi[..];
    assert semi0[node := d.num[node]] == semi0;
    ComputeSemi(d, predecessorHead, predecessorFrom, predecessorNext, semi, ancestor, labels, order, node);
    LinkNode(d, node);
    parentNode := parent[node];
    LinkStep(d.num, Linked(d, order), semi[..], ancestor[..], labels[..], node, parentNode);
    ghost var ancestor0 := ancestor[..];
    ancestor[node] := parentNode;
    assert ancestor[..] == ancestor0[node := parentNode];
    LinkedSemiDone(d, node, semi0);
  }

  lemma LinkedSemiDone(d: Tree, node: int, semi: seq<int>)
    requires d.Valid() && d.Visited(node) && node != ROOT && d.num[node] >= 2 && SemiDone(d, d.num[node], semi)
    ensures SemiDone(d, d.num[node] - 1, semi[node := Sdom(d, node)])
  {
    forall v | 0 <= v < d.g.n && d.num[v] == d.num[node] ensures v == node {
      SameNumber(d, v, node);
    }
  }

  /** When every vertex but the root is processed no bucket holds anything. */
  lemma NobodyWaits(d: Tree, w: int, buckets: seq<seq<int>>, head: seq<int>, next: seq<int>)
    requires d.Valid() && Buckets(d, 1, head, next, buckets) && d.Visited(w) && w != ROOT
    ensures d.num[w] > 1
    ensures 0 <= d.vertex[Sdom(d, w)] < d.g.n && w !in buckets[d.vertex[Sdom(d, w)]]
  {
    SdomIsAncestor(d, w);
    OnlyRootIsFirst(d);
    var p := d.vertex[Sdom(d, w)];
    var c := ChildToward(d, p, w);
  }

  /** Puts `node` into the bucket of its semidominator. */
  method PlaceInBucket(ghost d: Tree, semi: array<int>, vertex: array<int>, bucketHead: array<int>, bucketNext: array<int>,
                       node: int, ghost buckets: seq<seq<int>>) returns (ghost placed: seq<seq<int>>)
    requires bucketHead != bucketNext && {semi, vertex} !! {bucketHead, bucketNext}
    requires d.Valid() && vertex[..] == d.vertex && d.Visited(node) && node != ROOT
    requires semi.Length == d.g.n && semi[node] == Sdom(d, node)
    requires Buckets(d, d.num[node], bucketHead[..], bucketNext[..], buckets)
    modifies bucketHead, bucketNext
    ensures 0 <= d.vertex[Sdom(d, node)] < d.g.n
    ensures var b := d.vertex[Sdom(d, node)]; placed == buckets[b := [node] + buckets[b]]
    ensures Placed(d, node, bucketHead[..], bucketNext[..], placed)
  {
    SdomIsAncestor(d, node);
    PushBucket(d, node, bucketHead[..], bucketNext[..], buckets);
    ghost var head0, next0 := bucketHead[..], bucketNext[..];
    var bucketNode := vertex[semi[node]];
    bucketNext[node] := bucketHead[bucketNode];
    bucketHead[bucketNode] := node;
    placed := buckets[bucketNode := [node] + buckets[bucketNode]];
    assert bucketHead[..] == head0[bucketNode := node];
    assert bucketNext[..] == next0[node := head0[bucketNode]];
  }

  /** Answers the bucket of the parent of `node` and empties it. */
  method DrainParentBucket(ghost d: Tree, semi: array<int>, ancestor: array<int>, labels: array<int>,
                           idom: array<int>, bucketHead: array<int>, bucketNext: array<int>,
                           ghost order: int, ghost node: int, parentNode: int,
                           ghost buckets: seq<seq<int>>, ghost placed: seq<seq<int>>) returns (ghost after: seq<seq<int>>)
    requires ancestor != labels && ancestor != semi && labels != semi && bucketHead != bucketNext
    requires {idom} !! {semi, ancestor, labels} !! {bucketHead, bucketNext}
    requires d.Valid() && d.Visited(node) && node != ROOT && d.num[node] == order >= 2 && parentNode == d.parent[node]
    requires Descending(d, order - 1, semi[..], ancestor[..], labels[..])
    requires |buckets| == d.g.n && Answered(d, order, idom[..], buckets)
    requires 0 <= d.vertex[Sdom(d, node)] < d.g.n
    requires var b := d.vertex[Sdom(d, node)]; placed == buckets[b := [node] + buckets[b]]
    requires Placed(d, node, bucketHead[..], bucketNext[..], placed)
    modifies ancestor, labels, idom, bucketHead
    ensures Descending(d, order - 1, semi[..], ancestor[..], labels[..])
    ensures |after| == d.g.n
    ensures Buckets(d, order - 1, bucketHead[..], bucketNext[..], after)
    ensures Answered(d, order - 1, idom[..], after)
  {
    ghost var idom0, head0 := idom[..], bucketHead[..];
    EmptyParentBucket(d, node, head0, bucketNext[..], placed);
    DrainBucket(d, semi, ancestor, labels, idom, bucketNext, bucketHead[parentNode], node, parentNode, placed[parentNode]);
    DrainedBuckets(d, node, buckets, placed, idom0, idom[..]);
    bucketHead[parentNode] := -1;
    assert bucketHead[..] == head0[parentNode := -1];
    after := placed[parentNode := []];
  }

  /** One round of the descending loop. */
  method ProcessVertex(ghost d: Tree, predecessorHead: array<int>, predecessorFrom: array<int>, predecessorNext: array<int>,
                       parent: array<int>, semi: array<int>, ancestor: array<int>, labels: array<int>, vertex: array<int>,
                       idom: array<int>, bucketHead: array<int>, bucketNext: array<int>,
                       ghost order: int, node: int, ghost buckets: seq<seq<int>>) returns (ghost after: seq<seq<int>>)
    requires ancestor != labels && ancestor != semi && labels != semi && bucketHead != bucketNext
    requires {idom} !! {semi, ancestor, labels} !! {bucketHead, bucketNext}
      !! {predecessorHead, predecessorFrom, predecessorNext, parent, vertex}
    requires d.Valid() && parent[..] == d.parent && vertex[..] == d.vertex
    requires d.Visited(node) && node != ROOT && d.num[node] == order >= 2
    requires DepthFirstSearch.Adjacency(d.g, DepthFirstSearch.Targets(d.g), DepthFirstSearch.Sources(d.g),
      predecessorHead[..], predecessorFrom[..], predecessorNext[..])
    requires Descending(d, order, semi[..], ancestor[..], labels[..])
    requires |buckets| == d.g.n && Buckets(d, order, bucketHead[..], bucketNext[..], buckets)
    requires Answered(d, order, idom[..], buckets)
    modifies semi, ancestor, labels, idom, bucketHead, bucketNext
    ensures Descending(d, order - 1, semi[..], ancestor[..], labels[..])
    ensures |after| == d.g.n
    ensures Buckets(d, order - 1, bucketHead[..], bucketNext[..], after)
    ensures Answered(d, order - 1, idom[..], after)
  {
    hide Represents, Buckets, Placed, Answered, SemiDone, Descending, DepthFirstSearch.Adjacency;
    var parentNode := LinkBelowParent(d, predecessorHead, predecessorFrom, predecessorNext,
                                      parent, semi, ancestor, labels, node);
    ghost var placed := PlaceInBucket(d, semi, vertex, bucketHead, bucketNext, node, buckets);
    after := DrainParentBucket(d, semi, ancestor, labels, idom, bucketHead, bucketNext, order,
                               node, parentNode, buckets, placed);
  }

  lemma NothingWaiting(d: Tree, head: seq<int>, next: seq<int>, idom: seq<int>)
    requires d.Valid() && |head| == |next| == |idom| == d.g.n
    requires forall v :: 0 <= v < d.g.n ==> idom[v] == -1 && head[v] == -1
    ensures Buckets(d, d.count, head, next, seq(d.g.n, _ => []))
    ensures Answered(d, d.count, idom, seq(d.g.n, _ => []))
  {
  }

  /** Vertices numbered below `order` have their immediate dominator, the others their first answer. */
  ghost predicate Resolved(d: Tree, order: int, idom: seq<int>)
    requires d.Valid()
  {
    && |idom| == d.g.n && idom[ROOT] == -1
    && forall w {:trigger idom[w]} :: d.Visited(w) && w != ROOT ==>
         if d.num[w] < order then ImmediateDominator(d.g, idom[w], w) else FirstAnswer(d, w, idom[w])
  }

  lemma EverybodyAnswered(d: Tree, head: seq<int>, next: seq<int>, idom: seq<int>, buckets: seq<seq<int>>)
    requires d.Valid() && Buckets(d, 1, head, next, buckets) && Answered(d, 1, idom, buckets)
    ensures Resolved(d, 2, idom)
  {
    OnlyRootIsFirst(d);
    forall w | d.Visited(w) && w != ROOT ensures FirstAnswer(d, w, idom[w]) {
      NobodyWaits(d, w, buckets, head, next);
    }
  }

  /** The descending loop. */
  method Descend(ghost d: Tree, predecessorHead: array<int>, predecessorFrom: array<int>, predecessorNext: array<int>,
                 parent: array<int>, semi: array<int>, ancestor: array<int>, labels: array<int>, vertex: array<int>,
                 idom: array<int>, bucketHead: array<int>, bucketNext: array<int>, dfsCount: int)
    requires ancestor != labels && ancestor != semi && labels != semi && bucketHead != bucketNext
    requires {idom} !! {semi, ancestor, labels} !! {bucketHead, bucketNext}
      !! {predecessorHead, predecessorFrom, predecessorNext, parent, vertex}
    requires d.Valid() && parent[..] == d.parent && vertex[..] == d.vertex && dfsCount == d.count
    requires DepthFirstSearch.Adjacency(d.g, DepthFirstSearch.Targets(d.g), DepthFirstSearch.Sources(d.g),
      predecessorHead[..], predecessorFrom[..], predecessorNext[..])
    requires Descending(d, dfsCount, semi[..], ancestor[..], labels[..])
    requires idom.Length == bucketHead.Length == bucketNext.Length == d.g.n
    requires forall v :: 0 <= v < d.g.n ==> idom[v] == -1 && bucketHead[v] == -1
    modifies semi, ancestor, labels, idom, bucketHead, bucketNext
    ensures SemiDone(d, 1, semi[..])
    ensures Resolved(d, 2, idom[..])
  {
    hide Represents, Buckets, Answered, SemiDone, Resolved, DepthFirstSearch.Adjacency;
    ghost var buckets := seq(d.g.n, _ => []);
    NothingWaiting(d, bucketHead[..], bucketNext[..], idom[..]);
    var order := dfsCount;
    while order >= 2
      invariant 1 <= order <= dfsCount
      invariant Descending(d, order, semi[..], ancestor[..], labels[..])
      invariant |buckets| == d.g.n && Buckets(d, order, bucketHead[..], bucketNext[..], buckets)
      invariant Answered(d, order, idom[..], buckets)
    {
      var node := vertex[order];
      assert d.Visited(node) && d.num[node] == order && node != ROOT;
      buckets := ProcessVertex(d, predecessorHead, predecessorFrom, predecessorNext, parent, semi, ancestor, labels,
                               vertex, idom, bucketHead, bucketNext, order, node, buckets);
      order := order - 1;
    }
    EverybodyAnswered(d, bucketHead[..], bucketNext[..], idom[..], buckets);
  }

  // ----- the final pass and the counts

  /** A first answer becomes the immediate dominator: itself, or that of the answer. */
  lemma FirstAnswerResolves(d: Tree, w: int, i: int, j: int)
    requires d.Valid() && d.Visited(w) && w != ROOT && FirstAnswer(d, w, i)
    requires i != d.vertex[Sdom(d, w)] ==>
      (d.Visited(i) && i != ROOT && d.num[i] < d.num[w] ==> ImmediateDominator(d.g, j, i))
    ensures i != d.vertex[Sdom(d, w)] ==> d.Visited(i) && i != ROOT && d.num[i] < d.num[w] && ImmediateDominator(d.g, j, w)
    ensures i == d.vertex[Sdom(d, w)] ==> ImmediateDominator(d.g, i, w)
  {
    if i == d.vertex[Sdom(d, w)] {
      SdomIsImmediateDominator(d, w);
    } else {
      RelativeDominator(d, i, w);
    }
  }

  lemma ResolveStep(d: Tree, idom: seq<int>, node: int)
    requires d.Valid() && d.Visited(node) && node != ROOT && Resolved(d, d.num[node], idom)
    ensures var i, s := idom[node], d.vertex[Sdom(d, node)];
      && (i != s ==> 0 <= i < d.g.n)
      && Resolved(d, d.num[node] + 1, if i != s then idom[node := idom[i]] else idom)
  {
    var i, s := idom[node], d.vertex[Sdom(d, node)];
    SdomIsAncestor(d, node);
    if i != s {
      assert Between(d, s, i, node);
      assert d.Visited(i) && i != ROOT;
      FirstAnswerResolves(d, node, i, idom[i]);
    } else {
      FirstAnswerResolves(d, node, i, i);
    }
    var idom' := if i != s then idom[node := idom[i]] else idom;
    forall w | d.Visited(w) && w != ROOT
      ensures if d.num[w] < d.num[node] + 1 then ImmediateDominator(d.g, idom'[w], w) else FirstAnswer(d, w, idom'[w])
    {
      if d.num[w] == d.num[node] {
        SameNumber(d, w, node);
      } else {
        assert idom'[w] == idom[w];
      }
    }
  }

  /** The ascending pass. */
  method Resolve(ghost d: Tree, semi: array<int>, vertex: array<int>, idom: array<int>, dfsCount: int)
    requires idom != semi && idom != vertex
    requires d.Valid() && vertex[..] == d.vertex && dfsCount == d.count && SemiDone(d, 1, semi[..])
    requires Resolved(d, 2, idom[..])
    modifies idom
    ensures Resolved(d, dfsCount + 1, idom[..])
  {
    OnlyRootIsFirst(d);
    var order := 2;
    while order <= dfsCount
      invariant 2 <= order
      invariant order <= dfsCount + 1 || order == 2
      invariant Resolved(d, order, idom[..])
    {
      var node := vertex[order];
      assert d.Visited(node) && d.num[node] == order && node != ROOT;
      SdomIsAncestor(d, node);
      ResolveStep(d, idom[..], node);
      ghost var idom0 := idom[..];
      if idom[node] != vertex[semi[node]] {
        idom[node] := idom[idom[node]];
        assert idom[..] == idom0[node := idom0[idom0[node]]];
      }
      order := order + 1;
    }
  }

  /** One line of the answer: a vertex, the number of its dominators and its immediate dominator. */
  datatype Row = Row(node: int, dominatorCount: int, immediateDominator: Option<int>)

  ghost predicate RowRight(g: Graph, row: Row) {
    && Reachable(g, row.node)
    && row.dominatorCount == |Dominators(g, row.node)|
    && (row.immediateDominator.None? <==> row.node == ROOT)
    && (row.immediateDominator.Some? ==>
          && ImmediateDominator(g, row.immediateDominator.value, row.node)
          && forall i :: ImmediateDominator(g, i, row.node) ==> i == row.immediateDominator.value)
  }

  lemma CountStep(d: Tree, idom: seq<int>, node: int)
    requires d.Valid() && d.Visited(node) && node != ROOT
    requires |idom| == d.g.n && ImmediateDominator(d.g, idom[node], node)
    ensures d.Visited(idom[node]) && d.num[idom[node]] < d.num[node] && idom[node] >= 0
    ensures |Dominators(d.g, node)| == |Dominators(d.g, idom[node])| + 1
    ensures forall i :: ImmediateDominator(d.g, i, node) ==> i == idom[node]
  {
    DominatorIsAncestor(d, idom[node], node);
    AncestorVisited(d, idom[node], node);
    DominatorsStep(d, idom[node], node);
    forall i | ImmediateDominator(d.g, i, node) ensures i == idom[node] {
      ImmediateDominatorUnique(d, i, idom[node], node);
    }
  }

  /** The counting loop, in visiting order. */
  method CountDominators(ghost d: Tree, vertex: array<int>, idom: array<int>, dfsCount: int) returns (output: seq<Row>)
    requires d.Valid() && vertex[..] == d.vertex && dfsCount == d.count
    requires Resolved(d, dfsCount + 1, idom[..])
    ensures |output| == dfsCount
    ensures forall k :: 0 <= k < dfsCount ==> output[k].node == d.vertex[k + 1] && RowRight(d.g, output[k])
  {
    var dominatorCount := DepthFirstSearch.Filled(idom.Length, 0);
    dominatorCount[ROOT] := 1;
    RootDominators(d);
    output := [];
    var order := 1;
    while order <= dfsCount
      invariant 1 <= order <= dfsCount + 1
      invariant |output| == order - 1
      invariant forall v :: d.Visited(v) && (d.num[v] < order || v == ROOT) ==> dominatorCount[v] == |Dominators(d.g, v)|
      invariant forall k :: 0 <= k < order - 1 ==> output[k].node == d.vertex[k + 1] && RowRight(d.g, output[k])
    {
      var node := vertex[order];
      assert d.Visited(node) && d.num[node] == order;
      VisitedIsReachable(d, node);
      if node != ROOT {
        CountStep(d, idom[..], node);
        dominatorCount[node] := dominatorCount[idom[node]] + 1;
      }
      var row := Row(node, dominatorCount[node], if idom[node] < 0 then None else Some(idom[node]));
      assert RowRight(d.g, row);
      output := output + [row];
      forall v | d.Visited(v) && d.num[v] < order + 1 ensures d.num[v] < order || v == node {
        if d.num[v] == order {
          SameNumber(d, v, node);
        }
      }
      order := order + 1;
    }
  }

  /** Everything after the depth-first search. */
  method RankBySemidominators(ghost d: Tree, predecessorHead: array<int>, predecessorFrom: array<int>,
                              predecessorNext: array<int>, parent: array<int>, semi: array<int>,
                               labels: array<int>, vertex: array<int>, dfsCount: int)
    returns (output: seq<Row>)
    requires {semi} !! {labels} !! {predecessorHead, predecessorFrom, predecessorNext, parent, vertex}
    requires d.Valid() && semi[..] == d.num && vertex[..] == d.vertex && parent[..] == d.parent && dfsCount == d.count
    requires DepthFirstSearch.Adjacency(d.g, DepthFirstSearch.Targets(d.g), DepthFirstSearch.Sources(d.g),
      predecessorHead[..], predecessorFrom[..], predecessorNext[..])
    requires labels.Length == d.g.n && forall v :: 0 <= v < d.g.n && d.num[v] > 0 ==> labels[v] == v
    modifies semi, labels
    ensures |output| == dfsCount
    ensures forall k :: 0 <= k < dfsCount ==> output[k].node == d.vertex[k + 1] && RowRight(d.g, output[k])
  {
    var n := semi.Length;
    var ancestor := DepthFirstSearch.Filled(n, -1);
    var idom := DepthFirstSearch.Filled(n, -1);
    var bucketHead := DepthFirstSearch.Filled(n, -1);
    var bucketNext := DepthFirstSearch.Filled(n, -1);
    assert ancestor[..] == seq(d.g.n, _ => -1);
    NothingLinked(d, labels[..]);
    Descend(d, predecessorHead, predecessorFrom, predecessorNext, parent, semi, ancestor, labels, vertex,
            idom, bucketHead, bucketNext, dfsCount);
    Resolve(d, semi, vertex, idom, dfsCount);
    output := CountDominators(d, vertex, idom, dfsCount);
  }

  /** The immediate dominator and the dominator count of every vertex reachable from the root, and of
      no other, in visiting order. An empty graph has no rows. */
  method DominatorRows(g: Graph) returns (output: seq<Row>)
    requires g.InRange()
    ensures g.n == 0 ==> output == []
    ensures g.n > 0 ==> forall v :: 0 <= v < g.n ==>
      (Reachable(g, v) <==> exists k :: 0 <= k < |output| && output[k].node == v)
    ensures forall j, k :: 0 <= j < k < |output| ==> output[j].node != output[k].node
    ensures forall k :: 0 <= k < |output| ==> RowRight(g, output[k])
  {
    if g.n == 0 {
      return [];
    }
    var outgoingHead, outgoingTo, outgoingNext, predecessorHead, predecessorFrom, predecessorNext :=
      DepthFirstSearch.BuildAdjacency(g);
    var parent, semi, labels, vertex, dfsCount := DepthFirstSearch.Search(g, outgoingHead, outgoingTo, outgoingNext);
    ghost var d := Tree(g, semi[..], vertex[..], parent[..], dfsCount);
    output := RankBySemidominators(d, predecessorHead, predecessorFrom, predecessorNext,
                                    parent, semi, labels, vertex, dfsCount);
    forall v | 0 <= v < g.n ensures Reachable(g, v) <==> exists k :: 0 <= k < |output| && output[k].node == v {
      VisitedIsReachable(d, v);
      if d.Visited(v) {
        assert output[d.num[v] - 1].node == d.vertex[d.num[v]] == v;
      }
    }
    forall j, k | 0 <= j < k < |output| ensures output[j].node != output[k].node {
      assert d.num[d.vertex[j + 1]] == j + 1 && d.num[d.vertex[k + 1]] == k + 1;
    }
  }
}
