/** Adjacency lists and the iterative depth-first search over them. */
module DepthFirstSearch {
  import opened FlowGraph
  import opened LinkedLists
  import opened DepthFirstTree

  ghost function EndpointsOf(edges: seq<Edge>, outgoing: bool): (r: seq<int>)
    ensures |r| == |edges|
    ensures forall e :: 0 <= e < |edges| ==> r[e] == if outgoing then edges[e].source else edges[e].target
  {
    if edges == [] then []
    else
      var last := edges[|edges| - 1];
      EndpointsOf(edges[..|edges| - 1], outgoing) + [if outgoing then last.source else last.target]
  }

  ghost function Sources(g: Graph): seq<int> {
    EndpointsOf(g.edges, true)
  }

  ghost function Targets(g: Graph): seq<int> {
    EndpointsOf(g.edges, false)
  }

  /** A typed array of one repeated value. */
  method Filled(n: nat, value: int) returns (a: array<int>)
    ensures fresh(a) && a.Length == n && forall i :: 0 <= i < n ==> a[i] == value
  {
    a := new int[n](_ => value);
  }

  /** `head`/`next` list the edges of `g` by `keys`, and `far` holds their other endpoints. */
  ghost predicate Adjacency(g: Graph, keys: seq<int>, others: seq<int>,
                            head: seq<int>, far: seq<int>, next: seq<int>) {
    && |head| == g.n && far == others && |keys| == |far|
    && Lists(keys, |keys|, head, next)
  }

  /** One push: edge `k` goes to the head of the list of its key. */
  method PushEdge(ghost keys: seq<int>, head: array<int>, far: array<int>, next: array<int>, k: nat, key: int, other: int)
    requires head != far && head != next && far != next
    requires k < |keys| == far.Length == next.Length && keys[k] == key && 0 <= key < head.Length
    requires Lists(keys, k, head[..], next[..])
    modifies head, far, next
    ensures Lists(keys, k + 1, head[..], next[..])
    ensures far[..] == old(far[..])[k := other]
  {
    ghost var head0, next0 := head[..], next[..];
    PushKeyed(keys, k, head0, next0);
    far[k] := other;
    next[k] := head[key];
    head[key] := k;
    assert head[..] == head0[key := k];
    assert next[..] == next0[k := head0[key]];
  }

  /** Builds the outgoing and the incoming lists in one sweep over the edges. */
  method BuildAdjacency(g: Graph)
    returns (outgoingHead: array<int>, outgoingTo: array<int>, outgoingNext: array<int>,
             predecessorHead: array<int>, predecessorFrom: array<int>, predecessorNext: array<int>)
    requires g.InRange()
    ensures Adjacency(g, Sources(g), Targets(g), outgoingHead[..], outgoingTo[..], outgoingNext[..])
    ensures Adjacency(g, Targets(g), Sources(g), predecessorHead[..], predecessorFrom[..], predecessorNext[..])
    ensures fresh({outgoingHead, outgoingTo, outgoingNext, predecessorHead, predecessorFrom, predecessorNext})
  {
    var edgeCount := |g.edges|;
    outgoingHead := Filled(g.n, -1);
    predecessorHead := Filled(g.n, -1);
    outgoingTo := Filled(edgeCount, 0);
    outgoingNext := Filled(edgeCount, 0);
    predecessorFrom := Filled(edgeCount, 0);
    predecessorNext := Filled(edgeCount, 0);
    var graphEdgeCount := 0;
    ghost var sources, targets := Sources(g), Targets(g);
    while graphEdgeCount < edgeCount
      invariant 0 <= graphEdgeCount <= edgeCount
      invariant Lists(sources, graphEdgeCount, outgoingHead[..], outgoingNext[..])
      invariant Lists(targets, graphEdgeCount, predecessorHead[..], predecessorNext[..])
      invariant forall e :: 0 <= e < graphEdgeCount ==> outgoingTo[e] == targets[e] && predecessorFrom[e] == sources[e]
    {
      var edge := g.edges[graphEdgeCount];
      PushEdge(sources, outgoingHead, outgoingTo, outgoingNext, graphEdgeCount, edge.source, edge.target);
      PushEdge(targets, predecessorHead, predecessorFrom, predecessorNext, graphEdgeCount, edge.target, edge.source);
      graphEdgeCount := graphEdgeCount + 1;
    }
  }

  // ----- the growing tree

  /** Everything a finished tree promises except that the arcs are explored. */
  ghost predicate Growing(t: Tree) {
    t.Shape() && t.Numbered() && t.Spanning() && t.Preorder()
  }

  /** Arcs between visited vertices that go up in number go to descendants. */
  ghost predicate ArcsDescend(t: Tree) {
    forall u, v {:trigger t.g.Arc(u, v)} ::
      t.g.Arc(u, v) && t.Visited(u) && t.Visited(v) && t.num[u] < t.num[v] ==> t.Anc(u, v)
  }

  /** The open vertices, oldest first: each is on the chain of the vertex numbered last. */
  ghost predicate OpenChain(t: Tree, stack: seq<int>)
    requires Growing(t)
  {
    && (forall i :: 0 <= i < |stack| ==> t.Visited(stack[i]) && t.Anc(stack[i], t.vertex[t.count]))
    && (forall i, j :: 0 <= i < j < |stack| ==> t.num[stack[i]] < t.num[stack[j]])
  }

  /** `rest[i]` are the unread edges of the `i`-th open vertex. */
  ghost predicate Frames(t: Tree, next: seq<int>, stack: seq<int>, heads: seq<int>, rest: seq<seq<int>>) {
    && |stack| == |heads| == |rest|
    && forall i :: 0 <= i < |stack| ==>
      && Chain(heads[i], next, rest[i])
      && (forall e :: e in rest[i] ==> 0 <= e < |t.g.edges| && t.g.edges[e].source == stack[i])
  }

  ghost predicate Unread(stack: seq<int>, rest: seq<seq<int>>, u: int, e: int)
    requires |stack| == |rest|
  {
    exists i :: 0 <= i < |stack| && stack[i] == u && e in rest[i]
  }

  /** An edge out of a visited vertex is unread in its frame, or its target is visited. */
  ghost predicate Pending(t: Tree, stack: seq<int>, rest: seq<seq<int>>)
    requires |stack| == |rest|
  {
    forall e :: 0 <= e < |t.g.edges| && t.Visited(t.g.edges[e].source) ==>
      t.Visited(t.g.edges[e].target) || Unread(stack, rest, t.g.edges[e].source, e)
  }

  /** The tree after visiting `target` from `source`. */
  ghost function Visiting(t: Tree, source: int, target: int): Tree
    requires t.Shape() && 0 <= target < t.g.n && t.count < t.g.n
  {
    Tree(t.g, t.num[target := t.count + 1], t.vertex[t.count + 1 := target],
         t.parent[target := source], t.count + 1)
  }

  lemma {:induction false} RangeCard(s: set<int>, n: nat)
    requires forall x :: x in s ==> 0 <= x < n
    ensures |s| <= n
  {
    if n == 0 {
      assert forall x :: x !in s;
      assert s == {};
    } else {
      RangeCard(s - {n - 1}, n - 1);
      assert |s| <= |s - {n - 1}| + 1;
    }
  }

  lemma {:induction false} NumberedCard(t: Tree, k: nat) returns (s: set<int>)
    requires t.Shape() && t.Numbered() && k <= t.count
    ensures |s| == k && forall x :: x in s ==> t.Visited(x) && t.num[x] <= k
  {
    if k == 0 {
      s := {};
    } else {
      s := NumberedCard(t, k - 1);
      s := s + {t.vertex[k]};
    }
  }

  /** While a vertex is unvisited there is a number left for it. */
  lemma RoomToVisit(t: Tree, target: int)
    requires t.Shape() && t.Numbered() && 0 <= target < t.g.n && t.num[target] == 0
    ensures t.count < t.g.n
  {
    var s := NumberedCard(t, t.count);
    RangeCard(s + {target}, t.g.n);
  }

  lemma VisitKeepsAncestors(t: Tree, source: int, target: int, u: int, v: int)
    requires Growing(t) && 0 <= target < t.g.n && t.num[target] == 0 && t.count < t.g.n
    requires v != target && t.Anc(u, v)
    ensures Visiting(t, source, target).Anc(u, v)
  {
    AncestorExtends(t.num, t.parent, target, t.count + 1, source, u, v);
  }

  lemma VisitNumbers(t: Tree, source: int, target: int)
    requires t.Shape() && t.Numbered() && 0 <= target < t.g.n && t.num[target] == 0 && t.count < t.g.n
    ensures Visiting(t, source, target).Shape() && Visiting(t, source, target).Numbered()
  {
    var t' := Visiting(t, source, target);
    forall v | t'.Visited(v) ensures t'.vertex[t'.num[v]] == v {
      assert v != target ==> t.Visited(v);
    }
  }

  lemma VisitSpans(t: Tree, source: int, target: int)
    requires t.Shape() && t.Numbered() && t.Spanning()
    requires 0 <= target < t.g.n && t.num[target] == 0 && t.count < t.g.n
    requires t.Visited(source) && t.g.Arc(source, target)
    ensures Visiting(t, source, target).Shape() && Visiting(t, source, target).Spanning()
  {
    var t' := Visiting(t, source, target);
    forall v | t'.Visited(v) && v != ROOT ensures t'.TreeArc(v) {
      if v != target {
        assert t.TreeArc(v);
      }
    }
  }

  lemma VisitFollows(t: Tree, source: int, target: int, i: int)
    requires Growing(t) && 0 <= target < t.g.n && t.num[target] == 0 && t.count < t.g.n
    requires Visiting(t, source, target).Shape() && Visiting(t, source, target).Numbered()
    requires t.Anc(source, t.vertex[t.count]) && 1 <= i <= t.count
    ensures Visiting(t, source, target).Follows(i)
  {
    if i < t.count {
      assert t.Follows(i);
      VisitKeepsAncestors(t, source, target, t.parent[t.vertex[i + 1]], t.vertex[i]);
    } else {
      VisitKeepsAncestors(t, source, target, source, t.vertex[i]);
    }
  }

  /** Visiting from a vertex on the chain of the last one keeps the tree growing as a preorder. */
  lemma VisitGrows(t: Tree, source: int, target: int)
    requires Growing(t) && 0 <= target < t.g.n && t.num[target] == 0 && t.count < t.g.n
    requires t.Visited(source) && t.g.Arc(source, target) && t.Anc(source, t.vertex[t.count])
    ensures Growing(Visiting(t, source, target))
    ensures Visiting(t, source, target).Anc(source, target)
  {
    VisitNumbers(t, source, target);
    VisitSpans(t, source, target);
    forall i | 1 <= i < Visiting(t, source, target).count ensures Visiting(t, source, target).Follows(i) {
      VisitFollows(t, source, target, i);
    }
  }

  /** An unvisited target hangs below every open vertex that has an arc to it. */
  lemma VisitDescends(t: Tree, stack: seq<int>, rest: seq<seq<int>>, target: int)
    requires Growing(t) && ArcsDescend(t) && OpenChain(t, stack) && |rest| == |stack| > 0
    requires Pending(t, stack, rest)
    requires 0 <= target < t.g.n && t.num[target] == 0 && t.count < t.g.n
    requires t.g.Arc(stack[|stack| - 1], target)
    requires Growing(Visiting(t, stack[|stack| - 1], target))
    requires Visiting(t, stack[|stack| - 1], target).Anc(stack[|stack| - 1], target)
    ensures ArcsDescend(Visiting(t, stack[|stack| - 1], target))
    ensures OpenChain(Visiting(t, stack[|stack| - 1], target), stack + [target])
  {
    var source := stack[|stack| - 1];
    var t' := Visiting(t, source, target);
    forall i | 0 <= i < |stack| ensures t'.Anc(stack[i], target) {
      AncestorsOrdered(t.num, t.parent, stack[i], source, t.vertex[t.count]);
      VisitKeepsAncestors(t, source, target, stack[i], source);
      AncestorTransitive(t'.num, t'.parent, stack[i], source, target);
    }
    forall u, v | t'.g.Arc(u, v) && t'.Visited(u) && t'.Visited(v) && t'.num[u] < t'.num[v]
      ensures t'.Anc(u, v)
    {
      assert u != target;
      if v == target {
        var e :| 0 <= e < |t.g.edges| && t.g.edges[e].source == u && t.g.edges[e].target == v;
        assert t.Visited(t.g.edges[e].source);
      } else {
        VisitKeepsAncestors(t, source, target, u, v);
      }
    }
  }

  /** The state of the search between two iterations. */
  ghost predicate Searching(t: Tree, next: seq<int>, stack: seq<int>, heads: seq<int>, rest: seq<seq<int>>) {
    && Growing(t) && ArcsDescend(t) && OpenChain(t, stack)
    && Frames(t, next, stack, heads, rest) && Pending(t, stack, rest)
  }

  lemma SearchShape(t: Tree, next: seq<int>, stack: seq<int>, heads: seq<int>, rest: seq<seq<int>>)
    requires Searching(t, next, stack, heads, rest)
    ensures t.Shape() && t.Numbered() && |stack| == |heads| == |rest|
    ensures forall i :: 0 <= i < |stack| ==> 0 <= stack[i] < t.g.n
  {
  }

  /** A frame with no edge left is dropped. */
  lemma PopFrame(t: Tree, next: seq<int>, stack: seq<int>, heads: seq<int>, rest: seq<seq<int>>)
    requires Searching(t, next, stack, heads, rest) && |stack| > 0 && heads[|stack| - 1] < 0
    ensures var top := |stack| - 1; Searching(t, next, stack[..top], heads[..top], rest[..top])
  {
  }

  /** Reading one edge of the top frame. */
  lemma ReadEdge(t: Tree, next: seq<int>, stack: seq<int>, heads: seq<int>, rest: seq<seq<int>>)
    requires Searching(t, next, stack, heads, rest) && |stack| > 0 && heads[|stack| - 1] >= 0
    ensures var top := |stack| - 1; var e := heads[top];
      && rest[top] != [] && 0 <= e < |next| && e < |t.g.edges| && t.g.edges[e].source == stack[top]
      && t.g.Arc(stack[top], t.g.edges[e].target)
      && 0 <= t.g.edges[e].target < t.g.n && 0 <= t.num[t.g.edges[e].target]
      && Frames(t, next, stack, heads[top := next[e]], rest[top := rest[top][1..]])
  {
    var top := |stack| - 1;
    var e := heads[top];
    assert rest[top] != [] && e == rest[top][0] && e in rest[top];
    forall x | x in rest[top][1..] ensures x in rest[top] {
    }
  }

  /** An edge to a visited target is done with. */
  lemma SkipEdge(t: Tree, next: seq<int>, stack: seq<int>, heads: seq<int>, rest: seq<seq<int>>, target: int)
    requires Searching(t, next, stack, heads, rest) && |stack| > 0 && heads[|stack| - 1] >= 0
    requires heads[|stack| - 1] < |t.g.edges| && t.g.edges[heads[|stack| - 1]].target == target
    requires 0 <= target < t.g.n && t.num[target] > 0 && |next| == |t.g.edges|
    ensures var top := |stack| - 1;
      Searching(t, next, stack, heads[top := next[heads[top]]], rest[top := rest[top][1..]])
  {
    ReadEdge(t, next, stack, heads, rest);
    var top := |stack| - 1;
    var rest' := rest[top := rest[top][1..]];
    forall e | 0 <= e < |t.g.edges| && t.Visited(t.g.edges[e].source)
      ensures t.Visited(t.g.edges[e].target) || Unread(stack, rest', t.g.edges[e].source, e)
    {
      if !t.Visited(t.g.edges[e].target) {
        var i :| 0 <= i < |stack| && stack[i] == t.g.edges[e].source && e in rest[i];
        assert e != heads[top];
        assert e in rest'[i];
      }
    }
    hide Growing, ArcsDescend, OpenChain, Frames;
  }

  /** The new frame lists the edges of the target. */
  lemma AddFrame(t: Tree, next: seq<int>, stack: seq<int>, heads: seq<int>, rest: seq<seq<int>>,
                 source: int, target: int, head: int, arcs: seq<int>)
    requires Frames(t, next, stack, heads, rest) && t.Shape() && 0 <= target < t.g.n && t.count < t.g.n
    requires Chain(head, next, arcs)
    requires forall e :: e in arcs ==> 0 <= e < |t.g.edges| && t.g.edges[e].source == target
    ensures Frames(Visiting(t, source, target), next, stack + [target], heads + [head], rest + [arcs])
  {
  }

  /** An edge to an unvisited target opens a frame for it. */
  lemma OpenFrame(t: Tree, next: seq<int>, stack: seq<int>, heads: seq<int>, rest: seq<seq<int>>,
                  target: int, head: int, arcs: seq<int>)
    requires Searching(t, next, stack, heads, rest) && |stack| > 0 && heads[|stack| - 1] >= 0
    requires heads[|stack| - 1] < |t.g.edges| && t.g.edges[heads[|stack| - 1]].target == target
    requires 0 <= target < t.g.n && t.num[target] == 0 && t.count < t.g.n && |next| == |t.g.edges|
    requires Chain(head, next, arcs)
    requires forall e :: e in arcs <==> 0 <= e < |t.g.edges| && t.g.edges[e].source == target
    ensures var top := |stack| - 1;
      Searching(Visiting(t, stack[top], target), next, stack + [target],
                heads[top := next[heads[top]]] + [head], rest[top := rest[top][1..]] + [arcs])
  {
    ReadEdge(t, next, stack, heads, rest);
    var top := |stack| - 1;
    var source := stack[top];
    VisitGrows(t, source, target);
    VisitDescends(t, stack, rest, target);
    OpenFramePending(t, stack, heads[top], rest, target, arcs);
    AddFrame(t, next, stack, heads[top := next[heads[top]]], rest[top := rest[top][1..]], source, target, head, arcs);
    hide Growing, ArcsDescend, OpenChain, Frames, Pending, Visiting;
  }

  lemma OpenFramePending(t: Tree, stack: seq<int>, edge: int, rest: seq<seq<int>>, target: int, arcs: seq<int>)
    requires Growing(t) && |stack| == |rest| > 0 && Pending(t, stack, rest)
    requires 0 <= edge < |t.g.edges| && t.g.edges[edge].target == target && !t.Visited(target)
    requires 0 <= target < t.g.n && t.count < t.g.n
    requires rest[|stack| - 1] != [] && rest[|stack| - 1][0] == edge
    requires forall e :: e in arcs <==> 0 <= e < |t.g.edges| && t.g.edges[e].source == target
    ensures var top := |stack| - 1;
      Pending(Visiting(t, stack[top], target), stack + [target], rest[top := rest[top][1..]] + [arcs])
  {
    var top := |stack| - 1;
    var t' := Visiting(t, stack[top], target);
    var stack', rest' := stack + [target], rest[top := rest[top][1..]] + [arcs];
    forall e | 0 <= e < |t'.g.edges| && t'.Visited(t'.g.edges[e].source)
      ensures t'.Visited(t'.g.edges[e].target) || Unread(stack', rest', t'.g.edges[e].source, e)
    {
      if t'.g.edges[e].source == target {
        assert stack'[top + 1] == target && e in rest'[top + 1];
      } else if !t'.Visited(t'.g.edges[e].target) {
        assert t.Visited(t.g.edges[e].source);
        var i :| 0 <= i < |stack| && stack[i] == t.g.edges[e].source && e in rest[i];
        assert stack'[i] == stack[i] && e in rest'[i];
      }
    }
  }

  /** When nothing is open any more the tree is complete. */
  lemma NothingOpen(t: Tree, next: seq<int>)
    requires Searching(t, next, [], [], [])
    ensures t.Valid()
  {
  }

  lemma RootTree(g: Graph, num: seq<int>, vertex: seq<int>, parent: seq<int>)
    requires g.Valid() && |num| == |parent| == g.n && |vertex| == g.n + 1
    requires forall v :: 0 <= v < g.n ==> num[v] == (if v == ROOT then 1 else 0) && parent[v] == -1
    requires vertex[1] == ROOT
    ensures var t := Tree(g, num, vertex, parent, 1);
      Growing(t) && ArcsDescend(t) && OpenChain(t, [ROOT])
  {
  }

  /** What the adjacency lists hold of one vertex: all its edges, each with its target. */
  lemma ArcsOf(g: Graph, v: int, head: seq<int>, far: seq<int>, next: seq<int>) returns (arcs: seq<int>)
    requires g.Valid() && Adjacency(g, Sources(g), Targets(g), head, far, next)
    requires 0 <= v < g.n
    ensures |head| == g.n && |far| == |next| == |g.edges|
    ensures forall e :: 0 <= e < |g.edges| ==> far[e] == g.edges[e].target
    ensures Chain(head[v], next, arcs)
    ensures forall e :: e in arcs <==> 0 <= e < |g.edges| && g.edges[e].source == v
  {
    arcs := Keyed(Sources(g), v, |g.edges|);
    KeyedMembers(Sources(g), v, |g.edges|);
  }

  /** With only the root visited, its list of arcs is all that is left to read. */
  lemma RootFrame(t: Tree, next: seq<int>, head: int, arcs: seq<int>)
    requires Growing(t) && ArcsDescend(t) && OpenChain(t, [ROOT])
    requires forall v :: t.Visited(v) ==> v == ROOT
    requires |next| == |t.g.edges| && Chain(head, next, arcs)
    requires forall e :: e in arcs <==> 0 <= e < |t.g.edges| && t.g.edges[e].source == ROOT
    ensures Searching(t, next, [ROOT], [head], [arcs])
  {
    forall e | 0 <= e < |t.g.edges| && t.Visited(t.g.edges[e].source)
      ensures Unread([ROOT], [arcs], t.g.edges[e].source, e)
    {
      assert [ROOT][0] == t.g.edges[e].source && e in [arcs][0];
    }
  }

  /** Numbers `node` next; `semi` is the numbering for as long as the search runs. */
  method Visit(node: int, semi: array<int>, vertex: array<int>, labels: array<int>, dfsCount: int)
    returns (next: int)
    requires semi != vertex && semi != labels && vertex != labels
    requires 0 <= node < semi.Length == labels.Length && 0 <= dfsCount && dfsCount + 1 < vertex.Length
    modifies semi, vertex, labels
    ensures next == dfsCount + 1
    ensures semi[..] == old(semi[..])[node := next]
    ensures vertex[..] == old(vertex[..])[next := node]
    ensures labels[..] == old(labels[..])[node := node]
  {
    next := dfsCount + 1;
    semi[node] := next;
    vertex[next] := node;
    labels[node] := node;
  }

  /** The arrays hold tree `t`, and every visited vertex is its own label. */
  ghost predicate Holds(t: Tree, parent: seq<int>, semi: seq<int>, labels: seq<int>, vertex: seq<int>, dfsCount: int) {
    && semi == t.num && vertex == t.vertex && parent == t.parent && dfsCount == t.count
    && |labels| == |semi| && forall v :: 0 <= v < |semi| && semi[v] > 0 ==> labels[v] == v
  }

  /** Hangs `target` below `source` and numbers it. */
  method VisitBelow(ghost t: Tree, parent: array<int>, semi: array<int>, labels: array<int>, vertex: array<int>,
                    dfsCount: int, source: int, target: int)
    returns (next: int)
    requires parent != semi && parent != labels && parent != vertex && semi != labels && semi != vertex && labels != vertex
    requires t.Shape() && 0 <= target < t.g.n && t.count < t.g.n
    requires Holds(t, parent[..], semi[..], labels[..], vertex[..], dfsCount)
    modifies parent, semi, labels, vertex
    ensures Holds(Visiting(t, source, target), parent[..], semi[..], labels[..], vertex[..], next)
  {
    parent[target] := source;
    assert parent[..] == t.parent[target := source];
    next := Visit(target, semi, vertex, labels, dfsCount);
  }

  /** The arrays of a search that has visited the root. */
  method StartSearch(g: Graph)
    returns (parent: array<int>, semi: array<int>, labels: array<int>, vertex: array<int>, dfsCount: int, ghost t: Tree)
    requires g.Valid()
    ensures fresh({parent, semi, labels, vertex})
    ensures parent != semi && parent != labels && parent != vertex && semi != labels && semi != vertex && labels != vertex
    ensures t.g == g && Holds(t, parent[..], semi[..], labels[..], vertex[..], dfsCount)
    ensures Growing(t) && ArcsDescend(t) && OpenChain(t, [ROOT])
    ensures forall v :: t.Visited(v) ==> v == ROOT
  {
    parent := Filled(g.n, -1);
    semi := Filled(g.n, 0);
    labels := Filled(g.n, 0);
    vertex := Filled(g.n + 1, 0);
    dfsCount := Visit(ROOT, semi, vertex, labels, 0);
    t := Tree(g, semi[..], vertex[..], parent[..], dfsCount);
    RootTree(g, semi[..], vertex[..], parent[..]);
  }

  method Search(g: Graph, outgoingHead: array<int>, outgoingTo: array<int>, outgoingNext: array<int>)
    returns (parent: array<int>, semi: array<int>, labels: array<int>, vertex: array<int>, dfsCount: int)
    requires g.Valid()
    requires Adjacency(g, Sources(g), Targets(g), outgoingHead[..], outgoingTo[..], outgoingNext[..])
    ensures fresh({parent, semi, labels, vertex})
    ensures parent != semi && parent != labels && parent != vertex && semi != labels && semi != vertex && labels != vertex
    ensures Tree(g, semi[..], vertex[..], parent[..], dfsCount).Valid()
    ensures labels.Length == g.n && forall v :: 0 <= v < g.n && semi[v] > 0 ==> labels[v] == v
  {
    hide Growing, ArcsDescend, OpenChain, Frames, Pending, Searching, Adjacency, Chain;
    ghost var t: Tree;
    parent, semi, labels, vertex, dfsCount, t := StartSearch(g);
    ghost var heads, far, next := outgoingHead[..], outgoingTo[..], outgoingNext[..];
    ghost var arcs := ArcsOf(g, ROOT, heads, far, next);
    var stackNodes, stackEdges := [ROOT], [outgoingHead[ROOT]];
    RootFrame(t, next, outgoingHead[ROOT], arcs);
    ghost var rest := [arcs];
    while |stackNodes| > 0
      invariant t.g == g && Holds(t, parent[..], semi[..], labels[..], vertex[..], dfsCount)
      invariant Searching(t, next, stackNodes, stackEdges, rest)
      decreases g.n - t.count, |stackNodes|, if |rest| > 0 then |rest[|rest| - 1]| else 0
    {
      SearchShape(t, next, stackNodes, stackEdges, rest);
      var frame := |stackNodes| - 1;
      var source, edge := stackNodes[frame], stackEdges[frame];
      if edge < 0 {
        PopFrame(t, next, stackNodes, stackEdges, rest);
        stackNodes, stackEdges, rest := stackNodes[..frame], stackEdges[..frame], rest[..frame];
      } else {
        ReadEdge(t, next, stackNodes, stackEdges, rest);
        var target := outgoingTo[edge];
        assert target == g.edges[edge].target;
        if semi[target] != 0 {
          SkipEdge(t, next, stackNodes, stackEdges, rest, target);
          stackEdges, rest := stackEdges[frame := outgoingNext[edge]], rest[frame := rest[frame][1..]];
        } else {
          RoomToVisit(t, target);
          arcs := ArcsOf(g, target, heads, far, next);
          OpenFrame(t, next, stackNodes, stackEdges, rest, target, outgoingHead[target], arcs);
          dfsCount := VisitBelow(t, parent, semi, labels, vertex, dfsCount, source, target);
          t, rest := Visiting(t, source, target), rest[frame := rest[frame][1..]] + [arcs];
          stackNodes := stackNodes + [target];
          stackEdges := stackEdges[frame := outgoingNext[edge]] + [outgoingHead[target]];
        }
      }
    }
    SearchShape(t, next, stackNodes, stackEdges, rest);
    assert stackNodes == [] && stackEdges == [] && rest == [];
    NothingOpen(t, next);
    assert t == Tree(g, semi[..], vertex[..], parent[..], dfsCount);
  }
}
