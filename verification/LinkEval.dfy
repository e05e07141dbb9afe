/** The link/eval forest: `ancestor` and `labels` compress the forest whose parents are `up`. */
module LinkEval {
  import opened DepthFirstTree

  /** `up` is the uncompressed forest: -1 at a root, otherwise a lower-numbered parent. */
  ghost predicate Forest(num: seq<int>, up: seq<int>) {
    && |num| == |up|
    && forall v {:trigger up[v]} :: 0 <= v < |up| ==>
         -1 <= up[v] < |up| && (up[v] >= 0 ==> 0 < num[up[v]] < num[v])
  }

  ghost predicate OnPath(num: seq<int>, up: seq<int>, u: int, v: int)
    requires Forest(num, up)
  {
    0 <= u < |up| && up[u] >= 0 && Ancestor(num, up, u, v)
  }

  /** `r` has the least `semi` on the forest path from `v` up to, and without, its tree root. */
  ghost predicate LeastOnPath(num: seq<int>, up: seq<int>, semi: seq<int>, r: int, v: int)
    requires Forest(num, up) && |semi| == |up|
  {
    && OnPath(num, up, r, v)
    && forall u :: OnPath(num, up, u, v) ==> semi[r] <= semi[u]
  }

  /** What the two arrays store about one vertex: a root stores no ancestor; any other vertex stores a
      forest ancestor, and the label of least `semi` strictly below that ancestor or higher up. */
  ghost predicate Compressed(num: seq<int>, up: seq<int>, semi: seq<int>, v: int, a: int, l: int)
    requires Forest(num, up) && |semi| == |up| && 0 <= v < |up|
  {
    if up[v] < 0 then a == -1 && (num[v] > 0 ==> l == v)
    else
      && a != v && 0 <= a < |up| && Ancestor(num, up, a, v)
      && OnPath(num, up, l, v)
      && forall u :: OnPath(num, up, u, v) && num[a] < num[u] ==> semi[l] <= semi[u]
  }

  ghost predicate Represents(num: seq<int>, up: seq<int>, semi: seq<int>, ancestor: seq<int>, labels: seq<int>) {
    && Forest(num, up)
    && |semi| == |ancestor| == |labels| == |up|
    && forall v :: 0 <= v < |up| ==> Compressed(num, up, semi, v, ancestor[v], labels[v])
  }

  lemma RepresentsShape(num: seq<int>, up: seq<int>, semi: seq<int>, ancestor: seq<int>, labels: seq<int>)
    requires Represents(num, up, semi, ancestor, labels)
    ensures Forest(num, up) && |semi| == |ancestor| == |labels| == |up|
  {
  }

  /** Below a forest root nothing is left out: every vertex of the path is above that root. */
  lemma PathAboveRoot(num: seq<int>, up: seq<int>, a: int, v: int)
    requires Forest(num, up) && 0 <= v < |up| && 0 <= a < |up|
    requires Ancestor(num, up, a, v) && up[a] < 0
    ensures forall u :: OnPath(num, up, u, v) ==> num[a] < num[u]
  {
    forall u | OnPath(num, up, u, v) ensures num[a] < num[u] {
      NoAncestorOfRoot(num, up, u, a, v);
    }
  }

  lemma {:induction false} NoAncestorOfRoot(num: seq<int>, up: seq<int>, u: int, a: int, v: int)
    requires Forest(num, up) && 0 <= v < |up| && 0 <= a < |up|
    requires Ancestor(num, up, a, v) && up[a] < 0 && OnPath(num, up, u, v)
    ensures num[a] < num[u]
    decreases if num[v] > 0 then num[v] else 0
  {
    if u == v {
      AncestorRank(num, up, a, v);
    } else {
      NoAncestorOfRoot(num, up, u, a, up[v]);
    }
  }

  /** A path vertex above `p` lies on the path of `p`. */
  lemma {:induction false} PathSplits(num: seq<int>, up: seq<int>, u: int, p: int, v: int)
    requires Forest(num, up) && 0 <= v < |up| && 0 <= p < |up|
    requires Ancestor(num, up, p, v) && OnPath(num, up, u, v) && num[u] <= num[p]
    ensures OnPath(num, up, u, p)
    decreases if num[v] > 0 then num[v] else 0
  {
    if p != v {
      AncestorRank(num, up, p, v);
      PathSplits(num, up, u, p, up[v]);
    }
  }

  /** Storing the grandparent read before the recursive call, with the smaller of the two labels,
      keeps the representation and makes the label the least on the whole path. */
  lemma CompressStep(num: seq<int>, up: seq<int>, semi: seq<int>, v: int, p: int, g: int, pl: int, vl: int)
    requires Forest(num, up) && |semi| == |up| && 0 <= v < |up| && up[v] >= 0
    requires Compressed(num, up, semi, v, p, vl)
    requires up[p] >= 0 && LeastOnPath(num, up, semi, pl, p)
    requires g != p && 0 <= g < |up| && Ancestor(num, up, g, p)
    ensures var l := if semi[pl] < semi[vl] then pl else vl;
      Compressed(num, up, semi, v, g, l) && LeastOnPath(num, up, semi, l, v)
  {
    AncestorTransitive(num, up, g, p, v);
    AncestorTransitive(num, up, pl, p, v);
    AncestorRank(num, up, g, p);
    AncestorRank(num, up, p, v);
    var l := if semi[pl] < semi[vl] then pl else vl;
    forall u | OnPath(num, up, u, v) ensures semi[l] <= semi[u] {
      if num[u] <= num[p] {
        PathSplits(num, up, u, p, v);
      }
    }
  }

  /** Path compression from `node`: terminates on the numbers along the stored chain. */
  method Compress(ghost num: seq<int>, ghost up: seq<int>, semi: array<int>,
                  ancestor: array<int>, labels: array<int>, node: int)
    requires ancestor != labels && ancestor != semi && labels != semi
    requires Represents(num, up, semi[..], ancestor[..], labels[..])
    requires 0 <= node < ancestor.Length
    modifies ancestor, labels
    ensures Represents(num, up, semi[..], ancestor[..], labels[..])
    ensures up[node] >= 0 ==> LeastOnPath(num, up, semi[..], labels[node], node)
    ensures forall x :: 0 <= x < ancestor.Length && !Ancestor(num, up, x, node) ==>
      ancestor[x] == old(ancestor[x]) && labels[x] == old(labels[x])
    decreases if num[node] > 0 then num[node] else 0
  {
    assert Compressed(num, up, semi[..], node, ancestor[..][node], labels[..][node]);
    var parentNode := ancestor[node];
    if parentNode < 0 {
      return;
    }
    assert Compressed(num, up, semi[..], parentNode, ancestor[..][parentNode], labels[..][parentNode]);
    var grandparent := ancestor[parentNode];
    AncestorRank(num, up, parentNode, node);
    if grandparent >= 0 {
      if Ancestor(num, up, node, parentNode) {
        AncestorRank(num, up, node, parentNode);
      }
      Compress(num, up, semi, ancestor, labels, parentNode);
      var parentLabel := labels[parentNode];
      var nodeLabel := labels[node];
      CompressStep(num, up, semi[..], node, parentNode, grandparent, parentLabel, nodeLabel);
      ghost var before, beforeLabel := ancestor[..], labels[..];
      if semi[parentLabel] < semi[nodeLabel] {
        labels[node] := parentLabel;
      }
      ancestor[node] := grandparent;
      assert ancestor[..] == before[node := grandparent];
      assert labels[..] == beforeLabel[node := labels[node]];
      forall x | Ancestor(num, up, x, parentNode) ensures Ancestor(num, up, x, node) {
        AncestorTransitive(num, up, x, parentNode, node);
      }
    } else {
      PathAboveRoot(num, up, parentNode, node);
    }
  }

  /** The vertex of least `semi` on the forest path of `node`, or the root itself. */
  method EvaluateNode(ghost num: seq<int>, ghost up: seq<int>, semi: array<int>,
                      ancestor: array<int>, labels: array<int>, node: int)
    returns (r: int)
    requires ancestor != labels && ancestor != semi && labels != semi
    requires Represents(num, up, semi[..], ancestor[..], labels[..])
    requires 0 <= node < ancestor.Length
    modifies ancestor, labels
    ensures Represents(num, up, semi[..], ancestor[..], labels[..])
    ensures up[node] < 0 && num[node] > 0 ==> r == node
    ensures up[node] >= 0 ==> LeastOnPath(num, up, semi[..], r, node)
  {
    assert Compressed(num, up, semi[..], node, ancestor[..][node], labels[..][node]);
    if ancestor[node] < 0 {
      return labels[node];
    }
    Compress(num, up, semi, ancestor, labels, node);
    r := labels[node];
  }

  /** The chain of a vertex survives a link, and so do the paths strictly below an old ancestor. */
  lemma {:induction false} LinkKeepsAncestors(num: seq<int>, up: seq<int>, w: int, p: int, u: int, v: int)
    requires Forest(num, up) && 0 <= w < |up| && up[w] < 0 && 0 <= p < |up| && 0 < num[p] < num[w]
    requires Ancestor(num, up, u, v) && 0 <= v < |up|
    ensures Ancestor(num, up[w := p], u, v)
    decreases if num[v] > 0 then num[v] else 0
  {
    if u != v {
      LinkKeepsAncestors(num, up, w, p, u, up[v]);
    }
  }

  lemma {:induction false} LinkKeepsLowPath(num: seq<int>, up: seq<int>, w: int, p: int, u: int, a: int, v: int)
    requires Forest(num, up) && 0 <= w < |up| && up[w] < 0 && 0 <= p < |up| && 0 < num[p] < num[w]
    requires Forest(num, up[w := p]) && 0 <= v < |up| && up[v] >= 0
    requires 0 <= a < |up| && a != v && Ancestor(num, up, a, v)
    requires OnPath(num, up[w := p], u, v) && num[a] < num[u]
    ensures OnPath(num, up, u, v)
    decreases if num[v] > 0 then num[v] else 0
  {
    if u != v {
      if a == up[v] {
        AncestorRank(num, up[w := p], u, a);
      } else {
        assert up[up[v]] >= 0;
        LinkKeepsLowPath(num, up, w, p, u, a, up[v]);
      }
    }
  }

  /** Hanging the root `w` below the lower-numbered `p` keeps the representation. */
  lemma LinkStep(num: seq<int>, up: seq<int>, semi: seq<int>, ancestor: seq<int>, labels: seq<int>, w: int, p: int)
    requires Represents(num, up, semi, ancestor, labels)
    requires 0 <= w < |up| && up[w] < 0 && 0 <= p < |up| && 0 < num[p] < num[w]
    ensures Represents(num, up[w := p], semi, ancestor[w := p], labels)
  {
    var up' := up[w := p];
    forall v | 0 <= v < |up| ensures Compressed(num, up', semi, v, ancestor[w := p][v], labels[v]) {
      assert Compressed(num, up, semi, v, ancestor[v], labels[v]);
      if v == w {
        forall u | OnPath(num, up', u, v) && num[p] < num[u] ensures u == v {
          if u != v {
            AncestorRank(num, up', u, p);
          }
        }
      } else if up[v] >= 0 {
        var a, l := ancestor[v], labels[v];
        LinkKeepsAncestors(num, up, w, p, a, v);
        LinkKeepsAncestors(num, up, w, p, l, v);
        forall u | OnPath(num, up', u, v) && num[a] < num[u] ensures semi[l] <= semi[u] {
          LinkKeepsLowPath(num, up, w, p, u, a, v);
        }
      }
    }
  }

  /** Lowering `semi` at a root is invisible to the representation. */
  lemma RootSemiStep(num: seq<int>, up: seq<int>, semi: seq<int>, ancestor: seq<int>, labels: seq<int>, w: int, s: int)
    requires Represents(num, up, semi, ancestor, labels)
    requires 0 <= w < |up| && up[w] < 0
    ensures Represents(num, up, semi[w := s], ancestor, labels)
  {
  }
}
