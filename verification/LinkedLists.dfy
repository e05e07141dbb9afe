/** Index-linked lists: `next[e]` follows `e`, and a negative index ends the list. */
module LinkedLists {

  ghost predicate Chain(head: int, next: seq<int>, xs: seq<int>)
    decreases |xs|
  {
    if xs == [] then head < 0
    else head == xs[0] && 0 <= head < |next| && Chain(next[head], next, xs[1..])
  }

  /** Rewriting a link outside the list leaves the list alone. */
  lemma {:induction false} ChainFrame(head: int, next: seq<int>, xs: seq<int>, e: int, y: int)
    requires Chain(head, next, xs) && 0 <= e < |next| && e !in xs
    ensures Chain(head, next[e := y], xs)
    decreases |xs|
  {
    if xs != [] {
      assert xs[0] in xs;
      ChainFrame(next[head], next, xs[1..], e, y);
    }
  }

  /** The indices below `k` whose key is `v`, latest first: what pushing at the head leaves. */
  ghost function Keyed(keys: seq<int>, v: int, k: nat): seq<int>
    requires k <= |keys|
  {
    if k == 0 then []
    else if keys[k - 1] == v then [k - 1] + Keyed(keys, v, k - 1)
    else Keyed(keys, v, k - 1)
  }

  lemma {:induction false} KeyedMembers(keys: seq<int>, v: int, k: nat)
    requires k <= |keys|
    ensures forall e :: e in Keyed(keys, v, k) <==> 0 <= e < k && keys[e] == v
  {
    if k > 0 {
      KeyedMembers(keys, v, k - 1);
    }
  }

  /** `head` and `next` hold, for each of the vertices, the list of its keyed indices below `k`. */
  ghost predicate Lists(keys: seq<int>, k: nat, head: seq<int>, next: seq<int>)
    requires k <= |keys|
  {
    |next| == |keys| && forall v {:trigger Keyed(keys, v, k)} :: 0 <= v < |head| ==> Chain(head[v], next, Keyed(keys, v, k))
  }

  /** Pushing index `k` at the head of the list of its key. */
  lemma PushKeyed(keys: seq<int>, k: nat, head: seq<int>, next: seq<int>)
    requires k < |keys| && Lists(keys, k, head, next) && 0 <= keys[k] < |head|
    ensures Lists(keys, k + 1, head[keys[k] := k], next[k := head[keys[k]]])
  {
    var head', next' := head[keys[k] := k], next[k := head[keys[k]]];
    forall v | 0 <= v < |head| ensures Chain(head'[v], next', Keyed(keys, v, k + 1)) {
      KeyedMembers(keys, v, k);
      ChainFrame(head[v], next, Keyed(keys, v, k), k, head[keys[k]]);
      if v == keys[k] {
        assert ([k] + Keyed(keys, v, k))[1..] == Keyed(keys, v, k);
      }
    }
  }
}
