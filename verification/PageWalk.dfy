/** The walk over the composed page: light and shadow children, slots, and the documents of frames. */
module PageWalk {
  import opened Options

  const SCAN_LIMIT: nat := 20000
  const MAX_FRAME_DEPTH: nat := 4

  /** What the walk reads of a node. `frameRoot` is the root element of a readable frame document. */
  datatype Element = Element(
    isElement: bool, included: bool, sensitive: bool,
    light: seq<nat>, shadow: Option<seq<nat>>, slotted: seq<nat>, isSlot: bool,
    frameRoot: Option<nat>)

  type Dom = seq<Element>

  /** A shadow root replaces the children, and assigned elements replace those of a slot. */
  function Children(e: Element): seq<nat> {
    if e.isSlot && e.slotted != [] then e.slotted
    else if e.shadow.Some? then e.shadow.value
    else e.light
  }

  /** References lead to nodes of the page. */
  predicate WellFormed(dom: Dom) {
    forall x :: 0 <= x < |dom| ==>
      (forall i :: 0 <= i < |Children(dom[x])| ==> Children(dom[x])[i] < |dom|) &&
      (dom[x].frameRoot.Some? ==> dom[x].frameRoot.value < |dom|)
  }

  predicate Within(dom: Dom, list: seq<nat>) {
    forall i :: 0 <= i < |list| ==> list[i] < |dom|
  }

  // ----- the recursive walk

  /** Visited elements in order; `deep` when a frame document was left out. */
  datatype Walked = Walked(order: seq<nat>, deep: bool)

  /** Preorder with a seen-set: an element, then the document of a frame, then the children. */
  function Visit(dom: Dom, x: nat, depth: nat, s: Walked): (r: Walked)
    requires WellFormed(dom) && x < |dom|
    ensures s.order <= r.order && (|s.order| <= SCAN_LIMIT ==> |r.order| <= SCAN_LIMIT) && (s.deep ==> r.deep)
    decreases SCAN_LIMIT - |s.order|, 0, 1
  {
    if |s.order| >= SCAN_LIMIT || !dom[x].isElement || x in s.order then s
    else
      var s1 := s.(order := s.order + [x]);
      if dom[x].sensitive then s1
      else
        var s2 := match dom[x].frameRoot
          case None => s1
          case Some(f) => if depth < MAX_FRAME_DEPTH then VisitAll(dom, [f], depth + 1, s1) else s1.(deep := true);
        VisitAll(dom, Children(dom[x]), depth, s2)
  }

  function VisitAll(dom: Dom, list: seq<nat>, depth: nat, s: Walked): (r: Walked)
    requires WellFormed(dom) && Within(dom, list)
    ensures s.order <= r.order && (|s.order| <= SCAN_LIMIT ==> |r.order| <= SCAN_LIMIT) && (s.deep ==> r.deep)
    decreases SCAN_LIMIT - |s.order|, |list|, 0
  {
    if list == [] then s
    else VisitAll(dom, list[1..], depth, Visit(dom, list[0], depth, s))
  }

  // ----- the walk with a stack of iterators

  /** An iterator: what it has not yielded yet. */
  datatype Frame = Frame(rest: seq<nat>, depth: nat)

  predicate StackWithin(dom: Dom, stack: seq<Frame>) {
    forall i :: 0 <= i < |stack| ==> Within(dom, stack[i].rest)
  }

  /** What the iterators of a stack still yield, the last one first. */
  function Continue(dom: Dom, stack: seq<Frame>, s: Walked): Walked
    requires WellFormed(dom) && StackWithin(dom, stack)
    decreases |stack|
  {
    if stack == [] then s
    else
      var top := stack[|stack| - 1];
      Continue(dom, stack[..|stack| - 1], VisitAll(dom, top.rest, top.depth, s))
  }

  function Left(stack: seq<Frame>): nat {
    if stack == [] then 0 else Left(stack[..|stack| - 1]) + |stack[|stack| - 1].rest| + 1
  }

  /** At the limit nothing more is visited. */
  lemma {:induction false} LimitStopsAll(dom: Dom, list: seq<nat>, depth: nat, s: Walked)
    requires WellFormed(dom) && Within(dom, list) && |s.order| >= SCAN_LIMIT
    ensures VisitAll(dom, list, depth, s) == s
    decreases |list|
  {
    if list != [] {
      LimitStopsAll(dom, list[1..], depth, s);
    }
  }

  lemma {:induction false} LimitStops(dom: Dom, stack: seq<Frame>, s: Walked)
    requires WellFormed(dom) && StackWithin(dom, stack) && |s.order| >= SCAN_LIMIT
    ensures Continue(dom, stack, s) == s
    decreases |stack|
  {
    if stack != [] {
      var top := stack[|stack| - 1];
      LimitStopsAll(dom, top.rest, top.depth, s);
      LimitStops(dom, stack[..|stack| - 1], s);
    }
  }

  function Included(dom: Dom, order: seq<nat>): (r: seq<nat>) {
    if order == [] then []
    else
      var last := order[|order| - 1];
      Included(dom, order[..|order| - 1]) + if last < |dom| && dom[last].included then [last] else []
  }

  /** What a step pushes for a visited element. */
  function Pushed(dom: Dom, x: nat, depth: nat): seq<Frame>
    requires WellFormed(dom) && x < |dom|
  {
    if dom[x].sensitive then []
    else
      [Frame(Children(dom[x]), depth)]
      + if dom[x].frameRoot.Some? && depth < MAX_FRAME_DEPTH then [Frame([dom[x].frameRoot.value], depth + 1)] else []
  }

  predicate TooDeep(dom: Dom, x: nat, depth: nat)
    requires x < |dom|
  {
    !dom[x].sensitive && dom[x].frameRoot.Some? && depth >= MAX_FRAME_DEPTH
  }

  lemma PoppedContinues(dom: Dom, stack: seq<Frame>, s: Walked)
    requires WellFormed(dom) && StackWithin(dom, stack) && stack != [] && stack[|stack| - 1].rest == []
    ensures Continue(dom, stack, s) == Continue(dom, stack[..|stack| - 1], s)
  {
  }

  lemma VisitsHeadFirst(dom: Dom, x: nat, rest: seq<nat>, depth: nat, s: Walked)
    requires WellFormed(dom) && x < |dom| && Within(dom, rest)
    ensures Within(dom, [x] + rest)
    ensures VisitAll(dom, [x] + rest, depth, s) == VisitAll(dom, rest, depth, Visit(dom, x, depth, s))
  {
  }

  predicate Fresh(dom: Dom, x: nat, s: Walked) {
    x < |dom| && dom[x].isElement && x !in s.order && |s.order| < SCAN_LIMIT
  }

  lemma VisitParts(dom: Dom, x: nat, depth: nat, s: Walked)
    requires WellFormed(dom) && Fresh(dom, x, s)
    ensures Within(dom, Children(dom[x])) && (dom[x].frameRoot.Some? ==> Within(dom, [dom[x].frameRoot.value]))
    ensures var s1 := Walked(s.order + [x], s.deep || TooDeep(dom, x, depth));
      Visit(dom, x, depth, s) ==
        if dom[x].sensitive then s1
        else if dom[x].frameRoot.Some? && depth < MAX_FRAME_DEPTH then
          VisitAll(dom, Children(dom[x]), depth, VisitAll(dom, [dom[x].frameRoot.value], depth + 1, s1))
        else VisitAll(dom, Children(dom[x]), depth, s1)
  {
  }

  lemma TwoContinue(dom: Dom, stack: seq<Frame>, a: Frame, b: Frame, s: Walked)
    requires WellFormed(dom) && StackWithin(dom, stack) && Within(dom, a.rest) && Within(dom, b.rest)
    ensures StackWithin(dom, stack + ([a] + [b]))
    ensures Continue(dom, stack + ([a] + [b]), s)
      == Continue(dom, stack, VisitAll(dom, a.rest, a.depth, VisitAll(dom, b.rest, b.depth, s)))
  {
    hide Continue, VisitAll, Within, StackWithin;
    assert stack + ([a] + [b]) == (stack + [a]) + [b];
    ContinuesTop(dom, stack, a, VisitAll(dom, b.rest, b.depth, s));
    ContinuesTop(dom, stack + [a], b, s);
  }

  lemma PushedWithin(dom: Dom, stack: seq<Frame>, x: nat, depth: nat)
    requires WellFormed(dom) && StackWithin(dom, stack) && x < |dom|
    ensures StackWithin(dom, stack + Pushed(dom, x, depth))
  {
    assert Within(dom, Children(dom[x]));
    hide Children;
  }

  /** The iterators pushed for a new element yield what its visit adds. */
  lemma PushedContinues(dom: Dom, stack: seq<Frame>, x: nat, depth: nat, s: Walked)
    requires WellFormed(dom) && StackWithin(dom, stack) && Fresh(dom, x, s)
    ensures StackWithin(dom, stack + Pushed(dom, x, depth))
    ensures Continue(dom, stack + Pushed(dom, x, depth), Walked(s.order + [x], s.deep || TooDeep(dom, x, depth)))
      == Continue(dom, stack, Visit(dom, x, depth, s))
  {
    hide Visit, VisitAll, Continue, StackWithin, Within, WellFormed, Children;
    VisitParts(dom, x, depth, s);
    var s1 := Walked(s.order + [x], s.deep || TooDeep(dom, x, depth));
    if dom[x].sensitive {
      assert stack + Pushed(dom, x, depth) == stack;
    } else {
      var children := Frame(Children(dom[x]), depth);
      ContinuesTop(dom, stack, children, s1);
      if dom[x].frameRoot.Some? && depth < MAX_FRAME_DEPTH {
        var frame := Frame([dom[x].frameRoot.value], depth + 1);
        assert Pushed(dom, x, depth) == [children] + [frame];
        TwoContinue(dom, stack, children, frame, s1);
      } else {
        assert Pushed(dom, x, depth) == [children];
      }
    }
  }

  /** Taking the next element off the top iterator and visiting it leaves the same walk. */
  lemma NextContinues(dom: Dom, below: seq<Frame>, rest: seq<nat>, x: nat, depth: nat, s: Walked)
    requires WellFormed(dom) && StackWithin(dom, below) && Within(dom, rest) && x < |dom| && |s.order| < SCAN_LIMIT
    ensures StackWithin(dom, below + [Frame(rest, depth)])
    ensures StackWithin(dom, below + [Frame(rest, depth)] + Pushed(dom, x, depth))
    ensures Continue(dom, below + [Frame([x] + rest, depth)], s) ==
      if !Fresh(dom, x, s) then Continue(dom, below + [Frame(rest, depth)], s)
      else
        Continue(dom, below + [Frame(rest, depth)] + Pushed(dom, x, depth),
                 Walked(s.order + [x], s.deep || TooDeep(dom, x, depth)))
  {
    hide VisitAll, Continue, StackWithin, Pushed;
    var top := below + [Frame(rest, depth)];
    VisitsHeadFirst(dom, x, rest, depth, s);
    ContinuesTop(dom, below, Frame([x] + rest, depth), s);
    ContinuesTop(dom, below, Frame(rest, depth), Visit(dom, x, depth, s));
    if Fresh(dom, x, s) {
      PushedContinues(dom, top, x, depth, s);
    }
    PushedWithin(dom, top, x, depth);
  }

  lemma ContinuesTop(dom: Dom, below: seq<Frame>, top: Frame, s: Walked)
    requires WellFormed(dom) && StackWithin(dom, below) && Within(dom, top.rest)
    ensures StackWithin(dom, below + [top])
    ensures Continue(dom, below + [top], s) == Continue(dom, below, VisitAll(dom, top.rest, top.depth, s))
  {
  }

  lemma IncludedGrows(dom: Dom, order: seq<nat>, x: nat)
    requires x < |dom|
    ensures Included(dom, order + [x]) == Included(dom, order) + if dom[x].included then [x] else []
  {
  }

  lemma LeftDrops(stack: seq<Frame>)
    requires stack != []
    ensures Left(stack) == Left(stack[..|stack| - 1]) + |stack[|stack| - 1].rest| + 1
  {
  }

  lemma RootContinues(dom: Dom, root: nat)
    requires WellFormed(dom) && root < |dom|
    ensures StackWithin(dom, [Frame([root], 0)])
    ensures Continue(dom, [Frame([root], 0)], Walked([], false)) == Visit(dom, root, 0, Walked([], false))
  {
    var s := Walked([], false);
    assert [Frame([root], 0)] == [] + [Frame([root], 0)];
    ContinuesTop(dom, [], Frame([root], 0), s);
    assert VisitAll(dom, [root], 0, s) == VisitAll(dom, [], 0, Visit(dom, root, 0, s));
  }

  lemma EmptyContinues(dom: Dom, s: Walked)
    requires WellFormed(dom)
    ensures Continue(dom, [], s) == s
  {
  }

  /** The stack visits exactly what the recursion visits, in the same order; the walk is cut when the
      limit is reached or a frame document is too deep, and in no other case. */
  method Walk(dom: Dom, root: nat) returns (candidates: seq<nat>, scanned: nat, truncated: bool)
    requires WellFormed(dom) && root < |dom|
    ensures var walked := Visit(dom, root, 0, Walked([], false));
      && candidates == Included(dom, walked.order) && scanned == |walked.order|
      && (truncated <==> scanned == SCAN_LIMIT || walked.deep)
  {
    var pending := [Frame([root], 0)];
    var order: seq<nat> := [];
    candidates, scanned, truncated := [], 0, false;
    ghost var goal := Visit(dom, root, 0, Walked([], false));
    RootContinues(dom, root);
    hide Continue, Visit, VisitAll, Pushed, TooDeep, Left, Included, WellFormed;
    while pending != [] && scanned < SCAN_LIMIT
      invariant StackWithin(dom, pending) && scanned == |order| <= SCAN_LIMIT
      invariant Continue(dom, pending, Walked(order, truncated)) == goal
      invariant candidates == Included(dom, order)
      invariant scanned == SCAN_LIMIT ==> pending != []
      decreases SCAN_LIMIT - scanned, Left(pending)
    {
      LeftDrops(pending);
      var top := pending[|pending| - 1];
      ghost var below := pending[..|pending| - 1];
      assert pending == below + [top];
      if top.rest == [] {
        PoppedContinues(dom, pending, Walked(order, truncated));
        pending := pending[..|pending| - 1];
      } else {
        var x, rest := top.rest[0], top.rest[1..];
        assert top.rest == [x] + rest;
        NextContinues(dom, below, rest, x, top.depth, Walked(order, truncated));
        LeftDrops(below + [Frame(rest, top.depth)]);
        pending := pending[..|pending| - 1] + [Frame(rest, top.depth)];
        if dom[x].isElement && x !in order {
          IncludedGrows(dom, order, x);
          order := order + [x];
          scanned := scanned + 1;
          if dom[x].included {
            candidates := candidates + [x];
          }
          pending := pending + Pushed(dom, x, top.depth);
          truncated := truncated || TooDeep(dom, x, top.depth);
        }
      }
    }
    if scanned == SCAN_LIMIT {
      LimitStops(dom, pending, Walked(order, truncated));
    } else {
      EmptyContinues(dom, Walked(order, truncated));
    }
    truncated := truncated || pending != [];
  }

  // ----- what is visited

  /** Where the walk goes from an element; nothing below a sensitive one. */
  function Successors(dom: Dom, x: nat): seq<nat>
    requires x < |dom|
  {
    if !dom[x].isElement || dom[x].sensitive then []
    else (if dom[x].frameRoot.Some? then [dom[x].frameRoot.value] else []) + Children(dom[x])
  }

  predicate IsPath(dom: Dom, path: seq<nat>) {
    && path != [] && Within(dom, path)
    && forall i :: 0 < i < |path| ==> path[i] in Successors(dom, path[i - 1])
  }

  /** Reached through frames, shadow roots, slots and children, never through a sensitive element. */
  ghost predicate Reachable(dom: Dom, root: nat, x: nat) {
    exists path: seq<nat> :: IsPath(dom, path) && path[0] == root && path[|path| - 1] == x
  }

  predicate Distinct(dom: Dom, order: seq<nat>) {
    && (forall i :: 0 <= i < |order| ==> order[i] < |dom| && dom[order[i]].isElement)
    && (forall i, j :: 0 <= i < j < |order| ==> order[i] != order[j])
  }

  /** A set of nodes that the walk cannot leave. */
  ghost predicate Trap(dom: Dom, nodes: set<nat>) {
    forall x, y :: x in nodes && x < |dom| && y in Successors(dom, x) ==> y in nodes
  }

  lemma TrapHolds(dom: Dom, nodes: set<nat>, x: nat)
    requires WellFormed(dom) && Trap(dom, nodes) && x in nodes && x < |dom| && dom[x].isElement && !dom[x].sensitive
    ensures Within(dom, Children(dom[x])) && forall y :: y in Children(dom[x]) ==> y in nodes
    ensures dom[x].frameRoot.Some? ==> dom[x].frameRoot.value < |dom| && dom[x].frameRoot.value in nodes
  {
  }

  predicate Inside(dom: Dom, order: seq<nat>, nodes: set<nat>) {
    Distinct(dom, order) && forall i :: 0 <= i < |order| ==> order[i] in nodes
  }

  lemma AppendStays(dom: Dom, order: seq<nat>, nodes: set<nat>, x: nat)
    requires Inside(dom, order, nodes) && x < |dom| && dom[x].isElement && x in nodes && x !in order
    ensures Inside(dom, order + [x], nodes)
  {
  }

  lemma {:induction false} VisitStays(dom: Dom, x: nat, depth: nat, s: Walked, nodes: set<nat>)
    requires WellFormed(dom) && x < |dom| && Inside(dom, s.order, nodes)
    requires Trap(dom, nodes) && x in nodes
    ensures Inside(dom, Visit(dom, x, depth, s).order, nodes)
    decreases SCAN_LIMIT - |s.order|, 0, 1
  {
    hide Inside;
    if |s.order| < SCAN_LIMIT && dom[x].isElement && x !in s.order {
      AppendStays(dom, s.order, nodes, x);
      if !dom[x].sensitive {
        var s1 := s.(order := s.order + [x]);
        var s2 := s1;
        TrapHolds(dom, nodes, x);
        hide Trap, Successors, Children, WellFormed;
        if dom[x].frameRoot.Some? {
          var f := dom[x].frameRoot.value;
          if depth < MAX_FRAME_DEPTH {
            VisitAllStays(dom, [f], depth + 1, s1, nodes);
            s2 := VisitAll(dom, [f], depth + 1, s1);
          } else {
            s2 := s1.(deep := true);
          }
        }
        VisitAllStays(dom, Children(dom[x]), depth, s2, nodes);
      }
    }
  }

  lemma {:induction false} VisitAllStays(dom: Dom, list: seq<nat>, depth: nat, s: Walked, nodes: set<nat>)
    requires WellFormed(dom) && Within(dom, list) && Inside(dom, s.order, nodes)
    requires Trap(dom, nodes) && forall y :: y in list ==> y in nodes
    ensures Inside(dom, VisitAll(dom, list, depth, s).order, nodes)
    decreases SCAN_LIMIT - |s.order|, |list|, 0
  {
    if list != [] {
      hide Inside, Trap, Visit;
      VisitStays(dom, list[0], depth, s, nodes);
      VisitAllStays(dom, list[1..], depth, Visit(dom, list[0], depth, s), nodes);
    }
  }

  /** Every element among these was visited. */
  predicate Covers(dom: Dom, order: seq<nat>, nodes: seq<nat>) {
    forall y :: y in nodes && y < |dom| && dom[y].isElement ==> y in order
  }

  /** What a walk that was not cut added is expanded completely. */
  predicate Expanded(dom: Dom, before: seq<nat>, after: seq<nat>) {
    forall x :: x in after && x < |dom| && x !in before ==> Covers(dom, after, Successors(dom, x))
  }

  predicate Whole(r: Walked) {
    |r.order| < SCAN_LIMIT && !r.deep
  }

  lemma NothingNew(dom: Dom, order: seq<nat>)
    ensures Expanded(dom, order, order)
  {
  }

  lemma ExpandsOn(dom: Dom, a: seq<nat>, b: seq<nat>, c: seq<nat>)
    requires a <= b <= c && Expanded(dom, a, b) && Expanded(dom, b, c)
    ensures Expanded(dom, a, c)
  {
  }

  /** Visiting a node that is no element, or a visited one, changes nothing. */
  lemma StaleVisit(dom: Dom, x: nat, depth: nat, s: Walked)
    requires WellFormed(dom) && x < |dom| && |s.order| < SCAN_LIMIT && !Fresh(dom, x, s)
    ensures Visit(dom, x, depth, s) == s && Covers(dom, s.order, [x]) && Expanded(dom, s.order, s.order)
  {
  }

  /** With its successors covered, a new element is expanded. */
  lemma NewIsExpanded(dom: Dom, x: nat, before: seq<nat>, after: seq<nat>)
    requires x < |dom| && before + [x] <= after
    requires Expanded(dom, before + [x], after) && Covers(dom, after, Successors(dom, x))
    ensures Covers(dom, after, [x]) && Expanded(dom, before, after)
  {
    hide Covers, Successors;
    assert (before + [x])[|before|] == x;
    assert after[|before|] == x;
    OneIsCovered(dom, x, after);
  }

  lemma OneIsCovered(dom: Dom, x: nat, order: seq<nat>)
    requires x in order
    ensures Covers(dom, order, [x])
  {
  }

  lemma SuccessorsCovered(dom: Dom, x: nat, order: seq<nat>)
    requires x < |dom|
    requires !dom[x].sensitive ==> Covers(dom, order, Children(dom[x]))
    requires !dom[x].sensitive && dom[x].frameRoot.Some? ==> Covers(dom, order, [dom[x].frameRoot.value])
    ensures Covers(dom, order, Successors(dom, x))
  {
    if dom[x].frameRoot.Some? {
      assert [dom[x].frameRoot.value][0] == dom[x].frameRoot.value;
    }
  }

  lemma CoversOn(dom: Dom, order: seq<nat>, more: seq<nat>, nodes: seq<nat>)
    requires order <= more && Covers(dom, order, nodes)
    ensures Covers(dom, more, nodes)
  {
  }

  lemma {:induction false} VisitExpands(dom: Dom, x: nat, depth: nat, s: Walked)
    requires WellFormed(dom) && x < |dom| && Whole(Visit(dom, x, depth, s))
    ensures var r := Visit(dom, x, depth, s); Covers(dom, r.order, [x]) && Expanded(dom, s.order, r.order)
    decreases SCAN_LIMIT - |s.order|, 0, 1
  {
    hide Visit, VisitAll, WellFormed, Within, Covers, Expanded, Children, Successors;
    if !Fresh(dom, x, s) {
      StaleVisit(dom, x, depth, s);
    } else {
      VisitParts(dom, x, depth, s);
      var r := Visit(dom, x, depth, s);
      var s1 := Walked(s.order + [x], s.deep || TooDeep(dom, x, depth));
      NothingNew(dom, s1.order);
      if !dom[x].sensitive {
        var s2 := s1;
        if dom[x].frameRoot.Some? && depth < MAX_FRAME_DEPTH {
          s2 := VisitAll(dom, [dom[x].frameRoot.value], depth + 1, s1);
          VisitAllExpands(dom, [dom[x].frameRoot.value], depth + 1, s1);
          CoversOn(dom, s2.order, r.order, [dom[x].frameRoot.value]);
        }
        VisitAllExpands(dom, Children(dom[x]), depth, s2);
        ExpandsOn(dom, s1.order, s2.order, r.order);
      }
      SuccessorsCovered(dom, x, r.order);
      NewIsExpanded(dom, x, s.order, r.order);
    }
  }

  lemma {:induction false} VisitAllExpands(dom: Dom, list: seq<nat>, depth: nat, s: Walked)
    requires WellFormed(dom) && Within(dom, list) && Whole(VisitAll(dom, list, depth, s))
    ensures var r := VisitAll(dom, list, depth, s); Covers(dom, r.order, list) && Expanded(dom, s.order, r.order)
    decreases SCAN_LIMIT - |s.order|, |list|, 0
  {
    if list != [] {
      var s1 := Visit(dom, list[0], depth, s);
      VisitExpands(dom, list[0], depth, s);
      VisitAllExpands(dom, list[1..], depth, s1);
      ExpandsOn(dom, s.order, s1.order, VisitAll(dom, list, depth, s).order);
    }
  }

  lemma {:induction false} PathIsCovered(dom: Dom, order: seq<nat>, path: seq<nat>)
    requires WellFormed(dom) && IsPath(dom, path) && dom[path[|path| - 1]].isElement
    requires Expanded(dom, [], order) && Covers(dom, order, [path[0]])
    ensures path[|path| - 1] in order
    decreases |path|
  {
    var n := |path| - 1;
    if n > 0 {
      assert path[n] in Successors(dom, path[n - 1]);
      PathIsCovered(dom, order, path[..n]);
    }
  }

  lemma SuccessorsWithin(dom: Dom, x: nat, y: nat)
    requires WellFormed(dom) && x < |dom| && y in Successors(dom, x)
    ensures y < |dom|
  {
  }

  lemma RootIsReachable(dom: Dom, root: nat)
    requires root < |dom|
    ensures Reachable(dom, root, root)
  {
    var path: seq<nat> := [root];
    assert IsPath(dom, path) && path[0] == root && path[|path| - 1] == root;
  }

  lemma SuccessorIsReachable(dom: Dom, root: nat, x: nat, y: nat)
    requires x < |dom| && y < |dom| && Reachable(dom, root, x) && y in Successors(dom, x)
    ensures Reachable(dom, root, y)
  {
    hide Successors;
    var path: seq<nat> :| IsPath(dom, path) && path[0] == root && path[|path| - 1] == x;
    var longer := path + [y];
    assert IsPath(dom, longer) && longer[0] == root && longer[|longer| - 1] == y;
  }

  lemma ReachableIsTrap(dom: Dom, root: nat)
    requires WellFormed(dom) && root < |dom|
    ensures Trap(dom, set x | 0 <= x < |dom| && Reachable(dom, root, x)) && Reachable(dom, root, root)
  {
    hide Successors, IsPath;
    RootIsReachable(dom, root);
    var nodes := set x | 0 <= x < |dom| && Reachable(dom, root, x);
    forall x, y | x in nodes && x < |dom| && y in Successors(dom, x) ensures y in nodes {
      SuccessorsWithin(dom, x, y);
      SuccessorIsReachable(dom, root, x, y);
    }
  }

  /** No element is visited twice, each is reachable, and a walk that is not cut visits all that are. */
  lemma VisitsTheReachable(dom: Dom, root: nat)
    requires WellFormed(dom) && root < |dom|
    ensures var r := Visit(dom, root, 0, Walked([], false));
      && Distinct(dom, r.order)
      && (forall x :: x in r.order ==> Reachable(dom, root, x))
      && (|r.order| < SCAN_LIMIT && !r.deep ==>
            forall x :: 0 <= x < |dom| && dom[x].isElement && Reachable(dom, root, x) ==> x in r.order)
  {
    var s := Walked([], false);
    var r := Visit(dom, root, 0, s);
    ReachableIsTrap(dom, root);
    VisitStays(dom, root, 0, s, set x | 0 <= x < |dom| && Reachable(dom, root, x));
    if Whole(r) {
      VisitExpands(dom, root, 0, s);
      forall x | 0 <= x < |dom| && dom[x].isElement && Reachable(dom, root, x) ensures x in r.order {
        var path: seq<nat> :| IsPath(dom, path) && path[0] == root && path[|path| - 1] == x;
        PathIsCovered(dom, r.order, path);
      }
    }
  }

  /** One more visited element is kept exactly when it is included. */
  lemma KeptMeans(dom: Dom, order: seq<nat>, kept: seq<nat>, x: nat)
    requires Distinct(dom, order) && Distinct(dom, order + [x]) && x < |dom| && Distinct(dom, kept)
    requires forall y :: y in kept <==> y in order && dom[y].included
    ensures var kept' := kept + if dom[x].included then [x] else [];
      Distinct(dom, kept') && forall y :: y in kept' <==> y in order + [x] && dom[y].included
  {
    var all := order + [x];
    assert all[|order|] == x && x in all;
    forall i | 0 <= i < |kept| ensures kept[i] != x {
      assert kept[i] in order;
      var j :| 0 <= j < |order| && order[j] == kept[i];
      assert all[j] == kept[i];
    }
  }

  /** The candidates are the included elements among them, each once. */
  lemma {:induction false} IncludedMeans(dom: Dom, order: seq<nat>)
    requires Distinct(dom, order)
    ensures forall x :: x in Included(dom, order) <==> x in order && dom[x].included
    ensures Distinct(dom, Included(dom, order))
    decreases |order|
  {
    if order != [] {
      var n := |order| - 1;
      IncludedMeans(dom, order[..n]);
      KeptMeans(dom, order[..n], Included(dom, order[..n]), order[n]);
      assert order == order[..n] + [order[n]];
    }
  }

  /** Where the walk goes: from a frame to its document; to what is assigned to a slot, else to the shadow root,
      else to the children; and from a sensitive element nowhere. */
  lemma SuccessorIff(dom: Dom, x: nat, y: nat)
    requires x < |dom|
    ensures y in Successors(dom, x) <==>
      && dom[x].isElement && !dom[x].sensitive
      && (|| dom[x].frameRoot == Some(y)
          || (dom[x].isSlot && dom[x].slotted != [] && y in dom[x].slotted)
          || ((!dom[x].isSlot || dom[x].slotted == []) && dom[x].shadow.Some? && y in dom[x].shadow.value)
          || ((!dom[x].isSlot || dom[x].slotted == []) && dom[x].shadow.None? && y in dom[x].light))
  {
  }

  /** From index `from` on, each visited element is one of `roots` or follows an element visited before it. */
  predicate AfterParents(dom: Dom, order: seq<nat>, from: nat, roots: seq<nat>) {
    forall i :: from <= i < |order| ==>
      order[i] in roots || exists j :: 0 <= j < i && order[j] < |dom| && order[i] in Successors(dom, order[j])
  }

  lemma ParentsJoin(dom: Dom, a: seq<nat>, b: seq<nat>, from: nat, roots: seq<nat>, more: seq<nat>, all: seq<nat>)
    requires a <= b && AfterParents(dom, a, from, roots) && AfterParents(dom, b, |a|, more)
    requires (forall y :: y in roots ==> y in all) && forall y :: y in more ==> y in all
    ensures AfterParents(dom, b, from, all)
  {
    hide Successors;
    assert forall i :: 0 <= i < |a| ==> a[i] == b[i];
    forall i | from <= i < |b| && b[i] !in all
      ensures exists j :: 0 <= j < i && b[j] < |dom| && b[i] in Successors(dom, b[j])
    {
      if i < |a| {
        var j :| 0 <= j < i && a[j] < |dom| && a[i] in Successors(dom, a[j]);
        assert b[j] == a[j];
      }
    }
  }

  /** What follows `x`, visited at `from`, follows an element visited before. */
  lemma ParentsBelow(dom: Dom, x: nat, before: seq<nat>, after: seq<nat>, roots: seq<nat>)
    requires x < |dom| && before + [x] <= after && forall y :: y in roots ==> y in Successors(dom, x)
    requires AfterParents(dom, after, |before| + 1, roots)
    ensures AfterParents(dom, after, |before|, [x])
  {
    hide Successors;
    assert (before + [x])[|before|] == x;
    assert after[|before|] == x;
    forall i | |before| <= i < |after| && after[i] !in [x]
      ensures exists j :: 0 <= j < i && after[j] < |dom| && after[i] in Successors(dom, after[j])
    {
      if after[i] in roots {
        assert after[i] in Successors(dom, after[|before|]);
      }
    }
  }

  lemma NothingFollows(dom: Dom, order: seq<nat>, roots: seq<nat>)
    ensures AfterParents(dom, order, |order|, roots)
  {
  }

  lemma {:induction false} VisitAfterParents(dom: Dom, x: nat, depth: nat, s: Walked)
    requires WellFormed(dom) && x < |dom|
    ensures AfterParents(dom, Visit(dom, x, depth, s).order, |s.order|, [x])
    decreases SCAN_LIMIT - |s.order|, 0, 1
  {
    hide Visit, VisitAll, WellFormed, Within, AfterParents, Children;
    NothingFollows(dom, s.order, [x]);
    if |s.order| >= SCAN_LIMIT {
      FullVisit(dom, x, depth, s);
    } else if !Fresh(dom, x, s) {
      StaleVisit(dom, x, depth, s);
    } else {
      VisitParts(dom, x, depth, s);
      var r := Visit(dom, x, depth, s);
      var s1 := Walked(s.order + [x], s.deep || TooDeep(dom, x, depth));
      var s2, frame := s1, [];
      NothingFollows(dom, s1.order, []);
      if !dom[x].sensitive {
        if dom[x].frameRoot.Some? && depth < MAX_FRAME_DEPTH {
          frame := [dom[x].frameRoot.value];
          s2 := VisitAll(dom, frame, depth + 1, s1);
          VisitAllAfterParents(dom, frame, depth + 1, s1);
        }
        VisitAllAfterParents(dom, Children(dom[x]), depth, s2);
        ParentsJoin(dom, s2.order, r.order, |s1.order|, frame, Children(dom[x]), frame + Children(dom[x]));
        ParentsBelow(dom, x, s.order, r.order, frame + Children(dom[x]));
      } else {
        ParentsBelow(dom, x, s.order, r.order, []);
      }
    }
  }

  lemma FullVisit(dom: Dom, x: nat, depth: nat, s: Walked)
    requires WellFormed(dom) && x < |dom| && |s.order| >= SCAN_LIMIT
    ensures Visit(dom, x, depth, s) == s
  {
  }

  lemma {:induction false} VisitAllAfterParents(dom: Dom, list: seq<nat>, depth: nat, s: Walked)
    requires WellFormed(dom) && Within(dom, list)
    ensures AfterParents(dom, VisitAll(dom, list, depth, s).order, |s.order|, list)
    decreases SCAN_LIMIT - |s.order|, |list|, 0
  {
    hide AfterParents, Visit, WellFormed;
    NothingFollows(dom, s.order, list);
    if |s.order| >= SCAN_LIMIT {
      LimitStopsAll(dom, list, depth, s);
    } else if list != [] {
      var s1 := Visit(dom, list[0], depth, s);
      VisitAfterParents(dom, list[0], depth, s);
      VisitAllAfterParents(dom, list[1..], depth, s1);
      ParentsJoin(dom, s1.order, VisitAll(dom, list, depth, s).order, |s.order|, [list[0]], list[1..], list);
    }
  }

  /** The walk begins at the root and visits nothing before an element that leads to it. */
  lemma ParentsFirst(dom: Dom, root: nat)
    requires WellFormed(dom) && root < |dom|
    ensures var order := Visit(dom, root, 0, Walked([], false)).order;
      && (dom[root].isElement ==> order != [] && order[0] == root)
      && forall i :: 0 < i < |order| ==> exists j :: 0 <= j < i && order[j] < |dom| && order[i] in Successors(dom, order[j])
  {
    var s := Walked([], false);
    VisitAfterParents(dom, root, 0, s);
    VisitsTheReachable(dom, root);
    if dom[root].isElement {
      VisitParts(dom, root, 0, s);
    }
    hide Visit, VisitAll, Successors, Children;
  }
}
