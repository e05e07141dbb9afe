/** A page snapshot from the walk to the budget. */
module PageSnapshot {
  import opened Options
  import PageWalk
  import opened SnapshotSelection
  import opened SnapshotBudget

  /** What the page shows of an element, besides its place. */
  datatype Page = Page(dom: PageWalk.Dom, look: Look, offer: nat -> Offer, modal: bool, title: Option<Text>)

  ghost predicate Described(page: Page) {
    && PageWalk.WellFormed(page.dom)
    && forall x: nat :: page.offer(x).ref == x && page.offer(x).onScreen == page.look(x).onScreen
  }

  function Offers(page: Page, refs: seq<nat>): seq<Offer> {
    seq(|refs|, i requires 0 <= i < |refs| => page.offer(refs[i]))
  }

  /** The elements a complete snapshot shows. */
  ghost predicate Shown(page: Page, root: nat, x: nat) {
    x < |page.dom| && page.dom[x].isElement && page.dom[x].included && PageWalk.Reachable(page.dom, root, x)
  }

  /** Every element returned is one to be shown, none twice, in the order of the selection; what is omitted
      is the rest of the selection; the budgets hold. A snapshot that is not marked truncated shows every
      element to be shown, with every text uncut. */
  method Snapshot(page: Page, root: nat, maxNodes: nat, maxTextBytes: nat)
    returns (nodes: seq<Node>, titleText: Option<Text>, scanned: nat, textBytes: nat, truncated: bool,
             omitted: seq<nat>, omittedInView: nat)
    requires Described(page) && root < |page.dom|
    ensures var walked := PageWalk.Visit(page.dom, root, 0, PageWalk.Walked([], false));
      && scanned == |walked.order|
      && Refs(nodes) + omitted == Selection(page.look, PageWalk.Included(page.dom, walked.order), page.modal)
    ensures PageWalk.Distinct(page.dom, Refs(nodes) + omitted)
    ensures forall x :: x in Refs(nodes) + omitted ==> Shown(page, root, x)
    ensures page.modal ==> InsideFirst(page.look, Refs(nodes) + omitted)
    ensures |nodes| <= maxNodes && textBytes == TotalBytes(AllTexts(nodes)) + ByteLength(Given(titleText)) <= maxTextBytes
    ensures |nodes| + |omitted| <= scanned <= PageWalk.SCAN_LIMIT
    ensures forall i :: 0 <= i < |nodes| && page.offer(nodes[i].ref).sensitive ==> nodes[i].value == None
    ensures omittedInView == InView(Offers(page, omitted))
    ensures !truncated ==>
      && omitted == [] && (forall x :: x in Refs(nodes) <==> Shown(page, root, x))
      && AllTexts(nodes) == AllWanted(Offers(page, Refs(nodes))) && Given(titleText) == Given(page.title)
  {
    hide PageWalk.Visit, PageWalk.Included, PageWalk.Distinct, PageWalk.WellFormed, Selection;
    hide Returned, Uncut, AllTexts, AllWanted, TotalBytes, ByteLength, InView, InsideFirst, Shown, IsCut, OfferRefs;
    var candidates, cut;
    candidates, scanned, cut := PageWalk.Walk(page.dom, root);
    ghost var walked := PageWalk.Visit(page.dom, root, 0, PageWalk.Walked([], false));
    CandidatesAreShown(page, root, walked);
    var selected := Select(page.look, candidates, page.modal);
    SelectionOfShown(page, candidates);
    var offers := Offers(page, selected);
    nodes, titleText, textBytes, truncated, omittedInView := Collect(offers, maxNodes, maxTextBytes, page.title);
    PartsOfSelection(page, selected, nodes, maxTextBytes, TotalBytes(AllTexts(nodes)));
    omitted := selected[|nodes|..];
    truncated := truncated || cut;
    assert Refs(nodes) + omitted == selected;
    assert omitted == [] ==> Refs(nodes) + omitted == Refs(nodes);
  }

  lemma CandidatesAreShown(page: Page, root: nat, walked: PageWalk.Walked)
    requires Described(page) && root < |page.dom|
    requires walked == PageWalk.Visit(page.dom, root, 0, PageWalk.Walked([], false))
    ensures var candidates := PageWalk.Included(page.dom, walked.order);
      && PageWalk.Distinct(page.dom, candidates) && |candidates| <= |walked.order| <= PageWalk.SCAN_LIMIT
      && (forall x :: x in candidates ==> Shown(page, root, x))
      && (|walked.order| < PageWalk.SCAN_LIMIT && !walked.deep ==> forall x :: Shown(page, root, x) ==> x in candidates)
  {
    PageWalk.VisitsTheReachable(page.dom, root);
    PageWalk.IncludedMeans(page.dom, walked.order);
    IncludedIsShorter(page.dom, walked.order);
    assert forall x :: x in walked.order ==> x < |page.dom|;
  }

  lemma {:induction false} IncludedIsShorter(dom: PageWalk.Dom, order: seq<nat>)
    ensures |PageWalk.Included(dom, order)| <= |order|
    decreases |order|
  {
    if order != [] {
      IncludedIsShorter(dom, order[..|order| - 1]);
    }
  }

  lemma SelectionOfShown(page: Page, candidates: seq<nat>)
    requires PageWalk.Distinct(page.dom, candidates)
    ensures var selected := Selection(page.look, candidates, page.modal);
      && PageWalk.Distinct(page.dom, selected) && |selected| == |candidates|
      && (forall x :: x in selected <==> x in candidates)
      && (page.modal ==> InsideFirst(page.look, selected))
  {
    var selected := Selection(page.look, candidates, page.modal);
    SelectionIsPermutation(page.look, candidates, page.modal);
    forall x: nat ensures x in selected <==> x in candidates {
      assert x in selected <==> multiset(selected)[x] > 0;
      assert x in candidates <==> multiset(candidates)[x] > 0;
    }
    assert |multiset(selected)| == |selected| && |multiset(candidates)| == |candidates|;
    SelectionIsDistinct(page.look, candidates, page.modal);
    assert forall i :: 0 <= i < |selected| ==> selected[i] in selected;
  }

  lemma SelectionIsDistinct(look: Look, candidates: seq<nat>, modal: bool)
    ensures Distinct(Selection(look, candidates, modal))
  {
    if modal {
      ModalSelectionMeans(look, candidates);
    } else {
      AddGroupMeans(look, [], candidates, PAGE_LIMITS);
    }
  }

  lemma NodesFollowSelection(page: Page, selected: seq<nat>, nodes: seq<Node>)
    requires Described(page) && |nodes| <= |selected| && Refs(nodes) == OfferRefs(Offers(page, selected)[..|nodes|])
    ensures Refs(nodes) == selected[..|nodes|]
    ensures Offers(page, selected)[..|nodes|] == Offers(page, Refs(nodes))
    ensures Offers(page, selected)[|nodes|..] == Offers(page, selected[|nodes|..])
  {
  }

  lemma PartsOfSelection(page: Page, selected: seq<nat>, nodes: seq<Node>, limit: nat, used: nat)
    requires Described(page) && Returned(Offers(page, selected), nodes, limit, used)
    ensures |nodes| <= |selected| && Refs(nodes) == selected[..|nodes|]
    ensures Offers(page, selected)[|nodes|..] == Offers(page, selected[|nodes|..])
    ensures forall i :: 0 <= i < |nodes| && page.offer(nodes[i].ref).sensitive ==> nodes[i].value == None
    ensures Uncut(Offers(page, selected), nodes) ==> AllTexts(nodes) == AllWanted(Offers(page, Refs(nodes)))
  {
    hide Cuts, AllTexts, AllWanted, TotalBytes;
    NodesFollowSelection(page, selected, nodes);
    assert forall i :: 0 <= i < |nodes| ==> Refs(nodes)[i] == nodes[i].ref;
  }
}
