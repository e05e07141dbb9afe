/** In which order the controls of a page compete for the snapshot budget. */
module SnapshotSelection {

  /** What the selection reads of an element. */
  datatype Traits = Traits(onScreen: bool, rank: nat, inModal: bool)

  type Look = nat -> Traits

  const INSIDE_LIMITS: seq<nat> := [8, 40, 60, 40, 40, 20]
  const OUTSIDE_LIMITS: seq<nat> := [2, 6, 6, 4, 8, 2]
  const PAGE_LIMITS: seq<nat> := [4, 20, 24, 16, 28, 4]

  function Seen(look: Look, wanted: bool): nat -> bool {
    (x: nat) => look(x).onScreen == wanted
  }

  function Inside(look: Look, wanted: bool): nat -> bool {
    (x: nat) => look(x).inModal == wanted
  }

  function Ranked(look: Look, rank: nat): nat -> bool {
    (x: nat) => look(x).rank == rank
  }

  function Missing(selected: seq<nat>): nat -> bool {
    (x: nat) => x !in selected
  }

  function Keep(list: seq<nat>, p: nat -> bool): seq<nat> {
    if list == [] then []
    else
      var before := Keep(list[..|list| - 1], p);
      if p(list[|list| - 1]) then before + [list[|list| - 1]] else before
  }

  /** What is on screen, then the rest, each in document order. */
  function ViewportFirst(look: Look, list: seq<nat>): seq<nat> {
    Keep(list, Seen(look, true)) + Keep(list, Seen(look, false))
  }

  function OfRank(look: Look, list: seq<nat>, rank: nat): seq<nat> {
    Keep(ViewportFirst(look, list), Ranked(look, rank))
  }

  function Take(list: seq<nat>, n: nat): seq<nat> {
    if |list| <= n then list else list[..n]
  }

  /** The quota of each of the first `n` ranks. */
  function Quotas(look: Look, list: seq<nat>, limits: seq<nat>, n: nat): seq<nat>
    requires n <= |limits|
  {
    if n == 0 then [] else Quotas(look, list, limits, n - 1) + Take(OfRank(look, list, n - 1), limits[n - 1])
  }

  function SelectByKind(look: Look, list: seq<nat>, limits: seq<nat>): seq<nat> {
    Quotas(look, list, limits, |limits|)
  }

  /** Append what is not there yet. */
  function AddAll(selected: seq<nat>, list: seq<nat>): seq<nat> {
    if list == [] then selected
    else
      var before := AddAll(selected, list[..|list| - 1]);
      var x := list[|list| - 1];
      if x in before then before else before + [x]
  }

  /** The quotas of a group, then the rest of it. */
  function AddGroup(look: Look, selected: seq<nat>, group: seq<nat>, limits: seq<nat>): seq<nat> {
    AddAll(AddAll(selected, SelectByKind(look, group, limits)), ViewportFirst(look, group))
  }

  function Selection(look: Look, candidates: seq<nat>, modal: bool): seq<nat> {
    if modal then
      var inside := AddGroup(look, [], Keep(candidates, Inside(look, true)), INSIDE_LIMITS);
      AddGroup(look, inside, Keep(candidates, Inside(look, false)), OUTSIDE_LIMITS)
    else AddGroup(look, [], candidates, PAGE_LIMITS)
  }

  // ----- the loops

  method FilterBy(list: seq<nat>, p: nat -> bool) returns (r: seq<nat>)
    ensures r == Keep(list, p)
  {
    r := [];
    var i := 0;
    while i < |list|
      invariant i <= |list| && r == Keep(list[..i], p)
    {
      assert list[..i + 1][..i] == list[..i];
      if p(list[i]) {
        r := r + [list[i]];
      }
      i := i + 1;
    }
    assert list[..i] == list;
  }

  method SplitByView(look: Look, list: seq<nat>) returns (r: seq<nat>)
    ensures r == ViewportFirst(look, list)
  {
    var visibleNow: seq<nat>, elsewhere: seq<nat> := [], [];
    var i := 0;
    while i < |list|
      invariant i <= |list|
      invariant visibleNow == Keep(list[..i], Seen(look, true)) && elsewhere == Keep(list[..i], Seen(look, false))
    {
      assert list[..i + 1][..i] == list[..i];
      if look(list[i]).onScreen {
        visibleNow := visibleNow + [list[i]];
      } else {
        elsewhere := elsewhere + [list[i]];
      }
      i := i + 1;
    }
    assert list[..i] == list;
    r := visibleNow + elsewhere;
  }

  method PickByKind(look: Look, list: seq<nat>, limits: seq<nat>) returns (picked: seq<nat>)
    ensures picked == SelectByKind(look, list, limits)
  {
    hide Keep, ViewportFirst;
    var ordered := SplitByView(look, list);
    picked := [];
    var rank := 0;
    while rank < |limits|
      invariant rank <= |limits| && picked == Quotas(look, list, limits, rank)
    {
      var bucket := FilterBy(ordered, Ranked(look, rank));
      picked := picked + if |bucket| <= limits[rank] then bucket else bucket[..limits[rank]];
      rank := rank + 1;
    }
  }

  method AddNew(selected: seq<nat>, list: seq<nat>) returns (r: seq<nat>)
    ensures r == AddAll(selected, list)
  {
    r := selected;
    var present := set x | x in selected;
    var i := 0;
    while i < |list|
      invariant i <= |list| && r == AddAll(selected, list[..i])
      invariant forall x :: x in present <==> x in r
    {
      assert list[..i + 1][..i] == list[..i];
      if list[i] !in present {
        present := present + {list[i]};
        r := r + [list[i]];
      }
      i := i + 1;
    }
    assert list[..i] == list;
  }

  method AddBoth(look: Look, selected: seq<nat>, group: seq<nat>, limits: seq<nat>) returns (r: seq<nat>)
    ensures r == AddGroup(look, selected, group, limits)
  {
    var picked := PickByKind(look, group, limits);
    r := AddNew(selected, picked);
    var ordered := SplitByView(look, group);
    r := AddNew(r, ordered);
  }

  method Select(look: Look, candidates: seq<nat>, modal: bool) returns (r: seq<nat>)
    ensures r == Selection(look, candidates, modal)
  {
    if modal {
      var inside := FilterBy(candidates, Inside(look, true));
      var outside := FilterBy(candidates, Inside(look, false));
      r := AddBoth(look, [], inside, INSIDE_LIMITS);
      r := AddBoth(look, r, outside, OUTSIDE_LIMITS);
    } else {
      r := AddBoth(look, [], candidates, PAGE_LIMITS);
    }
  }

  // ----- what the selection keeps

  predicate Distinct(list: seq<nat>) {
    forall i, j :: 0 <= i < j < |list| ==> list[i] != list[j]
  }

  lemma {:induction false} KeepMeans(list: seq<nat>, p: nat -> bool)
    ensures forall x :: x in Keep(list, p) <==> x in list && p(x)
    ensures Distinct(list) ==> Distinct(Keep(list, p))
    decreases |list|
  {
    if list != [] {
      var n := |list| - 1;
      var before := Keep(list[..n], p);
      KeepMeans(list[..n], p);
      assert list == list[..n] + [list[n]];
      assert Distinct(list) ==> list[n] !in list[..n];
      assert Keep(list, p) == if p(list[n]) then before + [list[n]] else before;
      hide Keep;
    }
  }

  /** What is kept stands in the order of the list: `at` are the places it was kept from. */
  lemma {:induction false} KeptInOrder(list: seq<nat>, p: nat -> bool) returns (at: seq<nat>)
    ensures |at| == |Keep(list, p)|
    ensures forall i :: 0 <= i < |at| ==> at[i] < |list| && Keep(list, p)[i] == list[at[i]] && p(list[at[i]])
    ensures forall i, j :: 0 <= i < j < |at| ==> at[i] < at[j]
    decreases |list|
  {
    at := [];
    if list != [] {
      var n := |list| - 1;
      at := KeptInOrder(list[..n], p);
      if p(list[n]) {
        at := at + [n];
      }
    }
  }

  /** What is on screen comes before what is not, and either part is in document order. */
  lemma OnScreenFirst(look: Look, list: seq<nat>) returns (at: seq<nat>)
    ensures var r := ViewportFirst(look, list);
      && |at| == |r| == |list|
      && (forall i :: 0 <= i < |r| ==> at[i] < |list| && r[i] == list[at[i]])
      && (forall i, j :: 0 <= i < j < |r| && look(r[j]).onScreen ==> look(r[i]).onScreen)
      && (forall i, j :: 0 <= i < j < |r| && look(r[i]).onScreen == look(r[j]).onScreen ==> at[i] < at[j])
  {
    var a := KeptInOrder(list, Seen(look, true));
    var b := KeptInOrder(list, Seen(look, false));
    PartsCount(look, list);
    hide Keep;
    at := a + b;
    var r := ViewportFirst(look, list);
    assert forall i :: 0 <= i < |r| ==> (look(r[i]).onScreen <==> i < |a|);
  }

  lemma {:induction false} PartsCount(look: Look, list: seq<nat>)
    ensures |Keep(list, Seen(look, true))| + |Keep(list, Seen(look, false))| == |list|
    decreases |list|
  {
    if list != [] {
      PartsCount(look, list[..|list| - 1]);
    }
  }

  lemma ViewportFirstMeans(look: Look, list: seq<nat>)
    ensures forall x :: x in ViewportFirst(look, list) <==> x in list
    ensures Distinct(list) ==> Distinct(ViewportFirst(look, list))
  {
    KeepMeans(list, Seen(look, true));
    KeepMeans(list, Seen(look, false));
    var a, b := Keep(list, Seen(look, true)), Keep(list, Seen(look, false));
    hide Keep;
    forall i, j | 0 <= i < |a| && 0 <= j < |b| ensures a[i] != b[j] {
      assert a[i] in a && b[j] in b;
    }
  }

  lemma OfRankMeans(look: Look, list: seq<nat>, rank: nat)
    ensures forall x :: x in OfRank(look, list, rank) <==> x in list && look(x).rank == rank
  {
    ViewportFirstMeans(look, list);
    KeepMeans(ViewportFirst(look, list), Ranked(look, rank));
    hide Keep, ViewportFirst;
  }

  lemma TakeWithin(list: seq<nat>, n: nat)
    ensures forall x :: x in Take(list, n) ==> x in list
  {
  }

  predicate AmongRanks(look: Look, list: seq<nat>, n: nat, part: seq<nat>) {
    forall x :: x in part ==> x in list && look(x).rank < n
  }

  lemma RanksJoin(look: Look, list: seq<nat>, k: nat, limit: nat, before: seq<nat>)
    requires AmongRanks(look, list, k, before)
    ensures AmongRanks(look, list, k + 1, before + Take(OfRank(look, list, k), limit))
  {
    OfRankMeans(look, list, k);
    TakeWithin(OfRank(look, list, k), limit);
    hide OfRank, Take;
  }

  lemma {:induction false} QuotasWithin(look: Look, list: seq<nat>, limits: seq<nat>, n: nat)
    requires n <= |limits|
    ensures AmongRanks(look, list, n, Quotas(look, list, limits, n))
  {
    hide AmongRanks, OfRank, Take;
    if n > 0 {
      QuotasWithin(look, list, limits, n - 1);
      RanksJoin(look, list, n - 1, limits[n - 1], Quotas(look, list, limits, n - 1));
    } else {
      NoneAmongRanks(look, list);
    }
  }

  lemma NoneAmongRanks(look: Look, list: seq<nat>)
    ensures AmongRanks(look, list, 0, [])
  {
  }

  lemma {:induction false} AddAllMeans(selected: seq<nat>, list: seq<nat>)
    ensures selected <= AddAll(selected, list)
    ensures forall x :: x in AddAll(selected, list) <==> x in selected || x in list
    ensures Distinct(selected) ==> Distinct(AddAll(selected, list))
    ensures forall i :: |selected| <= i < |AddAll(selected, list)| ==> AddAll(selected, list)[i] in list
    decreases |list|
  {
    if list != [] {
      var n := |list| - 1;
      AddAllMeans(selected, list[..n]);
      assert list == list[..n] + [list[n]];
    }
  }

  lemma AddGroupMeans(look: Look, selected: seq<nat>, group: seq<nat>, limits: seq<nat>)
    ensures var r := AddGroup(look, selected, group, limits);
      && selected <= r && (forall x :: x in r <==> x in selected || x in group)
      && (Distinct(selected) ==> Distinct(r))
      && forall i :: |selected| <= i < |r| ==> r[i] in group
  {
    var picked := SelectByKind(look, group, limits);
    QuotasWithin(look, group, limits, |limits|);
    ViewportFirstMeans(look, group);
    AddAllMeans(selected, picked);
    AddAllMeans(AddAll(selected, picked), ViewportFirst(look, group));
    hide AddAll, Keep, ViewportFirst, Quotas;
  }

  lemma {:induction false} SameElements(a: seq<nat>, b: seq<nat>)
    requires Distinct(a) && Distinct(b) && forall x :: x in a <==> x in b
    ensures multiset(a) == multiset(b)
  {
    DistinctCounts(a);
    DistinctCounts(b);
  }

  lemma {:induction false} DistinctCounts(list: seq<nat>)
    requires Distinct(list)
    ensures forall x :: multiset(list)[x] == if x in list then 1 else 0
    decreases |list|
  {
    if list != [] {
      var n := |list| - 1;
      DistinctCounts(list[..n]);
      assert list == list[..n] + [list[n]];
      assert list[n] !in list[..n];
    }
  }

  predicate InsideFirst(look: Look, list: seq<nat>) {
    forall i, j :: 0 <= i < j < |list| && look(list[j]).inModal ==> look(list[i]).inModal
  }

  lemma InsideThenOutside(look: Look, first: seq<nat>, list: seq<nat>, inside: seq<nat>, outside: seq<nat>)
    requires first <= list && (forall x :: x in first ==> x in inside)
    requires forall i :: |first| <= i < |list| ==> list[i] in outside
    requires (forall x :: x in inside ==> look(x).inModal) && forall x :: x in outside ==> !look(x).inModal
    ensures InsideFirst(look, list)
  {
  }

  lemma ModalSelectionMeans(look: Look, candidates: seq<nat>)
    ensures var r := Selection(look, candidates, true);
      Distinct(r) && (forall x :: x in r <==> x in candidates) && InsideFirst(look, r)
  {
    var r := Selection(look, candidates, true);
    var inside, outside := Keep(candidates, Inside(look, true)), Keep(candidates, Inside(look, false));
    KeepMeans(candidates, Inside(look, true));
    KeepMeans(candidates, Inside(look, false));
    var first := AddGroup(look, [], inside, INSIDE_LIMITS);
    AddGroupMeans(look, [], inside, INSIDE_LIMITS);
    AddGroupMeans(look, first, outside, OUTSIDE_LIMITS);
    InsideThenOutside(look, first, r, inside, outside);
    assert Distinct(inside[..0]) && inside[..0] == [];
    hide AddGroup, Keep, InsideFirst, Distinct;
  }

  /** The selection is the candidates in another order, and what is in the modal dialog comes first. */
  lemma SelectionIsPermutation(look: Look, candidates: seq<nat>, modal: bool)
    requires Distinct(candidates)
    ensures multiset(Selection(look, candidates, modal)) == multiset(candidates)
    ensures modal ==> InsideFirst(look, Selection(look, candidates, modal))
  {
    if modal {
      ModalSelectionMeans(look, candidates);
    } else {
      AddGroupMeans(look, [], candidates, PAGE_LIMITS);
    }
    hide AddGroup, InsideFirst, Keep;
    SameElements(Selection(look, candidates, modal), candidates);
  }

  // ----- what the quotas reserve

  lemma {:induction false} KeepJoins(a: seq<nat>, b: seq<nat>, p: nat -> bool)
    ensures Keep(a + b, p) == Keep(a, p) + Keep(b, p)
    decreases |b|
  {
    if b == [] {
      assert a + b == a;
    } else {
      assert (a + b)[..|a + b| - 1] == a + b[..|b| - 1];
      KeepJoins(a, b[..|b| - 1], p);
    }
  }

  lemma {:induction false} KeepAll(list: seq<nat>, p: nat -> bool)
    ensures (forall x :: x in list ==> p(x)) ==> Keep(list, p) == list
    ensures (forall x :: x in list ==> !p(x)) ==> Keep(list, p) == []
    decreases |list|
  {
    if list != [] {
      var n := |list| - 1;
      KeepAll(list[..n], p);
      assert list == list[..n] + [list[n]];
    }
  }

  lemma QuotaAdds(look: Look, list: seq<nat>, k: nat, limit: nat, rank: nat, before: seq<nat>)
    ensures var part := Take(OfRank(look, list, k), limit);
      Keep(before + part, Ranked(look, rank)) ==
        if rank == k then Keep(before, Ranked(look, rank)) + part else Keep(before, Ranked(look, rank))
  {
    var part := Take(OfRank(look, list, k), limit);
    OfRankMeans(look, list, k);
    TakeWithin(OfRank(look, list, k), limit);
    KeepJoins(before, part, Ranked(look, rank));
    hide OfRank, Take, Keep;
    KeepAll(part, Ranked(look, rank));
  }

  /** Among `part`, what is of the rank is its quota: nothing for a rank that has none. */
  predicate QuotaIs(look: Look, list: seq<nat>, limits: seq<nat>, n: nat, rank: nat, part: seq<nat>)
    requires n <= |limits|
  {
    Keep(part, Ranked(look, rank)) == if rank < n then Take(OfRank(look, list, rank), limits[rank]) else []
  }

  lemma QuotaStep(look: Look, list: seq<nat>, limits: seq<nat>, n: nat, rank: nat, before: seq<nat>)
    requires n < |limits| && QuotaIs(look, list, limits, n, rank, before)
    ensures QuotaIs(look, list, limits, n + 1, rank, before + Take(OfRank(look, list, n), limits[n]))
  {
    hide Keep, OfRank, Take;
    QuotaAdds(look, list, n, limits[n], rank, before);
    var part := Take(OfRank(look, list, n), limits[n]);
    assert [] + part == part;
  }

  lemma NoQuota(look: Look, list: seq<nat>, limits: seq<nat>, rank: nat)
    ensures QuotaIs(look, list, limits, 0, rank, [])
  {
  }

  /** Of each rank the quotas take as many as there are up to the limit, those on screen first. */
  lemma {:induction false} QuotaOfRank(look: Look, list: seq<nat>, limits: seq<nat>, n: nat, rank: nat)
    requires n <= |limits|
    ensures QuotaIs(look, list, limits, n, rank, Quotas(look, list, limits, n))
    decreases n
  {
    hide QuotaIs, OfRank, Take;
    if n == 0 {
      NoQuota(look, list, limits, rank);
    } else {
      QuotaOfRank(look, list, limits, n - 1, rank);
      QuotaStep(look, list, limits, n - 1, rank, Quotas(look, list, limits, n - 1));
    }
  }

  /** After the quotas of a first group, its other members follow, those on screen first. */
  lemma {:induction false} RestFollows(selected: seq<nat>, list: seq<nat>)
    requires Distinct(list)
    ensures AddAll(selected, list) == selected + Keep(list, Missing(selected))
    decreases |list|
  {
    if list != [] {
      var n := |list| - 1;
      RestFollows(selected, list[..n]);
      assert list == list[..n] + [list[n]];
      assert list[n] !in list[..n];
      KeepMeans(list[..n], Missing(selected));
    }
  }
}
