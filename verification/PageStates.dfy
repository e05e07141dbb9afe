/** The page state the worker keeps for each surface: which document it is about, what was heard of that
    document, and the handshake that enables the debugging domains of its target. Page states are
    objects: an older one can still be held by a handshake after it was replaced. */
module PageStates {
  import opened Options
  import opened SurfaceBinding

  datatype Entry = Entry(binding: Binding, payload: int)

  datatype Page = Page(binding: Binding, ready: bool, handshake: Option<nat>, entries: seq<Entry>)

  datatype Stage = Pending | Acknowledged | Closed(succeeded: bool)

  /** Started for `page`, an index of `objects`. */
  datatype Handshake = Handshake(binding: Binding, page: nat, stage: Stage)

  datatype Table = Table(pages: map<string, nat>, objects: seq<Page>, handshakes: seq<Handshake>)

  function NewTable(): Table {
    Table(map[], [], [])
  }

  predicate Registered(s: Table, surface: string) {
    surface in s.pages && s.pages[surface] < |s.objects|
  }

  function Current(s: Table, surface: string): Page
    requires Registered(s, surface)
  {
    s.objects[s.pages[surface]]
  }

  function Add(s: Table, page: Page): Table {
    s.(objects := s.objects + [page], pages := s.pages[page.binding.surfaceId := |s.objects|])
  }

  /** The table after `page(binding)`, and whether a page is returned. */
  function PageFor(s: Table, b: Binding): (Table, bool) {
    if !Registered(s, b.surfaceId) then (Add(s, Page(b, false, None, [])), true)
    else
      var current := Current(s, b.surfaceId);
      if SamePhysical(current.binding, b) && current.binding.navigationRevision == b.navigationRevision then (s, true)
      else if !SamePhysical(current.binding, b) then (s, false)
      else if current.binding.navigationRevision > b.navigationRevision then (s, false)
      else (Add(s, Page(b, current.ready, current.handshake, [])), true)
  }

  /** One binding of a rebind. */
  function RebindOne(s: Table, b: Binding): Table {
    if !Registered(s, b.surfaceId) then PageFor(s, b).0
    else
      var current := Current(s, b.surfaceId);
      if !SamePhysical(current.binding, b) then PageFor(s.(pages := s.pages - {b.surfaceId}), b).0
      else if current.binding.navigationRevision > b.navigationRevision then s
      else PageFor(s, b).0
  }

  /** Surfaces that are not in a rebind are dropped. */
  function Retain(s: Table, surfaces: set<string>): Table {
    s.(pages := map x | x in s.pages && x in surfaces :: s.pages[x])
  }

  function Event(s: Table, b: Binding, payload: int): Table {
    if !Registered(s, b.surfaceId) || !SamePhysical(Current(s, b.surfaceId).binding, b) then s
    else if b.navigationRevision < Current(s, b.surfaceId).binding.navigationRevision then s
    else
      var u := PageFor(s, b).0;
      if !Registered(u, b.surfaceId) then u
      else
        var page := Current(u, b.surfaceId);
        u.(objects := u.objects[u.pages[b.surfaceId] := page.(entries := page.entries + [Entry(b, payload)])])
  }

  /** The three requests are sent, and the page holds the handshake. */
  function Start(s: Table, b: Binding): Table
    requires Registered(s, b.surfaceId)
  {
    s.(handshakes := s.handshakes + [Handshake(b, s.pages[b.surfaceId], Pending)],
       objects := s.objects[s.pages[b.surfaceId] := Current(s, b.surfaceId).(handshake := Some(|s.handshakes|))])
  }

  /** The synchronous part of `ensureCdpDomains`. */
  function Ensure(s: Table, b: Binding): Table {
    var (u, ok) := PageFor(s, b);
    if !ok || !Registered(u, b.surfaceId) then s
    else
      var page := Current(u, b.surfaceId);
      if page.ready || page.handshake.Some? then u else Start(u, b)
  }

  /** A handshake reaches two page states: the one it was started for and the current one. */
  predicate Holds(s: Table, h: Handshake, ref: nat) {
    ref == h.page || (h.binding.surfaceId in s.pages && ref == s.pages[h.binding.surfaceId])
  }

  function MarkReady(s: Table, h: Handshake): seq<Page> {
    seq(|s.objects|, ref requires 0 <= ref < |s.objects| =>
      if Holds(s, h, ref) && SamePhysical(s.objects[ref].binding, h.binding) then s.objects[ref].(ready := true)
      else s.objects[ref])
  }

  function ClearHandshake(s: Table, h: Handshake, id: nat): seq<Page> {
    seq(|s.objects|, ref requires 0 <= ref < |s.objects| =>
      if Holds(s, h, ref) && s.objects[ref].handshake == Some(id) then s.objects[ref].(handshake := None)
      else s.objects[ref])
  }

  /** All three domains answered. */
  function Acknowledge(s: Table, id: nat): Table {
    if id < |s.handshakes| && s.handshakes[id].stage.Pending? then
      s.(objects := MarkReady(s, s.handshakes[id]),
         handshakes := s.handshakes[id := s.handshakes[id].(stage := Acknowledged)])
    else s
  }

  /** The `finally` of a handshake: after an acknowledgement, or after a failure. */
  function Close(s: Table, id: nat): Table {
    if id < |s.handshakes| && !s.handshakes[id].stage.Closed? then
      var h := s.handshakes[id];
      s.(objects := ClearHandshake(s, h, id), handshakes := s.handshakes[id := h.(stage := Closed(h.stage.Acknowledged?))])
    else s
  }

  datatype Action =
    | RetainSurfaces(surfaces: set<string>)
    | RebindSurface(binding: Binding)
    | UsePage(binding: Binding)
    | EnsureDomains(binding: Binding)
    | CdpEvent(binding: Binding, payload: int)
    | AcknowledgeHandshake(id: nat)
    | CloseHandshake(id: nat)

  function Act(s: Table, a: Action): Table {
    match a
    case RetainSurfaces(surfaces) => Retain(s, surfaces)
    case RebindSurface(b) => RebindOne(s, b)
    case UsePage(b) => PageFor(s, b).0
    case EnsureDomains(b) => Ensure(s, b)
    case CdpEvent(b, payload) => Event(s, b, payload)
    case AcknowledgeHandshake(id) => Acknowledge(s, id)
    case CloseHandshake(id) => Close(s, id)
  }

  function Acts(s: Table, actions: seq<Action>): Table
    decreases |actions|
  {
    if actions == [] then s else Acts(Act(s, actions[0]), actions[1..])
  }

  // ----- invariant

  predicate InFlight(s: Table, id: nat) {
    id < |s.handshakes| && !s.handshakes[id].stage.Closed?
  }

  /** A registered page is filed under its surface; its handshake, if any, is in flight and its surface's own. */
  predicate WellFiled(s: Table) {
    && (forall x :: x in s.pages ==> s.pages[x] < |s.objects| && s.objects[s.pages[x]].binding.surfaceId == x)
    && (forall x :: x in s.pages && s.objects[s.pages[x]].handshake.Some? ==>
          var id := s.objects[s.pages[x]].handshake.value;
          InFlight(s, id) && s.handshakes[id].binding.surfaceId == x)
    && (forall id :: 0 <= id < |s.handshakes| ==> s.handshakes[id].page < |s.objects|)
  }

  /** What a page state heard is about its own document. */
  predicate OwnEntries(s: Table) {
    forall ref, k :: 0 <= ref < |s.objects| && 0 <= k < |s.objects[ref].entries| ==>
      s.objects[ref].entries[k].binding == s.objects[ref].binding
  }

  predicate Answered(handshakes: seq<Handshake>, b: Binding) {
    exists id :: 0 <= id < |handshakes| && SamePhysical(handshakes[id].binding, b)
      && (handshakes[id].stage.Acknowledged? || handshakes[id].stage == Closed(true))
  }

  /** Domains count as enabled only after a handshake with the same physical surface succeeded. */
  predicate ReadyMeansAnswered(s: Table) {
    forall ref :: 0 <= ref < |s.objects| && s.objects[ref].ready ==> Answered(s.handshakes, s.objects[ref].binding)
  }

  predicate Inv(s: Table) {
    WellFiled(s) && OwnEntries(s) && ReadyMeansAnswered(s)
  }

  lemma AnsweredGrows(before: seq<Handshake>, after: seq<Handshake>, b: Binding)
    requires |before| <= |after| && Answered(before, b)
    requires forall id :: 0 <= id < |before| ==>
      && after[id].binding == before[id].binding
      && (before[id].stage.Acknowledged? || before[id].stage == Closed(true) ==>
            after[id].stage.Acknowledged? || after[id].stage == Closed(true))
    ensures Answered(after, b)
  {
    var id :| 0 <= id < |before| && SamePhysical(before[id].binding, b)
      && (before[id].stage.Acknowledged? || before[id].stage == Closed(true));
    assert SamePhysical(after[id].binding, b);
  }

  lemma PageForKeepsInv(s: Table, b: Binding)
    requires Inv(s)
    ensures Inv(PageFor(s, b).0)
    ensures PageFor(s, b).1 ==> Registered(PageFor(s, b).0, b.surfaceId) && Current(PageFor(s, b).0, b.surfaceId).binding == b
  {
    hide Answered;
    var u := PageFor(s, b).0;
    if Registered(s, b.surfaceId) && u != s {
      AnsweredMoves(s.handshakes, Current(s, b.surfaceId).binding, b);
    }
  }

  lemma AnsweredMoves(handshakes: seq<Handshake>, b: Binding, c: Binding)
    requires SamePhysical(b, c)
    ensures Answered(handshakes, b) ==> Answered(handshakes, c)
  {
    if Answered(handshakes, b) {
      var id :| 0 <= id < |handshakes| && SamePhysical(handshakes[id].binding, b)
        && (handshakes[id].stage.Acknowledged? || handshakes[id].stage == Closed(true));
      assert SamePhysical(handshakes[id].binding, c);
    }
  }

  lemma RebindKeepsInv(s: Table, b: Binding)
    requires Inv(s)
    ensures Inv(RebindOne(s, b))
  {
    var dropped := s.(pages := s.pages - {b.surfaceId});
    assert Inv(dropped);
    PageForKeepsInv(s, b);
    PageForKeepsInv(dropped, b);
    hide Inv, PageFor, SamePhysical;
  }

  lemma EventKeepsInv(s: Table, b: Binding, payload: int)
    requires Inv(s)
    ensures Inv(Event(s, b, payload))
  {
    PageForKeepsInv(s, b);
    hide Answered, PageFor;
  }

  lemma StartKeepsInv(s: Table, b: Binding)
    requires Inv(s) && Registered(s, b.surfaceId) && Current(s, b.surfaceId).binding == b
    ensures Inv(Start(s, b))
  {
    var s' := Start(s, b);
    forall ref | 0 <= ref < |s.objects| && s.objects[ref].ready ensures Answered(s'.handshakes, s'.objects[ref].binding) {
      AnsweredGrows(s.handshakes, s'.handshakes, s.objects[ref].binding);
    }
    hide Answered;
  }

  lemma EnsureKeepsInv(s: Table, b: Binding)
    requires Inv(s)
    ensures Inv(Ensure(s, b))
  {
    PageForKeepsInv(s, b);
    hide Inv, PageFor, Start;
    var u := PageFor(s, b);
    if u.1 {
      StartKeepsInv(u.0, b);
    }
  }

  lemma AcknowledgeKeepsInv(s: Table, id: nat)
    requires Inv(s)
    ensures Inv(Acknowledge(s, id))
  {
    var s' := Acknowledge(s, id);
    if id < |s.handshakes| && s.handshakes[id].stage.Pending? {
      forall ref | 0 <= ref < |s.objects| && s'.objects[ref].ready ensures Answered(s'.handshakes, s'.objects[ref].binding) {
        if s.objects[ref].ready {
          AnsweredGrows(s.handshakes, s'.handshakes, s.objects[ref].binding);
        } else {
          assert s'.handshakes[id].stage.Acknowledged?;
          assert SamePhysical(s'.handshakes[id].binding, s'.objects[ref].binding);
        }
      }
      hide Answered;
    }
  }

  lemma CloseKeepsInv(s: Table, id: nat)
    requires Inv(s)
    ensures Inv(Close(s, id))
  {
    var s' := Close(s, id);
    if id < |s.handshakes| && !s.handshakes[id].stage.Closed? {
      forall ref | 0 <= ref < |s.objects| && s'.objects[ref].ready ensures Answered(s'.handshakes, s'.objects[ref].binding) {
        AnsweredGrows(s.handshakes, s'.handshakes, s.objects[ref].binding);
      }
      hide Answered;
    }
  }

  lemma ActKeepsInv(s: Table, a: Action)
    requires Inv(s)
    ensures Inv(Act(s, a))
  {
    match a {
      case RetainSurfaces(surfaces) =>
      case RebindSurface(b) => RebindKeepsInv(s, b);
      case UsePage(b) => PageForKeepsInv(s, b);
      case EnsureDomains(b) => EnsureKeepsInv(s, b);
      case CdpEvent(b, payload) => EventKeepsInv(s, b, payload);
      case AcknowledgeHandshake(id) => AcknowledgeKeepsInv(s, id);
      case CloseHandshake(id) => CloseKeepsInv(s, id);
    }
  }

  lemma {:induction false} RunKeepsInv(s: Table, actions: seq<Action>)
    requires Inv(s)
    ensures Inv(Acts(s, actions))
    decreases |actions|
  {
    if actions != [] {
      hide Inv, Act;
      ActKeepsInv(s, actions[0]);
      RunKeepsInv(Act(s, actions[0]), actions[1..]);
    }
  }

  // ----- over whole runs

  /** However navigations and handshakes overlap, a registered page never keeps a handshake that is over. */
  lemma NoPageKeepsAClosedHandshake(actions: seq<Action>, surface: string)
    requires surface in Acts(NewTable(), actions).pages
    ensures var s := Acts(NewTable(), actions);
      && Registered(s, surface)
      && var handshake := Current(s, surface).handshake;
         handshake.None? || (InFlight(s, handshake.value) && s.handshakes[handshake.value].binding.surfaceId == surface)
  {
    RunKeepsInv(NewTable(), actions);
  }

  /** After a command's page was found, its domains are enabled or being enabled: a failed handshake does
      not stick, and the next command starts another. */
  lemma EnsureMakesProgress(actions: seq<Action>, b: Binding)
    requires PageFor(Acts(NewTable(), actions), b).1
    ensures var s := Act(Acts(NewTable(), actions), EnsureDomains(b));
      && Registered(s, b.surfaceId) && Current(s, b.surfaceId).binding == b
      && (Current(s, b.surfaceId).ready
          || (Current(s, b.surfaceId).handshake.Some? && InFlight(s, Current(s, b.surfaceId).handshake.value)))
      && Act(s, EnsureDomains(b)) == s
  {
    RunKeepsInv(NewTable(), actions);
    var s := Acts(NewTable(), actions);
    PageForKeepsInv(s, b);
    SamePageAgain(Act(s, EnsureDomains(b)), b);
    hide PageFor, Acts, OwnEntries, ReadyMeansAnswered;
  }

  lemma SamePageAgain(s: Table, b: Binding)
    requires Registered(s, b.surfaceId) && Current(s, b.surfaceId).binding == b
    ensures PageFor(s, b) == (s, true)
  {
  }

  /** A surface whose domains are enabled, or being enabled, is left to that: no second handshake is started. */
  lemma EnsureStartsOnce(s: Table, b: Binding)
    requires Registered(s, b.surfaceId)
    requires Current(s, b.surfaceId).ready || Current(s, b.surfaceId).handshake.Some?
    ensures Act(s, EnsureDomains(b)).handshakes == s.handshakes
  {
  }

  /** A page state holds only what was heard of its own document. */
  lemma PagesHearTheirOwnDocument(actions: seq<Action>, ref: nat, k: nat)
    requires var s := Acts(NewTable(), actions); ref < |s.objects| && k < |s.objects[ref].entries|
    ensures var s := Acts(NewTable(), actions); s.objects[ref].entries[k].binding == s.objects[ref].binding
  {
    RunKeepsInv(NewTable(), actions);
  }

  predicate Shows(s: Table, b: Binding) {
    Registered(s, b.surfaceId) && SamePhysical(Current(s, b.surfaceId).binding, b)
  }

  /** An older binding changes nothing, on whichever path it arrives. */
  lemma OlderChangesNothing(s: Table, b: Binding, payload: int)
    requires Shows(s, b) && b.navigationRevision < Current(s, b.surfaceId).binding.navigationRevision
    ensures RebindOne(s, b) == s && PageFor(s, b) == (s, false) && Ensure(s, b) == s && Event(s, b, payload) == s
  {
  }

  /** What may become of the page state of a registered surface: never an older document, and for a newer
      one nothing that was heard before, but the same domains and handshake. */
  predicate Advances(before: Page, after: Page) {
    && before.binding.navigationRevision <= after.binding.navigationRevision
    && (before.binding.navigationRevision < after.binding.navigationRevision ==>
          |after.entries| <= 1 && after.ready == before.ready
          && (before.handshake.Some? ==> after.handshake == before.handshake))
  }

  lemma PageForAdvances(s: Table, c: Binding, b: Binding)
    requires Inv(s) && Shows(s, b)
    ensures Shows(PageFor(s, c).0, b) && Advances(Current(s, b.surfaceId), Current(PageFor(s, c).0, b.surfaceId))
    ensures |Current(PageFor(s, c).0, b.surfaceId).entries| == 0
      || Current(PageFor(s, c).0, b.surfaceId) == Current(s, b.surfaceId)
  {
    hide OwnEntries, ReadyMeansAnswered;
  }

  /** In every step that leaves a physical surface registered. */
  lemma RevisionNeverDecreases(s: Table, a: Action, b: Binding)
    requires Inv(s) && Shows(s, b) && Shows(Act(s, a), b)
    ensures Advances(Current(s, b.surfaceId), Current(Act(s, a), b.surfaceId))
  {
    hide OwnEntries, ReadyMeansAnswered;
    match a {
      case RetainSurfaces(surfaces) =>
      case RebindSurface(c) => RebindAdvances(s, c, b);
      case UsePage(c) => PageForAdvances(s, c, b);
      case EnsureDomains(c) =>
        PageForKeepsInv(s, c);
        PageForAdvances(s, c, b);
        hide PageFor;
      case CdpEvent(c, payload) =>
        PageForKeepsInv(s, c);
        PageForAdvances(s, c, b);
        hide PageFor;
      case AcknowledgeHandshake(id) =>
      case CloseHandshake(id) =>
    }
  }

  lemma RebindAdvances(s: Table, c: Binding, b: Binding)
    requires Inv(s) && Shows(s, b) && Shows(RebindOne(s, c), b)
    ensures Advances(Current(s, b.surfaceId), Current(RebindOne(s, c), b.surfaceId))
  {
    hide OwnEntries, ReadyMeansAnswered;
    PageForAdvances(s, c, b);
  }

  /** The surface stays registered throughout. */
  predicate StaysShown(s: Table, actions: seq<Action>, b: Binding)
    decreases |actions|
  {
    Shows(s, b) && (actions == [] || StaysShown(Act(s, actions[0]), actions[1..], b))
  }

  lemma {:induction false} RevisionGrowsOverRun(s: Table, actions: seq<Action>, b: Binding)
    requires Inv(s) && StaysShown(s, actions, b)
    ensures Shows(Acts(s, actions), b)
    ensures Current(s, b.surfaceId).binding.navigationRevision
      <= Current(Acts(s, actions), b.surfaceId).binding.navigationRevision
    decreases |actions|
  {
    if actions != [] {
      assert StaysShown(Act(s, actions[0]), actions[1..], b);
      hide Inv, Act, Shows;
      ActKeepsInv(s, actions[0]);
      RevisionNeverDecreases(s, actions[0], b);
      RevisionGrowsOverRun(Act(s, actions[0]), actions[1..], b);
    }
  }

  // ----- what one step does

  /** An answered handshake makes the page it was started for and the current one ready, as far as they show its
      physical surface, and changes nothing else about any page. */
  lemma AnswerMakesReady(s: Table, id: nat)
    requires Inv(s) && id < |s.handshakes| && s.handshakes[id].stage.Pending?
    ensures var s', h := Act(s, AcknowledgeHandshake(id)), s.handshakes[id];
      && s'.pages == s.pages && |s'.objects| == |s.objects|
      && (forall ref :: 0 <= ref < |s.objects| ==>
            var reached := ref == h.page || (h.binding.surfaceId in s.pages && ref == s.pages[h.binding.surfaceId]);
            s'.objects[ref] == s.objects[ref].(ready := s.objects[ref].ready
              || (reached && SamePhysical(s.objects[ref].binding, h.binding))))
  {
  }

  /** When a handshake is over no page that could hold it does any more, and nothing else about a page changes. */
  lemma ClosingLetsGo(s: Table, id: nat)
    requires Inv(s) && id < |s.handshakes| && !s.handshakes[id].stage.Closed?
    ensures var s', h := Act(s, CloseHandshake(id)), s.handshakes[id];
      && s'.pages == s.pages && |s'.objects| == |s.objects| && s'.handshakes[id].stage.Closed?
      && (forall ref :: 0 <= ref < |s.objects| ==>
            var reached := ref == h.page || (h.binding.surfaceId in s.pages && ref == s.pages[h.binding.surfaceId]);
            s'.objects[ref] == if reached && s.objects[ref].handshake == Some(id) then s.objects[ref].(handshake := None)
                               else s.objects[ref])
  {
  }

  /** An event of the current document is appended to what its page heard; one of a newer document starts anew. */
  lemma EventIsRecorded(s: Table, b: Binding, payload: int)
    requires Inv(s) && Shows(s, b) && b.navigationRevision >= Current(s, b.surfaceId).binding.navigationRevision
    ensures var s', page := Act(s, CdpEvent(b, payload)), Current(s, b.surfaceId);
      && Registered(s', b.surfaceId) && Current(s', b.surfaceId).binding == b
      && Current(s', b.surfaceId).entries ==
           (if b.navigationRevision == page.binding.navigationRevision then page.entries else []) + [Entry(b, payload)]
      && Current(s', b.surfaceId).ready == page.ready && Current(s', b.surfaceId).handshake == page.handshake
  {
  }

  /** A rebind takes a binding of another physical surface with a new page, and a newer one of the same surface;
      surfaces that are not named are dropped, and only those. */
  lemma RebindTakes(s: Table, b: Binding, surfaces: set<string>)
    requires Inv(s)
    ensures var s' := Act(s, RebindSurface(b));
      && Registered(s', b.surfaceId)
      && (!Shows(s, b) ==> Current(s', b.surfaceId) == Page(b, false, None, []))
      && (Shows(s, b) && Current(s, b.surfaceId).binding.navigationRevision <= b.navigationRevision ==>
            Current(s', b.surfaceId).binding == b)
    ensures var s' := Act(s, RetainSurfaces(surfaces));
      && s'.pages.Keys == s.pages.Keys * surfaces && s'.objects == s.objects
      && forall x :: x in s'.pages ==> s'.pages[x] == s.pages[x]
  {
    hide OwnEntries, ReadyMeansAnswered;
  }
}
