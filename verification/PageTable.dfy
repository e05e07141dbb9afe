/** The page table of the worker runtime, updated in place. */
module PageTable {
  import opened Options
  import opened SurfaceBinding
  import opened PageStates

  /** The surfaces of a list of bindings. */
  function Surfaces(bindings: seq<Binding>): set<string> {
    set i | 0 <= i < |bindings| :: bindings[i].surfaceId
  }

  function RebindEach(s: Table, bindings: seq<Binding>): Table
    decreases |bindings|
  {
    if bindings == [] then s else RebindEach(RebindOne(s, bindings[0]), bindings[1..])
  }

  class PageTable {
    var pages: map<string, nat>
    var objects: seq<Page>
    var handshakes: seq<Handshake>

    function State(): Table
      reads this
    {
      Table(pages, objects, handshakes)
    }

    ghost predicate Valid()
      reads this
    {
      Inv(State())
    }

    constructor ()
      ensures Valid() && State() == NewTable()
    {
      pages, objects, handshakes := map[], [], [];
    }

    method PageOf(b: Binding) returns (found: bool)
      requires Valid()
      modifies this
      ensures Valid()
      ensures (State(), found) == PageFor(old(State()), b)
    {
      PageForKeepsInv(State(), b);
      found := true;
      if b.surfaceId !in pages {
        pages, objects := pages[b.surfaceId := |objects|], objects + [Page(b, false, None, [])];
        return;
      }
      var current := objects[pages[b.surfaceId]];
      if SamePhysical(current.binding, b) && current.binding.navigationRevision == b.navigationRevision {
        return;
      }
      if !SamePhysical(current.binding, b) || current.binding.navigationRevision > b.navigationRevision {
        found := false;
        return;
      }
      pages, objects := pages[b.surfaceId := |objects|], objects + [Page(b, current.ready, current.handshake, [])];
    }

    method RebindSurfaceTo(b: Binding)
      requires Valid()
      modifies this
      ensures Valid()
      ensures State() == RebindOne(old(State()), b)
    {
      assert WellFiled(State());
      hide Inv, PageFor;
      if b.surfaceId in pages {
        var current := objects[pages[b.surfaceId]];
        if !SamePhysical(current.binding, b) {
          DropKeepsInv(State(), {b.surfaceId});
          pages := pages - {b.surfaceId};
        } else if current.binding.navigationRevision > b.navigationRevision {
          return;
        }
      }
      var _ := PageOf(b);
    }

    /** A rebind drops the surfaces it does not name and takes its bindings in order. */
    method Rebind(bindings: seq<Binding>)
      requires Valid()
      modifies this
      ensures Valid()
      ensures State() == RebindEach(Retain(old(State()), Surfaces(bindings)), bindings)
    {
      hide Inv, RebindOne;
      var gone := pages.Keys - Surfaces(bindings);
      DropKeepsInv(State(), gone);
      pages := pages - gone;
      assert State() == Retain(old(State()), Surfaces(bindings));
      ghost var start := State();
      var i := 0;
      while i < |bindings|
        invariant i <= |bindings| && Valid()
        invariant RebindEach(State(), bindings[i..]) == RebindEach(start, bindings)
      {
        assert bindings[i..][1..] == bindings[i + 1..];
        RebindSurfaceTo(bindings[i]);
        i := i + 1;
      }
    }

    /** `ensureCdpDomains` up to its first suspension. */
    method EnsureCdpDomains(b: Binding) returns (found: bool)
      requires Valid()
      modifies this
      ensures Valid()
      ensures found == PageFor(old(State()), b).1 && State() == Ensure(old(State()), b)
    {
      EnsureKeepsInv(State(), b);
      PageForKeepsInv(State(), b);
      FailureChangesNothing(State(), b);
      hide Inv, PageFor;
      found := PageOf(b);
      if !found {
        return;
      }
      var ref := pages[b.surfaceId];
      if objects[ref].ready || objects[ref].handshake.Some? {
        return;
      }
      objects := objects[ref := objects[ref].(handshake := Some(|handshakes|))];
      handshakes := handshakes + [Handshake(b, ref, Pending)];
    }

    method OnCdpEvent(b: Binding, payload: int)
      requires Valid()
      modifies this
      ensures Valid()
      ensures State() == Event(old(State()), b, payload)
    {
      EventKeepsInv(State(), b, payload);
      PageForKeepsInv(State(), b);
      assert WellFiled(State());
      if b.surfaceId !in pages {
        return;
      }
      var current := objects[pages[b.surfaceId]];
      if !SamePhysical(current.binding, b) || b.navigationRevision < current.binding.navigationRevision {
        return;
      }
      hide Inv;
      var found := PageOf(b);
      assert found;
      hide PageFor;
      var ref := pages[b.surfaceId];
      objects := objects[ref := objects[ref].(entries := objects[ref].entries + [Entry(b, payload)])];
    }

    /** The page states a handshake reaches now. */
    function Holders(h: Handshake): (r: seq<nat>)
      reads this
      ensures forall ref :: ref in r <==> Holds(State(), h, ref)
    {
      if h.binding.surfaceId in pages then [h.page, pages[h.binding.surfaceId]] else [h.page]
    }

    method MarkHolders(h: Handshake)
      requires h.page < |objects| && (h.binding.surfaceId in pages ==> pages[h.binding.surfaceId] < |objects|)
      modifies this`objects
      ensures objects == MarkReady(old(State()), h)
    {
      var holders, i := Holders(h), 0;
      while i < |holders|
        invariant i <= |holders| && |objects| == |old(objects)|
        invariant forall ref :: 0 <= ref < |objects| ==>
          if ref in holders[..i] && SamePhysical(old(objects)[ref].binding, h.binding)
          then objects[ref] == old(objects)[ref].(ready := true)
          else objects[ref] == old(objects)[ref]
      {
        hide SamePhysical;
        var ref := holders[i];
        assert ref in holders;
        if SamePhysical(objects[ref].binding, h.binding) {
          objects := objects[ref := objects[ref].(ready := true)];
        }
        i := i + 1;
      }
      assert holders[..i] == holders;
    }

    method ClearHolders(h: Handshake, id: nat)
      requires h.page < |objects| && (h.binding.surfaceId in pages ==> pages[h.binding.surfaceId] < |objects|)
      modifies this`objects
      ensures objects == ClearHandshake(old(State()), h, id)
    {
      var holders, i := Holders(h), 0;
      while i < |holders|
        invariant i <= |holders| && |objects| == |old(objects)|
        invariant forall ref :: 0 <= ref < |objects| ==>
          if ref in holders[..i] && old(objects)[ref].handshake == Some(id)
          then objects[ref] == old(objects)[ref].(handshake := None)
          else objects[ref] == old(objects)[ref]
      {
        var ref := holders[i];
        assert ref in holders;
        if objects[ref].handshake == Some(id) {
          objects := objects[ref := objects[ref].(handshake := None)];
        }
        i := i + 1;
      }
      assert holders[..i] == holders;
    }

    /** The `then` of a handshake: its page state and the current one become ready. */
    method Succeed(id: nat)
      requires Valid()
      modifies this
      ensures Valid()
      ensures State() == Acknowledge(old(State()), id)
    {
      AcknowledgeKeepsInv(State(), id);
      assert WellFiled(State());
      hide Inv, MarkReady;
      if id < |handshakes| && handshakes[id].stage.Pending? {
        MarkHolders(handshakes[id]);
        handshakes := handshakes[id := handshakes[id].(stage := Acknowledged)];
      }
    }

    /** The `finally` of a handshake: its page state and the current one let go of it. */
    method Settle(id: nat)
      requires Valid()
      modifies this
      ensures Valid()
      ensures State() == Close(old(State()), id)
    {
      CloseKeepsInv(State(), id);
      assert WellFiled(State());
      hide Inv, ClearHandshake;
      if id < |handshakes| && !handshakes[id].stage.Closed? {
        ClearHolders(handshakes[id], id);
        handshakes := handshakes[id := handshakes[id].(stage := Closed(handshakes[id].stage.Acknowledged?))];
      }
    }
  }

  lemma DropKeepsInv(s: Table, gone: set<string>)
    requires Inv(s)
    ensures Inv(s.(pages := s.pages - gone))
  {
  }

  lemma FailureChangesNothing(s: Table, b: Binding)
    ensures !PageFor(s, b).1 ==> PageFor(s, b).0 == s
  {
  }
}
