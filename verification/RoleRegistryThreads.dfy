/** Registry operations on many threads: every mutation holds the mutation lock from its first read
    to its last write, in small steps that any other thread may come between. */
module RoleRegistryThreads {
  import opened Options
  import opened RoleMarkdown
  import opened RoleRules
  import opened RoleParser
  import opened RoleRegistry

  /** Where one thread stands in its operation. */
  datatype Phase =
    | Idle
    | Locked(op: Op)                  // the mutation lock is held
    | Looked(op: Op, seen: Store)     // the snapshot has been read
    | Wrote(op: Op, seen: Store)      // the file operation is done, the snapshot not yet swapped

  datatype System = System(
    store: Store,
    holder: Option<nat>,
    threads: map<nat, Phase>,
    lostSwaps: nat,                   // compare-and-swaps that found another revision
    done: seq<Op>)                    // finished operations, in order

  datatype Action = Acquire(thread: nat, op: Op) | Look(thread: nat) | Write(thread: nat) | Swap(thread: nat)

  function PhaseOf(s: System, t: nat): Phase {
    if t in s.threads then s.threads[t] else Idle
  }

  function Finish(s: System, t: nat, op: Op): System {
    s.(holder := None, threads := s.threads[t := Idle], done := s.done + [op])
  }

  /** One small step; a step that is not enabled changes nothing. */
  function Act(base: Base, s: System, a: Action): System {
    var t := a.thread;
    match a
    case Acquire(_, op) =>
      if PhaseOf(s, t).Idle? && s.holder == None then s.(holder := Some(t), threads := s.threads[t := Locked(op)]) else s
    case Look(_) =>
      if PhaseOf(s, t).Locked? then s.(threads := s.threads[t := Looked(PhaseOf(s, t).op, s.store)]) else s
    case Write(_) =>
      if !PhaseOf(s, t).Looked? then s
      else
        var op, seen := PhaseOf(s, t).op, PhaseOf(s, t).seen;
        // the file operation, decided on the snapshot that was read
        var s' := s.(store := s.store.(disk := Step(base, seen.(disk := s.store.disk), op).disk));
        if Succeeds(base, seen.(disk := s.store.disk), op) then s'.(threads := s.threads[t := Wrote(op, seen)])
        else Finish(s', t, op)
    case Swap(_) =>
      if !PhaseOf(s, t).Wrote? then s
      else
        var op, seen := PhaseOf(s, t).op, PhaseOf(s, t).seen;
        if op.Reload? then
          Finish(s.(store := s.store.(roles := RolesOnDisk(base, s.store.disk),
                                      revision := SaturatingNext(s.store.revision))), t, op)
        else if s.store.revision != seen.revision then Finish(s.(lostSwaps := s.lostSwaps + 1), t, op)
        else
          var roles := if op.Save? then SavedRoles(base, seen, op) else seen.roles - {op.id};
          Finish(s.(store := s.store.(roles := roles, revision := SaturatingNext(seen.revision))), t, op)
  }

  /** The roles a save swaps in: those of the snapshot with the saved role. */
  function SavedRoles(base: Base, seen: Store, op: Op): map<string, AgentRole>
    requires op.Save?
  {
    SaveSpec(base, seen, op.role, op.expected, op.fault).0.roles
  }

  function Acts(base: Base, s: System, actions: seq<Action>): System
    decreases |actions|
  {
    if actions == [] then s else Acts(base, Act(base, s, actions[0]), actions[1..])
  }

  function Start(store: Store): System {
    System(store, None, map[], 0, [])
  }

  /** The store the finished operations lead to, one after the other. */
  function Settled(base: Base, start: Store, s: System): Store {
    Run(base, start, s.done)
  }

  ghost predicate Inv(base: Base, start: Store, s: System) {
    && s.lostSwaps == 0
    && (forall t :: t in s.threads && !s.threads[t].Idle? ==> s.holder == Some(t))
    && (s.holder == None ==> s.store == Settled(base, start, s))
    && (s.holder.Some? ==>
          match PhaseOf(s, s.holder.value)
          case Idle => false
          case Locked(_) => s.store == Settled(base, start, s)
          case Looked(_, seen) => s.store == Settled(base, start, s) && seen == s.store
          case Wrote(op, seen) =>
            && seen == Settled(base, start, s) && Succeeds(base, seen, op)
            && s.store == seen.(disk := Step(base, seen, op).disk))
  }

  lemma {:induction false} RunAppends(base: Base, s: Store, ops: seq<Op>, op: Op)
    ensures Run(base, s, ops + [op]) == Step(base, Run(base, s, ops), op)
    decreases |ops|
  {
    hide Step;
    if ops == [] {
      assert Run(base, s, [op]) == Run(base, Step(base, s, op), [op][1..]);
    } else {
      assert (ops + [op])[1..] == ops[1..] + [op];
      RunAppends(base, Step(base, s, ops[0]), ops[1..], op);
    }
  }

  /** A refused operation touches the files at most; a successful one swaps in what its specification says. */
  lemma StepParts(base: Base, s: Store, op: Op)
    ensures !Succeeds(base, s, op) ==> Step(base, s, op) == s.(disk := Step(base, s, op).disk)
    ensures Succeeds(base, s, op) ==> Step(base, s, op).revision == SaturatingNext(s.revision)
    ensures Succeeds(base, s, op) && op.Save? ==> Step(base, s, op).roles == SavedRoles(base, s, op)
    ensures Succeeds(base, s, op) && op.Delete? ==> Step(base, s, op).roles == s.roles - {op.id}
    ensures op.Reload? ==> Step(base, s, op).disk == s.disk
    ensures Succeeds(base, s, op) && op.Reload? ==> Step(base, s, op).roles == RolesOnDisk(base, s.disk)
  {
    hide NormalizeRole, SerializeRole, RolesOnDisk, SaveRefusal;
  }

  lemma ActKeepsInv(base: Base, start: Store, s: System, a: Action)
    requires Inv(base, start, s)
    ensures Inv(base, start, Act(base, s, a))
  {
    hide Step, Succeeds, SavedRoles, RolesOnDisk, Run;
    var s' := Act(base, s, a);
    var t := a.thread;
    if s' != s && (a.Write? || a.Swap?) {
      var op, seen := PhaseOf(s, t).op, PhaseOf(s, t).seen;
      assert seen.(disk := seen.disk) == seen;
      StepParts(base, seen, op);
      RunAppends(base, start, s.done, op);
    }
  }

  /** In every interleaving no compare-and-swap finds another revision, and whenever the lock is free
      the store is what the finished operations give when run one after the other. */
  lemma {:induction false} ThreadsAreSequential(base: Base, start: Store, s: System, actions: seq<Action>)
    requires Inv(base, start, s)
    ensures var last := Acts(base, s, actions);
      && Inv(base, start, last)
      && last.lostSwaps == 0
      && (last.holder == None ==> last.store == Run(base, start, last.done))
    decreases |actions|
  {
    hide Act, Run;
    if actions != [] {
      ActKeepsInv(base, start, s, actions[0]);
      ThreadsAreSequential(base, start, Act(base, s, actions[0]), actions[1..]);
    }
  }

  lemma FromTheStart(base: Base, start: Store, actions: seq<Action>)
    ensures var last := Acts(base, Start(start), actions);
      last.lostSwaps == 0 && (last.holder == None ==> last.store == Run(base, start, last.done))
  {
    ThreadsAreSequential(base, start, Start(start), actions);
  }
}
