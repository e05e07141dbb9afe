/** Writers of one role that do not know of each other: what the revision a writer names protects. */
module RoleWriters {
  import opened Options
  import opened RoleMarkdown
  import opened RoleParser
  import opened RoleRules
  import opened RoleRoundTrip
  import opened RoleRegistry

  /** No operation deletes the role. */
  predicate KeepsRole(ops: seq<Op>, id: string) {
    forall i :: 0 <= i < |ops| && ops[i].Delete? ==> ops[i].id != id
  }

  /** The role is served, and a reload would serve it under the same revision. */
  predicate OnFile(base: Base, s: Store, id: string) {
    && id !in base.builtins && id in s.roles && s.disk.present && id in s.disk.files
    && var file := LoadFile(id, s.disk.files[id]);
       file.Some? && Admitted(base, file.value) && file.value.roleRevision == s.roles[id].roleRevision
  }

  lemma SaveFiles(base: Base, s: Store, role: AgentRole, expected: Option<u64>, fault: DiskFault)
    requires SaveSpec(base, s, role, expected, fault).1.Done?
    ensures OnFile(base, SaveSpec(base, s, role, expected, fault).0, NormalizeRole(role).id)
  {
    hide NormalizeRole, Validate, SerializeRole, LoadFile, Admitted, Storable, DistinctKinds;
    SavedIsStorable(base, s, role);
    SavedFileLoads(base, SaveSpec(base, s, role, expected, fault).1.value);
  }

  lemma StepKeepsRole(base: Base, s: Store, op: Op, id: string)
    requires OnFile(base, s, id) && (op.Delete? ==> op.id != id)
    ensures OnFile(base, Step(base, s, op), id)
    ensures Step(base, s, op).roles[id].roleRevision >= s.roles[id].roleRevision
  {
    hide NormalizeRole, Validate, SerializeRole, LoadFile, Admitted;
    if op.Save? && SaveSpec(base, s, op.role, op.expected, op.fault).1.Done? && NormalizeRole(op.role).id == id {
      SaveFiles(base, s, op.role, op.expected, op.fault);
      SaveDecides(base, s, op.role, op.expected, op.fault);
      hide OnFile, SaveSpec;
    }
  }

  /** In every run that does not delete it, reloads included, the revision of a role never falls. */
  lemma {:induction false} RevisionNeverFalls(base: Base, s: Store, ops: seq<Op>, id: string)
    requires OnFile(base, s, id) && KeepsRole(ops, id)
    ensures OnFile(base, Run(base, s, ops), id)
    ensures Run(base, s, ops).roles[id].roleRevision >= s.roles[id].roleRevision
    decreases |ops|
  {
    hide Step;
    if ops != [] {
      StepKeepsRole(base, s, ops[0], id);
      RevisionNeverFalls(base, Step(base, s, ops[0]), ops[1..], id);
    }
  }

  /** After a save, the revision its writer named is outdated for good, short of the last revision. */
  lemma SaveOutdates(base: Base, s: Store, role: AgentRole, expected: Option<u64>, fault: DiskFault, between: seq<Op>)
    requires SaveSpec(base, s, role, expected, fault).1.Done? && expected != Some(LAST_REVISION)
    requires KeepsRole(between, NormalizeRole(role).id)
    ensures var t := Run(base, SaveSpec(base, s, role, expected, fault).0, between);
      NormalizeRole(role).id in t.roles && !UpToDate(t.roles, NormalizeRole(role).id, expected)
  {
    hide SaveSpec, NormalizeRole, Validate, Run, LoadFile, Admitted;
    SaveDecides(base, s, role, expected, fault);
    SaveFiles(base, s, role, expected, fault);
    RevisionNeverFalls(base, SaveSpec(base, s, role, expected, fault).0, between, NormalizeRole(role).id);
  }

  /** Of two saves prepared from the same state of a role the second is refused and changes nothing, whatever
      saves, reloads and deletions of other roles come between. */
  lemma SecondSaveIsRefused(base: Base, s: Store, first: AgentRole, second: AgentRole, expected: Option<u64>,
                            fault: DiskFault, between: seq<Op>, later: DiskFault)
    requires SaveSpec(base, s, first, expected, fault).1.Done? && expected != Some(LAST_REVISION)
    requires NormalizeRole(second).id == NormalizeRole(first).id && KeepsRole(between, NormalizeRole(first).id)
    ensures var t := Run(base, SaveSpec(base, s, first, expected, fault).0, between);
      SaveSpec(base, t, second, expected, later).1.Refused? && SaveSpec(base, t, second, expected, later).0 == t
  {
    hide SaveSpec, NormalizeRole, Validate, Run, UpToDate;
    SaveOutdates(base, s, first, expected, fault, between);
    SaveDecides(base, Run(base, SaveSpec(base, s, first, expected, fault).0, between), second, expected, later);
  }

  /** So is a deletion prepared before a save. */
  lemma DeleteAfterSaveIsRefused(base: Base, s: Store, role: AgentRole, expected: Option<u64>, fault: DiskFault,
                                 between: seq<Op>, removable: bool)
    requires SaveSpec(base, s, role, expected, fault).1.Done? && expected != Some(LAST_REVISION)
    requires KeepsRole(between, NormalizeRole(role).id)
    ensures var t := Run(base, SaveSpec(base, s, role, expected, fault).0, between);
      var late := DeleteSpec(base, t, NormalizeRole(role).id, expected, removable);
      late.1.Refused? && late.0 == t
  {
    hide SaveSpec, DeleteSpec, NormalizeRole, Validate, Run;
    SaveOutdates(base, s, role, expected, fault, between);
    DeleteDecides(base, Run(base, SaveSpec(base, s, role, expected, fault).0, between), NormalizeRole(role).id,
                  expected, removable);
  }

  /** And a save or another deletion prepared before a deletion. */
  lemma AfterDeleteIsRefused(base: Base, s: Store, id: string, expected: Option<u64>, removable: bool,
                             late: AgentRole, fault: DiskFault, again: bool)
    requires DeleteSpec(base, s, id, expected, removable).1.Done? && NormalizeRole(late).id == id
    ensures var t := DeleteSpec(base, s, id, expected, removable).0;
      && SaveSpec(base, t, late, expected, fault).1.Refused? && SaveSpec(base, t, late, expected, fault).0 == t
      && DeleteSpec(base, t, id, expected, again).1.Refused? && DeleteSpec(base, t, id, expected, again).0 == t
  {
    hide SaveSpec, DeleteSpec, NormalizeRole, Validate;
    DeleteDecides(base, s, id, expected, removable);
    var t := DeleteSpec(base, s, id, expected, removable).0;
    SaveDecides(base, t, late, expected, fault);
    DeleteDecides(base, t, id, expected, again);
  }

  /** The last revision protects nothing: there the second of two saves goes through exactly when it would
      without the first. */
  lemma LastRevisionProtectsNothing(base: Base, s: Store, first: AgentRole, second: AgentRole, later: DiskFault)
    requires SaveSpec(base, s, first, Some(LAST_REVISION), NoFault).1.Done?
    requires NormalizeRole(second).id == NormalizeRole(first).id
    ensures var t := SaveSpec(base, s, first, Some(LAST_REVISION), NoFault).0;
      var alone := SaveSpec(base, s, second, Some(LAST_REVISION), later).1;
      SaveSpec(base, t, second, Some(LAST_REVISION), later).1.Done? <==> alone.Done?
  {
    hide SaveSpec, NormalizeRole, Validate;
    SaveDecides(base, s, first, Some(LAST_REVISION), NoFault);
    SaveDecides(base, s, second, Some(LAST_REVISION), later);
    SaveDecides(base, SaveSpec(base, s, first, Some(LAST_REVISION), NoFault).0, second, Some(LAST_REVISION), later);
  }

  /** Nor does a revision outlive the role: when a role is deleted and created again its revisions start over,
      and a save prepared from the first role overwrites the second. */
  lemma RecreatedRoleIsOverwritten(base: Base, s: Store, role: AgentRole, next: AgentRole, late: AgentRole)
    requires SaveSpec(base, s, role, None, NoFault).1.Done?
    requires NormalizeRole(next).id == NormalizeRole(late).id == NormalizeRole(role).id
    requires Validate(NormalizeRole(next), base.known) == None && Validate(NormalizeRole(late), base.known) == None
    ensures var id, one := NormalizeRole(role).id, Some(1 as u64);
      var created := SaveSpec(base, s, role, None, NoFault).0;
      var deleted := DeleteSpec(base, created, id, one, true).0;
      var recreated := SaveSpec(base, deleted, next, None, NoFault).0;
      && id !in deleted.roles && id in recreated.roles
      && SaveSpec(base, recreated, late, one, NoFault).1.Done?
  {
    hide SaveSpec, DeleteSpec, NormalizeRole, Validate;
    var id, one := NormalizeRole(role).id, Some(1 as u64);
    SaveDecides(base, s, role, None, NoFault);
    var created := SaveSpec(base, s, role, None, NoFault).0;
    DeleteDecides(base, created, id, one, true);
    var deleted := DeleteSpec(base, created, id, one, true).0;
    SaveDecides(base, deleted, next, None, NoFault);
    SaveDecides(base, SaveSpec(base, deleted, next, None, NoFault).0, late, one, NoFault);
  }
}
