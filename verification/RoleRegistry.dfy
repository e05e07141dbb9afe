/** The role registry: an in-memory snapshot kept in step with a directory of role files. */
module RoleRegistry {
  import opened Options
  import opened Text
  import opened RoleMarkdown
  import opened RoleParser
  import opened RoleRules
  import opened RoleRoundTrip

  datatype Content = Unreadable | Readable(text: string)

  /** The role directory: its `.md` files by the stem of their names. */
  datatype Disk = Disk(present: bool, files: map<string, Content>)

  datatype RegistryError =
    | Invalid(rule: RuleError) | BuiltinConflict | StaleRevision | AlreadyExists | NoSuchRole | Io | RegistryChanged

  datatype Outcome<+T> = Done(value: T) | Refused(error: RegistryError)

  /** Which file operation fails, if any. */
  datatype DiskFault = NoFault | NoDirectory | NoWrite

  /** The compiled-in roles and the known capabilities. */
  datatype Base = Base(builtins: map<string, AgentRole>, known: set<string>)

  /** What the registry can change: the files, the roles it serves and its revision. */
  datatype Store = Store(disk: Disk, roles: map<string, AgentRole>, revision: u64)

  function SaturatingNext(n: u64): u64 {
    if n + 1 < 0x1_0000_0000_0000_0000 then n + 1 else n
  }

  /** One role file: the id must be the stem of the file name, or absent. */
  function LoadFile(stem: string, content: Content): (r: Option<AgentRole>)
    ensures r.Some? ==> r.value.id == stem
  {
    match content
    case Unreadable => None
    case Readable(text) =>
      match ParseRole(text)
      case Err(_) => None
      case Ok(role) =>
        if Trim(role.id) == "" then (if stem == "" then None else Some(role.(id := stem)))
        else if role.id != stem then None
        else Some(role)
  }

  /** A file is loaded exactly when it is readable and its id is the stem of its name or blank; the role is the
      one read, under the stem. */
  lemma LoadDecides(stem: string, content: Content, role: AgentRole)
    ensures LoadFile(stem, content) == Some(role) <==>
      && stem != "" && content.Readable? && ParseRole(content.text).Ok?
      && var read := ParseRole(content.text).value;
         (Trim(read.id) == "" || read.id == stem) && role == read.(id := stem)
  {
    hide ParseRole, Trim;
    TrimIsTrimmed("");
  }

  predicate Admitted(base: Base, role: AgentRole) {
    role.id !in base.builtins && Validate(role, base.known) == None
  }

  function CountOf(counts: map<string, nat>, id: string): nat {
    if id in counts then counts[id] else 0
  }

  function Loadable(files: map<string, Content>): map<string, AgentRole> {
    map stem | stem in files && LoadFile(stem, files[stem]).Some? :: LoadFile(stem, files[stem]).value
  }

  /** The user roles a directory stands for. */
  function UserRoles(base: Base, files: map<string, Content>): (roles: map<string, AgentRole>) {
    map stem | stem in files && LoadFile(stem, files[stem]).Some? && Admitted(base, LoadFile(stem, files[stem]).value)
      :: LoadFile(stem, files[stem]).value
  }

  function AdmittedAmong(base: Base, candidates: map<string, AgentRole>, done: set<string>): map<string, AgentRole> {
    map id | id in candidates && id in done && Admitted(base, candidates[id]) :: candidates[id]
  }

  lemma AllAdmitted(base: Base, candidates: map<string, AgentRole>)
    ensures AdmittedAmong(base, candidates, candidates.Keys) ==
      map id | id in candidates && Admitted(base, candidates[id]) :: candidates[id]
  {
    hide Admitted;
  }

  lemma MergeUpdates<K, V>(a: map<K, V>, b: map<K, V>, k: K, v: V)
    ensures a + b[k := v] == (a + b)[k := v]
  {
  }

  lemma AdmitOne(base: Base, candidates: map<string, AgentRole>, done: set<string>, id: string)
    requires id in candidates && id !in done
    ensures AdmittedAmong(base, candidates, done + {id}) ==
      var before := AdmittedAmong(base, candidates, done);
      if Admitted(base, candidates[id]) then before[id := candidates[id]] else before
  {
    hide Admitted;
  }

  function RolesOnDisk(base: Base, disk: Disk): map<string, AgentRole> {
    base.builtins + if disk.present then UserRoles(base, disk.files) else map[]
  }

  function ReloadSpec(base: Base, s: Store, listable: bool): (Store, Outcome<u64>) {
    if s.disk.present && !listable then (s, Refused(Io))
    else
      var revision := SaturatingNext(s.revision);
      (Store(s.disk, RolesOnDisk(base, s.disk), revision), Done(revision))
  }

  /** The revision a saved role gets. */
  function NextRoleRevision(s: Store, id: string): u64 {
    if id in s.roles then SaturatingNext(s.roles[id].roleRevision) else 1
  }

  function SaveRefusal(base: Base, s: Store, role: AgentRole, expected: Option<u64>): Option<RegistryError> {
    match Validate(role, base.known)
    case Some(rule) => Some(Invalid(rule))
    case None =>
      if role.id in base.builtins then Some(BuiltinConflict)
      else if role.id in s.roles then
        match expected
        case None => Some(AlreadyExists)
        case Some(n) => if n != s.roles[role.id].roleRevision then Some(StaleRevision) else None
      else if expected.Some? then Some(NoSuchRole)
      else None
  }

  function SaveSpec(base: Base, s: Store, role: AgentRole, expected: Option<u64>, fault: DiskFault)
    : (Store, Outcome<AgentRole>)
  {
    var normal := NormalizeRole(role);
    var refusal := SaveRefusal(base, s, normal, expected);
    if refusal.Some? then (s, Refused(refusal.value))
    else if fault == NoDirectory then (s, Refused(Io))
    else if fault == NoWrite then (s.(disk := s.disk.(present := true)), Refused(Io))
    else
      var saved := normal.(roleRevision := NextRoleRevision(s, normal.id));
      var file := Readable(SerializeRole(saved, true));
      (Store(Disk(true, s.disk.files[saved.id := file]), s.roles[saved.id := saved], SaturatingNext(s.revision)),
       Done(saved))
  }

  function DeleteRefusal(base: Base, s: Store, id: string, expected: Option<u64>): Option<RegistryError> {
    if id in base.builtins then Some(BuiltinConflict)
    else if id !in s.roles then Some(NoSuchRole)
    else if expected != Some(s.roles[id].roleRevision) then Some(StaleRevision)
    else None
  }

  function DeleteSpec(base: Base, s: Store, id: string, expected: Option<u64>, removable: bool): (Store, Outcome<()>) {
    var refusal := DeleteRefusal(base, s, id, expected);
    if refusal.Some? then (s, Refused(refusal.value))
    else if id in s.disk.files && !removable then (s, Refused(Io))
    else (Store(s.disk.(files := s.disk.files - {id}), s.roles - {id}, SaturatingNext(s.revision)), Done(()))
  }

  const LAST_REVISION: u64 := 0xFFFF_FFFF_FFFF_FFFF

  /** The writer knows what is stored: the revision of a stored role, or that there is none. */
  predicate UpToDate(roles: map<string, AgentRole>, id: string, expected: Option<u64>) {
    if id in roles then expected == Some(roles[id].roleRevision) else expected == None
  }

  /** The role as it is stored: one revision further, or the first. */
  predicate OneFurther(roles: map<string, AgentRole>, normal: AgentRole, saved: AgentRole) {
    && saved == normal.(roleRevision := saved.roleRevision)
    && if normal.id !in roles then saved.roleRevision == 1
       else if roles[normal.id].roleRevision == LAST_REVISION then saved.roleRevision == LAST_REVISION
       else saved.roleRevision == roles[normal.id].roleRevision + 1
  }

  /** A save goes through exactly for a valid role that is no builtin one and a writer that is up to date,
      when the file can be written; and then it stores the role and nothing else. */
  lemma SaveDecides(base: Base, s: Store, role: AgentRole, expected: Option<u64>, fault: DiskFault)
    ensures var (s', outcome) := SaveSpec(base, s, role, expected, fault);
      var normal := NormalizeRole(role);
      && (outcome.Done? <==>
            && Validate(normal, base.known) == None && normal.id !in base.builtins
            && UpToDate(s.roles, normal.id, expected) && fault == NoFault)
      && (outcome.Done? ==>
            && OneFurther(s.roles, normal, outcome.value) && s'.roles == s.roles[normal.id := outcome.value]
            && s'.disk.files == s.disk.files[normal.id := Readable(SerializeRole(outcome.value, true))])
      && (outcome.Refused? ==> s'.roles == s.roles && s'.disk.files == s.disk.files && s'.revision == s.revision)
      && (!UpToDate(s.roles, normal.id, expected) ==> outcome.Refused? && s' == s)
  {
    hide NormalizeRole, Validate, SerializeRole;
  }

  /** A deletion goes through exactly for a stored role that is no builtin one and a writer that is up to date,
      when the file can be removed. */
  lemma DeleteDecides(base: Base, s: Store, id: string, expected: Option<u64>, removable: bool)
    ensures var (s', outcome) := DeleteSpec(base, s, id, expected, removable);
      && (outcome.Done? <==>
            && id !in base.builtins && id in s.roles && expected == Some(s.roles[id].roleRevision)
            && (id in s.disk.files ==> removable))
      && (outcome.Done? ==> s'.roles == s.roles - {id} && s'.disk.files == s.disk.files - {id})
      && (outcome.Refused? ==> s' == s)
  {
  }

  /** A reload serves the builtin roles and, under the stem of its file, each readable role that is valid and no
      builtin one; it fails only when there is a directory that cannot be listed. */
  lemma ReloadDecides(base: Base, s: Store, listable: bool)
    ensures var (s', outcome) := ReloadSpec(base, s, listable);
      && s'.disk == s.disk
      && (outcome.Done? <==> (s.disk.present ==> listable))
      && (outcome.Refused? ==> s' == s)
      && (outcome.Done? ==> s'.revision == outcome.value)
      && (outcome.Done? ==> forall id :: id in s'.roles <==>
                 id in base.builtins || (s.disk.present && id in s.disk.files && LoadFile(id, s.disk.files[id]).Some?
                   && Validate(LoadFile(id, s.disk.files[id]).value, base.known) == None))
      && (outcome.Done? ==> forall id :: id in s'.roles ==>
            s'.roles[id] == if id in base.builtins then base.builtins[id] else LoadFile(id, s.disk.files[id]).value)
  {
    hide LoadFile, Validate;
  }

  // ----- the registry object

  class AgentRoleRegistry {
    const base: Base
    var disk: Disk
    var roles: map<string, AgentRole>
    var registryRevision: u64

    function State(): Store
      reads this
    {
      Store(disk, roles, registryRevision)
    }

    /** Starts with the builtin roles only. */
    constructor (base: Base, disk: Disk)
      ensures this.base == base && State() == Store(disk, base.builtins, 0)
    {
      this.base := base;
      this.disk := disk;
      this.roles := base.builtins;
      this.registryRevision := 0;
    }

    /** Loads every file and counts how often each id turns up: never more than once, because an id
        is the stem of its file. */
    method LoadFiles(files: map<string, Content>) returns (parsed: seq<AgentRole>, counts: map<string, nat>)
      ensures forall k :: 0 <= k < |parsed| ==> parsed[k].id in counts && counts[parsed[k].id] == 1
      ensures forall k :: 0 <= k < |parsed| ==>
          parsed[k].id in files && LoadFile(parsed[k].id, files[parsed[k].id]) == Some(parsed[k])
      ensures forall stem :: stem in files && LoadFile(stem, files[stem]).Some? ==>
        exists k :: 0 <= k < |parsed| && parsed[k].id == stem
    {
      hide LoadFile;
      var pending := files.Keys;
      parsed, counts := [], map[];
      while pending != {}
        invariant pending <= files.Keys
        invariant forall id :: id in counts ==> counts[id] == 1 && id in files && id !in pending
        invariant forall k :: 0 <= k < |parsed| ==> parsed[k].id in counts
        invariant forall k :: 0 <= k < |parsed| ==>
          parsed[k].id in files && LoadFile(parsed[k].id, files[parsed[k].id]) == Some(parsed[k])
        invariant forall stem :: stem in files && stem !in pending && LoadFile(stem, files[stem]).Some? ==>
          exists k :: 0 <= k < |parsed| && parsed[k].id == stem
        decreases |pending|
      {
        var stem :| stem in pending;
        pending := pending - {stem};
        var role := LoadFile(stem, files[stem]);
        if role.Some? {
          ghost var before := parsed;
          parsed := parsed + [role.value];
          counts := counts[role.value.id := CountOf(counts, role.value.id) + 1];
          assert parsed[|before|].id == stem;
          assert forall k :: 0 <= k < |before| ==> parsed[k] == before[k];
        }
      }
    }

    /** The listing without the ids that turned up more than once. */
    method LoadDir(files: map<string, Content>) returns (out: map<string, AgentRole>)
      ensures out == Loadable(files)
    {
      hide LoadFile;
      var parsed, counts := LoadFiles(files);
      out := map[];
      var i := 0;
      while i < |parsed|
        invariant 0 <= i <= |parsed|
        invariant forall id :: id in out ==> id in files && LoadFile(id, files[id]) == Some(out[id])
        invariant forall k :: 0 <= k < i ==> parsed[k].id in out
      {
        var role := parsed[i];
        if counts[role.id] <= 1 {
          out := out[role.id := role];
        }
        i := i + 1;
      }
      forall stem | stem in files && LoadFile(stem, files[stem]).Some? ensures stem in out {
        var k :| 0 <= k < |parsed| && parsed[k].id == stem;
      }
    }

    /** Adds the admitted roles to the builtin ones. */
    method AdmitRoles(candidates: map<string, AgentRole>) returns (loaded: map<string, AgentRole>)
      requires forall id :: id in candidates ==> candidates[id].id == id
      ensures loaded == base.builtins + map id | id in candidates && Admitted(base, candidates[id]) :: candidates[id]
    {
      loaded := base.builtins;
      var pending := candidates.Keys;
      assert AdmittedAmong(base, candidates, {}) == map[];
      while pending != {}
        invariant pending <= candidates.Keys
        invariant loaded == base.builtins + AdmittedAmong(base, candidates, candidates.Keys - pending)
        decreases |pending|
      {
        var id :| id in pending;
        AdmitOne(base, candidates, candidates.Keys - pending, id);
        assert candidates.Keys - (pending - {id}) == candidates.Keys - pending + {id};
        MergeUpdates(base.builtins, AdmittedAmong(base, candidates, candidates.Keys - pending), id, candidates[id]);
        hide AdmittedAmong, Validate;
        pending := pending - {id};
        var role := candidates[id];
        if role.id !in base.builtins && Validate(role, base.known) == None {
          loaded := loaded[role.id := role];
        }
      }
      assert candidates.Keys - pending == candidates.Keys;
      AllAdmitted(base, candidates);
      hide AdmittedAmong, Admitted;
    }

    method ReloadFromDisk(listable: bool) returns (outcome: Outcome<u64>)
      modifies this
      ensures (State(), outcome) == ReloadSpec(base, old(State()), listable)
    {
      hide LoadFile, Admitted;
      var loaded := base.builtins;
      if disk.present {
        if !listable {
          return Refused(Io);
        }
        var candidates := LoadDir(disk.files);
        loaded := AdmitRoles(candidates);
      }
      assert loaded == RolesOnDisk(base, disk);
      roles := loaded;
      registryRevision := SaturatingNext(registryRevision);
      return Done(registryRevision);
    }

    method SaveUserRole(role: AgentRole, expected: Option<u64>, fault: DiskFault) returns (outcome: Outcome<AgentRole>)
      modifies this
      ensures (State(), outcome) == SaveSpec(base, old(State()), role, expected, fault)
      ensures var normal := NormalizeRole(role);
        outcome.Done? <==>
          && Validate(normal, base.known) == None && normal.id !in base.builtins
          && UpToDate(old(roles), normal.id, expected) && fault == NoFault
      ensures outcome.Done? ==>
        && OneFurther(old(roles), NormalizeRole(role), outcome.value)
        && roles == old(roles)[outcome.value.id := outcome.value]
        && disk.files == old(disk).files[outcome.value.id := Readable(SerializeRole(outcome.value, true))]
      ensures outcome.Refused? ==>
        roles == old(roles) && disk.files == old(disk).files && registryRevision == old(registryRevision)
      ensures outcome == Refused(StaleRevision) ==>
        NormalizeRole(role).id in old(roles) && expected.Some? && !UpToDate(old(roles), NormalizeRole(role).id, expected)
    {
      hide NormalizeRole, Validate, SerializeRole;
      SaveDecides(base, State(), role, expected, fault);
      var seenRoles, seenRevision := roles, registryRevision;
      var normalized := Normalize(role);
      var rule := Validate(normalized, base.known);
      if rule.Some? {
        return Refused(Invalid(rule.value));
      }
      if normalized.id in base.builtins {
        return Refused(BuiltinConflict);
      }
      if normalized.id in seenRoles {
        if expected == None {
          return Refused(AlreadyExists);
        }
        if expected.value != seenRoles[normalized.id].roleRevision {
          return Refused(StaleRevision);
        }
      } else if expected.Some? {
        return Refused(NoSuchRole);
      }
      normalized := normalized.(roleRevision :=
        if normalized.id in seenRoles then SaturatingNext(seenRoles[normalized.id].roleRevision) else 1);
      if fault == NoDirectory {
        return Refused(Io);
      }
      disk := disk.(present := true);
      if fault == NoWrite {
        return Refused(Io);
      }
      disk := disk.(files := disk.files[normalized.id := Readable(SerializeRole(normalized, true))]);
      if registryRevision != seenRevision {
        return Refused(RegistryChanged);
      }
      roles := seenRoles[normalized.id := normalized];
      registryRevision := SaturatingNext(seenRevision);
      return Done(normalized);
    }

    method DeleteUserRole(roleId: string, expected: Option<u64>, removable: bool) returns (outcome: Outcome<()>)
      modifies this
      ensures (State(), outcome) == DeleteSpec(base, old(State()), roleId, expected, removable)
      ensures outcome.Done? <==>
        && roleId !in base.builtins && roleId in old(roles) && expected == Some(old(roles)[roleId].roleRevision)
        && (roleId in old(disk).files ==> removable)
      ensures outcome.Done? ==> roles == old(roles) - {roleId} && disk.files == old(disk).files - {roleId}
      ensures outcome.Refused? ==> State() == old(State())
    {
      DeleteDecides(base, State(), roleId, expected, removable);
      var seenRoles, seenRevision := roles, registryRevision;
      if roleId in base.builtins {
        return Refused(BuiltinConflict);
      }
      if roleId !in seenRoles {
        return Refused(NoSuchRole);
      }
      if expected != Some(seenRoles[roleId].roleRevision) {
        return Refused(StaleRevision);
      }
      if roleId in disk.files {
        if !removable {
          return Refused(Io);
        }
      }
      disk := disk.(files := disk.files - {roleId});
      if registryRevision != seenRevision {
        return Refused(RegistryChanged);
      }
      roles := seenRoles - {roleId};
      registryRevision := SaturatingNext(seenRevision);
      return Done(());
    }
  }

  // ----- whole runs

  datatype Op =
    | Reload(listable: bool)
    | Save(role: AgentRole, expected: Option<u64>, fault: DiskFault)
    | Delete(id: string, expected: Option<u64>, removable: bool)

  function Step(base: Base, s: Store, op: Op): Store {
    match op
    case Reload(listable) => ReloadSpec(base, s, listable).0
    case Save(role, expected, fault) => SaveSpec(base, s, role, expected, fault).0
    case Delete(id, expected, removable) => DeleteSpec(base, s, id, expected, removable).0
  }

  predicate Succeeds(base: Base, s: Store, op: Op) {
    match op
    case Reload(listable) => ReloadSpec(base, s, listable).1.Done?
    case Save(role, expected, fault) => SaveSpec(base, s, role, expected, fault).1.Done?
    case Delete(id, expected, removable) => DeleteSpec(base, s, id, expected, removable).1.Done?
  }

  function Run(base: Base, s: Store, ops: seq<Op>): Store
    decreases |ops|
  {
    if ops == [] then s else Run(base, Step(base, s, ops[0]), ops[1..])
  }

  function Successes(base: Base, s: Store, ops: seq<Op>): nat
    decreases |ops|
  {
    if ops == [] then 0
    else (if Succeeds(base, s, ops[0]) then 1 else 0) + Successes(base, Step(base, s, ops[0]), ops[1..])
  }

  /** Builtin roles are filed under their own ids. */
  predicate WellFormed(base: Base) {
    forall id :: id in base.builtins ==> base.builtins[id].id == id
  }

  /** Memory agrees with the files. */
  predicate InStep(base: Base, s: Store) {
    s.roles == RolesOnDisk(base, s.disk) && (!s.disk.present ==> s.disk.files == map[])
  }

  lemma {:induction false} DistinctKindsKeep(kinds: seq<TaskKind>, seen: set<TaskKind>, k: TaskKind)
    requires k in kinds && k !in seen
    ensures k in DistinctKinds(kinds, seen)
  {
    if kinds[0] in seen {
      DistinctKindsKeep(kinds[1..], seen, k);
    } else if kinds[0] != k {
      DistinctKindsKeep(kinds[1..], seen + {kinds[0]}, k);
    }
  }

  /** A saved role can be written so that it reads back. */
  lemma SavedIsStorable(base: Base, s: Store, role: AgentRole)
    requires Validate(NormalizeRole(role), base.known) == None
    ensures var saved := NormalizeRole(role).(roleRevision := NextRoleRevision(s, NormalizeRole(role).id));
      Storable(saved, base.known) && saved.id != ""
  {
    hide NormalizeRole, ValidateRoleId, Clean, Trimmed;
    NormalizeIsNormal(role);
    IdReadsBack(NormalizeRole(role).id);
  }

  lemma StorableHasId(role: AgentRole, known: set<string>)
    requires Storable(role, known)
    ensures Trimmed(role.id) && role.id != ""
  {
  }

  lemma ReadBackIsAdmitted(base: Base, role: AgentRole)
    requires Storable(role, base.known) && role.id !in base.builtins
    ensures Admitted(base, ReadBack(role, true))
  {
    hide ValidateRoleId, DistinctKinds;
    DistinctKindsKeep(role.supportedKinds, {}, LocalAgent);
  }

  lemma ParsedFileLoads(text: string, role: AgentRole)
    requires ParseRole(text) == Ok(role) && Trimmed(role.id) && role.id != ""
    ensures LoadFile(role.id, Readable(text)) == Some(role)
  {
    hide ParseRole, Trim;
    TrimIsTrimmed(role.id);
  }

  /** The file of a storable role loads as the role with its kinds freed of repetitions. */
  lemma SavedFileLoads(base: Base, saved: AgentRole)
    requires Storable(saved, base.known) && saved.id !in base.builtins
    ensures LoadFile(saved.id, Readable(SerializeRole(saved, true))) == Some(ReadBack(saved, true))
    ensures Admitted(base, ReadBack(saved, true))
  {
    hide Validate, Normal, SerializeRole, ParseRole, LoadFile, Admitted, DistinctKinds;
    StorableHasId(saved, base.known);
    StorableIsWritable(saved, base.known);
    WrittenRoleReadsBack(saved, true);
    ParsedFileLoads(SerializeRole(saved, true), ReadBack(saved, true));
    ReadBackIsAdmitted(base, saved);
  }

  /** A successful save keeps memory and files in step exactly when no kind is repeated. */
  lemma SaveKeepsStepIff(base: Base, s: Store, role: AgentRole, expected: Option<u64>, fault: DiskFault)
    requires InStep(base, s) && SaveSpec(base, s, role, expected, fault).1.Done?
    ensures InStep(base, SaveSpec(base, s, role, expected, fault).0) <==> Distinct(role.supportedKinds)
  {
    hide NormalizeRole, Validate, SerializeRole, LoadFile, Admitted, Distinct, DistinctKinds, Storable, UserRoles;
    var saved := SaveSpec(base, s, role, expected, fault).1.value;
    var after := SaveSpec(base, s, role, expected, fault).0;
    SavedIsStorable(base, s, role);
    NormalizeKeeps(role);
    SavedFileLoads(base, saved);
    DistinctKindsIff(saved.supportedKinds, {});
    var disk := RolesOnDisk(base, after.disk);
    FileReplaces(base, s.disk.files, saved.id, Readable(SerializeRole(saved, true)));
    NoUserRoles(base);
    assert disk == s.roles[saved.id := ReadBack(saved, true)];
    assert after.roles == s.roles[saved.id := saved];
    if after.roles == disk {
      assert after.roles[saved.id] == disk[saved.id];
    }
  }

  /** Writing one loadable file changes the user roles at that id only. */
  lemma FileReplaces(base: Base, files: map<string, Content>, id: string, content: Content)
    requires LoadFile(id, content).Some? && Admitted(base, LoadFile(id, content).value)
    ensures UserRoles(base, files[id := content]) == UserRoles(base, files)[id := LoadFile(id, content).value]
  {
    hide LoadFile, Admitted;
  }

  lemma DeleteKeepsStep(base: Base, s: Store, id: string, expected: Option<u64>, removable: bool)
    requires InStep(base, s)
    ensures InStep(base, DeleteSpec(base, s, id, expected, removable).0)
  {
    hide LoadFile, Admitted;
    var after := DeleteSpec(base, s, id, expected, removable).0;
    if after != s {
      assert UserRoles(base, s.disk.files - {id}) == UserRoles(base, s.disk.files) - {id};
      assert id !in base.builtins;
    }
  }

  /** Every save in the run that succeeds has no repeated kind. */
  predicate RepeatFree(base: Base, s: Store, ops: seq<Op>)
    decreases |ops|
  {
    ops == []
    || (&& (ops[0].Save? && Succeeds(base, s, ops[0]) ==> Distinct(ops[0].role.supportedKinds))
        && RepeatFree(base, Step(base, s, ops[0]), ops[1..]))
  }

  lemma StepKeepsStep(base: Base, s: Store, op: Op)
    requires InStep(base, s)
    requires op.Save? && Succeeds(base, s, op) ==> Distinct(op.role.supportedKinds)
    ensures InStep(base, Step(base, s, op))
  {
    hide NormalizeRole, SerializeRole, SaveRefusal, UserRoles, Distinct;
    match op {
      case Reload(listable) =>
      case Save(role, expected, fault) =>
        if Succeeds(base, s, op) {
          SaveKeepsStepIff(base, s, role, expected, fault);
        } else {
          NoUserRoles(base);
        }
      case Delete(id, expected, removable) => DeleteKeepsStep(base, s, id, expected, removable);
    }
  }

  lemma NoUserRoles(base: Base)
    ensures UserRoles(base, map[]) == map[]
  {
  }

  /** Memory and files stay in step over a whole run without outside edits. */
  lemma {:induction false} RunKeepsStep(base: Base, s: Store, ops: seq<Op>)
    requires InStep(base, s) && RepeatFree(base, s, ops)
    ensures InStep(base, Run(base, s, ops))
    decreases |ops|
  {
    hide Step, Succeeds, InStep, Distinct;
    if ops != [] {
      StepKeepsStep(base, s, ops[0]);
      RunKeepsStep(base, Step(base, s, ops[0]), ops[1..]);
    }
  }

  /** After a reload and any such run, one more reload leaves the roles as they are. */
  lemma ReloadChangesNothing(base: Base, s: Store, listable: bool, ops: seq<Op>, again: bool)
    requires ReloadSpec(base, s, listable).1.Done? && (!s.disk.present ==> s.disk.files == map[])
    requires RepeatFree(base, ReloadSpec(base, s, listable).0, ops)
    ensures var last := Run(base, ReloadSpec(base, s, listable).0, ops);
      ReloadSpec(base, last, again).0.roles == last.roles
  {
    hide RolesOnDisk, RepeatFree, Run;
    RunKeepsStep(base, ReloadSpec(base, s, listable).0, ops);
  }

  /** Every builtin role is served unchanged. */
  predicate BuiltinsServed(base: Base, s: Store) {
    forall id :: id in base.builtins ==> id in s.roles && s.roles[id] == base.builtins[id]
  }

  lemma NoBuiltinFromDisk(base: Base, files: map<string, Content>, id: string)
    requires id in base.builtins
    ensures id !in UserRoles(base, files)
  {
  }

  /** No run ever replaces or removes a builtin role. */
  lemma {:induction false} RunKeepsBuiltins(base: Base, s: Store, ops: seq<Op>)
    requires BuiltinsServed(base, s)
    ensures BuiltinsServed(base, Run(base, s, ops))
    decreases |ops|
  {
    hide NormalizeRole, Validate, SerializeRole, LoadFile;
    if ops != [] {
      forall id | id in base.builtins ensures id !in UserRoles(base, s.disk.files) {
        NoBuiltinFromDisk(base, s.disk.files, id);
      }
      assert BuiltinsServed(base, Step(base, s, ops[0]));
      RunKeepsBuiltins(base, Step(base, s, ops[0]), ops[1..]);
    }
  }

  function Saturated(n: nat): u64 {
    if n < 0x1_0000_0000_0000_0000 then n else 0xFFFF_FFFF_FFFF_FFFF
  }

  /** The revision counts the successes, up to the largest 64-bit number. */
  lemma {:induction false} RevisionCountsSuccesses(base: Base, s: Store, ops: seq<Op>)
    ensures Run(base, s, ops).revision == Saturated(s.revision + Successes(base, s, ops))
    decreases |ops|
  {
    hide NormalizeRole, SerializeRole, RolesOnDisk, SaveRefusal, DeleteRefusal;
    if ops != [] {
      assert Step(base, s, ops[0]).revision
        == if Succeeds(base, s, ops[0]) then SaturatingNext(s.revision) else s.revision;
      RevisionCountsSuccesses(base, Step(base, s, ops[0]), ops[1..]);
    }
  }
}
