/** Normalising and validating roles before they are stored. */
module RoleRules {
  import opened Options
  import opened Text
  import opened RoleMarkdown

  const CURRENT_ROLE_SCHEMA_VERSION: u32 := 1

  datatype RuleError =
    | BadIdLength | BadIdCharacters | BadVersion | BadDisplayName | LongDescription | BadPrompt
    | NoLocalAgent | CoordinatorNotAllowed | ZeroParallelism | NoCapability | UnknownCapability | BadInsight

  function Utf8Length(s: string): nat {
    if s == "" then 0
    else
      var n := s[0] as int;
      (if n < 0x80 then 1 else if n < 0x800 then 2 else if n < 0x1_0000 then 3 else 4) + Utf8Length(s[1..])
  }

  predicate IsIdCharacter(c: char) {
    'a' <= c <= 'z' || '0' <= c <= '9' || c == '-'
  }

  predicate HasDoubleHyphen(s: string) {
    |s| >= 2 && ((s[0] == '-' && s[1] == '-') || HasDoubleHyphen(s[1..]))
  }

  function ValidateRoleId(id: string): Option<RuleError> {
    if id == "" || Utf8Length(id) > 64 then Some(BadIdLength)
    else if || !(forall i :: 0 <= i < |id| ==> IsIdCharacter(id[i]))
            || id[0] == '-' || id[|id| - 1] == '-'
            || HasDoubleHyphen(id)
    then Some(BadIdCharacters)
    else None
  }

  predicate IsInsight(value: string) {
    value == "decision" || value == "contract" || value == "risk" || value == "constraint"
  }

  function Validate(role: AgentRole, known: set<string>): Option<RuleError> {
    var badId := ValidateRoleId(role.id);
    if badId.Some? then badId
    else if role.version != CURRENT_ROLE_SCHEMA_VERSION then Some(BadVersion)
    else if role.displayName == "" || |role.displayName| > 80 then Some(BadDisplayName)
    else if |role.description| > 300 then Some(LongDescription)
    else if role.systemPrompt == "" || |role.systemPrompt| > 50_000 then Some(BadPrompt)
    else if LocalAgent !in role.supportedKinds then Some(NoLocalAgent)
    else if role.coordinatorMode then Some(CoordinatorNotAllowed)
    else if role.parallelismLimit == Some(0) then Some(ZeroParallelism)
    else if role.capabilities == [] then Some(NoCapability)
    else if exists c :: c in role.capabilities && c !in known then Some(UnknownCapability)
    else if exists v :: v in role.insightPreferences && !IsInsight(v) then Some(BadInsight)
    else None
  }

  lemma {:induction false} AsciiLength(id: string)
    requires forall i :: 0 <= i < |id| ==> IsIdCharacter(id[i])
    ensures Utf8Length(id) == |id|
  {
    if id != "" {
      AsciiLength(id[1..]);
    }
  }

  lemma {:induction false} DoubleHyphenIs(s: string)
    ensures HasDoubleHyphen(s) <==> exists i :: 0 <= i < |s| - 1 && s[i] == '-' && s[i + 1] == '-'
  {
    if |s| >= 2 {
      DoubleHyphenIs(s[1..]);
      if i :| 0 <= i < |s| - 1 && s[i] == '-' && s[i + 1] == '-' && i > 0 {
        assert s[1..][i - 1] == '-' && s[1..][i] == '-';
      }
      if i :| 0 <= i < |s[1..]| - 1 && s[1..][i] == '-' && s[1..][i + 1] == '-' {
        assert s[i + 1] == '-' && s[i + 1 + 1] == '-';
      }
    }
  }

  /** An id is one to sixty-four small letters, digits and hyphens, with a letter or digit at either end and no
      two hyphens together. */
  lemma ValidIdIff(id: string)
    ensures ValidateRoleId(id) == None <==>
      && 1 <= |id| <= 64 && id[0] != '-' && id[|id| - 1] != '-'
      && (forall i :: 0 <= i < |id| ==> 'a' <= id[i] <= 'z' || '0' <= id[i] <= '9' || id[i] == '-')
      && forall i :: 0 <= i < |id| - 1 ==> id[i] == '-' ==> id[i + 1] != '-'
  {
    DoubleHyphenIs(id);
    if forall i :: 0 <= i < |id| ==> IsIdCharacter(id[i]) {
      AsciiLength(id);
    }
    hide HasDoubleHyphen, Utf8Length;
  }

  /** What may be stored as a user role. */
  lemma ValidIff(role: AgentRole, known: set<string>)
    ensures Validate(role, known) == None <==>
      && ValidateRoleId(role.id) == None && role.version == 1
      && 1 <= |role.displayName| <= 80 && |role.description| <= 300 && 1 <= |role.systemPrompt| <= 50_000
      && LocalAgent in role.supportedKinds && !role.coordinatorMode && role.parallelismLimit != Some(0)
      && role.capabilities != [] && (forall c :: c in role.capabilities ==> c in known)
      && forall v :: v in role.insightPreferences ==> v in ["decision", "contract", "risk", "constraint"]
  {
    hide ValidateRoleId;
  }

  function NormalizeRole(role: AgentRole): AgentRole {
    var id := Trim(role.id);
    var displayName := if Trim(role.displayName) == "" then id else Trim(role.displayName);
    role.(
      id := id,
      displayName := displayName,
      description := Trim(role.description),
      role := if Trim(role.role) == "" then displayName else Trim(role.role),
      systemPrompt := Trim(role.systemPrompt),
      colorToken := if Trim(role.colorToken) == "" then "agent-" + id else Trim(role.colorToken),
      icon := if Trim(role.icon) == "" then "bot" else Trim(role.icon),
      focus := Cleaned(role.focus, {}),
      constraints := Cleaned(role.constraints, {}),
      outputPreferences := Cleaned(role.outputPreferences, {}),
      ownerships := Cleaned(role.ownerships, {}),
      insightPreferences := Cleaned(role.insightPreferences, {}),
      capabilities := Cleaned(role.capabilities, {}),
      roleRevision := if role.roleRevision == 0 then 1 else role.roleRevision)
  }

  /** The normalising sweep, field by field. */
  method Normalize(original: AgentRole) returns (role: AgentRole)
    ensures role == NormalizeRole(original)
  {
    hide Trim, Cleaned;
    role := original;
    role := role.(id := Trim(role.id));
    role := role.(displayName := Trim(role.displayName));
    role := role.(description := Trim(role.description));
    role := role.(role := Trim(role.role));
    role := role.(systemPrompt := Trim(role.systemPrompt));
    role := role.(colorToken := Trim(role.colorToken));
    role := role.(icon := Trim(role.icon));
    var list := CleanList(role.focus);
    role := role.(focus := list);
    list := CleanList(role.constraints);
    role := role.(constraints := list);
    list := CleanList(role.outputPreferences);
    role := role.(outputPreferences := list);
    list := CleanList(role.ownerships);
    role := role.(ownerships := list);
    list := CleanList(role.insightPreferences);
    role := role.(insightPreferences := list);
    list := CleanList(role.capabilities);
    role := role.(capabilities := list);
    if role.displayName == "" {
      role := role.(displayName := role.id);
    }
    if role.role == "" {
      role := role.(role := role.displayName);
    }
    if role.colorToken == "" {
      role := role.(colorToken := "agent-" + role.id);
    }
    if role.icon == "" {
      role := role.(icon := "bot");
    }
    if role.roleRevision == 0 {
      role := role.(roleRevision := 1);
    }
  }

  /** What the sweep leaves alone, and the least revision. */
  lemma NormalizeKeeps(role: AgentRole)
    ensures var normal := NormalizeRole(role);
      && normal.version == role.version && normal.supportedKinds == role.supportedKinds
      && normal.parallelismLimit == role.parallelismLimit && normal.coordinatorMode == role.coordinatorMode
      && normal.roleRevision >= 1 && role.roleRevision <= normal.roleRevision <= role.roleRevision + 1
      && (role.roleRevision >= 1 ==> normal.roleRevision == role.roleRevision)
  {
    hide Trim, Cleaned;
  }

  /** What normalising establishes: every text trimmed, every list clean, the defaults filled in. */
  predicate Normal(role: AgentRole) {
    && Trimmed(role.id) && Trimmed(role.displayName) && Trimmed(role.description)
    && Trimmed(role.role) && Trimmed(role.systemPrompt) && Trimmed(role.colorToken) && Trimmed(role.icon)
    && Clean(role.focus) && Clean(role.constraints) && Clean(role.outputPreferences)
    && Clean(role.ownerships) && Clean(role.insightPreferences) && Clean(role.capabilities)
    && (role.displayName == "" ==> role.id == "") && (role.role == "" ==> role.displayName == "")
    && role.colorToken != "" && role.icon != "" && role.roleRevision != 0
  }

  /** Normalising yields a normal role. */
  lemma NormalizeIsNormal(role: AgentRole)
    ensures Normal(NormalizeRole(role))
  {
    hide Trim, Cleaned;
    TrimIsTrimmed(role.id);
    TrimIsTrimmed(role.displayName);
    TrimIsTrimmed(role.description);
    TrimIsTrimmed(role.role);
    TrimIsTrimmed(role.systemPrompt);
    TrimIsTrimmed(role.colorToken);
    TrimIsTrimmed(role.icon);
    CleanedIsClean(role.focus, {});
    CleanedIsClean(role.constraints, {});
    CleanedIsClean(role.outputPreferences, {});
    CleanedIsClean(role.ownerships, {});
    CleanedIsClean(role.insightPreferences, {});
    CleanedIsClean(role.capabilities, {});
    var token := "agent-" + Trim(role.id);
    assert token[0] == 'a' && token[|token| - 1] == if Trim(role.id) == "" then '-' else Trim(role.id)[|Trim(role.id)| - 1];
    assert Trimmed("bot") by {
      assert "bot"[0] == 'b' && "bot"[2] == 't';
    }
  }

  /** A role is normal exactly when normalising leaves it alone. */
  lemma NormalIffFixed(role: AgentRole)
    ensures Normal(role) <==> NormalizeRole(role) == role
  {
    hide Trim, Cleaned, Clean, Trimmed;
    NormalizeIsNormal(role);
    if Normal(role) {
      TrimIsTrimmed(role.id);
      TrimIsTrimmed(role.displayName);
      TrimIsTrimmed(role.description);
      TrimIsTrimmed(role.role);
      TrimIsTrimmed(role.systemPrompt);
      TrimIsTrimmed(role.colorToken);
      TrimIsTrimmed(role.icon);
      CleanStaysClean(role.focus, {});
      CleanStaysClean(role.constraints, {});
      CleanStaysClean(role.outputPreferences, {});
      CleanStaysClean(role.ownerships, {});
      CleanStaysClean(role.insightPreferences, {});
      CleanStaysClean(role.capabilities, {});
      var n := NormalizeRole(role);
      assert n.displayName == role.displayName && n.role == role.role;
      assert n.colorToken == role.colorToken && n.icon == role.icon && n.roleRevision == role.roleRevision;
      assert n.focus == role.focus && n.constraints == role.constraints && n.outputPreferences == role.outputPreferences;
      assert n.ownerships == role.ownerships && n.insightPreferences == role.insightPreferences;
    }
  }
}
