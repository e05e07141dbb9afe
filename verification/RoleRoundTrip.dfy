/** Parsing what was written gives the role back. */
module RoleRoundTrip {
  import opened Options
  import opened Text
  import opened Json
  import opened RoleMarkdown
  import opened RoleParser
  import opened RoleRules

  /** First appearances only. */
  function DistinctKinds(kinds: seq<TaskKind>, seen: set<TaskKind>): seq<TaskKind> {
    if kinds == [] then []
    else if kinds[0] in seen then DistinctKinds(kinds[1..], seen)
    else [kinds[0]] + DistinctKinds(kinds[1..], seen + {kinds[0]})
  }

  predicate Distinct(kinds: seq<TaskKind>) {
    forall i, j :: 0 <= i < j < |kinds| ==> kinds[i] != kinds[j]
  }

  lemma {:induction false} DistinctKindsIff(kinds: seq<TaskKind>, seen: set<TaskKind>)
    requires forall k :: k in kinds ==> k !in seen
    ensures DistinctKinds(kinds, seen) == kinds <==> Distinct(kinds)
    ensures |DistinctKinds(kinds, seen)| <= |kinds|
  {
    if kinds != [] {
      var k, rest := kinds[0], kinds[1..];
      assert forall i :: 0 <= i < |rest| ==> rest[i] == kinds[i + 1];
      assert k in kinds;
      if k in rest {
        var i :| 0 <= i < |rest| && rest[i] == k;
        assert kinds[0] == kinds[i + 1];
        DropsSeen(rest, seen + {k}, i);
      } else {
        DistinctKindsIff(rest, seen + {k});
        if Distinct(rest) {
          forall i, j | 0 <= i < j < |kinds| ensures kinds[i] != kinds[j] {
            assert kinds[j] == rest[j - 1];
            assert i > 0 ==> kinds[i] == rest[i - 1];
          }
        }
        if DistinctKinds(kinds, seen) == kinds {
          assert ([k] + DistinctKinds(rest, seen + {k}))[1..] == DistinctKinds(rest, seen + {k});
        }
      }
    }
  }

  lemma {:induction false} DropsSeen(kinds: seq<TaskKind>, seen: set<TaskKind>, i: nat)
    requires i < |kinds| && kinds[i] in seen
    ensures |DistinctKinds(kinds, seen)| < |kinds|
  {
    ShorterKinds(kinds[1..], seen);
    if kinds[0] !in seen {
      DropsSeen(kinds[1..], seen + {kinds[0]}, i - 1);
    }
  }

  lemma {:induction false} ShorterKinds(kinds: seq<TaskKind>, seen: set<TaskKind>)
    ensures |DistinctKinds(kinds, seen)| <= |kinds|
  {
    if kinds != [] {
      ShorterKinds(kinds[1..], seen);
      ShorterKinds(kinds[1..], seen + {kinds[0]});
    }
  }

  // ----- the list of kinds

  predicate IsNameCharacter(c: char) {
    'a' <= c <= 'z' || c == '_'
  }

  predicate AllNameCharacters(s: string) {
    forall i :: 0 <= i < |s| ==> IsNameCharacter(s[i])
  }

  /** A name the list scanner passes through: no quote, comma or blank in it. */
  predicate Plain(s: string) {
    s != "" && AllNameCharacters(s)
  }

  lemma PlainIsTrimmed(s: string)
    requires Plain(s)
    ensures Trimmed(s) && OneLine(s)
  {
  }

  lemma KindNameIsPlain(k: TaskKind)
    ensures Plain(KindName(k)) && KindOf(KindName(k)) == Some(k)
  {
  }

  lemma {:induction false} PlainPiece(s: string, rest: string)
    requires forall i :: 0 <= i < |s| ==> s[i] != '"' && s[i] != '\'' && s[i] != ','
    ensures Pieces(s + rest, START) == [s + Pieces(rest, START)[0]] + Pieces(rest, START)[1..]
    ensures ScanEnd(s + rest, START) == ScanEnd(rest, START)
  {
    if s == "" {
      assert s + rest == rest;
      assert "" + Pieces(rest, START)[0] == Pieces(rest, START)[0];
    } else {
      assert (s + rest)[1..] == s[1..] + rest;
      PlainPiece(s[1..], rest);
      assert [s[0]] + (s[1..] + Pieces(rest, START)[0]) == s + Pieces(rest, START)[0];
    }
  }

  lemma EmptyPiece()
    ensures Pieces("", START) == [""] && ScanEnd("", START) == START
  {
  }

  lemma CommaPiece(rest: string)
    ensures Pieces([','] + rest, START) == [""] + Pieces(rest, START)
    ensures ScanEnd([','] + rest, START) == ScanEnd(rest, START)
  {
  }

  function Spaced(items: seq<string>): seq<string> {
    if items == [] then [] else [[' '] + items[0]] + Spaced(items[1..])
  }

  lemma {:induction false} SplitCommaSeparated(items: seq<string>, blank: string)
    requires items != [] && (blank == "" || blank == " ")
    requires forall i :: 0 <= i < |items| ==> Plain(items[i])
    ensures Pieces(blank + CommaSeparated(items), START) == [blank + items[0]] + Spaced(items[1..])
    ensures ScanEnd(blank + CommaSeparated(items), START) == START
    decreases |items|
  {
    hide Pieces, ScanEnd;
    var first := blank + items[0];
    assert forall i :: 0 <= i < |first| ==> first[i] == (if i < |blank| then blank[i] else items[0][i - |blank|]);
    if |items| == 1 {
      PlainPiece(first, "");
      EmptyPiece();
      assert first + "" == blank + CommaSeparated(items);
    } else {
      var rest := " " + CommaSeparated(items[1..]);
      var tail := [','] + rest;
      PlainPiece(first, tail);
      assert first + tail == blank + CommaSeparated(items);
      SplitCommaSeparated(items[1..], " ");
      CommaPiece(rest);
      assert first + "" == first;
      assert Spaced(items[1..]) == [" " + items[1]] + Spaced(items[1..][1..]);
    }
  }

  lemma PlainStrips(s: string)
    requires Plain(s)
    ensures Trim(s) == s && Trim([' '] + s) == s && StripInlineQuotes(s) == s && s != ""
  {
    hide Trim, ParseString;
    PlainIsTrimmed(s);
    TrimIsTrimmed(s);
    assert ([' '] + s)[1..] == s;
    TrimAfterBlank([' '] + s, s);
  }

  lemma {:induction false} StripSpaced(items: seq<string>)
    requires forall i :: 0 <= i < |items| ==> Plain(items[i])
    ensures StripEach(Spaced(items)) == items && !HasBlank(Spaced(items))
  {
    hide Trim, StripInlineQuotes, Plain;
    if items != [] {
      PlainStrips(items[0]);
      StripSpaced(items[1..]);
      var spaced := Spaced(items);
      assert spaced[0] == [' '] + items[0] && spaced[1..] == Spaced(items[1..]);
      assert forall i :: 0 < i < |spaced| ==> spaced[i] == Spaced(items[1..])[i - 1];
    }
  }

  lemma {:induction false} KindNamesPlain(kinds: seq<TaskKind>)
    ensures |KindNames(kinds)| == |kinds|
    ensures forall i :: 0 <= i < |kinds| ==> KindNames(kinds)[i] == KindName(kinds[i]) && Plain(KindNames(kinds)[i])
  {
    if kinds != [] {
      KindNamesPlain(kinds[1..]);
      KindNameIsPlain(kinds[0]);
    }
  }

  function Names(kinds: set<TaskKind>): set<string> {
    set k | k in kinds :: KindName(k)
  }

  lemma NamesInjective(k: TaskKind, kinds: set<TaskKind>)
    ensures KindName(k) in Names(kinds) <==> k in kinds
  {
  }

  lemma NamesGrow(k: TaskKind, kinds: set<TaskKind>)
    ensures Names(kinds + {k}) == Names(kinds) + {KindName(k)}
  {
  }

  lemma {:induction false} CleanedKindNames(kinds: seq<TaskKind>, seen: set<TaskKind>)
    ensures Cleaned(KindNames(kinds), Names(seen)) == KindNames(DistinctKinds(kinds, seen))
  {
    hide Trim, KindName, StripInlineQuotes, Plain, Names;
    if kinds != [] {
      var k := kinds[0];
      KindNameIsPlain(k);
      PlainStrips(KindName(k));
      NamesInjective(k, seen);
      assert KindNames(kinds)[1..] == KindNames(kinds[1..]);
      if k in seen {
        CleanedKindNames(kinds[1..], seen);
      } else {
        CleanedKindNames(kinds[1..], seen + {k});
        NamesGrow(k, seen);
        assert DistinctKinds(kinds, seen)[1..] == DistinctKinds(kinds[1..], seen + {k});
      }
    }
  }

  lemma {:induction false} KindsOfNames(kinds: seq<TaskKind>, line: nat)
    ensures KindsOf(KindNames(kinds), line) == Ok(kinds)
  {
    if kinds != [] {
      KindNameIsPlain(kinds[0]);
      KindsOfNames(kinds[1..], line);
      assert [kinds[0]] + kinds[1..] == kinds;
    }
  }

  lemma CommaSeparatedStarts(items: seq<string>)
    requires items != [] && items[0] != ""
    ensures CommaSeparated(items) != "" && CommaSeparated(items)[0] == items[0][0]
  {
  }

  /** The list of names is no JSON array, so the lenient reading applies. */
  lemma NamesAreNotJson(kinds: seq<TaskKind>)
    requires kinds != []
    ensures ParseStringArray(['['] + CommaSeparated(KindNames(kinds)) + [']']) == None
  {
    KindNamesPlain(kinds);
    var body := CommaSeparated(KindNames(kinds)) + [']'];
    var s := ['['] + CommaSeparated(KindNames(kinds)) + [']'];
    hide KindName, KindNames, CommaSeparated, StringBody;
    CommaSeparatedStarts(KindNames(kinds));
    assert s[1..] == body;
    assert body[0] == KindName(kinds[0])[0] && IsNameCharacter(body[0]);
  }

  lemma BracketedIsTrimmed(inner: string)
    ensures Trimmed(['['] + inner + [']']) && Trim(['['] + inner + [']']) == ['['] + inner + [']']
  {
  }

  /** The written kinds read back as their first appearances. */
  lemma KindListReadsBack(kinds: seq<TaskKind>, line: nat)
    requires kinds != []
    ensures KindList(['['] + CommaSeparated(KindNames(kinds)) + [']'], line) == Ok(DistinctKinds(kinds, {}))
  {
    hide Pieces, ScanEnd, StripInlineQuotes, ParseStringArray, Trim, Cleaned, KindsOf;
    var names := KindNames(kinds);
    var inner := CommaSeparated(names);
    var s := ['['] + inner + [']'];
    NamesAreNotJson(kinds);
    BracketedIsTrimmed(inner);
    KindNamesPlain(kinds);
    assert s[1..|s| - 1] == inner;
    assert "" + inner == inner && "" + names[0] == names[0];
    SplitCommaSeparated(names, "");
    var items := [names[0]] + Spaced(names[1..]);
    StripNames(names);
    assert Names({}) == {};
    CleanedKindNames(kinds, {});
    KindsOfNames(DistinctKinds(kinds, {}), line);
    InnerNotBlank(names);
  }

  lemma InnerNotBlank(names: seq<string>)
    requires names != [] && forall i :: 0 <= i < |names| ==> Plain(names[i])
    ensures Trim(CommaSeparated(names)) != ""
  {
    var inner := CommaSeparated(names);
    PlainIsTrimmed(names[0]);
    assert inner[0] == names[0][0] && !IsWhite(inner[0]);
    var t := TrimStart(inner);
    assert t == inner;
    TrimEndKeepsFirst(inner);
  }

  lemma {:induction false} TrimEndKeepsFirst(s: string)
    requires s != "" && !IsWhite(s[0])
    ensures TrimEnd(s) != ""
    decreases |s|
  {
    if IsWhite(s[|s| - 1]) {
      TrimEndKeepsFirst(s[..|s| - 1]);
    }
  }

  lemma StripNames(names: seq<string>)
    requires names != [] && forall i :: 0 <= i < |names| ==> Plain(names[i])
    ensures StripEach([names[0]] + Spaced(names[1..])) == names
    ensures !HasBlank([names[0]] + Spaced(names[1..]))
  {
    hide Trim, StripInlineQuotes, Plain;
    var items := [names[0]] + Spaced(names[1..]);
    PlainStrips(names[0]);
    StripSpaced(names[1..]);
    assert items[1..] == Spaced(names[1..]);
    assert forall i :: 0 < i < |items| ==> items[i] == Spaced(names[1..])[i - 1];
  }

  // ----- one field

  /** Field `key` of `r` set to that of `role`, kinds without repetitions; no limit leaves the limit alone. */
  function CopyField(r: AgentRole, role: AgentRole, key: Key): AgentRole {
    match key
    case Id => r.(id := role.id)
    case DisplayName => r.(displayName := role.displayName)
    case Description => r.(description := role.description)
    case SupportedKinds => r.(supportedKinds := DistinctKinds(role.supportedKinds, {}))
    case ParallelismLimit => if role.parallelismLimit.None? then r else r.(parallelismLimit := role.parallelismLimit)
    case CoordinatorMode => r.(coordinatorMode := role.coordinatorMode)
    case Version => r.(version := role.version)
    case RoleRevision => r.(roleRevision := role.roleRevision)
    case Role => r.(role := role.role)
    case Focus => r.(focus := role.focus)
    case Constraints => r.(constraints := role.constraints)
    case OutputPreferences => r.(outputPreferences := role.outputPreferences)
    case Ownerships => r.(ownerships := role.ownerships)
    case InsightPreferences => r.(insightPreferences := role.insightPreferences)
    case Capabilities => r.(capabilities := role.capabilities)
    case ColorToken => r.(colorToken := role.colorToken)
    case Icon => r.(icon := role.icon)
  }

  lemma QuotedReadsBack(s: string)
    ensures StripInlineQuotes(Quote(s)) == s
    ensures Trimmed(Quote(s)) && OneLine(Quote(s)) && Quote(s) != ""
  {
    ParseQuoted(s);
    EscapedOneLine(s);
    var q := Quote(s);
    assert |q| >= 2 && q[0] == '"' && q[|q| - 1] == '"';
    assert forall i :: 0 < i < |q| - 1 ==> q[i] == Escaped(s)[i - 1];
  }

  lemma {:induction false} QuotedItemsOneLine(values: seq<string>)
    ensures '\n' !in QuotedItems(values)
  {
    if values != [] {
      QuotedReadsBack(values[0]);
      if |values| > 1 {
        QuotedItemsOneLine(values[1..]);
      }
    }
  }

  lemma QuotedListReadsBack(values: seq<string>, line: nat)
    requires Clean(values)
    ensures StringList(QuotedList(values), line) == Ok(values)
    ensures Trimmed(QuotedList(values)) && OneLine(QuotedList(values)) && QuotedList(values) != ""
  {
    hide ParseStringArray, Cleaned, Trim;
    ParseQuotedList(values);
    CleanStaysClean(values, {});
    BracketedIsTrimmed(QuotedItems(values));
    QuotedItemsOneLine(values);
    assert OneLine(QuotedList(values)) by {
      var s := QuotedList(values);
      assert s[|s| - 1] == ']';
    }
  }

  /** An accepted id is plain text to the parser. */
  lemma IdReadsBack(id: string)
    requires ValidateRoleId(id) == None
    ensures StripInlineQuotes(id) == id && Trimmed(id) && OneLine(id) && id != ""
  {
  }

  lemma {:induction false} CommaSeparatedOneLine(items: seq<string>)
    requires forall i :: 0 <= i < |items| ==> OneLine(items[i])
    ensures '\n' !in CommaSeparated(items)
  {
    if |items| > 1 {
      CommaSeparatedOneLine(items[1..]);
    }
  }

  lemma KindTextShape(kinds: seq<TaskKind>)
    ensures var s := ['['] + CommaSeparated(KindNames(kinds)) + [']']; Trimmed(s) && OneLine(s) && s != ""
  {
  }

  /** What a role needs to read back: an accepted id, some kind, clean lists, and a trimmed prompt that is not
      empty. Its other texts and its numbers are arbitrary. */
  predicate Writable(role: AgentRole) {
    && ValidateRoleId(role.id) == None && role.supportedKinds != []
    && Trimmed(role.systemPrompt) && role.systemPrompt != ""
    && Clean(role.focus) && Clean(role.constraints) && Clean(role.outputPreferences)
    && Clean(role.ownerships) && Clean(role.insightPreferences) && Clean(role.capabilities)
  }

  /** What normalising and validating establish. */
  predicate Storable(role: AgentRole, known: set<string>) {
    Normal(role) && Validate(role, known) == None
  }

  lemma StorableIsWritable(role: AgentRole, known: set<string>)
    requires Storable(role, known)
    ensures Writable(role)
  {
    hide Trimmed, Clean, ValidateRoleId;
  }

  /** The text of every field is one trimmed, non-empty line, and reads back as the field. */
  lemma FieldReadsBack(role: AgentRole, key: Key, r: AgentRole, line: nat)
    requires Writable(role)
    ensures var s := FieldText(role, key); Trimmed(s) && OneLine(s) && s != ""
    ensures ApplyField(r, key, FieldText(role, key), line) == Ok(CopyField(r, role, key))
  {
    hide StringList, KindList, StripInlineQuotes, Quote, QuotedList, Decimal, ParseUnsigned, DistinctKinds, Clean;
    match key {
      case Id => IdReadsBack(role.id);
      case DisplayName => QuotedReadsBack(role.displayName);
      case Description => QuotedReadsBack(role.description);
      case SupportedKinds =>
        assert role.supportedKinds != [];
        KindTextShape(role.supportedKinds);
        KindListReadsBack(role.supportedKinds, line);
      case ParallelismLimit =>
        if role.parallelismLimit.Some? {
          DecimalParses(role.parallelismLimit.value, 0x1_0000_0000);
        }
      case CoordinatorMode =>
      case Version => DecimalParses(role.version, 0x1_0000_0000);
      case RoleRevision => DecimalParses(role.roleRevision, 0x1_0000_0000_0000_0000);
      case Role => QuotedReadsBack(role.role);
      case Focus => QuotedListReadsBack(role.focus, line);
      case Constraints => QuotedListReadsBack(role.constraints, line);
      case OutputPreferences => QuotedListReadsBack(role.outputPreferences, line);
      case Ownerships => QuotedListReadsBack(role.ownerships, line);
      case InsightPreferences => QuotedListReadsBack(role.insightPreferences, line);
      case Capabilities => QuotedListReadsBack(role.capabilities, line);
      case ColorToken => QuotedReadsBack(role.colorToken);
      case Icon => QuotedReadsBack(role.icon);
    }
  }

  // ----- one line

  lemma ListKeyReadsBack(key: Key)
    requires key.Focus? || key.Constraints? || key.OutputPreferences?
      || key.Ownerships? || key.InsightPreferences? || key.Capabilities?
    ensures KeyOf(KeyName(key)) == Some(key)
  {
  }

  lemma ScalarKeyReadsBack(key: Key)
    requires key.SupportedKinds? || key.ParallelismLimit? || key.CoordinatorMode? || key.Version? || key.RoleRevision?
    ensures KeyOf(KeyName(key)) == Some(key)
  {
  }

  lemma TextKeyReadsBack(key: Key)
    requires key.Id? || key.DisplayName? || key.Description? || key.Role? || key.ColorToken? || key.Icon?
    ensures KeyOf(KeyName(key)) == Some(key)
  {
  }

  lemma TextKeyShape(key: Key)
    requires key.Id? || key.DisplayName? || key.Description? || key.Role? || key.ColorToken? || key.Icon?
    ensures AllNameCharacters(KeyName(key)) && KeyName(key) != ""
  {
  }

  lemma ScalarKeyShape(key: Key)
    requires key.SupportedKinds? || key.ParallelismLimit? || key.CoordinatorMode? || key.Version? || key.RoleRevision?
    ensures AllNameCharacters(KeyName(key)) && KeyName(key) != ""
  {
  }

  lemma ListKeyShape(key: Key)
    requires key.Focus? || key.Constraints? || key.OutputPreferences?
      || key.Ownerships? || key.InsightPreferences? || key.Capabilities?
    ensures AllNameCharacters(KeyName(key)) && KeyName(key) != ""
  {
  }

  /** Every key is one plain word and is recognised by it. */
  lemma KeyNameReadsBack(key: Key)
    ensures KeyOf(KeyName(key)) == Some(key)
    ensures AllNameCharacters(KeyName(key)) && KeyName(key) != ""
  {
    hide KeyName, KeyOf, AllNameCharacters;
    if key.Focus? || key.Constraints? || key.OutputPreferences?
      || key.Ownerships? || key.InsightPreferences? || key.Capabilities?
    {
      ListKeyShape(key);
      ListKeyReadsBack(key);
    } else if key.SupportedKinds? || key.ParallelismLimit? || key.CoordinatorMode? || key.Version? || key.RoleRevision? {
      ScalarKeyShape(key);
      ScalarKeyReadsBack(key);
    } else {
      TextKeyShape(key);
      TextKeyReadsBack(key);
    }
  }

  /** A name, a colon, a blank and a text fall apart into the name and the text. */
  lemma FieldFallsApart(name: string, value: string)
    requires AllNameCharacters(name) && name != "" && Trimmed(value) && OneLine(value) && value != ""
    ensures var line := name + ": " + value;
      && line != "" && IsNameCharacter(line[0]) && Trim(line) == line && OneLine(line)
      && SplitOnce(line, ':') == Some((name, [' '] + value))
    ensures Trim(name) == name && Trim([' '] + value) == value
  {
    hide Trim, IndexOf, TrimStart, TrimEnd;
    var line := name + ": " + value;
    assert line[0] == name[0] && line[|line| - 1] == value[|value| - 1];
    assert line[..|name|] == name && line[|name|] == ':' && line[|name| + 1..] == [' '] + value;
    forall j | 0 <= j < |name| ensures line[j] != ':' && line[j] != '\n' {
      assert line[j] == name[j];
    }
    IndexOfIs(line, ':', |name|);
    TrimIsTrimmed(line);
    TrimIsTrimmed(name);
    assert ([' '] + value)[1..] == value;
    TrimAfterBlank([' '] + value, value);
  }

  lemma LineReadsBack(role: AgentRole, key: Key, r: AgentRole, number: nat)
    requires Writable(role)
    ensures ApplyLine(r, FieldLine(role, key), number) == Ok(CopyField(r, role, key))
    ensures OneLine(FieldLine(role, key)) && FieldLine(role, key) != "" && FieldLine(role, key)[0] != '-'
  {
    hide FieldText, ApplyField, CopyField, KeyName, KeyOf, Writable, Trim;
    hide SplitOnce, Trimmed, OneLine, AllNameCharacters;
    FieldReadsBack(role, key, r, number);
    KeyNameReadsBack(key);
    FieldFallsApart(KeyName(key), FieldText(role, key));
  }

  // ----- the whole front matter

  function CopyAll(r: AgentRole, role: AgentRole, keys: seq<Key>): AgentRole
    decreases |keys|
  {
    if keys == [] then r else CopyAll(CopyField(r, role, keys[0]), role, keys[1..])
  }

  lemma {:induction false} LinesReadBack(role: AgentRole, keys: seq<Key>, r: AgentRole, number: nat)
    requires Writable(role)
    ensures ApplyLines(r, FieldLines(role, keys), number) == Ok(CopyAll(r, role, keys))
    decreases |keys|
  {
    hide ApplyLine, FieldLine, Writable;
    if keys != [] {
      LineReadsBack(role, keys[0], r, number);
      LinesReadBack(role, keys[1..], CopyField(r, role, keys[0]), number + 1);
    }
  }

  predicate SameField(a: AgentRole, b: AgentRole, key: Key) {
    match key
    case Id => a.id == b.id
    case DisplayName => a.displayName == b.displayName
    case Description => a.description == b.description
    case SupportedKinds => a.supportedKinds == b.supportedKinds
    case ParallelismLimit => a.parallelismLimit == b.parallelismLimit
    case CoordinatorMode => a.coordinatorMode == b.coordinatorMode
    case Version => a.version == b.version
    case RoleRevision => a.roleRevision == b.roleRevision
    case Role => a.role == b.role
    case Focus => a.focus == b.focus
    case Constraints => a.constraints == b.constraints
    case OutputPreferences => a.outputPreferences == b.outputPreferences
    case Ownerships => a.ownerships == b.ownerships
    case InsightPreferences => a.insightPreferences == b.insightPreferences
    case Capabilities => a.capabilities == b.capabilities
    case ColorToken => a.colorToken == b.colorToken
    case Icon => a.icon == b.icon
  }

  /** Copying one field sets that field and no other. */
  lemma CopyFieldSets(r: AgentRole, role: AgentRole, key: Key)
    requires role.parallelismLimit.None? ==> r.parallelismLimit.None?
    ensures role.parallelismLimit.None? ==> CopyField(r, role, key).parallelismLimit.None?
    ensures SameField(CopyField(r, role, key), role.(supportedKinds := DistinctKinds(role.supportedKinds, {})), key)
    ensures CopyField(r, role, key).systemPrompt == r.systemPrompt
  {
  }

  lemma CopyFieldKeeps(r: AgentRole, role: AgentRole, key: Key, other: Key)
    requires key != other
    ensures SameField(CopyField(r, role, key), r, other)
  {
  }

  lemma SameFieldTransitive(a: AgentRole, b: AgentRole, c: AgentRole, key: Key)
    requires SameField(a, b, key) && SameField(b, c, key)
    ensures SameField(a, c, key)
  {
  }

  lemma {:induction false} CopyAllFields(r: AgentRole, role: AgentRole, keys: seq<Key>, key: Key)
    requires role.parallelismLimit.None? ==> r.parallelismLimit.None?
    ensures key in keys ==>
      SameField(CopyAll(r, role, keys), role.(supportedKinds := DistinctKinds(role.supportedKinds, {})), key)
    ensures key !in keys ==> SameField(CopyAll(r, role, keys), r, key)
    ensures CopyAll(r, role, keys).systemPrompt == r.systemPrompt
    decreases |keys|
  {
    hide DistinctKinds, SameField, CopyField;
    if keys == [] {
      SameFieldReflexive(r, key);
    } else {
      var next := CopyField(r, role, keys[0]);
      CopyFieldSets(r, role, keys[0]);
      CopyAllFields(next, role, keys[1..], key);
      if key !in keys[1..] {
        if key == keys[0] {
          SameFieldTransitive(CopyAll(r, role, keys), next,
                              role.(supportedKinds := DistinctKinds(role.supportedKinds, {})), key);
        } else {
          CopyFieldKeeps(r, role, keys[0], key);
          SameFieldTransitive(CopyAll(r, role, keys), next, r, key);
        }
      }
    }
  }

  lemma SameFieldReflexive(r: AgentRole, key: Key)
    ensures SameField(r, r, key)
  {
  }

  /** What a written role reads back as: kinds without repetitions, and the default revision unless written. */
  function ReadBack(role: AgentRole, withRevision: bool): AgentRole {
    role.(supportedKinds := DistinctKinds(role.supportedKinds, {}),
          roleRevision := if withRevision then role.roleRevision else 1)
  }

  lemma FieldCopied(role: AgentRole, withRevision: bool, key: Key)
    ensures SameField(CopyAll(StartRole(), role, WrittenKeys(withRevision)), ReadBack(role, withRevision), key)
    ensures CopyAll(StartRole(), role, WrittenKeys(withRevision)).systemPrompt == ""
  {
    hide CopyAll, DistinctKinds, WrittenKeys;
    WrittenKeysAre(withRevision, key);
    CopyAllFields(StartRole(), role, WrittenKeys(withRevision), key);
  }

  lemma AllFieldsCopied(role: AgentRole, withRevision: bool)
    ensures CopyAll(StartRole(), role, WrittenKeys(withRevision)) == ReadBack(role, withRevision).(systemPrompt := "")
  {
    hide CopyAll, DistinctKinds, WrittenKeys, ReadBack, StartRole;
    FieldCopied(role, withRevision, Id);
    FieldCopied(role, withRevision, DisplayName);
    FieldCopied(role, withRevision, Description);
    FieldCopied(role, withRevision, SupportedKinds);
    FieldCopied(role, withRevision, ParallelismLimit);
    FieldCopied(role, withRevision, CoordinatorMode);
    FieldCopied(role, withRevision, Version);
    FieldCopied(role, withRevision, RoleRevision);
    FieldCopied(role, withRevision, Role);
    FieldCopied(role, withRevision, Focus);
    FieldCopied(role, withRevision, Constraints);
    FieldCopied(role, withRevision, OutputPreferences);
    FieldCopied(role, withRevision, Ownerships);
    FieldCopied(role, withRevision, InsightPreferences);
    FieldCopied(role, withRevision, Capabilities);
    FieldCopied(role, withRevision, ColorToken);
    FieldCopied(role, withRevision, Icon);
  }

  lemma WrittenKeysAre(withRevision: bool, k: Key)
    ensures k in WrittenKeys(withRevision) <==> (k == RoleRevision ==> withRevision)
  {
  }

  // ----- the whole file

  /** No line of the front matter starts like a delimiter. */
  lemma {:induction false} NoDelimiterInside(lines: seq<string>, q: nat)
    requires forall i :: 0 <= i < |lines| ==> lines[i] != "" && OneLine(lines[i]) && lines[i][0] != '-'
    requires q < |Terminated(lines)| && (q == 0 || Terminated(lines)[q - 1] == '\n')
    ensures Terminated(lines)[q] != '-'
  {
    var t := Terminated(lines);
    var n := |lines[0]|;
    assert t[0] == lines[0][0];
    if q > n {
      assert t[n + 1..] == Terminated(lines[1..]);
      assert t[q] == Terminated(lines[1..])[q - n - 1];
      NoDelimiterInside(lines[1..], q - n - 1);
    }
  }

  lemma {:induction false} TerminatedEndsLine(lines: seq<string>)
    ensures Terminated(lines) == "" || Terminated(lines)[|Terminated(lines)| - 1] == '\n'
  {
    if lines != [] {
      TerminatedEndsLine(lines[1..]);
    }
  }

  /** The delimiter that was written is the one that is found. */
  lemma WrittenDelimiterFound(lines: seq<string>, tail: string)
    requires forall i :: 0 <= i < |lines| ==> lines[i] != "" && OneLine(lines[i]) && lines[i][0] != '-'
    ensures var h := Terminated(lines);
      FirstDelimiter(h + "---\n" + tail, 0) == Some((|h|, |h| + 4))
  {
    var h := Terminated(lines);
    var s := h + "---\n" + tail;
    TerminatedEndsLine(lines);
    assert s[|h|..|h| + 3] == "---";
    assert DelimiterAt(s, |h|);
    var r := FirstDelimiter(s, 0);
    var q := r.value.0;
    if q < |h| {
      assert h[q] == s[q] == s[q..q + 3][0];
      assert "---"[0] == '-';
      assert q > 0 ==> h[q - 1] == s[q - 1];
      NoDelimiterInside(lines, q);
      assert false;
    }
  }

  lemma {:induction false} FieldLinesShape(role: AgentRole, keys: seq<Key>)
    requires Writable(role)
    ensures forall i :: 0 <= i < |FieldLines(role, keys)| ==>
      var line := FieldLines(role, keys)[i]; line != "" && OneLine(line) && line[0] != '-'
  {
    hide FieldLine, Writable;
    if keys != [] {
      LineReadsBack(role, keys[0], StartRole(), 0);
      FieldLinesShape(role, keys[1..]);
    }
  }

  lemma PromptReadsBack(prompt: string)
    requires Trimmed(prompt) && prompt != ""
    ensures TrimEnd(TrimStartNewlines(Trim(prompt) + "\n")) == prompt
  {
  }

  lemma OpeningReadsBack(rest: string)
    ensures AfterOpen("---\n" + rest) == Some(rest)
  {
  }

  /** Every writable role reads back, with its kinds freed of repetitions. */
  lemma WrittenRoleReadsBack(role: AgentRole, withRevision: bool)
    requires Writable(role)
    ensures ParseRole(SerializeRole(role, withRevision)) == Ok(ReadBack(role, withRevision))
  {
    hide FieldLines, WrittenKeys, ApplyLines, AfterOpen, Lines, Terminated, TrimEnd, TrimStartNewlines, Trim;
    hide ValidateRoleId, FirstDelimiter, DistinctKinds, CopyAll, Distinct, Clean;
    var lines := FieldLines(role, WrittenKeys(withRevision));
    var h := Terminated(lines);
    var prompt := Trim(role.systemPrompt) + "\n";
    var rest := h + "---\n" + prompt;
    assert SerializeRole(role, withRevision) == "---\n" + rest;
    OpeningReadsBack(rest);
    FieldLinesShape(role, WrittenKeys(withRevision));
    WrittenDelimiterFound(lines, prompt);
    assert rest[..|h|] == h && rest[|h| + 4..] == prompt;
    LinesOfTerminated(lines);
    LinesReadBack(role, WrittenKeys(withRevision), StartRole(), 1);
    AllFieldsCopied(role, withRevision);
    PromptReadsBack(role.systemPrompt);
  }

  /** The storage form gives the role back exactly when no kind is repeated. */
  lemma StorageRoundTripIff(role: AgentRole)
    requires Writable(role)
    ensures ParseRole(SerializeRole(role, true)) == Ok(role) <==> Distinct(role.supportedKinds)
  {
    hide ParseRole, SerializeRole, Writable;
    WrittenRoleReadsBack(role, true);
    DistinctKindsIff(role.supportedKinds, {});
    assert ReadBack(role, true).supportedKinds == DistinctKinds(role.supportedKinds, {});
  }

  /** The export form gives the role back with revision 1 exactly when no kind is repeated. */
  lemma ExportRoundTripIff(role: AgentRole)
    requires Writable(role)
    ensures ParseRole(SerializeRole(role, false)) == Ok(role.(roleRevision := 1)) <==> Distinct(role.supportedKinds)
  {
    hide ParseRole, SerializeRole, Writable;
    WrittenRoleReadsBack(role, false);
    DistinctKindsIff(role.supportedKinds, {});
    assert ReadBack(role, false).supportedKinds == DistinctKinds(role.supportedKinds, {});
  }

  /** A storable role whose repeated kind does not survive being written. */
  lemma RepeatedKindIsLost() returns (role: AgentRole)
    ensures Storable(role, {"c"}) && ParseRole(SerializeRole(role, true)) != Ok(role)
  {
    role := AgentRole("a", "p", "a", "", [LocalAgent, LocalAgent], None, false, 1, 1, "a",
                      [], [], [], [], [], ["c"], "t", "i");
    assert Storable(role, {"c"});
    assert role.supportedKinds[0] == role.supportedKinds[1];
    StorableIsWritable(role, {"c"});
    StorageRoundTripIff(role);
  }
}
