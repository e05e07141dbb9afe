/** Reading and writing whole role files. */
module RoleParser {
  import opened Options
  import opened Text
  import opened Json
  import opened RoleMarkdown

  // ----- the closing delimiter

  predicate DashesAt(s: string, p: int) {
    0 <= p && p + 3 <= |s| && s[p..p + 3] == "---"
  }

  /** A line that is `---` and nothing else starts at `p`. */
  predicate DelimiterAt(s: string, p: int) {
    && DashesAt(s, p)
    && (p == 0 || s[p - 1] == '\n')
    && (|| p + 3 == |s|
        || s[p + 3] == '\n'
        || (s[p + 3] == '\r' && p + 4 < |s| && s[p + 4] == '\n'))
  }

  function DelimiterEnd(s: string, p: int): (e: int)
    requires DelimiterAt(s, p)
    ensures p + 3 <= e <= |s|
  {
    if p + 3 == |s| then p + 3 else if s[p + 3] == '\n' then p + 4 else p + 5
  }

  /** The first delimiter at `from` or later. */
  function FirstDelimiter(s: string, from: nat): (r: Option<(int, int)>)
    ensures r.Some? ==> from <= r.value.0 && DelimiterAt(s, r.value.0) && r.value.1 == DelimiterEnd(s, r.value.0)
    ensures forall q :: from <= q && DelimiterAt(s, q) ==> r.Some? && r.value.0 <= q
    decreases |s| - from
  {
    if from + 3 > |s| then None
    else if DelimiterAt(s, from) then Some((from, DelimiterEnd(s, from)))
    else FirstDelimiter(s, from + 1)
  }

  /** The first `---` at `from` or later. */
  function FindDashes(s: string, from: nat): (r: Option<nat>)
    ensures r.Some? ==> from <= r.value && DashesAt(s, r.value)
    ensures forall q :: from <= q && DashesAt(s, q) ==> r.Some? && r.value <= q
    decreases |s| - from
  {
    if from + 3 > |s| then None
    else if DashesAt(s, from) then Some(from)
    else FindDashes(s, from + 1)
  }

  /** Searching on three characters after each rejected `---` skips no delimiter. */
  method FindCloseDelimiter(afterOpen: string) returns (r: Option<(int, int)>)
    ensures r == FirstDelimiter(afterOpen, 0)
  {
    var searchFrom := 0;
    while true
      invariant 0 <= searchFrom <= |afterOpen|
      invariant forall q :: 0 <= q < searchFrom ==> !DelimiterAt(afterOpen, q)
      decreases |afterOpen| - searchFrom
    {
      var found := FindDashes(afterOpen, searchFrom);
      if found == None {
        return None;
      }
      var abs := found.value;
      var startsAtLine := abs == 0 || afterOpen[abs - 1] == '\n';
      if startsAtLine {
        var after := abs + 3;
        var lineEndOk :=
          || after == |afterOpen|
          || afterOpen[after] == '\n'
          || (afterOpen[after] == '\r' && after + 1 < |afterOpen| && afterOpen[after + 1] == '\n');
        if lineEndOk {
          assert DelimiterAt(afterOpen, abs);
          return Some((
            abs, if after == |afterOpen| then after else if afterOpen[after] == '\n' then after + 1 else after + 2));
        }
      }
      forall q | searchFrom <= q < abs + 3 ensures !DelimiterAt(afterOpen, q) {
        if q > abs {
          assert afterOpen[q - 1] == afterOpen[abs..abs + 3][q - 1 - abs] == '-';
        }
      }
      searchFrom := abs + 3;
    }
  }

  // ----- one line

  function StartRole(): AgentRole {
    AgentRole("", "", "", "", [], None, false, 1, 1, "", [], [], [], [], [], [], "", "")
  }

  function WithList(list: Result<seq<string>>, put: seq<string> -> AgentRole): Result<AgentRole> {
    match list
    case Err(e) => Err(e)
    case Ok(values) => Ok(put(values))
  }

  /** Sets one field from its text. */
  function ApplyField(r: AgentRole, key: Key, value: string, line: nat): Result<AgentRole> {
    match key
    case Id => Ok(r.(id := StripInlineQuotes(value)))
    case DisplayName => Ok(r.(displayName := StripInlineQuotes(value)))
    case Description => Ok(r.(description := StripInlineQuotes(value)))
    case SupportedKinds =>
      (match KindList(value, line)
       case Err(e) => Err(e)
       case Ok(kinds) => Ok(r.(supportedKinds := kinds)))
    case ParallelismLimit =>
      if value == "null" then Ok(r)
      else
        (match ParseUnsigned(value, 0x1_0000_0000)
         case None => Err(NotANumber(line))
         case Some(n) => Ok(r.(parallelismLimit := Some(n))))
    case CoordinatorMode =>
      if value == "true" then Ok(r.(coordinatorMode := true))
      else if value == "false" then Ok(r.(coordinatorMode := false))
      else Err(NotABool(line))
    case Version =>
      (match ParseUnsigned(value, 0x1_0000_0000)
       case None => Err(NotANumber(line))
       case Some(n) => Ok(r.(version := n)))
    case RoleRevision =>
      (match ParseUnsigned(value, 0x1_0000_0000_0000_0000)
       case None => Err(NotANumber(line))
       case Some(n) => Ok(r.(roleRevision := n)))
    case Role => Ok(r.(role := StripInlineQuotes(value)))
    case Focus => WithList(StringList(value, line), values => r.(focus := values))
    case Constraints => WithList(StringList(value, line), values => r.(constraints := values))
    case OutputPreferences => WithList(StringList(value, line), values => r.(outputPreferences := values))
    case Ownerships => WithList(StringList(value, line), values => r.(ownerships := values))
    case InsightPreferences => WithList(StringList(value, line), values => r.(insightPreferences := values))
    case Capabilities => WithList(StringList(value, line), values => r.(capabilities := values))
    case ColorToken => Ok(r.(colorToken := StripInlineQuotes(value)))
    case Icon => Ok(r.(icon := StripInlineQuotes(value)))
  }

  /** One line of the front matter; blank lines and lines that start with a hash are skipped. */
  function ApplyLine(r: AgentRole, line: string, number: nat): Result<AgentRole> {
    var trimmed := Trim(line);
    if trimmed == "" || trimmed[0] == '#' then Ok(r)
    else
      match SplitOnce(trimmed, ':')
      case None => Err(NotKeyValue(number))
      case Some((name, value)) =>
        match KeyOf(Trim(name))
        case None => Err(UnknownField(number))
        case Some(key) => ApplyField(r, key, Trim(value), number)
  }

  function ApplyLines(r: AgentRole, lines: seq<string>, number: nat): Result<AgentRole>
    decreases |lines|
  {
    if lines == [] then Ok(r)
    else
      match ApplyLine(r, lines[0], number)
      case Err(e) => Err(e)
      case Ok(next) => ApplyLines(next, lines[1..], number + 1)
  }

  // ----- the whole file

  const BOM := '\U{FEFF}'

  function DropBoms(s: string): string {
    if s != "" && s[0] == BOM then DropBoms(s[1..]) else s
  }

  function AfterOpen(raw: string): Option<string> {
    var t := TrimStart(DropBoms(raw));
    if "---\n" <= t then Some(t[4..])
    else if "---\r\n" <= t then Some(t[5..])
    else None
  }

  function ParseRole(raw: string): Result<AgentRole> {
    match AfterOpen(raw)
    case None => Err(MissingOpen)
    case Some(afterOpen) =>
      match FirstDelimiter(afterOpen, 0)
      case None => Err(MissingClose)
      case Some((start, end)) =>
        match ApplyLines(StartRole(), Lines(afterOpen[..start]), 1)
        case Err(e) => Err(e)
        case Ok(r) =>
          var prompt := TrimEnd(TrimStartNewlines(afterOpen[end..]));
          if prompt == "" then Err(EmptyBody) else Ok(r.(systemPrompt := prompt))
  }

  /** The parser itself: finds the delimiter, then reads the header line by line. */
  method ParseRoleMarkdown(raw: string) returns (r: Result<AgentRole>)
    ensures r == ParseRole(raw)
  {
    hide ApplyLine, Lines, TrimStartNewlines, TrimEnd, AfterOpen;
    var afterOpen := AfterOpen(raw);
    if afterOpen == None {
      return Err(MissingOpen);
    }
    var close := FindCloseDelimiter(afterOpen.value);
    if close == None {
      return Err(MissingClose);
    }
    var header := afterOpen.value[..close.value.0];
    var body := TrimStartNewlines(afterOpen.value[close.value.1..]);
    var role := StartRole();
    var lines := Lines(header);
    var lineno := 0;
    while lineno < |lines|
      invariant 0 <= lineno <= |lines|
      invariant ApplyLines(StartRole(), lines, 1) == ApplyLines(role, lines[lineno..], lineno + 1)
    {
      assert lines[lineno..][0] == lines[lineno] && lines[lineno..][1..] == lines[lineno + 1..];
      var next := ApplyLine(role, lines[lineno], lineno + 1);
      if next.Err? {
        return next;
      }
      role := next.value;
      lineno := lineno + 1;
    }
    var prompt := TrimEnd(body);
    if prompt == "" {
      return Err(EmptyBody);
    }
    return Ok(role.(systemPrompt := prompt));
  }

  /** A line the parser takes: blank, a comment, or the name of a field up to the first colon and a value. */
  ghost predicate Readable(line: string) {
    var t := Trim(line);
    || t == "" || t[0] == '#'
    || exists key: Key, i: nat :: NamesField(t, key, i)
  }

  predicate NamesField(t: string, key: Key, i: nat) {
    i < |t| && t[i] == ':' && (forall j :: 0 <= j < i ==> t[j] != ':') && KeyOf(Trim(t[..i])) == Some(key)
    && (key.CoordinatorMode? ==> Trim(t[i + 1..]) == "true" || Trim(t[i + 1..]) == "false")
  }

  lemma AcceptedLine(r: AgentRole, line: string, number: nat)
    requires ApplyLine(r, line, number).Ok?
    ensures Readable(line)
  {
    hide Trim, KeyOf, StringList, KindList, StripInlineQuotes, ParseUnsigned;
    var t := Trim(line);
    if t != "" && t[0] != '#' {
      var i := IndexOf(t, ':');
      assert NamesField(t, KeyOf(Trim(t[..i])).value, i);
    }
  }

  lemma {:induction false} AcceptedLines(r: AgentRole, lines: seq<string>, number: nat)
    requires ApplyLines(r, lines, number).Ok?
    ensures forall k :: 0 <= k < |lines| ==> Readable(lines[k])
    decreases |lines|
  {
    hide ApplyLine, Readable;
    if lines != [] {
      AcceptedLine(r, lines[0], number);
      AcceptedLines(ApplyLine(r, lines[0], number).value, lines[1..], number + 1);
    }
  }

  /** A file that is read has both delimiter lines, a header of readable lines only, and a prompt. */
  lemma AcceptedFile(raw: string) returns (afterOpen: string, start: int, end: int)
    requires ParseRole(raw).Ok?
    ensures AfterOpen(raw) == Some(afterOpen) && DelimiterAt(afterOpen, start) && end == DelimiterEnd(afterOpen, start)
    ensures forall q :: 0 <= q < start ==> !DelimiterAt(afterOpen, q)
    ensures forall k :: 0 <= k < |Lines(afterOpen[..start])| ==> Readable(Lines(afterOpen[..start])[k])
    ensures ParseRole(raw).value.systemPrompt == TrimEnd(TrimStartNewlines(afterOpen[end..])) != ""
  {
    hide AfterOpen, Lines, TrimEnd, TrimStartNewlines, ApplyLines, Readable, DelimiterAt, DelimiterEnd;
    afterOpen := AfterOpen(raw).value;
    var close := FirstDelimiter(afterOpen, 0).value;
    start, end := close.0, close.1;
    AcceptedLines(StartRole(), Lines(afterOpen[..start]), 1);
  }

  lemma ListAnywhere(text: string, a: nat, b: nat)
    ensures StringList(text, a).Ok? ==> StringList(text, b) == StringList(text, a)
  {
    hide Trim, ParseStringArray, SplitItems, HasBlank, StripEach, Cleaned;
  }

  lemma {:induction false} KindsAnywhere(names: seq<string>, a: nat, b: nat)
    ensures KindsOf(names, a).Ok? ==> KindsOf(names, b) == KindsOf(names, a)
  {
    if names != [] {
      KindsAnywhere(names[1..], a, b);
    }
  }

  /** The number of a line matters to error reports only. */
  lemma LineAnywhere(r: AgentRole, line: string, a: nat, b: nat)
    ensures ApplyLine(r, line, a).Ok? ==> ApplyLine(r, line, b) == ApplyLine(r, line, a)
  {
    hide Trim, SplitOnce, KeyOf, StringList, KindsOf, StripInlineQuotes, ParseUnsigned;
    var parts := SplitOnce(Trim(line), ':');
    if parts.Some? {
      var value := Trim(parts.value.1);
      ListAnywhere(value, a, b);
      if StringList(value, a).Ok? {
        KindsAnywhere(StringList(value, a).value, a, b);
      }
    }
  }

  lemma {:induction false} LinesAnywhere(r: AgentRole, lines: seq<string>, a: nat, b: nat)
    ensures ApplyLines(r, lines, a).Ok? ==> ApplyLines(r, lines, b) == ApplyLines(r, lines, a)
    decreases |lines|
  {
    hide ApplyLine;
    if lines != [] {
      LineAnywhere(r, lines[0], a, b);
      if ApplyLine(r, lines[0], a).Ok? {
        LinesAnywhere(ApplyLine(r, lines[0], a).value, lines[1..], a + 1, b + 1);
      }
    }
  }

  predicate Skipped(line: string) {
    Trim(line) == "" || Trim(line)[0] == '#'
  }

  /** Blank lines and comments may stand anywhere in the header: what is read is the same without them. */
  lemma {:induction false} CommentsAreSkipped(r: AgentRole, before: seq<string>, line: string, after: seq<string>,
                                              number: nat, x: AgentRole)
    requires Skipped(line)
    ensures ApplyLines(r, before + [line] + after, number) == Ok(x) <==> ApplyLines(r, before + after, number) == Ok(x)
    decreases |before|
  {
    var all := before + [line] + after;
    if before == [] {
      assert all[0] == line && all[1..] == after && before + after == after;
      assert ApplyLine(r, line, number) == Ok(r);
      LinesAnywhere(r, after, number, number + 1);
      LinesAnywhere(r, after, number + 1, number);
    } else {
      assert all[0] == before[0] && all[1..] == before[1..] + [line] + after;
      assert (before + after)[0] == before[0] && (before + after)[1..] == before[1..] + after;
      hide ApplyLine, Skipped;
      if ApplyLine(r, before[0], number).Ok? {
        CommentsAreSkipped(ApplyLine(r, before[0], number).value, before[1..], line, after, number + 1, x);
      }
    }
  }

  /** Byte order marks in front make no difference. */
  lemma MarksAreSkipped(raw: string)
    ensures ParseRole([BOM] + raw) == ParseRole(raw)
  {
    assert ([BOM] + raw)[1..] == raw;
  }

  function KindNames(kinds: seq<TaskKind>): seq<string> {
    if kinds == [] then [] else [KindName(kinds[0])] + KindNames(kinds[1..])
  }

  function CommaSeparated(items: seq<string>): string {
    if items == [] then ""
    else if |items| == 1 then items[0]
    else items[0] + ", " + CommaSeparated(items[1..])
  }

  /** The text of one field. */
  function FieldText(role: AgentRole, key: Key): string {
    match key
    case Id => role.id
    case DisplayName => Quote(role.displayName)
    case Description => Quote(role.description)
    case SupportedKinds => ['['] + CommaSeparated(KindNames(role.supportedKinds)) + [']']
    case ParallelismLimit => if role.parallelismLimit.Some? then Decimal(role.parallelismLimit.value) else "null"
    case CoordinatorMode => if role.coordinatorMode then "true" else "false"
    case Version => Decimal(role.version)
    case RoleRevision => Decimal(role.roleRevision)
    case Role => Quote(role.role)
    case Focus => QuotedList(role.focus)
    case Constraints => QuotedList(role.constraints)
    case OutputPreferences => QuotedList(role.outputPreferences)
    case Ownerships => QuotedList(role.ownerships)
    case InsightPreferences => QuotedList(role.insightPreferences)
    case Capabilities => QuotedList(role.capabilities)
    case ColorToken => Quote(role.colorToken)
    case Icon => Quote(role.icon)
  }

  /** The keys in the order they are written; the export form leaves the revision out. */
  function WrittenKeys(withRevision: bool): seq<Key> {
    [Id, DisplayName, Description, SupportedKinds, ParallelismLimit, CoordinatorMode, Version]
    + (if withRevision then [RoleRevision] else [])
    + [Role, Focus, Constraints, OutputPreferences, Ownerships, InsightPreferences, Capabilities, ColorToken, Icon]
  }

  function FieldLine(role: AgentRole, key: Key): string {
    KeyName(key) + ": " + FieldText(role, key)
  }

  function FieldLines(role: AgentRole, keys: seq<Key>): seq<string> {
    if keys == [] then [] else [FieldLine(role, keys[0])] + FieldLines(role, keys[1..])
  }

  function SerializeRole(role: AgentRole, withRevision: bool): string {
    "---\n" + Terminated(FieldLines(role, WrittenKeys(withRevision))) + "---\n" + Trim(role.systemPrompt) + "\n"
  }
}
