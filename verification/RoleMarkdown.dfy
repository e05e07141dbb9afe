/** Role files: a front matter of `key: value` lines between `---` lines, then the prompt. This is what a value may
    look like: bare or quoted text, and lists, read as JSON first and else leniently, split at the commas outside
    quotes. Lists are cleaned as they are read: items are trimmed, blank ones and repetitions are dropped, and the
    names of task kinds are looked up. */
module RoleMarkdown {
  import opened Options
  import opened Text
  import opened Json

  type u32 = n: nat | n < 0x1_0000_0000
  type u64 = n: nat | n < 0x1_0000_0000_0000_0000

  datatype TaskKind = LocalAgent | RemoteAgent | MonitorMcp | InProcessTeammate | Dream

  datatype AgentRole = AgentRole(
    id: string, systemPrompt: string, displayName: string, description: string,
    supportedKinds: seq<TaskKind>, parallelismLimit: Option<u32>, coordinatorMode: bool,
    version: u32, roleRevision: u64, role: string,
    focus: seq<string>, constraints: seq<string>, outputPreferences: seq<string>,
    ownerships: seq<string>, insightPreferences: seq<string>, capabilities: seq<string>,
    colorToken: string, icon: string)

  datatype ParseError =
    | MissingOpen | MissingClose | NotKeyValue(line: nat) | UnknownField(line: nat)
    | NotANumber(line: nat) | NotABool(line: nat) | NotAList(line: nat)
    | OpenQuote(line: nat) | EmptyItem(line: nat) | UnknownKind(line: nat) | EmptyBody

  datatype Result<+T> = Ok(value: T) | Err(error: ParseError)

  function KindName(k: TaskKind): string {
    match k
    case LocalAgent => "local_agent"
    case RemoteAgent => "remote_agent"
    case MonitorMcp => "monitor_mcp"
    case InProcessTeammate => "in_process_teammate"
    case Dream => "dream"
  }

  function KindOf(name: string): Option<TaskKind> {
    if name == "local_agent" then Some(LocalAgent)
    else if name == "remote_agent" then Some(RemoteAgent)
    else if name == "monitor_mcp" then Some(MonitorMcp)
    else if name == "in_process_teammate" then Some(InProcessTeammate)
    else if name == "dream" then Some(Dream)
    else None
  }

  // ----- keys

  datatype Key =
    | Id | DisplayName | Description | SupportedKinds | ParallelismLimit | CoordinatorMode | Version
    | RoleRevision | Role | Focus | Constraints | OutputPreferences | Ownerships | InsightPreferences
    | Capabilities | ColorToken | Icon

  function KeyName(k: Key): string {
    match k
    case Id => "id"
    case DisplayName => "display_name"
    case Description => "description"
    case SupportedKinds => "supported_kinds"
    case ParallelismLimit => "parallelism_limit"
    case CoordinatorMode => "coordinator_mode"
    case Version => "version"
    case RoleRevision => "role_revision"
    case Role => "role"
    case Focus => "focus"
    case Constraints => "constraints"
    case OutputPreferences => "output_preferences"
    case Ownerships => "ownerships"
    case InsightPreferences => "insight_preferences"
    case Capabilities => "capabilities"
    case ColorToken => "color_token"
    case Icon => "icon"
  }

  function KeyOf(name: string): Option<Key> {
    if name == "id" then Some(Id)
    else if name == "display_name" then Some(DisplayName)
    else if name == "description" then Some(Description)
    else if name == "supported_kinds" then Some(SupportedKinds)
    else if name == "parallelism_limit" then Some(ParallelismLimit)
    else if name == "coordinator_mode" then Some(CoordinatorMode)
    else if name == "version" then Some(Version)
    else if name == "role_revision" then Some(RoleRevision)
    else if name == "role" then Some(Role)
    else if name == "focus" then Some(Focus)
    else if name == "constraints" then Some(Constraints)
    else if name == "output_preferences" then Some(OutputPreferences)
    else if name == "ownerships" then Some(Ownerships)
    else if name == "insight_preferences" then Some(InsightPreferences)
    else if name == "capabilities" then Some(Capabilities)
    else if name == "color_token" then Some(ColorToken)
    else if name == "icon" then Some(Icon)
    else None
  }

  // ----- values

  /** JSON when double-quoted (the bare inside when that fails), the bare inside when single-quoted. */
  function StripInlineQuotes(value: string): string {
    if |value| >= 2 && value[0] == '"' && value[|value| - 1] == '"' then
      match ParseString(value)
      case Some(text) => text
      case None => value[1..|value| - 1]
    else if |value| >= 2 && value[0] == '\'' && value[|value| - 1] == '\'' then value[1..|value| - 1]
    else value
  }

  /** Trimmed, without empty strings and repetitions, in order of first appearance. */
  function Cleaned(values: seq<string>, seen: set<string>): seq<string> {
    if values == [] then []
    else
      var v := Trim(values[0]);
      if v == "" || v in seen then Cleaned(values[1..], seen)
      else [v] + Cleaned(values[1..], seen + {v})
  }

  /** A list that cleaning leaves alone. */
  predicate Clean(values: seq<string>) {
    && (forall i :: 0 <= i < |values| ==> values[i] != "" && Trimmed(values[i]))
    && (forall i, j :: 0 <= i < j < |values| ==> values[i] != values[j])
  }

  lemma {:induction false} CleanedIsClean(values: seq<string>, seen: set<string>)
    ensures Clean(Cleaned(values, seen))
    ensures forall v :: v in Cleaned(values, seen) ==> v !in seen
  {
    if values != [] {
      var v := Trim(values[0]);
      TrimIsTrimmed(values[0]);
      if v == "" || v in seen {
        CleanedIsClean(values[1..], seen);
      } else {
        CleanedIsClean(values[1..], seen + {v});
        CleanGrows(v, Cleaned(values[1..], seen + {v}));
        hide Clean, Trim;
      }
    }
  }

  lemma CleanGrows(v: string, rest: seq<string>)
    requires Clean(rest) && v !in rest && v != "" && Trimmed(v)
    ensures Clean([v] + rest)
  {
    forall i | 0 <= i < |rest| ensures rest[i] != v {
      assert rest[i] in rest;
    }
  }

  lemma {:induction false} CleanStaysClean(values: seq<string>, seen: set<string>)
    requires Clean(values) && forall v :: v in values ==> v !in seen
    ensures Cleaned(values, seen) == values
  {
    if values != [] {
      var v := values[0];
      TrimIsTrimmed(v);
      assert v in values;
      var rest := values[1..];
      forall x | x in rest ensures x !in seen + {v} {
        var i :| 0 <= i < |rest| && rest[i] == x;
        assert values[i + 1] == x && values[0] != values[i + 1];
        assert x in values;
      }
      assert forall i :: 0 <= i < |rest| ==> rest[i] == values[i + 1];
      CleanStaysClean(rest, seen + {v});
    }
  }

  /** One pass that keeps the first appearances. */
  method CleanList(values: seq<string>) returns (kept: seq<string>)
    ensures kept == Cleaned(values, {})
  {
    var seen: set<string> := {};
    kept := [];
    var i := 0;
    while i < |values|
      invariant 0 <= i <= |values|
      invariant kept + Cleaned(values[i..], seen) == Cleaned(values, {})
    {
      var v := Trim(values[i]);
      if v != "" && v !in seen {
        seen := seen + {v};
        kept := kept + [v];
      }
      i := i + 1;
    }
  }

  /** Where a scan stands: inside which quote, and just after a backslash there or not. */
  datatype Scan = Scan(quote: Option<char>, escaped: bool) {
    /** A backslash escapes inside double quotes only. */
    function Next(c: char): Scan {
      match quote
      case None => Scan(if c == '"' || c == '\'' then Some(c) else None, false)
      case Some(q) =>
        if q == '"' && escaped then Scan(quote, false)
        else if q == '"' && c == '\\' then Scan(quote, true)
        else Scan(if c == q then None else quote, escaped)
    }
  }

  /** The stretches between the commas that stand outside quotes. */
  function Pieces(s: string, at: Scan): (r: seq<string>)
    ensures r != []
  {
    if s == "" then [""]
    else
      var rest := Pieces(s[1..], at.Next(s[0]));
      if at.quote == None && s[0] == ',' then [""] + rest else [[s[0]] + rest[0]] + rest[1..]
  }

  function ScanEnd(s: string, at: Scan): Scan {
    if s == "" then at else ScanEnd(s[1..], at.Next(s[0]))
  }

  const START := Scan(None, false)

  /** None when a quote is left open. */
  function SplitItems(s: string): Option<seq<string>> {
    if ScanEnd(s, START).quote.Some? then None else Some(Pieces(s, START))
  }

  predicate HasBlank(items: seq<string>) {
    exists i :: 0 <= i < |items| && Trim(items[i]) == ""
  }

  function StripEach(items: seq<string>): seq<string> {
    if items == [] then [] else [StripInlineQuotes(Trim(items[0]))] + StripEach(items[1..])
  }

  /** A JSON array of strings, or `[a, b]` with optional quotes; cleaned either way. */
  function StringList(text: string, line: nat): Result<seq<string>> {
    var value := Trim(text);
    match ParseStringArray(value)
    case Some(values) => Ok(Cleaned(values, {}))
    case None =>
      if value == "" || value[0] != '[' || |value| < 2 || value[|value| - 1] != ']' then Err(NotAList(line))
      else
        var inner := value[1..|value| - 1];
        if Trim(inner) == "" then Ok([])
        else
          match SplitItems(inner)
          case None => Err(OpenQuote(line))
          case Some(items) => if HasBlank(items) then Err(EmptyItem(line)) else Ok(Cleaned(StripEach(items), {}))
  }

  /** The pieces found so far, the open one, and those of the unread rest. */
  ghost function Joined(items: seq<string>, open: string, rest: seq<string>): seq<string>
    requires rest != []
  {
    items + [open + rest[0]] + rest[1..]
  }

  lemma JoinedStep(items: seq<string>, open: string, rest: string, at: Scan)
    requires rest != ""
    ensures ScanEnd(rest, at) == ScanEnd(rest[1..], at.Next(rest[0]))
    ensures var next := Pieces(rest[1..], at.Next(rest[0]));
      Joined(items, open, Pieces(rest, at)) ==
        if at.quote == None && rest[0] == ',' then Joined(items + [open], "", next)
        else Joined(items, open + [rest[0]], next)
  {
    var next := Pieces(rest[1..], at.Next(rest[0]));
    if at.quote == None && rest[0] == ',' {
      assert open + "" == open && "" + next[0] == next[0];
      assert items + [open] + next == items + [open] + [next[0]] + next[1..];
    } else {
      assert open + ([rest[0]] + next[0]) == (open + [rest[0]]) + next[0];
    }
  }

  lemma JoinedStart(rest: seq<string>)
    requires rest != []
    ensures Joined([], "", rest) == rest
  {
    assert "" + rest[0] == rest[0];
  }

  lemma JoinedEnd(items: seq<string>, open: string, at: Scan)
    ensures Joined(items, open, Pieces("", at)) == items + [open] && ScanEnd("", at) == at
  {
    assert open + "" == open;
  }

  /** The scanning loop of the list parser. */
  method ScanItems(inner: string) returns (r: Option<seq<string>>)
    ensures r == SplitItems(inner)
  {
    var items: seq<string> := [];
    var itemStart := 0;
    var quote: Option<char> := None;
    var escaped := false;
    var index := 0;
    hide Pieces, ScanEnd, Joined;
    assert inner[0..] == inner;
    JoinedStart(Pieces(inner, START));
    while index < |inner|
      invariant 0 <= itemStart <= index <= |inner|
      invariant escaped ==> quote == Some('"')
      invariant Pieces(inner, START) == Joined(items, inner[itemStart..index], Pieces(inner[index..], Scan(quote, escaped)))
      invariant ScanEnd(inner, START) == ScanEnd(inner[index..], Scan(quote, escaped))
    {
      var character := inner[index];
      JoinedStep(items, inner[itemStart..index], inner[index..], Scan(quote, escaped));
      assert inner[index..][1..] == inner[index + 1..];
      assert inner[itemStart..index + 1] == inner[itemStart..index] + [character];
      if quote.Some? {
        if quote == Some('"') && escaped {
          escaped := false;
        } else if quote == Some('"') && character == '\\' {
          escaped := true;
        } else if Some(character) == quote {
          quote := None;
        }
      } else if character == '"' || character == '\'' {
        quote := Some(character);
      } else if character == ',' {
        items := items + [inner[itemStart..index]];
        itemStart := index + 1;
        assert inner[itemStart..index + 1] == "";
      }
      index := index + 1;
    }
    assert inner[index..] == "" && inner[itemStart..index] == inner[itemStart..];
    JoinedEnd(items, inner[itemStart..], Scan(quote, escaped));
    if quote.Some? {
      r := None;
    } else {
      r := Some(items + [inner[itemStart..]]);
    }
  }

  method StripAll(items: seq<string>) returns (r: Option<seq<string>>)
    ensures r == if HasBlank(items) then None else Some(StripEach(items))
  {
    hide StripInlineQuotes, Trim;
    var values: seq<string> := [];
    var i := 0;
    while i < |items|
      invariant 0 <= i <= |items|
      invariant forall j :: 0 <= j < i ==> Trim(items[j]) != ""
      invariant StripEach(items) == values + StripEach(items[i..])
    {
      var item := Trim(items[i]);
      if item == "" {
        return None;
      }
      assert items[i..][1..] == items[i + 1..];
      values := values + [StripInlineQuotes(item)];
      i := i + 1;
    }
    assert items[i..] == [] && values + [] == values;
    return Some(values);
  }

  method ParseStringList(text: string, line: nat) returns (r: Result<seq<string>>)
    ensures r == StringList(text, line)
  {
    hide SplitItems, HasBlank, StripEach, Cleaned, ParseStringArray, Trim;
    var value := Trim(text);
    var json := ParseStringArray(value);
    if json.Some? {
      var kept := CleanList(json.value);
      return Ok(kept);
    }
    if value == "" || value[0] != '[' || |value| < 2 || value[|value| - 1] != ']' {
      return Err(NotAList(line));
    }
    var inner := value[1..|value| - 1];
    if Trim(inner) == "" {
      return Ok([]);
    }
    var items := ScanItems(inner);
    if items == None {
      return Err(OpenQuote(line));
    }
    var values := StripAll(items.value);
    if values == None {
      return Err(EmptyItem(line));
    }
    var kept := CleanList(values.value);
    return Ok(kept);
  }

  function KindsOf(names: seq<string>, line: nat): Result<seq<TaskKind>> {
    if names == [] then Ok([])
    else
      match KindOf(names[0])
      case None => Err(UnknownKind(line))
      case Some(k) =>
        match KindsOf(names[1..], line)
        case Err(e) => Err(e)
        case Ok(rest) => Ok([k] + rest)
  }

  function KindList(text: string, line: nat): Result<seq<TaskKind>> {
    match StringList(text, line)
    case Err(e) => Err(e)
    case Ok(names) => KindsOf(names, line)
  }

  // ----- what the lenient list form means

  /** The item is one piece, and leaves no quote open. */
  predicate Whole(item: string) {
    Pieces(item, START) == [item] && ScanEnd(item, START) == START
  }

  /** Bare text without a comma or a quote is one item. */
  lemma {:induction false} BareIsWhole(item: string)
    requires forall i :: 0 <= i < |item| ==> item[i] != ',' && item[i] != '"' && item[i] != '\''
    ensures Whole(item)
  {
    if item != "" {
      assert forall i :: 0 <= i < |item| - 1 ==> item[1..][i] == item[i + 1];
      BareIsWhole(item[1..]);
      assert [item[0]] + item[1..] == item;
    }
  }

  lemma {:induction false} QuotedRest(text: string, quote: char)
    requires quote == '"' || quote == '\''
    requires forall i :: 0 <= i < |text| ==> text[i] != quote && (quote == '"' ==> text[i] != '\\')
    ensures Pieces(text + [quote], Scan(Some(quote), false)) == [text + [quote]]
    ensures ScanEnd(text + [quote], Scan(Some(quote), false)) == START
  {
    var s := text + [quote];
    if text == "" {
      assert s[1..] == "" && s[0] == quote && s == [quote];
      assert Pieces("", START) == [""] && [quote] + "" == s;
    } else {
      assert s[1..] == text[1..] + [quote];
      assert forall i :: 0 <= i < |text| - 1 ==> text[1..][i] == text[i + 1];
      QuotedRest(text[1..], quote);
      assert [s[0]] + s[1..] == s;
    }
  }

  /** Quoted text is one item, whatever commas it holds, in either kind of quotes. */
  lemma QuotedIsWhole(text: string, quote: char)
    requires quote == '"' || quote == '\''
    requires forall i :: 0 <= i < |text| ==> text[i] != quote && (quote == '"' ==> text[i] != '\\')
    ensures Whole([quote] + text + [quote])
  {
    QuotedRest(text, quote);
    var s := [quote] + text + [quote];
    assert s[1..] == text + [quote] && [s[0]] + s[1..] == s;
  }

  /** A comma outside quotes ends an item. */
  lemma {:induction false} CommaSeparates(a: string, at: Scan, b: string)
    requires ScanEnd(a, at) == START
    ensures Pieces(a + [','] + b, at) == Pieces(a, at) + Pieces(b, START)
    ensures ScanEnd(a + [','] + b, at) == ScanEnd(b, START)
  {
    var s := a + [','] + b;
    if a == "" {
      assert s[1..] == b && s[0] == ',';
    } else {
      assert s[1..] == a[1..] + [','] + b && s[0] == a[0];
      CommaSeparates(a[1..], at.Next(a[0]), b);
    }
  }

  function WithCommas(items: seq<string>): string
    requires items != []
  {
    if |items| == 1 then items[0] else items[0] + [','] + WithCommas(items[1..])
  }

  /** Whole items with commas between them are split into just these items. */
  lemma {:induction false} WholeItemsSplit(items: seq<string>)
    requires items != [] && forall i :: 0 <= i < |items| ==> Whole(items[i])
    ensures SplitItems(WithCommas(items)) == Some(items)
  {
    if |items| == 1 {
      assert items == [items[0]];
    } else {
      WholeItemsSplit(items[1..]);
      CommaSeparates(items[0], START, WithCommas(items[1..]));
      assert items == [items[0]] + items[1..];
    }
  }

  /** A quote that is never closed refuses the list. */
  lemma {:induction false} OpenQuoteIsRefused(text: string, at: Scan)
    requires at.quote == Some('\'') && forall i :: 0 <= i < |text| ==> text[i] != '\''
    ensures ScanEnd(text, at).quote == Some('\'')
  {
    if text != "" {
      OpenQuoteIsRefused(text[1..], at.Next(text[0]));
    }
  }

  /** Single quotes are taken off and nothing between them is changed. */
  lemma SingleQuotesComeOff(text: string)
    ensures StripInlineQuotes(['\''] + text + ['\'']) == text
  {
    var s := ['\''] + text + ['\''];
    assert s[1..|s| - 1] == text;
  }

  /** Text without quotes around it is left alone. */
  lemma BareStaysBare(text: string)
    requires text != "" && text[0] != '"' && text[0] != '\''
    ensures StripInlineQuotes(text) == text
  {
  }

  /** Cleaning keeps exactly the values that are not blank, trimmed. */
  lemma {:induction false} CleanedMembers(values: seq<string>, seen: set<string>)
    ensures forall v :: v in Cleaned(values, seen) <==>
      v != "" && v !in seen && exists i :: 0 <= i < |values| && Trim(values[i]) == v
  {
    if values != [] {
      var first, rest := Trim(values[0]), values[1..];
      hide Trim;
      CleanedMembers(rest, if first == "" || first in seen then seen else seen + {first});
      forall v ensures v in Cleaned(values, seen) <==>
        v != "" && v !in seen && exists i :: 0 <= i < |values| && Trim(values[i]) == v
      {
        assert (exists i :: 0 <= i < |values| && Trim(values[i]) == v) <==>
          v == first || exists i :: 0 <= i < |rest| && Trim(rest[i]) == v by {
          if i :| 0 <= i < |rest| && Trim(rest[i]) == v {
            assert Trim(values[i + 1]) == v;
          }
          if i :| 0 <= i < |values| && Trim(values[i]) == v && i > 0 {
            assert Trim(rest[i - 1]) == v;
          }
        }
      }
    }
  }
}
