/** The string operations the role files rely on, over Unicode scalar values: trimming white space at either
    end, splitting at the first occurrence of a character, falling apart into lines with or without carriage
    returns, and unsigned decimal numbers. Printing and reading meet here: terminated lines fall apart into the
    lines they were made of, and a printed number is read as that number, with or without a plus sign. */
module Text {
  import opened Options

  /** The White_Space property of Unicode. */
  predicate IsWhite(c: char) {
    var n := c as int;
    || 0x9 <= n <= 0xD || n == 0x20 || n == 0x85 || n == 0xA0 || n == 0x1680
    || 0x2000 <= n <= 0x200A || n == 0x2028 || n == 0x2029 || n == 0x202F || n == 0x205F || n == 0x3000
  }

  function TrimStart(s: string): string {
    if s != "" && IsWhite(s[0]) then TrimStart(s[1..]) else s
  }

  function TrimEnd(s: string): string {
    if s != "" && IsWhite(s[|s| - 1]) then TrimEnd(s[..|s| - 1]) else s
  }

  function Trim(s: string): string {
    TrimEnd(TrimStart(s))
  }

  lemma {:induction false} TrimStartIsSuffix(s: string)
    ensures |TrimStart(s)| <= |s| && TrimStart(s) == s[|s| - |TrimStart(s)|..]
    ensures TrimStart(s) != "" ==> !IsWhite(TrimStart(s)[0])
  {
    if s != "" && IsWhite(s[0]) {
      TrimStartIsSuffix(s[1..]);
    }
  }

  lemma {:induction false} TrimEndIsPrefix(s: string)
    ensures |TrimEnd(s)| <= |s| && TrimEnd(s) == s[..|TrimEnd(s)|]
    ensures TrimEnd(s) != "" ==> !IsWhite(TrimEnd(s)[|TrimEnd(s)| - 1])
  {
    if s != "" && IsWhite(s[|s| - 1]) {
      TrimEndIsPrefix(s[..|s| - 1]);
    }
  }

  /** Nothing to trim on either side. */
  predicate Trimmed(s: string) {
    s == "" || (!IsWhite(s[0]) && !IsWhite(s[|s| - 1]))
  }

  /** Trimming yields a trimmed string and changes nothing that is trimmed already. */
  lemma TrimIsTrimmed(s: string)
    ensures Trimmed(Trim(s))
    ensures Trimmed(s) <==> Trim(s) == s
  {
    TrimStartIsSuffix(s);
    TrimEndIsPrefix(TrimStart(s));
  }

  predicate AllWhite(s: string) {
    forall i :: 0 <= i < |s| ==> IsWhite(s[i])
  }

  lemma WhiteJoins(a: string, b: string)
    requires AllWhite(a) && AllWhite(b)
    ensures AllWhite(a + b)
  {
    hide IsWhite;
  }

  lemma OneWhite(c: char)
    ensures AllWhite("") && (AllWhite([c]) <==> IsWhite(c))
  {
    assert [c][0] == c;
    hide IsWhite;
  }

  lemma TrimOne(s: string)
    requires s != ""
    ensures TrimStart(s) == (if IsWhite(s[0]) then TrimStart(s[1..]) else s)
    ensures TrimEnd(s) == (if IsWhite(s[|s| - 1]) then TrimEnd(s[..|s| - 1]) else s)
  {
    hide IsWhite;
  }

  lemma {:induction false} TrimStartTakesWhite(s: string) returns (before: string)
    ensures s == before + TrimStart(s) && AllWhite(before)
  {
    hide TrimStart, IsWhite, AllWhite;
    before := "";
    OneWhite(' ');
    if s == "" {
      TrimStartIsSuffix(s);
    } else {
      TrimOne(s);
      OneWhite(s[0]);
      if IsWhite(s[0]) {
        var rest := TrimStartTakesWhite(s[1..]);
        WhiteJoins([s[0]], rest);
        before := [s[0]] + rest;
        assert s == [s[0]] + s[1..];
      }
    }
  }

  lemma {:induction false} TrimEndTakesWhite(s: string) returns (after: string)
    ensures s == TrimEnd(s) + after && AllWhite(after)
  {
    hide TrimEnd, IsWhite, AllWhite;
    after := "";
    OneWhite(' ');
    if s == "" {
      TrimEndIsPrefix(s);
    } else {
      TrimOne(s);
      OneWhite(s[|s| - 1]);
      if IsWhite(s[|s| - 1]) {
        var rest := TrimEndTakesWhite(s[..|s| - 1]);
        WhiteJoins(rest, [s[|s| - 1]]);
        after := rest + [s[|s| - 1]];
        assert s == s[..|s| - 1] + [s[|s| - 1]];
      }
    }
  }

  /** Trimming takes white space off both ends and nothing else. */
  lemma TrimTakesWhite(s: string) returns (before: string, after: string)
    ensures s == before + Trim(s) + after && AllWhite(before) && AllWhite(after) && Trimmed(Trim(s))
  {
    TrimIsTrimmed(s);
    before := TrimStartTakesWhite(s);
    after := TrimEndTakesWhite(TrimStart(s));
    hide TrimStart, TrimEnd, AllWhite, Trimmed;
  }

  /** A blank before a trimmed string goes. */
  lemma TrimAfterBlank(t: string, s: string)
    requires t != "" && t[0] == ' ' && t[1..] == s && Trimmed(s)
    ensures Trim(t) == s
  {
    assert IsWhite(t[0]) && TrimStart(t) == TrimStart(s);
    TrimIsTrimmed(s);
  }

  function TrimStartNewlines(s: string): string {
    if s != "" && (s[0] == '\n' || s[0] == '\r') then TrimStartNewlines(s[1..]) else s
  }

  /** The index of the first `c`, or the length. */
  function IndexOf(s: string, c: char): (i: nat)
    ensures i <= |s| && (i < |s| ==> s[i] == c)
    ensures forall j :: 0 <= j < i ==> s[j] != c
  {
    if s == "" || s[0] == c then 0 else 1 + IndexOf(s[1..], c)
  }

  lemma {:induction false} IndexOfIs(s: string, c: char, i: nat)
    requires i < |s| && s[i] == c && forall j :: 0 <= j < i ==> s[j] != c
    ensures IndexOf(s, c) == i
  {
  }

  /** The two sides of the first `c`. */
  function SplitOnce(s: string, c: char): Option<(string, string)> {
    var i := IndexOf(s, c);
    if i < |s| then Some((s[..i], s[i + 1..])) else None
  }

  /** Drops one carriage return at the end of a terminated line. */
  function DropReturn(line: string): string {
    if line != "" && line[|line| - 1] == '\r' then line[..|line| - 1] else line
  }

  /** The lines of a text: terminated by a newline, with an optional carriage return before it; the
      last terminator is optional. */
  function Lines(s: string): seq<string>
    decreases |s|
  {
    if s == "" then []
    else
      var i := IndexOf(s, '\n');
      if i == |s| then [s] else [DropReturn(s[..i])] + Lines(s[i + 1..])
  }

  function Terminated(lines: seq<string>): string {
    if lines == [] then "" else lines[0] + ['\n'] + Terminated(lines[1..])
  }

  predicate OneLine(s: string) {
    '\n' !in s && (s == "" || s[|s| - 1] != '\r')
  }

  lemma NoLines()
    ensures Lines("") == []
  {
  }

  lemma FirstLine(line: string, rest: string)
    requires OneLine(line)
    ensures Lines(line + ['\n'] + rest) == [line] + Lines(rest)
  {
    hide IndexOf;
    var s := line + ['\n'] + rest;
    var n := |line|;
    assert s[..n] == line && s[n] == '\n' && s[n + 1..] == rest;
    forall j | 0 <= j < n ensures s[j] != '\n' {
      assert s[j] == line[j];
    }
    IndexOfIs(s, '\n', n);
  }

  /** Reading back terminated lines gives the lines. */
  lemma {:induction false} LinesOfTerminated(lines: seq<string>)
    requires forall i :: 0 <= i < |lines| ==> OneLine(lines[i])
    ensures Lines(Terminated(lines)) == lines
  {
    hide Lines, OneLine;
    if lines == [] {
      NoLines();
    } else {
      LinesOfTerminated(lines[1..]);
      FirstLine(lines[0], Terminated(lines[1..]));
      assert lines == [lines[0]] + lines[1..];
    }
  }

  // ----- numbers

  predicate IsDigit(c: char) {
    '0' <= c <= '9'
  }

  function DigitsValue(s: string): (n: nat)
    requires forall i :: 0 <= i < |s| ==> IsDigit(s[i])
  {
    if s == "" then 0 else assert IsDigit(s[|s| - 1]); 10 * DigitsValue(s[..|s| - 1]) + (s[|s| - 1] as int - '0' as int)
  }

  /** An unsigned integer below `bound`: optional plus sign, at least one digit. */
  function ParseUnsigned(s: string, bound: nat): (r: Option<nat>)
    ensures r.Some? ==> r.value < bound
  {
    var digits := if s != "" && s[0] == '+' then s[1..] else s;
    if digits != "" && (forall i :: 0 <= i < |digits| ==> IsDigit(digits[i])) && DigitsValue(digits) < bound
    then Some(DigitsValue(digits)) else None
  }

  function Decimal(n: nat): (s: string)
    ensures s != "" && forall i :: 0 <= i < |s| ==> IsDigit(s[i])
  {
    if n < 10 then [(('0' as int) + n) as char] else Decimal(n / 10) + [(('0' as int) + n % 10) as char]
  }

  /** Printing a number and reading it back. */
  lemma {:induction false} DecimalParses(n: nat, bound: nat)
    requires n < bound
    ensures ParseUnsigned(Decimal(n), bound) == ParseUnsigned(['+'] + Decimal(n), bound) == Some(n)
    ensures Trimmed(Decimal(n)) && OneLine(Decimal(n))
    ensures Decimal(n) != "null"
  {
    DecimalValue(n);
    var s := Decimal(n);
    assert IsDigit(s[0]) && IsDigit(s[|s| - 1]) && (['+'] + s)[1..] == s;
    assert "null"[0] == 'n';
  }

  lemma {:induction false} DecimalValue(n: nat)
    ensures DigitsValue(Decimal(n)) == n
  {
    if n >= 10 {
      DecimalValue(n / 10);
      var s := Decimal(n);
      assert s[..|s| - 1] == Decimal(n / 10);
    }
  }
}
