/** JSON strings and arrays of strings as section 7 of RFC 8259 defines them. Quoted text is printed with the
    short escapes where there are any and with hexadecimal ones for the other control characters; the parser
    takes every escape, small or capital digits, and supplementary characters as two surrogates. It refuses raw
    control characters, lone surrogates, a trailing comma, and anything but blanks after the value. */
module Json {
  import opened Options

  // ----- printing

  function HexDigit(n: nat): char
    requires n < 16
  {
    if n < 10 then ('0' as int + n) as char else ('a' as int + n - 10) as char
  }

  function Escape(c: char): string {
    if c == '"' then "\\\""
    else if c == '\\' then "\\\\"
    else if c as int == 8 then "\\b"
    else if c as int == 12 then "\\f"
    else if c == '\n' then "\\n"
    else if c == '\r' then "\\r"
    else if c == '\t' then "\\t"
    else if (c as int) < 32 then "\\u00" + [HexDigit(c as int / 16), HexDigit(c as int % 16)]
    else [c]
  }

  function Escaped(s: string): string {
    if s == "" then "" else Escape(s[0]) + Escaped(s[1..])
  }

  function Quote(s: string): string {
    ['"'] + Escaped(s) + ['"']
  }

  /** The quoted strings, separated by a comma and a blank. */
  function QuotedItems(values: seq<string>): string {
    if values == [] then ""
    else if |values| == 1 then Quote(values[0])
    else Quote(values[0]) + ", " + QuotedItems(values[1..])
  }

  function QuotedList(values: seq<string>): string {
    ['['] + QuotedItems(values) + [']']
  }

  // ----- parsing

  function HexValue(c: char): (r: Option<nat>)
    ensures r.Some? ==> r.value < 16
  {
    if '0' <= c <= '9' then Some(c as int - '0' as int)
    else if 'a' <= c <= 'f' then Some(c as int - 'a' as int + 10)
    else if 'A' <= c <= 'F' then Some(c as int - 'A' as int + 10)
    else None
  }

  function Hex4(s: string): (r: Option<nat>)
    ensures r.Some? ==> |s| >= 4 && r.value < 0x1_0000
  {
    if |s| < 4 then None
    else
      var a, b, c, d := HexValue(s[0]), HexValue(s[1]), HexValue(s[2]), HexValue(s[3]);
      if a.None? || b.None? || c.None? || d.None? then None
      else Some(0x1000 * a.value + 0x100 * b.value + 0x10 * c.value + d.value)
  }

  /** One escape sequence after its backslash, and what follows it. Surrogates count only in pairs. */
  function Unescape(s: string): (r: Option<(char, string)>)
    ensures r.Some? ==> |r.value.1| < |s|
  {
    if s == "" then None
    else
      var rest := s[1..];
      if s[0] == '"' then Some(('"', rest))
      else if s[0] == '\\' then Some(('\\', rest))
      else if s[0] == '/' then Some(('/', rest))
      else if s[0] == 'b' then Some((8 as char, rest))
      else if s[0] == 'f' then Some((12 as char, rest))
      else if s[0] == 'n' then Some(('\n', rest))
      else if s[0] == 'r' then Some(('\r', rest))
      else if s[0] == 't' then Some(('\t', rest))
      else if s[0] == 'u' then
        match Hex4(rest)
        case None => None
        case Some(high) =>
          if 0xD800 <= high < 0xDC00 then
            var tail := rest[4..];
            if |tail| < 2 || tail[0] != '\\' || tail[1] != 'u' then None
            else
              match Hex4(tail[2..])
              case None => None
              case Some(low) =>
                if 0xDC00 <= low < 0xE000
                then Some(((0x1_0000 + (high - 0xD800) * 0x400 + (low - 0xDC00)) as char, tail[6..]))
                else None
          else if 0xDC00 <= high < 0xE000 then None
          else Some((high as char, rest[4..]))
      else None
  }

  /** The characters up to the closing quote, and what follows it. Raw control characters are refused. */
  function StringBody(s: string): (r: Option<(string, string)>)
    ensures r.Some? ==> |r.value.1| < |s|
    decreases |s|
  {
    if s == "" then None
    else if s[0] == '"' then Some(("", s[1..]))
    else if s[0] == '\\' then
      match Unescape(s[1..])
      case None => None
      case Some((c, rest)) =>
        (match StringBody(rest)
         case None => None
         case Some((text, after)) => Some(([c] + text, after)))
    else if (s[0] as int) < 32 then None
    else
      match StringBody(s[1..])
      case None => None
      case Some((text, after)) => Some(([s[0]] + text, after))
  }

  predicate IsJsonBlank(c: char) {
    c == ' ' || c == '\n' || c == '\r' || c == '\t'
  }

  function SkipBlanks(s: string): (r: string)
    ensures |r| <= |s|
  {
    if s != "" && IsJsonBlank(s[0]) then SkipBlanks(s[1..]) else s
  }

  /** A whole text that is one JSON string. */
  function ParseString(s: string): Option<string> {
    var t := SkipBlanks(s);
    if t == "" || t[0] != '"' then None
    else
      match StringBody(t[1..])
      case None => None
      case Some((text, rest)) => if SkipBlanks(rest) == "" then Some(text) else None
  }

  /** Array elements up to the closing bracket, and what follows it. A trailing comma is refused. */
  function ArrayItems(s: string): (r: Option<(seq<string>, string)>)
    decreases |s|
  {
    var t := SkipBlanks(s);
    if t == "" || t[0] != '"' then None
    else
      match StringBody(t[1..])
      case None => None
      case Some((text, rest)) =>
        var u := SkipBlanks(rest);
        if u == "" then None
        else if u[0] == ']' then Some(([text], u[1..]))
        else if u[0] == ',' then
          (match ArrayItems(u[1..])
           case None => None
           case Some((texts, after)) => Some(([text] + texts, after)))
        else None
  }

  /** A whole text that is one JSON array of strings. */
  function ParseStringArray(s: string): Option<seq<string>> {
    var t := SkipBlanks(s);
    if t == "" || t[0] != '[' then None
    else
      var u := SkipBlanks(t[1..]);
      if u != "" && u[0] == ']' then (if SkipBlanks(u[1..]) == "" then Some([]) else None)
      else
        match ArrayItems(u)
        case None => None
        case Some((texts, rest)) => if SkipBlanks(rest) == "" then Some(texts) else None
  }

  // ----- round trips

  /** Every escape reads back as the character it stands for. */
  lemma EscapeReadsBack(c: char, rest: string)
    ensures StringBody(Escape(c) + rest) ==
      match StringBody(rest)
      case None => None
      case Some((text, after)) => Some(([c] + text, after))
  {
    var s := Escape(c) + rest;
    if c as int >= 32 && c != '"' && c != '\\' {
      assert s[1..] == rest;
    } else if |Escape(c)| == 2 {
      assert s[0] == '\\' && s[1..][1..] == rest;
    } else {
      var h, l := HexDigit(c as int / 16), HexDigit(c as int % 16);
      var t := s[1..][1..];
      assert s[0] == '\\' && s[1] == 'u';
      assert t[0] == '0' && t[1] == '0' && t[2] == h && t[3] == l && t[4..] == rest;
      assert HexValue(h) == Some(c as int / 16) && HexValue(l) == Some(c as int % 16);
      assert Hex4(t) == Some(c as int);
    }
  }

  /** A hexadecimal digit, as a small or capital letter. */
  predicate SpellsDigit(c: char, n: nat) {
    n < 16 && (c == "0123456789abcdef"[n] || c == "0123456789ABCDEF"[n])
  }

  predicate Spells(s: string, n: nat) {
    && |s| == 4 && n < 0x1_0000
    && SpellsDigit(s[0], n / 0x1000) && SpellsDigit(s[1], n / 0x100 % 0x10)
    && SpellsDigit(s[2], n / 0x10 % 0x10) && SpellsDigit(s[3], n % 0x10)
  }

  lemma DigitReads(c: char, n: nat)
    requires SpellsDigit(c, n)
    ensures HexValue(c) == Some(n)
  {
  }

  lemma FourDigits(n: nat)
    ensures n == 0x1000 * (n / 0x1000) + 0x100 * (n / 0x100 % 0x10) + 0x10 * (n / 0x10 % 0x10) + n % 0x10
  {
    assert n / 0x10 / 0x10 == n / 0x100 && n / 0x100 / 0x10 == n / 0x1000;
  }

  lemma SpelledReads(s: string, n: nat, rest: string)
    requires Spells(s, n)
    ensures Hex4(s + rest) == Some(n) && (s + rest)[4..] == rest
  {
    hide HexValue, SpellsDigit;
    DigitReads(s[0], n / 0x1000);
    DigitReads(s[1], n / 0x100 % 0x10);
    DigitReads(s[2], n / 0x10 % 0x10);
    DigitReads(s[3], n % 0x10);
    FourDigits(n);
  }

  /** Every character reads back from its hexadecimal escape, a supplementary one from its two surrogates. */
  lemma UnicodeEscapeReadsBack(c: char, high: string, low: string, rest: string)
    requires if c as int < 0x1_0000 then Spells(high, c as int) && low == ""
      else
        && Spells(high, 0xD800 + (c as int - 0x1_0000) / 0x400)
        && "\\u" <= low && Spells(low[2..], 0xDC00 + c as int % 0x400)
    ensures Unescape("u" + (high + (low + rest))) == Some((c, rest))
  {
    hide Spells, Hex4;
    var n := c as int;
    var s := "u" + (high + (low + rest));
    assert s[1..] == high + (low + rest) && (n < 0x1_0000 ==> low + rest == rest);
    SpelledReads(high, if n < 0x1_0000 then n else 0xD800 + (n - 0x1_0000) / 0x400, low + rest);
    if n >= 0x1_0000 {
      assert (low + rest)[2..] == low[2..] + rest && (low + rest)[0] == low[0] && (low + rest)[1] == low[1];
      SpelledReads(low[2..], 0xDC00 + n % 0x400, rest);
      assert (low + rest)[6..] == (low[2..] + rest)[4..] == rest;
    }
  }

  lemma SolidusReadsBack(rest: string)
    ensures Unescape("/" + rest) == Some(('/', rest))
  {
    assert ("/" + rest)[1..] == rest;
  }

  /** A surrogate that is not the first of a pair is refused. */
  lemma LoneSurrogateIsRefused(s: string, n: nat, rest: string)
    requires Spells(s, n) && 0xD800 <= n < 0xE000 && !("\\u" <= rest)
    ensures Unescape("u" + (s + rest)) == None
  {
    hide Spells, Hex4;
    assert ("u" + (s + rest))[1..] == s + rest;
    SpelledReads(s, n, rest);
    if |rest| >= 2 {
      assert rest[..2] == [rest[0], rest[1]];
    }
  }

  /** What a string was read from holds no raw control character. */
  lemma {:induction false} BodyHasNoControls(s: string)
    requires StringBody(s).Some?
    ensures var after := StringBody(s).value.1;
      after == s[|s| - |after|..] && forall i :: 0 <= i < |s| - |after| ==> s[i] as int >= 32
    decreases |s|
  {
    if s[0] != '"' {
      var rest := s[1..];
      if s[0] == '\\' {
        EscapeHasNoControls(s[1..]);
        rest := Unescape(s[1..]).value.1;
        hide Unescape;
      }
      BodyHasNoControls(rest);
      assert forall i :: |s| - |rest| <= i < |s| ==> s[i] == rest[i - (|s| - |rest|)];
    }
  }

  lemma HexHasNoControls(s: string)
    requires Hex4(s).Some?
    ensures forall i :: 0 <= i < 4 ==> s[i] as int >= 32
  {
  }

  lemma EscapeHasNoControls(s: string)
    requires Unescape(s).Some?
    ensures var rest := Unescape(s).value.1;
      rest == s[|s| - |rest|..] && forall i :: 0 <= i < |s| - |rest| ==> s[i] as int >= 32
  {
    hide Hex4;
    if s[0] == 'u' {
      HexHasNoControls(s[1..]);
      if 0xD800 <= Hex4(s[1..]).value < 0xDC00 {
        HexHasNoControls(s[7..]);
        assert s[1..][4..][2..] == s[7..];
      }
    }
  }

  /** A quoted string reads back, whatever follows it. */
  lemma {:induction false} QuoteReadsBack(s: string, rest: string)
    ensures StringBody(Escaped(s) + ['"'] + rest) == Some((s, rest))
  {
    if s == "" {
      assert (['"'] + rest)[1..] == rest;
      assert Escaped(s) + ['"'] + rest == ['"'] + rest;
    } else {
      var tail := Escaped(s[1..]) + ['"'] + rest;
      assert Escaped(s) + ['"'] + rest == Escape(s[0]) + tail;
      EscapeReadsBack(s[0], tail);
      QuoteReadsBack(s[1..], rest);
      assert [s[0]] + s[1..] == s;
    }
  }

  /** Parsing inverts quoting for every string. */
  lemma ParseQuoted(s: string)
    ensures ParseString(Quote(s)) == Some(s)
  {
    var q := Quote(s);
    assert q[1..] == Escaped(s) + ['"'] + "";
    QuoteReadsBack(s, "");
  }

  lemma {:induction false} BlanksSkipped(s: string)
    ensures SkipBlanks(s) == "" <==> forall i :: 0 <= i < |s| ==> IsJsonBlank(s[i])
  {
    if s != "" {
      BlanksSkipped(s[1..]);
      assert forall i :: 0 < i < |s| ==> s[i] == s[1..][i - 1];
    }
  }

  /** Nothing but blanks may follow the string. */
  lemma OnlyBlanksFollow(s: string, rest: string)
    ensures ParseString(Quote(s) + rest) == if forall i :: 0 <= i < |rest| ==> IsJsonBlank(rest[i]) then Some(s) else None
  {
    var q := Quote(s) + rest;
    assert q[1..] == Escaped(s) + ['"'] + rest;
    QuoteReadsBack(s, rest);
    BlanksSkipped(rest);
    hide StringBody, Escaped, IsJsonBlank;
  }

  lemma LastItem(value: string, rest: string)
    ensures ArrayItems(Quote(value) + ([']'] + rest)) == Some(([value], rest))
  {
    var s := Quote(value) + ([']'] + rest);
    assert s[1..] == Escaped(value) + ['"'] + ([']'] + rest);
    QuoteReadsBack(value, [']'] + rest);
    assert ([']'] + rest)[1..] == rest;
  }

  lemma ItemBeforeItems(value: string, tail: string)
    ensures ArrayItems(Quote(value) + (", " + tail)) ==
      match ArrayItems(tail)
      case None => None
      case Some((texts, after)) => Some(([value] + texts, after))
  {
    hide StringBody, Escaped;
    var u := ", " + tail;
    var s := Quote(value) + u;
    assert s[1..] == Escaped(value) + ['"'] + u;
    QuoteReadsBack(value, u);
    assert u[0] == ',' && u[1..] == [' '] + tail;
    BlankBeforeItems(tail);
  }

  lemma {:induction false} ParseQuotedItems(values: seq<string>, rest: string)
    requires values != []
    ensures ArrayItems(QuotedItems(values) + [']'] + rest) == Some((values, rest))
  {
    hide ArrayItems, Quote;
    if |values| == 1 {
      LastItem(values[0], rest);
      assert [values[0]] == values;
      assert QuotedItems(values) + [']'] + rest == Quote(values[0]) + ([']'] + rest);
    } else {
      var tail := QuotedItems(values[1..]) + [']'] + rest;
      ItemBeforeItems(values[0], tail);
      ParseQuotedItems(values[1..], rest);
      assert QuotedItems(values) + [']'] + rest == Quote(values[0]) + (", " + tail);
      assert [values[0]] + values[1..] == values;
    }
  }

  lemma BlankBeforeItems(s: string)
    ensures ArrayItems([' '] + s) == ArrayItems(s)
  {
  }

  /** Parsing inverts printing for every list of strings. */
  lemma ParseQuotedList(values: seq<string>)
    ensures ParseStringArray(QuotedList(values)) == Some(values)
  {
    var s := QuotedList(values);
    hide StringBody, Escaped, ArrayItems;
    if values == [] {
      assert s == "[]";
    } else {
      assert s[1..] == QuotedItems(values) + [']'] + "";
      assert s[1] == '"';
      ParseQuotedItems(values, "");
    }
  }

  /** Quoted text never breaks a line. */
  lemma {:induction false} EscapedOneLine(s: string)
    ensures forall i :: 0 <= i < |Escaped(s)| ==> Escaped(s)[i] as int >= 32
  {
    if s != "" {
      EscapedOneLine(s[1..]);
      var e := Escape(s[0]);
      forall i | 0 <= i < |e| ensures e[i] as int >= 32 {
      }
    }
  }
}
