/** Text operations of the Rust standard library that the repository relies on. */
module Strings {
  import opened Outcomes

  /** Unicode White_Space, which `str::trim` strips. */
  predicate IsWhitespace(c: char) {
    var n := c as int;
    0x09 <= n <= 0x0D || n == 0x20 || n == 0x85 || n == 0xA0 || n == 0x1680 || 0x2000 <= n <= 0x200A
    || n == 0x2028 || n == 0x2029 || n == 0x202F || n == 0x205F || n == 0x3000
  }

  function TrimStart(s: string): string {
    if s != "" && IsWhitespace(s[0]) then TrimStart(s[1..]) else s
  }

  function TrimEnd(s: string): string {
    if s != "" && IsWhitespace(s[|s| - 1]) then TrimEnd(s[..|s| - 1]) else s
  }

  function Trim(s: string): string {
    TrimEnd(TrimStart(s))
  }

  /** Neither end is white space. */
  predicate IsTrimmed(s: string) {
    s == "" || (!IsWhitespace(s[0]) && !IsWhitespace(s[|s| - 1]))
  }

  lemma {:induction false} TrimStartStops(s: string)
    ensures var t := TrimStart(s); t == "" || !IsWhitespace(t[0])
  {
    if s != "" && IsWhitespace(s[0]) {
      TrimStartStops(s[1..]);
    }
  }

  lemma {:induction false} TrimEndStops(s: string)
    requires s == "" || !IsWhitespace(s[0])
    ensures IsTrimmed(TrimEnd(s))
  {
    if s != "" && IsWhitespace(s[|s| - 1]) {
      TrimEndStops(s[..|s| - 1]);
    }
  }

  /** Trimming strips everything there is to strip, so a second trim changes nothing. */
  lemma TrimIsIdempotent(s: string)
    ensures IsTrimmed(Trim(s)) && Trim(Trim(s)) == Trim(s)
  {
    TrimStartStops(s);
    TrimEndStops(TrimStart(s));
  }

  ghost predicate AllWhitespace(s: string) {
    forall i :: 0 <= i < |s| ==> IsWhitespace(s[i])
  }

  lemma JoinWhitespace(a: string, b: string)
    requires AllWhitespace(a) && AllWhitespace(b)
    ensures AllWhitespace(a + b)
  {
    forall i | 0 <= i < |a + b| ensures IsWhitespace((a + b)[i]) {
      assert (a + b)[i] == if i < |a| then a[i] else b[i - |a|];
    }
  }

  lemma Prefixed(c: char, before: string, kept: string)
    requires IsWhitespace(c) && AllWhitespace(before)
    ensures [c] + (before + kept) == ([c] + before) + kept && AllWhitespace([c] + before)
  {
    JoinWhitespace([c], before);
  }

  lemma Suffixed(c: char, after: string, kept: string)
    requires IsWhitespace(c) && AllWhitespace(after)
    ensures (kept + after) + [c] == kept + (after + [c]) && AllWhitespace(after + [c])
  {
    JoinWhitespace(after, [c]);
  }

  lemma {:induction false} TrimStartStrips(s: string) returns (before: string)
    ensures s == before + TrimStart(s) && AllWhitespace(before)
  {
    before := "";
    if s != "" && IsWhitespace(s[0]) {
      var rest := TrimStartStrips(s[1..]);
      before := [s[0]] + rest;
      Prefixed(s[0], rest, TrimStart(s[1..]));
      assert s == [s[0]] + s[1..];
    }
  }

  lemma {:induction false} TrimEndStrips(s: string) returns (after: string)
    ensures s == TrimEnd(s) + after && AllWhitespace(after)
  {
    after := "";
    if s != "" && IsWhitespace(s[|s| - 1]) {
      var rest := TrimEndStrips(s[..|s| - 1]);
      after := rest + [s[|s| - 1]];
      Suffixed(s[|s| - 1], rest, TrimEnd(s[..|s| - 1]));
      assert s == s[..|s| - 1] + [s[|s| - 1]];
    }
  }

  /** Trimming strips white space only, from both ends, and all of it. */
  lemma TrimStrips(s: string) returns (before: string, after: string)
    ensures s == before + Trim(s) + after && AllWhitespace(before) && AllWhitespace(after) && IsTrimmed(Trim(s))
  {
    before := TrimStartStrips(s);
    after := TrimEndStrips(TrimStart(s));
    TrimIsIdempotent(s);
  }

  // --- Lines ------------------------------------------------------------------------------------

  /** The index of the first line feed, or the length. */
  function LineFeed(s: string): (i: nat)
    ensures i <= |s|
    ensures i < |s| ==> s[i] == '\n'
  {
    if s == "" || s[0] == '\n' then 0 else 1 + LineFeed(s[1..])
  }

  /** `str::lines`: cut at line feeds, a carriage return before one is dropped, no empty last line. */
  function Lines(s: string): seq<string>
    decreases |s|
  {
    if s == "" then []
    else
      var i := LineFeed(s);
      if i == |s| then [s]
      else [if i > 0 && s[i - 1] == '\r' then s[..i - 1] else s[..i]] + Lines(s[i + 1..])
  }

  /** How a line is ended. */
  datatype LineEnd = Feed | ReturnFeed
  {
    function Text(): string {
      if Feed? then "\n" else "\r\n"
    }
  }

  /** Each line with its ending after it. */
  function Terminated(lines: seq<(string, LineEnd)>): string {
    if lines == [] then "" else lines[0].0 + lines[0].1.Text() + Terminated(lines[1..])
  }

  function Texts(lines: seq<(string, LineEnd)>): seq<string> {
    seq(|lines|, i requires 0 <= i < |lines| => lines[i].0)
  }

  /** No line feed inside, no carriage return at the end. */
  ghost predicate PlainLine(line: string) {
    '\n' !in line && (line == "" || line[|line| - 1] != '\r')
  }

  lemma {:induction false} LineFeedAt(line: string, rest: string)
    requires '\n' !in line
    ensures LineFeed(line + "\n" + rest) == |line|
    ensures LineFeed(line) == |line|
  {
    if line != "" {
      LineFeedAt(line[1..], rest);
      assert (line + "\n" + rest)[1..] == line[1..] + "\n" + rest;
      assert line[0] in line;
    }
  }

  lemma LinesOfPlainLine(line: string, rest: string)
    requires PlainLine(line)
    ensures Lines(line + "\n" + rest) == [line] + Lines(rest)
  {
    var s := line + "\n" + rest;
    LineFeedAt(line, rest);
    assert s[..|line|] == line && s[|line| + 1..] == rest;
    assert line != "" ==> s[|line| - 1] == line[|line| - 1];
  }

  lemma LinesOfReturnedLine(line: string, rest: string)
    requires '\n' !in line
    ensures Lines(line + "\r\n" + rest) == [line] + Lines(rest)
  {
    var held := line + "\r";
    var s := held + "\n" + rest;
    assert s == line + "\r\n" + rest;
    LineFeedAt(held, rest);
    assert s[..|line|] == line && s[|line|] == '\r' && s[|held| + 1..] == rest;
  }

  lemma LinesOfEndedLine(line: string, end: LineEnd, rest: string)
    requires PlainLine(line)
    ensures Lines(line + end.Text() + rest) == [line] + Lines(rest)
  {
    if end.Feed? {
      LinesOfPlainLine(line, rest);
    } else {
      LinesOfReturnedLine(line, rest);
    }
  }

  lemma LinesOfOpenLine(last: string)
    requires '\n' !in last
    ensures Lines(last) == if last == "" then [] else [last]
  {
    LineFeedAt(last, "");
  }

  lemma TerminatedOfCons(lines: seq<(string, LineEnd)>, last: string)
    requires lines != []
    ensures Terminated(lines) + last == lines[0].0 + lines[0].1.Text() + (Terminated(lines[1..]) + last)
  {
    var a, b := lines[0].0 + lines[0].1.Text(), Terminated(lines[1..]);
    assert (a + b) + last == a + (b + last);
  }

  /** Cutting gives back the lines that were ended, either way, and a last one that was not. */
  lemma {:induction false} LinesReadBack(lines: seq<(string, LineEnd)>, last: string)
    requires (forall i :: 0 <= i < |lines| ==> PlainLine(lines[i].0)) && '\n' !in last
    ensures Lines(Terminated(lines) + last) == Texts(lines) + if last == "" then [] else [last]
    decreases |lines|
  {
    LinesOfOpenLine(last);
    if lines == [] {
      assert Terminated(lines) + last == last;
    } else {
      TerminatedOfCons(lines, last);
      LinesOfEndedLine(lines[0].0, lines[0].1, Terminated(lines[1..]) + last);
      LinesReadBack(lines[1..], last);
      Regroup(lines, if last == "" then [] else [last]);
    }
  }

  lemma Regroup(lines: seq<(string, LineEnd)>, end: seq<string>)
    requires lines != []
    ensures [lines[0].0] + (Texts(lines[1..]) + end) == Texts(lines) + end
  {
  }

  // --- Lexicographic order ----------------------------------------------------------------------

  /** The order of `str::cmp` and of SQLite's BINARY collation: by code point, shorter prefix first. */
  predicate Le(a: string, b: string) {
    a == "" || (b != "" && (a[0] < b[0] || (a[0] == b[0] && Le(a[1..], b[1..]))))
  }

  lemma {:induction false} LeIsTotal(a: string, b: string)
    ensures Le(a, b) || Le(b, a)
  {
    if a != "" && b != "" && a[0] == b[0] {
      LeIsTotal(a[1..], b[1..]);
    }
  }

  lemma {:induction false} LeIsAntisymmetric(a: string, b: string)
    requires Le(a, b) && Le(b, a)
    ensures a == b
  {
    if a != "" {
      LeIsAntisymmetric(a[1..], b[1..]);
      assert a == [a[0]] + a[1..] && b == [b[0]] + b[1..];
    }
  }

  lemma {:induction false} LeIsTransitive(a: string, b: string, c: string)
    requires Le(a, b) && Le(b, c)
    ensures Le(a, c)
  {
    if a != "" && a[0] == b[0] == c[0] {
      LeIsTransitive(a[1..], b[1..], c[1..]);
    }
  }

  /** Alphabetical order: a prefix comes first, otherwise the first different character decides. */
  lemma {:induction false} LeIsAlphabetical(a: string, b: string)
    ensures Le(a, b) <==> a <= b || exists k :: FirstDifference(a, b, k) && a[k] < b[k]
  {
    if a != "" && b != "" {
      LeIsAlphabetical(a[1..], b[1..]);
      if a[0] == b[0] {
        assert a <= b <==> a[1..] <= b[1..];
        if k :| FirstDifference(a[1..], b[1..], k) && a[1..][k] < b[1..][k] {
          assert FirstDifference(a, b, k + 1);
        }
        if k :| FirstDifference(a, b, k) && a[k] < b[k] {
          assert FirstDifference(a[1..], b[1..], k - 1);
        }
      } else {
        assert FirstDifference(a, b, 0);
      }
    }
  }

  ghost predicate FirstDifference(a: string, b: string, k: int) {
    0 <= k < |a| && k < |b| && a[k] != b[k] && forall i :: 0 <= i < k ==> a[i] == b[i]
  }

  // --- Decimal numbers --------------------------------------------------------------------------

  predicate IsDigit(c: char) {
    '0' <= c <= '9'
  }

  /** `to_string` of an unsigned integer. */
  function Decimal(n: nat): (s: string)
    ensures s != ""
  {
    if n < 10 then [('0' as int + n) as char] else Decimal(n / 10) + [('0' as int + n % 10) as char]
  }

  /** The value of a digit string; anything else has none. */
  function DigitsValue(s: string): (v: Option<nat>)
  {
    if s == "" then None
    else
      var last := s[|s| - 1];
      if !IsDigit(last) then None
      else if |s| == 1 then Some(last as int - '0' as int)
      else
        match DigitsValue(s[..|s| - 1])
        case None => None
        case Some(v) => Some(10 * v + (last as int - '0' as int))
  }

  predicate IsNumeral(s: string) {
    s != "" && forall c <- s :: IsDigit(c)
  }

  lemma NumeralSnoc(init: string, last: char, s: string)
    requires init != "" && s == init + [last]
    ensures IsNumeral(s) <==> IsNumeral(init) && IsDigit(last)
  {
    assert forall c :: c in s <==> c in init || c == last;
  }

  /** Exactly the non-empty strings of digits have a value. */
  lemma {:induction false} NumeralsHaveValues(s: string)
    ensures DigitsValue(s).Some? <==> IsNumeral(s)
  {
    if |s| == 1 {
      assert s == [s[0]];
    } else if s != "" {
      NumeralsHaveValues(s[..|s| - 1]);
      NumeralSnoc(s[..|s| - 1], s[|s| - 1], s);
    }
  }

  /** `str::parse` to an unsigned integer below the limit: an optional plus sign, then digits. */
  function ParseUnsigned(s: string, limit: nat): Option<nat> {
    var digits := if s != "" && s[0] == '+' then s[1..] else s;
    match DigitsValue(digits)
    case Some(v) => if v < limit then Some(v) else None
    case None => None
  }

  lemma {:induction false} DecimalHasValue(n: nat)
    ensures DigitsValue(Decimal(n)) == Some(n)
    ensures IsDigit(Decimal(n)[0])
  {
    if n >= 10 {
      DecimalHasValue(n / 10);
      var s := Decimal(n);
      assert s[..|s| - 1] == Decimal(n / 10);
    }
  }

  /** What is left of a number after its optional plus sign. */
  function Unsigned(s: string): string {
    if s != "" && s[0] == '+' then s[1..] else s
  }

  lemma ParsesExactly(s: string, limit: nat)
    ensures ParseUnsigned(s, limit).Some?
            <==> IsNumeral(Unsigned(s)) && DigitsValue(Unsigned(s)).Some? && DigitsValue(Unsigned(s)).value < limit
    ensures ParseUnsigned(s, limit).Some? ==> ParseUnsigned(s, limit) == DigitsValue(Unsigned(s))
  {
    NumeralsHaveValues(Unsigned(s));
  }

  lemma ParseInvertsDecimal(n: nat, limit: nat)
    requires n < limit
    ensures ParseUnsigned(Decimal(n), limit) == Some(n)
  {
    DecimalHasValue(n);
  }
}
