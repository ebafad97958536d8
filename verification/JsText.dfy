/** The few string operations the console's text readers are written with. */
module JsText {
  /** String.prototype.trim and the class \s agree on these characters. */
  predicate IsSpace(c: char) {
    || '\t' <= c <= '\r'
    || c == ' '
    || c == '\U{A0}' || c == '\U{1680}' || '\U{2000}' <= c <= '\U{200A}'
    || c == '\U{2028}' || c == '\U{2029}' || c == '\U{202F}' || c == '\U{205F}' || c == '\U{3000}' || c == '\U{FEFF}'
  }

  function TrimStart(s: string): string {
    if s != "" && IsSpace(s[0]) then TrimStart(s[1..]) else s
  }

  function TrimEnd(s: string): string {
    if s != "" && IsSpace(s[|s| - 1]) then TrimEnd(s[..|s| - 1]) else s
  }

  function Trim(s: string): string {
    TrimEnd(TrimStart(s))
  }

  predicate NoOuterSpace(s: string) {
    s != "" ==> !IsSpace(s[0]) && !IsSpace(s[|s| - 1])
  }

  lemma {:induction false} TrimStartFacts(s: string)
    ensures |TrimStart(s)| <= |s| && (TrimStart(s) != "" ==> !IsSpace(TrimStart(s)[0]))
    ensures forall c :: c in TrimStart(s) ==> c in s
  {
    if s != "" && IsSpace(s[0]) {
      TrimStartFacts(s[1..]);
    }
  }

  lemma {:induction false} TrimEndFacts(s: string)
    ensures TrimEnd(s) <= s && (TrimEnd(s) != "" ==> !IsSpace(TrimEnd(s)[|TrimEnd(s)| - 1]))
  {
    if s != "" && IsSpace(s[|s| - 1]) {
      TrimEndFacts(s[..|s| - 1]);
    }
  }

  lemma TrimFacts(s: string)
    ensures NoOuterSpace(Trim(s))
    ensures forall c :: c in Trim(s) ==> c in s
    ensures Trim(s) == s <==> NoOuterSpace(s)
  {
    TrimStartFacts(s);
    TrimEndFacts(TrimStart(s));
  }

  /** Trimming a text that starts with a visible character only cuts its end. */
  lemma {:induction false} TrimEndConcat(a: string, b: string)
    requires a != "" && !IsSpace(a[|a| - 1])
    ensures TrimEnd(a + b) == a + TrimEnd(b)
  {
    if b != "" && IsSpace(b[|b| - 1]) {
      assert (a + b)[..|a + b| - 1] == a + b[..|b| - 1];
      TrimEndConcat(a, b[..|b| - 1]);
    } else if b == "" {
      assert a + b == a;
    }
  }

  function Join(parts: seq<string>, sep: char): string {
    if |parts| == 0 then ""
    else if |parts| == 1 then parts[0]
    else parts[0] + [sep] + Join(parts[1..], sep)
  }

  /** text.split(/\r?\n/), with the part read so far. */
  function SplitLines(text: string, cur: string): seq<string> {
    if text == "" then [cur]
    else if text[0] == '\n' then [cur] + SplitLines(text[1..], "")
    else if text[0] == '\r' && |text| > 1 && text[1] == '\n' then [cur] + SplitLines(text[2..], "")
    else SplitLines(text[1..], cur + [text[0]])
  }

  /** A line that survives being joined with line feeds and split again. */
  predicate IsLine(line: string) {
    '\n' !in line && (line != "" ==> line[|line| - 1] != '\r')
  }

  lemma {:induction false} SplitOneLine(line: string, rest: string, cur: string)
    requires IsLine(line)
    ensures SplitLines(line, cur) == [cur + line]
    ensures SplitLines(line + "\n" + rest, cur) == [cur + line] + SplitLines(rest, "")
  {
    var text := line + "\n" + rest;
    if line == "" {
      assert text[1..] == rest;
      assert cur + line == cur;
    } else {
      assert text[0] == line[0] && text[1] == (line + "\n")[1];
      assert text[1..] == line[1..] + "\n" + rest;
      assert cur + [line[0]] + line[1..] == cur + line;
      SplitOneLine(line[1..], rest, cur + [line[0]]);
    }
  }

  lemma {:induction false} SplitJoinedLines(lines: seq<string>)
    requires lines != [] && forall l :: l in lines ==> IsLine(l)
    ensures SplitLines(Join(lines, '\n'), "") == lines
  {
    var rest := Join(lines[1..], '\n');
    SplitOneLine(lines[0], rest, "");
    assert "" + lines[0] == lines[0];
    if |lines| > 1 {
      assert Join(lines, '\n') == lines[0] + "\n" + rest;
      SplitJoinedLines(lines[1..]);
      assert lines == [lines[0]] + lines[1..];
    }
  }

  lemma {:induction false} LinesHaveNoFeed(text: string, cur: string)
    requires '\n' !in cur
    ensures forall l :: l in SplitLines(text, cur) ==> '\n' !in l
  {
    if text == "" {
    } else if text[0] == '\n' {
      LinesHaveNoFeed(text[1..], "");
    } else if text[0] == '\r' && |text| > 1 && text[1] == '\n' {
      LinesHaveNoFeed(text[2..], "");
    } else {
      LinesHaveNoFeed(text[1..], cur + [text[0]]);
    }
  }

  /** String(n) for a non-negative integer. */
  function Decimal(n: nat): string {
    if n < 10 then ["0123456789"[n]] else Decimal(n / 10) + ["0123456789"[n % 10]]
  }

  lemma {:induction false} DecimalInjective(a: nat, b: nat)
    requires Decimal(a) == Decimal(b)
    ensures a == b
  {
    var digits := "0123456789";
    var s := Decimal(a);
    if a >= 10 && b >= 10 {
      assert s[..|s| - 1] == Decimal(a / 10) && s[..|s| - 1] == Decimal(b / 10);
      DecimalInjective(a / 10, b / 10);
      assert s[|s| - 1] == digits[a % 10] && s[|s| - 1] == digits[b % 10];
    } else if a >= 10 {
      DecimalNonEmpty(a / 10);
    } else if b >= 10 {
      DecimalNonEmpty(b / 10);
    }
  }

  lemma {:induction false} DecimalNonEmpty(n: nat)
    ensures |Decimal(n)| > 0 && Decimal(n)[0] in "0123456789"
  {
    if n >= 10 {
      DecimalNonEmpty(n / 10);
    }
  }

  function IndexOf(parts: seq<string>, x: string): int {
    if parts == [] then -1
    else if parts[0] == x then 0
    else var k := IndexOf(parts[1..], x); if k < 0 then -1 else k + 1
  }
}
