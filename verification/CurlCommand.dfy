/** Reading a pasted curl command into the request it describes. */
module CurlCommand {
  import opened AsciiCase
  import opened JsText
  import opened Options
  import opened ShellWords

  datatype CurlRequest = CurlRequest(verb: string, url: string, headers: map<string, string>, body: string)

  // -------------------------------------------------------------------------
  // Line continuations: every backslash-newline becomes one blank
  // -------------------------------------------------------------------------

  /** Length of the continuation at the head of the text, 0 if there is none. */
  function BreakLength(s: string): nat {
    if |s| > 1 && s[0] == '\\' && s[1] == '\n' then 2
    else if |s| > 2 && s[0] == '\\' && s[1] == '\r' && s[2] == '\n' then 3
    else 0
  }

  function Collapse(s: string): string {
    if s == "" then ""
    else if BreakLength(s) > 0 then " " + Collapse(s[BreakLength(s)..])
    else [s[0]] + Collapse(s[1..])
  }

  /** Some continuation occurs in the text. */
  predicate Broken(s: string) {
    s != "" && (BreakLength(s) > 0 || Broken(s[1..]))
  }

  lemma {:induction false} CollapseShrinks(s: string)
    ensures |Collapse(s)| <= |s| && (s != "" ==> Collapse(s) != "")
    ensures Broken(s) ==> |Collapse(s)| < |s|
    ensures !Broken(s) ==> Collapse(s) == s
  {
    if s != "" {
      if BreakLength(s) > 0 {
        CollapseShrinks(s[BreakLength(s)..]);
      } else {
        CollapseShrinks(s[1..]);
      }
    }
  }

  lemma {:induction false} CollapsedIsUnbroken(s: string)
    ensures !Broken(Collapse(s))
    ensures Collapse(s) != "" && Collapse(s)[0] == '\n' ==> s[0] == '\n'
    ensures |Collapse(s)| > 1 && Collapse(s)[0] == '\r' && Collapse(s)[1] == '\n' ==>
      |s| > 1 && s[0] == '\r' && s[1] == '\n'
  {
    if s != "" {
      if BreakLength(s) > 0 {
        CollapsedIsUnbroken(s[BreakLength(s)..]);
      } else {
        CollapsedIsUnbroken(s[1..]);
      }
    }
  }

  /** A cut between a and b that no continuation straddles. */
  predicate CleanCut(a: string, b: string) {
    || a == "" || b == ""
    || (b[0] != '\n' && b[0] != '\r')
    || (a[|a| - 1] != '\\' && a[|a| - 1] != '\r')
  }

  lemma {:induction false} CollapseConcat(a: string, b: string)
    requires CleanCut(a, b)
    ensures Collapse(a + b) == Collapse(a) + Collapse(b)
  {
    if a == "" {
      assert a + b == b;
    } else {
      var n := BreakLength(a);
      assert b == "" ==> a + b == a;
      assert BreakLength(a + b) == n;
      if n > 0 {
        assert (a + b)[n..] == a[n..] + b;
        CollapseConcat(a[n..], b);
      } else {
        assert (a + b)[1..] == a[1..] + b;
        CollapseConcat(a[1..], b);
      }
    }
  }

  lemma {:induction false} UnbrokenSlice(s: string, lo: nat, hi: nat)
    requires lo <= hi <= |s| && !Broken(s)
    ensures !Broken(s[lo..hi])
    decreases |s|, hi - lo
  {
    if lo > 0 {
      assert s[1..][lo - 1..hi - 1] == s[lo..hi];
      UnbrokenSlice(s[1..], lo - 1, hi - 1);
    } else if hi > 0 {
      var t := s[..hi];
      assert BreakLength(t) > 0 ==> BreakLength(s) > 0;
      assert s[lo..hi] == t;
      assert t[1..] == s[1..][0..hi - 1];
      UnbrokenSlice(s[1..], 0, hi - 1);
    }
  }

  lemma {:induction false} TrimStartIsSuffix(s: string) returns (lo: nat)
    ensures lo <= |s| && TrimStart(s) == s[lo..]
  {
    lo := 0;
    if s != "" && IsSpace(s[0]) {
      var k := TrimStartIsSuffix(s[1..]);
      lo := k + 1;
    }
  }

  lemma TrimUnbroken(s: string)
    requires !Broken(s)
    ensures !Broken(Trim(s))
  {
    var lo := TrimStartIsSuffix(s);
    TrimEndFacts(TrimStart(s));
    assert Trim(s) == s[lo..lo + |Trim(s)|];
    UnbrokenSlice(s, lo, lo + |Trim(s)|);
  }

  /** An escaped word starts with the continuation the word starts with. */
  lemma EscapedBreak(w: string, n: nat)
    requires n == BreakLength(w) > 0
    ensures Escaped(w) == w[..n] + Escaped(w[n..])
  {
    assert Escaped(w) == [w[0]] + Escaped(w[1..]);
    assert Escaped(w[1..]) == [w[1]] + Escaped(w[1..][1..]);
    if n == 2 {
      assert w[1..][1..] == w[n..];
      assert w[..n] == [w[0]] + [w[1]];
    } else {
      assert w[1..][1..] == w[2..];
      assert Escaped(w[2..]) == [w[2]] + Escaped(w[2..][1..]);
      assert w[2..][1..] == w[n..];
      assert w[..n] == [w[0]] + ([w[1]] + [w[2]]);
    }
  }

  lemma CollapseBreak(w: string, n: nat, rest: string)
    requires n == BreakLength(w) > 0
    ensures Collapse(w[..n] + rest) == " " + Collapse(rest)
  {
    var s := w[..n] + rest;
    assert BreakLength(s) == n && s[n..] == rest;
  }

  /** Continuations inside a single-quoted word collapse with the word. */
  lemma {:induction false} CollapseEscaped(w: string)
    ensures Collapse(Escaped(w)) == Escaped(Collapse(w))
    decreases |w|
  {
    if w != "" {
      var n := BreakLength(w);
      if n > 0 {
        CollapseEscaped(w[n..]);
        EscapedBreak(w, n);
        CollapseBreak(w, n, Escaped(w[n..]));
        EscapedStep(' ', Collapse(w[n..]));
      } else {
        CollapseEscaped(w[1..]);
        EscapedStep(w[0], Collapse(w[1..]));
        CollapseStep(w);
      }
    }
  }

  function EscapedChar(c: char): string {
    if c == '\'' then "'\\''" else [c]
  }

  lemma EscapedStep(c: char, w: string)
    ensures Escaped([c] + w) == EscapedChar(c) + Escaped(w)
  {
    assert ([c] + w)[1..] == w;
  }

  /** A first character that starts no continuation stays alone when the word is escaped. */
  lemma CollapseStep(w: string)
    requires w != "" && BreakLength(w) == 0
    ensures Collapse(Escaped(w)) == EscapedChar(w[0]) + Collapse(Escaped(w[1..]))
  {
    var e := Escaped(w[1..]);
    EscapedHead(w[1..]);
    if w[0] == '\'' {
      CollapseConcat("'\\''", e);
      CollapseQuoteEscape();
    } else {
      var s := [w[0]] + e;
      assert BreakLength(s) == 0 && s[1..] == e;
    }
  }

  lemma CollapseQuoteEscape()
    ensures Collapse("'\\''") == "'\\''"
  {
    var s := "'\\''";
    assert s[1..] == "\\''" && s[1..][1..] == "''" && s[1..][1..][1..] == "'" && s[1..][1..][1..][1..] == "";
  }

  /** Escaping leaves leading line ends where they are. */
  lemma EscapedHead(w: string)
    ensures w != "" ==> Escaped(w) != "" && Escaped(w)[0] == w[0]
    ensures w != "" && w[0] == '\r' && |Escaped(w)| > 1 && Escaped(w)[1] == '\n' ==> |w| > 1 && w[1] == '\n'
    ensures w == "" ==> Escaped(w) == ""
  {
    if |w| > 1 && w[0] != '\'' {
      assert Escaped(w)[1] == Escaped(w[1..])[0];
    }
  }

  lemma CollapseBetweenQuotes(e: string)
    ensures Collapse("'" + (e + "'")) == "'" + (Collapse(e) + "'")
  {
    CollapseConcat("'", e + "'");
    CollapseConcat(e, "'");
    assert Collapse("'") == "'";
  }

  /** Whether a word is plain does not change, and a plain word is left alone. */
  lemma CollapsePlain(w: string)
    ensures Plain(Collapse(w)) == Plain(w)
    ensures Plain(w) ==> Collapse(w) == w
  {
    CollapseShrinks(w);
    if Plain(w) {
      PlainIsUnbroken(w);
    }
    if Broken(w) {
      CollapsedHasBlank(w);
    }
  }

  lemma CollapseQuoted(w: string)
    ensures Collapse(ShellQuote(w)) == ShellQuote(Collapse(w))
  {
    CollapsePlain(w);
    if !Plain(w) {
      CollapseEscaped(w);
      CollapseBetweenQuotes(Escaped(w));
      Regroup("'", Escaped(w), "'");
      Regroup("'", Escaped(Collapse(w)), "'");
    }
  }

  lemma Regroup(a: string, b: string, c: string)
    ensures a + b + c == a + (b + c)
  {}

  lemma {:induction false} PlainIsUnbroken(w: string)
    requires '\\' !in w
    ensures !Broken(w)
  {
    if w != "" {
      PlainIsUnbroken(w[1..]);
    }
  }

  lemma {:induction false} CollapsedHasBlank(w: string)
    requires Broken(w)
    ensures ' ' in Collapse(w)
  {
    if BreakLength(w) == 0 {
      CollapsedHasBlank(w[1..]);
    }
  }

  function CollapseAll(ws: seq<string>): seq<string> {
    if ws == [] then [] else [Collapse(ws[0])] + CollapseAll(ws[1..])
  }

  lemma JoinStep(head: string, rest: seq<string>)
    requires rest != []
    ensures Join([head] + rest, ' ') == head + (" " + Join(rest, ' '))
  {
    assert ([head] + rest)[1..] == rest;
  }

  lemma CollapseJoined(head: string, tail: string)
    ensures Collapse(head + (" " + tail)) == Collapse(head) + (" " + Collapse(tail))
  {
    CollapseConcat(head, " " + tail);
    CollapseConcat(" ", tail);
    assert Collapse(" ") == " ";
  }

  lemma {:induction false} CollapseLine(ws: seq<string>)
    ensures Collapse(Join(QuoteAll(ws), ' ')) == Join(QuoteAll(CollapseAll(ws)), ' ')
  {
    if ws != [] {
      var rest := ws[1..];
      CollapseQuoted(ws[0]);
      assert CollapseAll(ws)[1..] == CollapseAll(rest) && CollapseAll(ws)[0] == Collapse(ws[0]);
      assert QuoteAll(CollapseAll(ws)) == [ShellQuote(Collapse(ws[0]))] + QuoteAll(CollapseAll(rest));
      if rest != [] {
        CollapseLine(rest);
        CollapseJoined(ShellQuote(ws[0]), Join(QuoteAll(rest), ' '));
        JoinStep(ShellQuote(ws[0]), QuoteAll(rest));
        JoinStep(ShellQuote(Collapse(ws[0])), QuoteAll(CollapseAll(rest)));
      }
    }
  }

  // -------------------------------------------------------------------------
  // The flags
  // -------------------------------------------------------------------------

  datatype Flag =
    | Request | Header | Data | Url | SkipValue
    | AttachedRequest | AttachedHeader | AttachedData | AttachedUser
    | Ignored | Operand

  const DATA_FLAGS: set<string> := {"-d", "--data", "--data-raw", "--data-urlencode", "--data-binary"}

  const CURL_VALUE_FLAGS: set<string> := {
    "-u", "--user", "-A", "--user-agent", "-e", "--referer", "-b", "--cookie",
    "-c", "--cookie-jar", "-o", "--output", "-m", "--max-time", "--connect-timeout",
    "--cacert", "--cert", "--key", "-F", "--form", "--retry", "-w", "--write-out"
  }

  function FlagOf(tok: string): Flag {
    if tok == "-X" || tok == "--request" then Request
    else if tok == "-H" || tok == "--header" then Header
    else if tok in DATA_FLAGS then Data
    else if tok == "--url" then Url
    else if tok in CURL_VALUE_FLAGS then SkipValue
    else if "-X" <= tok && |tok| > 2 then AttachedRequest
    else if "-H" <= tok && |tok| > 2 then AttachedHeader
    else if "-d" <= tok && |tok| > 2 then AttachedData
    else if "-u" <= tok && |tok| > 2 then AttachedUser
    else if "-" <= tok then Ignored
    else Operand
  }

  function Colon(h: string): int {
    if h == "" then -1
    else if h[0] == ':' then 0
    else var k := Colon(h[1..]); if k < 0 then -1 else k + 1
  }

  lemma {:induction false} ColonBounds(h: string)
    ensures -1 <= Colon(h) < |h|
  {
    if h != "" && h[0] != ':' {
      ColonBounds(h[1..]);
    }
  }

  /** headers[k] = v on a JavaScript record: a string stored under __proto__ is lost. */
  function SetHeader(headers: map<string, string>, k: string, v: string): map<string, string> {
    if k == "__proto__" then headers else headers[k := v]
  }

  function AddHeader(headers: map<string, string>, h: string): map<string, string> {
    ColonBounds(h);
    var colon := Colon(h);
    if colon > 0 then SetHeader(headers, Trim(h[..colon]), Trim(h[colon + 1..])) else headers
  }

  datatype Progress = Progress(verb: string, url: string, headers: map<string, string>, data: seq<string>)

  /** What one token does, given the token after it. */
  function Absorb1(st: Progress, tok: string, arg: string): Progress {
    match FlagOf(tok)
    case Request => st.(verb := ToUpper(arg))
    case Header => st.(headers := AddHeader(st.headers, arg))
    case Data => st.(data := st.data + [arg])
    case Url => st.(url := arg)
    case SkipValue => st
    case AttachedRequest => st.(verb := ToUpper(tok[2..]))
    case AttachedHeader => st.(headers := AddHeader(st.headers, tok[2..]))
    case AttachedData => st.(data := st.data + [tok[2..]])
    case AttachedUser => st
    case Ignored => st
    case Operand => if st.url == "" then st.(url := tok) else st
  }

  predicate TakesValue(tok: string) {
    FlagOf(tok).Request? || FlagOf(tok).Header? || FlagOf(tok).Data? || FlagOf(tok).Url? || FlagOf(tok).SkipValue?
  }

  function Absorb(st: Progress, tokens: seq<string>): Progress
    decreases |tokens|
  {
    if tokens == [] then st
    else
      var arg := if |tokens| > 1 then tokens[1] else "";
      var next := if TakesValue(tokens[0]) && |tokens| > 1 then 2 else 1;
      Absorb(Absorb1(st, tokens[0], arg), tokens[next..])
  }

  function NonEmpty(parts: seq<string>): seq<string> {
    if parts == [] then [] else (if parts[0] != "" then [parts[0]] else []) + NonEmpty(parts[1..])
  }

  function Conclude(st: Progress): Option<CurlRequest> {
    if Trim(st.url) == "" then None
    else
      var body := Join(NonEmpty(st.data), '&');
      var verb := if st.verb != "" then st.verb else if body != "" then "POST" else "GET";
      Some(CurlRequest(verb, Trim(st.url), st.headers, body))
  }

  const START := Progress("", "", map[], [])

  /** The request a command line describes, if it describes one. */
  function Curl(text: string): Option<CurlRequest> {
    match Words(Collapse(text), "", Bare, false)
    case None => None
    case Some(tokens) =>
      if tokens == [] || ToLower(tokens[0]) != "curl" then None
      else Conclude(Absorb(START, tokens[1..]))
  }

  /** The token loop of parseCurlCommand. */
  method ReadTokens(tokens: seq<string>) returns (st: Progress)
    requires tokens != []
    ensures st == Absorb(START, tokens[1..])
  {
    var verb, url := "", "";
    var headers: map<string, string>, dataParts: seq<string> := map[], [];
    var i := 1;
    while i < |tokens|
      invariant 1 <= i <= |tokens|
      invariant Absorb(START, tokens[1..]) == Absorb(Progress(verb, url, headers, dataParts), tokens[i..])
      decreases |tokens| - i
    {
      var tok := tokens[i];
      var arg := if i + 1 < |tokens| then tokens[i + 1] else "";
      ghost var rest := tokens[i..];
      assert rest[1..] == tokens[i + 1..];
      assert i + 1 < |tokens| ==> rest[2..] == tokens[i + 2..];
      match FlagOf(tok) {
      case Request => verb := ToUpper(arg);
      case Header => headers := AddHeader(headers, arg);
      case Data => dataParts := dataParts + [arg];
      case Url => url := arg;
      case SkipValue =>
      case AttachedRequest => verb := ToUpper(tok[2..]);
      case AttachedHeader => headers := AddHeader(headers, tok[2..]);
      case AttachedData => dataParts := dataParts + [tok[2..]];
      case AttachedUser =>
      case Ignored =>
      case Operand => if url == "" { url := tok; }
      }
      i := i + if TakesValue(tok) && i + 1 < |tokens| then 2 else 1;
    }
    st := Progress(verb, url, headers, dataParts);
  }

  /** parseCurlCommand */
  method ParseCurlCommand(text: string) returns (r: Option<CurlRequest>)
    ensures r == Curl(text)
  {
    var words := TokenizeShell(Collapse(text));
    if words.None? || |words.value| == 0 || ToLower(words.value[0]) != "curl" {
      return None;
    }
    var st := ReadTokens(words.value);
    r := Conclude(st);
  }

  // -------------------------------------------------------------------------
  // Printing a request and reading it back
  // -------------------------------------------------------------------------

  /** A request with its headers in the order they are printed. */
  datatype Call = Call(verb: string, url: string, headers: seq<(string, string)>, body: string)

  function HeaderMap(m: map<string, string>, headers: seq<(string, string)>): map<string, string>
    decreases headers
  {
    if headers == [] then m else HeaderMap(m[headers[0].0 := headers[0].1], headers[1..])
  }

  function AsRequest(c: Call): CurlRequest {
    CurlRequest(c.verb, c.url, HeaderMap(map[], c.headers), c.body)
  }

  predicate WellFormedHeader(h: (string, string)) {
    h.0 != "" && ':' !in h.0 && NoOuterSpace(h.0) && h.0 != "__proto__" && NoOuterSpace(h.1)
  }

  predicate WellFormed(c: Call) {
    && c.verb != "" && ToUpper(c.verb) == c.verb
    && c.url != "" && NoOuterSpace(c.url)
    && (forall i :: 0 <= i < |c.headers| ==> WellFormedHeader(c.headers[i]))
    && (forall i, j :: 0 <= i < j < |c.headers| ==> c.headers[i].0 != c.headers[j].0)
  }

  predicate Unbroken(c: Call) {
    && !Broken(c.verb) && !Broken(c.url) && !Broken(c.body)
    && forall i :: 0 <= i < |c.headers| ==> !Broken(c.headers[i].0) && !Broken(c.headers[i].1)
  }

  function HeaderLine(h: (string, string)): string {
    h.0 + ": " + h.1
  }

  function HeaderLines(headers: seq<(string, string)>): seq<string> {
    if headers == [] then [] else [HeaderLine(headers[0])] + HeaderLines(headers[1..])
  }

  function HeaderWords(lines: seq<string>): seq<string> {
    if lines == [] then [] else ["-H", lines[0]] + HeaderWords(lines[1..])
  }

  function BodyWords(body: string): seq<string> {
    if body == "" then [] else ["-d", body]
  }

  function CallWords(verb: string, lines: seq<string>, body: string, url: string): seq<string> {
    ["-X", verb] + (HeaderWords(lines) + (BodyWords(body) + ["--url", url]))
  }

  function PrintWords(c: Call): seq<string> {
    ["curl"] + CallWords(c.verb, HeaderLines(c.headers), c.body, c.url)
  }

  /** curl -X verb -H 'name: value' … -d body --url url, each word quoted as needed. */
  function PrintCurl(c: Call): string {
    Join(QuoteAll(PrintWords(c)), ' ')
  }

  lemma PrintedFlags()
    ensures FlagOf("-X") == Request && FlagOf("-H") == Header && FlagOf("-d") == Data && FlagOf("--url") == Url
  {
    assert "-H"[1] != "-X"[1] && "-d"[1] != "-X"[1] && "-d"[1] != "-H"[1];
    assert |"--url"| == 5 && |"--data"| == 6;
  }

  lemma {:induction false} CollapseAllConcat(a: seq<string>, b: seq<string>)
    ensures CollapseAll(a + b) == CollapseAll(a) + CollapseAll(b)
  {
    if a == [] {
      assert a + b == b;
    } else {
      assert (a + b)[1..] == a[1..] + b;
      CollapseAllConcat(a[1..], b);
    }
  }

  lemma FixedWordsStay()
    ensures Collapse("curl") == "curl" && Collapse("-X") == "-X" && Collapse("-H") == "-H"
    ensures Collapse("-d") == "-d" && Collapse("--url") == "--url"
    ensures ToLower("curl") == "curl"
  {
    PlainIsUnbroken("curl");
    CollapseShrinks("curl");
    PlainIsUnbroken("-X");
    CollapseShrinks("-X");
    PlainIsUnbroken("-H");
    CollapseShrinks("-H");
    PlainIsUnbroken("-d");
    CollapseShrinks("-d");
    PlainIsUnbroken("--url");
    CollapseShrinks("--url");
    assert "curl"[1..] == "url" && "url"[1..] == "rl" && "rl"[1..] == "l" && "l"[1..] == "";
  }

  lemma {:induction false} CollapseHeaderWords(lines: seq<string>)
    ensures CollapseAll(HeaderWords(lines)) == HeaderWords(CollapseAll(lines))
  {
    if lines != [] {
      FixedWordsStay();
      CollapseHeaderWords(lines[1..]);
      CollapsePair("-H", lines[0], HeaderWords(lines[1..]));
      assert CollapseAll(lines)[1..] == CollapseAll(lines[1..]);
    }
  }

  lemma CollapsePair(a: string, b: string, rest: seq<string>)
    ensures CollapseAll([a, b] + rest) == [Collapse(a), Collapse(b)] + CollapseAll(rest)
  {
    var ws := [a, b] + rest;
    assert ws[1..] == [b] + rest && ws[1..][1..] == rest;
  }

  lemma CollapseTail(body: string, url: string)
    ensures CollapseAll(BodyWords(body) + ["--url", url]) == BodyWords(Collapse(body)) + ["--url", Collapse(url)]
  {
    FixedWordsStay();
    var last := ["--url", url];
    CollapseAllConcat(BodyWords(body), last);
    CollapsePair("--url", url, []);
    assert last + [] == last;
    CollapseShrinks(body);
    if body != "" {
      CollapsePair("-d", body, []);
      assert BodyWords(body) + [] == BodyWords(body);
    }
  }

  lemma CollapseCall(verb: string, lines: seq<string>, body: string, url: string)
    ensures CollapseAll(CallWords(verb, lines, body, url))
         == CallWords(Collapse(verb), CollapseAll(lines), Collapse(body), Collapse(url))
  {
    FixedWordsStay();
    var last := BodyWords(body) + ["--url", url];
    CollapsePair("-X", verb, HeaderWords(lines) + last);
    CollapseAllConcat(HeaderWords(lines), last);
    CollapseHeaderWords(lines);
    CollapseTail(body, url);
  }

  lemma AbsorbPair(st: Progress, flag: string, arg: string, rest: seq<string>)
    requires TakesValue(flag)
    ensures Absorb(st, [flag, arg] + rest) == Absorb(Absorb1(st, flag, arg), rest)
  {
    assert ([flag, arg] + rest)[2..] == rest;
  }

  function AddHeaders(headers: map<string, string>, lines: seq<string>): map<string, string>
    decreases lines
  {
    if lines == [] then headers else AddHeaders(AddHeader(headers, lines[0]), lines[1..])
  }

  lemma {:induction false} AbsorbHeaders(st: Progress, lines: seq<string>, rest: seq<string>)
    ensures Absorb(st, HeaderWords(lines) + rest) == Absorb(st.(headers := AddHeaders(st.headers, lines)), rest)
    decreases lines
  {
    if lines == [] {
      assert HeaderWords(lines) + rest == rest;
    } else {
      PrintedFlags();
      var more := HeaderWords(lines[1..]) + rest;
      assert HeaderWords(lines) + rest == ["-H", lines[0]] + more;
      AbsorbPair(st, "-H", lines[0], more);
      AbsorbHeaders(st.(headers := AddHeader(st.headers, lines[0])), lines[1..], rest);
    }
  }

  lemma AbsorbCall(verb: string, lines: seq<string>, body: string, url: string)
    ensures Absorb(START, CallWords(verb, lines, body, url))
         == Progress(ToUpper(verb), url, AddHeaders(map[], lines), if body == "" then [] else [body])
  {
    PrintedFlags();
    var last := ["--url", url];
    AbsorbPair(START, "-X", verb, HeaderWords(lines) + (BodyWords(body) + last));
    var st1 := START.(verb := ToUpper(verb));
    AbsorbHeaders(st1, lines, BodyWords(body) + last);
    var st2 := st1.(headers := AddHeaders(map[], lines));
    if body == "" {
      assert BodyWords(body) + last == last;
    } else {
      AbsorbPair(st2, "-d", body, last);
      assert [] + [body] == [body];
    }
    var st3 := st2.(data := if body == "" then [] else [body]);
    assert last + [] == last;
    AbsorbPair(st3, "--url", url, []);
  }

  /** What reading a printed call gives, continuations included. */
  function ReadBack(c: Call): Option<CurlRequest> {
    if Trim(Collapse(c.url)) == "" then None
    else Some(CurlRequest(ToUpper(Collapse(c.verb)), Trim(Collapse(c.url)),
                          AddHeaders(map[], CollapseAll(HeaderLines(c.headers))), Collapse(c.body)))
  }

  lemma CurlOfWords(text: string, call: seq<string>)
    requires Words(Collapse(text), "", Bare, false) == Some(["curl"] + call)
    ensures Curl(text) == Conclude(Absorb(START, call))
  {
    FixedWordsStay();
    assert (["curl"] + call)[1..] == call;
  }

  function CollapsedWords(c: Call): seq<string> {
    CallWords(Collapse(c.verb), CollapseAll(HeaderLines(c.headers)), Collapse(c.body), Collapse(c.url))
  }

  lemma PrintedWords(c: Call)
    ensures Words(Collapse(PrintCurl(c)), "", Bare, false) == Some(["curl"] + CollapsedWords(c))
  {
    var call := CallWords(c.verb, HeaderLines(c.headers), c.body, c.url);
    CollapseLine(PrintWords(c));
    WordsRoundTrip(CollapseAll(PrintWords(c)));
    FixedWordsStay();
    assert (["curl"] + call)[1..] == call;
    CollapseCall(c.verb, HeaderLines(c.headers), c.body, c.url);
  }

  lemma ConcludeCall(c: Call)
    requires c.verb != ""
    ensures Conclude(Absorb(START, CollapsedWords(c))) == ReadBack(c)
  {
    var body' := Collapse(c.body);
    AbsorbCall(Collapse(c.verb), CollapseAll(HeaderLines(c.headers)), body', Collapse(c.url));
    CollapseShrinks(c.verb);
    UpperLength(Collapse(c.verb));
    if body' != "" {
      assert [body'][1..] == [];
      assert NonEmpty([body']) == [body'];
    }
  }

  lemma CurlOfPrint(c: Call)
    requires c.verb != ""
    ensures Curl(PrintCurl(c)) == ReadBack(c)
  {
    PrintedWords(c);
    CurlOfWords(PrintCurl(c), CollapsedWords(c));
    ConcludeCall(c);
  }

  lemma {:induction false} ColonAt(k: string, rest: string)
    requires ':' !in k
    ensures Colon(k + ":" + rest) == |k|
  {
    var h := k + ":" + rest;
    if k != "" {
      assert h[1..] == k[1..] + ":" + rest;
      ColonAt(k[1..], rest);
    }
  }

  lemma {:induction false} CollapseChars(s: string, c: char)
    requires c !in s && c != ' '
    ensures c !in Collapse(s)
  {
    if s != "" {
      if BreakLength(s) > 0 {
        CollapseChars(s[BreakLength(s)..], c);
      } else {
        CollapseChars(s[1..], c);
      }
    }
  }

  /** A printed header comes back trimmed and without continuations. */
  lemma AddPrintedHeader(m: map<string, string>, h: (string, string))
    requires WellFormedHeader(h)
    ensures AddHeader(m, Collapse(HeaderLine(h))) == SetHeader(m, Trim(Collapse(h.0)), Trim(Collapse(h.1)))
  {
    var k, v := Collapse(h.0), Collapse(h.1);
    CollapseConcat(h.0 + ": ", h.1);
    CollapseConcat(h.0, ": ");
    PlainIsUnbroken(": ");
    CollapseShrinks(": ");
    CollapseShrinks(h.0);
    CollapseChars(h.0, ':');
    var line := k + ": " + v;
    assert Collapse(HeaderLine(h)) == line;
    ColonAt(k, " " + v);
    assert line == k + ":" + (" " + v);
    assert line[..|k|] == k && line[|k| + 1..] == " " + v;
    assert (" " + v)[1..] == v;
    assert TrimStart(" " + v) == TrimStart(v);
  }

  /** Every name and value stored by the reader is free of continuations. */
  predicate CleanMap(m: map<string, string>) {
    forall k :: k in m ==> !Broken(k) && !Broken(m[k])
  }

  lemma {:induction false} StoredHeadersAreClean(m: map<string, string>, headers: seq<(string, string)>)
    requires CleanMap(m) && forall i :: 0 <= i < |headers| ==> WellFormedHeader(headers[i])
    ensures CleanMap(AddHeaders(m, CollapseAll(HeaderLines(headers))))
    decreases headers
  {
    if headers != [] {
      var h := headers[0];
      AddPrintedHeader(m, h);
      CollapsedIsUnbroken(h.0);
      CollapsedIsUnbroken(h.1);
      TrimUnbroken(Collapse(h.0));
      TrimUnbroken(Collapse(h.1));
      var lines := CollapseAll(HeaderLines(headers));
      assert lines[1..] == CollapseAll(HeaderLines(headers[1..]));
      StoredHeadersAreClean(AddHeader(m, lines[0]), headers[1..]);
    }
  }

  lemma {:induction false} UnbrokenHeadersReturn(m: map<string, string>, headers: seq<(string, string)>)
    requires forall i :: 0 <= i < |headers| ==>
      WellFormedHeader(headers[i]) && !Broken(headers[i].0) && !Broken(headers[i].1)
    ensures AddHeaders(m, CollapseAll(HeaderLines(headers))) == HeaderMap(m, headers)
    decreases headers
  {
    if headers != [] {
      var h := headers[0];
      AddPrintedHeader(m, h);
      CollapseShrinks(h.0);
      CollapseShrinks(h.1);
      TrimFacts(h.0);
      TrimFacts(h.1);
      var lines := CollapseAll(HeaderLines(headers));
      assert lines[1..] == CollapseAll(HeaderLines(headers[1..]));
      UnbrokenHeadersReturn(m[h.0 := h.1], headers[1..]);
    }
  }

  /** With distinct names, the record holds each printed header. */
  lemma {:induction false} HeaderMapHolds(m: map<string, string>, headers: seq<(string, string)>, i: nat)
    requires i < |headers| && forall j :: i < j < |headers| ==> headers[i].0 != headers[j].0
    ensures headers[i].0 in HeaderMap(m, headers) && HeaderMap(m, headers)[headers[i].0] == headers[i].1
    decreases headers
  {
    var m' := m[headers[0].0 := headers[0].1];
    if i > 0 {
      HeaderMapHolds(m', headers[1..], i - 1);
    } else {
      HeaderMapKeeps(m', headers[1..], headers[0].0);
    }
  }

  lemma {:induction false} HeaderMapKeeps(m: map<string, string>, headers: seq<(string, string)>, k: string)
    requires k in m && forall j :: 0 <= j < |headers| ==> headers[j].0 != k
    ensures k in HeaderMap(m, headers) && HeaderMap(m, headers)[k] == m[k]
    decreases headers
  {
    if headers != [] {
      HeaderMapKeeps(m[headers[0].0 := headers[0].1], headers[1..], k);
    }
  }

  /** Printing a well-formed request and parsing it returns that request if and only if
      no field holds a backslash-newline. */
  lemma CurlRoundTrip(c: Call)
    requires WellFormed(c)
    ensures Curl(PrintCurl(c)) == Some(AsRequest(c)) <==> Unbroken(c)
  {
    CurlOfPrint(c);
    CollapseShrinks(c.url);
    CollapseShrinks(c.verb);
    CollapseShrinks(c.body);
    UpperLength(Collapse(c.verb));
    TrimFacts(c.url);
    TrimStartFacts(Collapse(c.url));
    TrimEndFacts(TrimStart(Collapse(c.url)));
    if Unbroken(c) {
      UnbrokenHeadersReturn(map[], c.headers);
    }
    if ReadBack(c) == Some(AsRequest(c)) {
      StoredHeadersAreClean(map[], c.headers);
      forall i | 0 <= i < |c.headers|
        ensures !Broken(c.headers[i].0) && !Broken(c.headers[i].1)
      {
        HeaderMapHolds(map[], c.headers, i);
      }
    }
  }
}
