/** Curl command lines as people paste them: words quoted in any way, spread over lines, with
    arguments in any order. */
module PastedCurl {
  import opened AsciiCase
  import opened CurlCommand
  import opened JsText
  import opened Options
  import opened ShellWords

  // -------------------------------------------------------------------------
  // Words laid out over lines
  // -------------------------------------------------------------------------

  /** A blank, a tab or a line continuation. */
  predicate IsUnit(u: string) {
    u in {" ", "\t", "\\\n", "\\\r\n"}
  }

  predicate AreUnits(gap: seq<string>) {
    forall i :: 0 <= i < |gap| ==> IsUnit(gap[i])
  }

  /** What may stand between two words. */
  predicate IsGap(gap: seq<string>) {
    gap != [] && AreUnits(gap)
  }

  function GapText(gap: seq<string>): string {
    if gap == [] then "" else gap[0] + GapText(gap[1..])
  }

  /** The words as written, each but the last followed by its gap. */
  function Laid(qs: seq<string>, gaps: seq<seq<string>>): string
    requires |gaps| + 1 >= |qs|
  {
    if |qs| == 0 then ""
    else if |qs| == 1 then qs[0]
    else qs[0] + (GapText(gaps[0]) + Laid(qs[1..], gaps[1..]))
  }

  ghost predicate IsLayout(qs: seq<string>, gaps: seq<seq<string>>) {
    |gaps| + 1 >= |qs| && forall i :: 0 <= i < |gaps| ==> IsGap(gaps[i])
  }

  /** A gap once its continuations are blanks. */
  function Blanks(gap: seq<string>): string {
    if gap == [] then "" else (if gap[0] == "\t" then "\t" else " ") + Blanks(gap[1..])
  }

  lemma CollapseUnit(u: string, rest: string)
    requires IsUnit(u)
    ensures Collapse(u + rest) == (if u == "\t" then "\t" else " ") + Collapse(rest)
  {
    var s := u + rest;
    if u == "\\\n" {
      assert s[2..] == rest && BreakLength(s) == 2;
    } else if u == "\\\r\n" {
      assert s[3..] == rest && BreakLength(s) == 3;
    } else {
      assert s[1..] == rest && BreakLength(s) == 0;
    }
  }

  lemma {:induction false} CollapseGap(gap: seq<string>, rest: string)
    requires AreUnits(gap)
    ensures Collapse(GapText(gap) + rest) == Blanks(gap) + Collapse(rest)
  {
    if gap == [] {
      assert "" + rest == rest && "" + Collapse(rest) == Collapse(rest);
    } else {
      var more := GapText(gap[1..]) + rest;
      Regroup(gap[0], GapText(gap[1..]), rest);
      assert AreUnits(gap[1..]);
      CollapseUnit(gap[0], more);
      CollapseGap(gap[1..], rest);
      Regroup(if gap[0] == "\t" then "\t" else " ", Blanks(gap[1..]), Collapse(rest));
    }
  }

  lemma GapStarts(gap: seq<string>, rest: string)
    requires IsGap(gap)
    ensures var s := GapText(gap) + rest; s != "" && s[0] != '\n' && s[0] != '\r'
  {
    assert IsUnit(gap[0]);
    assert (GapText(gap) + rest)[0] == gap[0][0];
  }

  /** Continuations collapse inside the words and between them, and nowhere else. */
  lemma CollapseWordAndGap(q: string, gap: seq<string>, rest: string)
    requires IsGap(gap)
    ensures Collapse(q + (GapText(gap) + rest)) == Collapse(q) + (Blanks(gap) + Collapse(rest))
  {
    GapStarts(gap, rest);
    CollapseConcat(q, GapText(gap) + rest);
    CollapseGap(gap, rest);
  }

  // -------------------------------------------------------------------------
  // When the words come back
  // -------------------------------------------------------------------------

  lemma {:induction false} SkipBlanks(gap: seq<string>, rest: string)
    ensures Words(Blanks(gap) + rest, "", Bare, false) == Words(rest, "", Bare, false)
  {
    if gap == [] {
      assert "" + rest == rest;
    } else {
      var s := Blanks(gap) + rest;
      assert IsSpace(s[0]) && s[1..] == Blanks(gap[1..]) + rest;
      SkipBlanks(gap[1..], rest);
    }
  }

  lemma EndWord(w: string, b: string, more: string)
    requires b == " " || b == "\t"
    ensures Words(b + more, w, Bare, true) == Prepend([w], Words(more, "", Bare, false))
  {
    assert (b + more)[1..] == more && IsSpace((b + more)[0]);
  }

  lemma ReadWordAndGap(q: string, w: string, gap: seq<string>, rest: string)
    requires Quotes(q, w) && gap != []
    ensures Words(q + (Blanks(gap) + rest), "", Bare, false) == Prepend([w], Words(rest, "", Bare, false))
  {
    var b := if gap[0] == "\t" then "\t" else " ";
    var more := Blanks(gap[1..]) + rest;
    Regroup(b, Blanks(gap[1..]), rest);
    ReadWord(q, w, b + more);
    EndWord(w, b, more);
    SkipBlanks(gap[1..], rest);
  }

  predicate AnyBroken(qs: seq<string>) {
    qs != [] && (Broken(qs[0]) || AnyBroken(qs[1..]))
  }

  lemma ReadLaidWord(q: string, w: string, gap: seq<string>, rest: string)
    requires Quotes(q, w) && IsGap(gap) && !Broken(q)
    ensures Words(Collapse(q + (GapText(gap) + rest)), "", Bare, false)
         == Prepend([w], Words(Collapse(rest), "", Bare, false))
  {
    CollapseShrinks(q);
    CollapseWordAndGap(q, gap, rest);
    ReadWordAndGap(q, w, gap, Collapse(rest));
  }

  lemma {:induction false} ReadLaid(qs: seq<string>, gaps: seq<seq<string>>, ws: seq<string>)
    requires IsLayout(qs, gaps) && QuotesEach(qs, ws) && !AnyBroken(qs)
    ensures Words(Collapse(Laid(qs, gaps)), "", Bare, false) == Some(ws)
    decreases |ws|
  {
    if |ws| == 1 {
      CollapseShrinks(qs[0]);
      ReadWord(qs[0], ws[0], "");
      assert qs[0] + "" == qs[0] && ws == [ws[0]];
    } else if |ws| > 1 {
      ReadLaidWord(qs[0], ws[0], gaps[0], Laid(qs[1..], gaps[1..]));
      assert QuotesEach(qs[1..], ws[1..]);
      ReadLaid(qs[1..], gaps[1..], ws[1..]);
      assert [ws[0]] + ws[1..] == ws;
    }
  }

  lemma {:induction false} BlanksHaveNoFeed(gap: seq<string>)
    ensures Feeds(Blanks(gap)) == 0
  {
    if gap != [] {
      BlanksHaveNoFeed(gap[1..]);
      FeedsConcat(if gap[0] == "\t" then "\t" else " ", Blanks(gap[1..]));
    }
  }

  /** Each continuation takes its line feed with it. */
  lemma {:induction false} CollapseFeeds(s: string)
    ensures Feeds(Collapse(s)) <= Feeds(s)
    ensures Broken(s) ==> Feeds(Collapse(s)) < Feeds(s)
  {
    if s != "" {
      var n := BreakLength(s);
      if n > 0 {
        CollapseFeeds(s[n..]);
        FeedsConcat(" ", Collapse(s[n..]));
        FeedsConcat(s[..n], s[n..]);
        assert s == s[..n] + s[n..];
        GrownFeeds(s[..n - 1], '\n');
        assert s[..n] == s[..n - 1] + ['\n'];
      } else {
        CollapseFeeds(s[1..]);
        FeedsConcat([s[0]], Collapse(s[1..]));
      }
    }
  }

  lemma {:induction false} LaidFeeds(qs: seq<string>, gaps: seq<seq<string>>)
    requires IsLayout(qs, gaps)
    ensures Feeds(Collapse(Laid(qs, gaps))) <= FeedsIn(qs)
    ensures AnyBroken(qs) ==> Feeds(Collapse(Laid(qs, gaps))) < FeedsIn(qs)
    decreases |qs|
  {
    if qs != [] {
      CollapseFeeds(qs[0]);
      if |qs| == 1 {
        assert qs[1..] == [] && !AnyBroken(qs[1..]) && FeedsIn(qs[1..]) == 0;
      } else {
        var tail := Laid(qs[1..], gaps[1..]);
        CollapseWordAndGap(qs[0], gaps[0], tail);
        FeedsConcat(Collapse(qs[0]), Blanks(gaps[0]) + Collapse(tail));
        FeedsConcat(Blanks(gaps[0]), Collapse(tail));
        BlanksHaveNoFeed(gaps[0]);
        LaidFeeds(qs[1..], gaps[1..]);
      }
    }
  }

  /** A pasted line is read as the words it was written from, whatever their quoting and
      however it is broken between them, if and only if no word is written with a
      backslash-newline in it. */
  lemma PastedWordsIff(qs: seq<string>, gaps: seq<seq<string>>, ws: seq<string>)
    requires IsLayout(qs, gaps) && QuotesEach(qs, ws)
    ensures Words(Collapse(Laid(qs, gaps)), "", Bare, false) == Some(ws) <==> !AnyBroken(qs)
  {
    var text := Collapse(Laid(qs, gaps));
    if AnyBroken(qs) {
      LaidFeeds(qs, gaps);
      QuotedFeeds(qs, ws);
      if Words(text, "", Bare, false).Some? {
        WordsFeeds(text, "", Bare, false);
      }
    } else {
      ReadLaid(qs, gaps, ws);
    }
  }

  // -------------------------------------------------------------------------
  // The arguments of a command
  // -------------------------------------------------------------------------

  /** One argument by what it means; glued: flag and value are one word. */
  datatype Arg =
    | Verb(flag: string, glued: bool, verb: string)
    | Head(flag: string, glued: bool, name: string, value: string)
    | Body(flag: string, glued: bool, text: string)
    | Target(flagged: bool, url: string)
    | Unused(flag: string, glued: bool, value: string)
    | Toggle(flag: string)

  predicate IsVerbFlag(flag: string) {
    flag in {"-X", "--request"}
  }

  predicate IsHeaderFlag(flag: string) {
    flag in {"-H", "--header"}
  }

  predicate IsBodyFlag(flag: string) {
    flag in {"-d", "--data", "--data-raw", "--data-urlencode", "--data-binary"}
  }

  /** The flags whose value says nothing about the request read. */
  predicate IsUnusedFlag(flag: string) {
    || flag in {"-u", "-A", "-e", "-b", "-c", "-o", "-m", "-F", "-w"}
    || flag in {"--user", "--user-agent", "--referer", "--cookie", "--cookie-jar", "--output", "--max-time",
                "--connect-timeout", "--cacert", "--cert", "--key", "--form", "--retry", "--write-out"}
  }

  predicate IsToggle(flag: string) {
    && flag != "" && flag[0] == '-' && flag != "--url"
    && !IsVerbFlag(flag) && !IsHeaderFlag(flag) && !IsBodyFlag(flag) && !IsUnusedFlag(flag)
    && (|flag| > 2 ==> flag[1] !in "XHdu")
  }

  predicate GoodArg(a: Arg) {
    match a
    case Verb(flag, glued, verb) => if glued then flag == "-X" && verb != "" else IsVerbFlag(flag)
    case Head(flag, glued, name, value) =>
      WellFormedHeader((name, value)) && if glued then flag == "-H" else IsHeaderFlag(flag)
    case Body(flag, glued, text) => if glued then flag == "-d" && text != "" else IsBodyFlag(flag)
    case Target(flagged, url) => flagged || url == "" || url[0] != '-'
    case Unused(flag, glued, value) => if glued then flag == "-u" && value != "" else IsUnusedFlag(flag)
    case Toggle(flag) => IsToggle(flag)
  }

  function Written(flag: string, glued: bool, value: string): seq<string> {
    if glued then [flag + value] else [flag, value]
  }

  function ArgWords(a: Arg): seq<string> {
    match a
    case Verb(flag, glued, verb) => Written(flag, glued, verb)
    case Head(flag, glued, name, value) => Written(flag, glued, name + ": " + value)
    case Body(flag, glued, text) => Written(flag, glued, text)
    case Target(flagged, url) => if flagged then ["--url", url] else [url]
    case Unused(flag, glued, value) => Written(flag, glued, value)
    case Toggle(flag) => [flag]
  }

  function AllWords(args: seq<Arg>): seq<string> {
    if args == [] then [] else ArgWords(args[0]) + AllWords(args[1..])
  }

  // -------------------------------------------------------------------------
  // The request they ask for
  // -------------------------------------------------------------------------

  /** The last verb given, or the one before. */
  function VerbOf(args: seq<Arg>, before: string): string
    decreases |args|
  {
    if args == [] then before
    else VerbOf(args[1..], if args[0].Verb? then ToUpper(args[0].verb) else before)
  }

  /** The last --url, or the first operand after it if that is empty. */
  function UrlOf(args: seq<Arg>, before: string): string
    decreases |args|
  {
    if args == [] then before
    else UrlOf(args[1..], if args[0].Target? && (args[0].flagged || before == "") then args[0].url else before)
  }

  function HeadersOf(args: seq<Arg>, before: map<string, string>): map<string, string>
    decreases |args|
  {
    if args == [] then before
    else HeadersOf(args[1..], if args[0].Head? then before[args[0].name := args[0].value] else before)
  }

  /** The data given, empty pieces left out. */
  function BodiesOf(args: seq<Arg>): seq<string> {
    if args == [] then []
    else (if args[0].Body? && args[0].text != "" then [args[0].text] else []) + BodiesOf(args[1..])
  }

  /** Without a target there is no request; data is joined with &, and makes a request
      without a verb a POST. */
  function Asked(args: seq<Arg>): Option<CurlRequest> {
    var url, verb, body := Trim(UrlOf(args, "")), VerbOf(args, ""), Join(BodiesOf(args), '&');
    if url == "" then None
    else
      Some(CurlRequest(if verb != "" then verb else if BodiesOf(args) != [] then "POST" else "GET",
                       url, HeadersOf(args, map[]), body))
  }

  // -------------------------------------------------------------------------
  // Reading the arguments
  // -------------------------------------------------------------------------

  /** What one argument does to what was read before it. */
  function After(st: Progress, a: Arg): Progress {
    match a
    case Verb(_, _, verb) => st.(verb := ToUpper(verb))
    case Head(_, _, name, value) => st.(headers := st.headers[name := value])
    case Body(_, _, text) => st.(data := st.data + [text])
    case Target(flagged, url) => if flagged || st.url == "" then st.(url := url) else st
    case _ => st
  }

  lemma NamedFlags(flag: string)
    ensures IsVerbFlag(flag) ==> FlagOf(flag).Request?
    ensures IsHeaderFlag(flag) ==> FlagOf(flag).Header?
    ensures IsBodyFlag(flag) ==> FlagOf(flag).Data?
    ensures FlagOf("--url").Url?
  {
    assert "-H"[1] != "-X"[1] && "--header"[2] != "--request"[2];
    assert "-d"[1] != "-X"[1] && "-d"[1] != "-H"[1];
  }

  lemma UnusedFlags(flag: string)
    requires IsUnusedFlag(flag)
    ensures FlagOf(flag).SkipValue?
  {
    if |flag| == 2 {
      assert flag[1] !in "XHd";
    } else {
      assert |flag| == 9 ==> flag[4] == 'f';
      assert flag[2] !in "d" && (|flag| == 8 ==> flag[2] != 'h') && (|flag| == 5 ==> flag[2] != 'u');
    }
  }

  /** Every listed flag of more than one letter starts with two dashes. */
  lemma LongFlags(tok: string)
    requires |tok| > 2 && tok[1] != '-'
    ensures tok !in DATA_FLAGS && tok !in CURL_VALUE_FLAGS
    ensures tok != "--request" && tok != "--header" && tok != "--url"
  {}

  /** A word that starts with a flag of one letter and goes on is glued to its value. */
  lemma GluedFlags(flag: string, value: string)
    requires value != "" && flag in {"-X", "-H", "-d", "-u"}
    ensures var f := FlagOf(flag + value);
      && (flag == "-X" ==> f.AttachedRequest?) && (flag == "-H" ==> f.AttachedHeader?)
      && (flag == "-d" ==> f.AttachedData?) && (flag == "-u" ==> f.AttachedUser?)
    ensures (flag + value)[2..] == value
  {
    var tok := flag + value;
    assert tok[1] == flag[1] && tok[..2] == flag;
    LongFlags(tok);
  }

  lemma Toggles(flag: string)
    requires IsToggle(flag)
    ensures FlagOf(flag).Ignored?
  {
    assert |flag| > 2 ==> flag[..2][1] == flag[1];
  }

  lemma Operands(url: string)
    requires url == "" || url[0] != '-'
    ensures FlagOf(url).Operand?
  {}

  lemma AbsorbOne(st: Progress, tok: string, rest: seq<string>)
    requires !TakesValue(tok)
    ensures Absorb(st, [tok] + rest) == Absorb(Absorb1(st, tok, if rest == [] then "" else rest[0]), rest)
  {
    assert ([tok] + rest)[1..] == rest;
  }

  /** A header line is read as its name and value. */
  lemma ReadHeader(m: map<string, string>, name: string, value: string)
    requires WellFormedHeader((name, value))
    ensures AddHeader(m, name + ": " + value) == m[name := value]
  {
    var line := name + ": " + value;
    assert line == name + ":" + (" " + value);
    ColonAt(name, " " + value);
    assert line[..|name|] == name && line[|name| + 1..] == " " + value;
    assert (" " + value)[1..] == value;
    TrimFacts(name);
    TrimFacts(value);
  }

  lemma AbsorbWritten(st: Progress, a: Arg, rest: seq<string>)
    requires GoodArg(a) && !a.Target? && !a.Toggle?
    ensures Absorb(st, ArgWords(a) + rest) == Absorb(After(st, a), rest)
  {
    var value := match a case Verb(_, _, v) => v case Head(_, _, n, v) => n + ": " + v
                         case Body(_, _, v) => v case Unused(_, _, v) => v;
    if a.Head? {
      ReadHeader(st.headers, a.name, a.value);
    }
    if a.glued {
      GluedFlags(a.flag, value);
      AbsorbOne(st, a.flag + value, rest);
    } else {
      NamedFlags(a.flag);
      if a.Unused? {
        UnusedFlags(a.flag);
      }
      AbsorbPair(st, a.flag, value, rest);
    }
  }

  lemma AbsorbArg(st: Progress, a: Arg, rest: seq<string>)
    requires GoodArg(a)
    ensures Absorb(st, ArgWords(a) + rest) == Absorb(After(st, a), rest)
  {
    match a {
      case Target(flagged, url) =>
        if flagged {
          NamedFlags("--url");
          AbsorbPair(st, "--url", url, rest);
        } else {
          Operands(url);
          AbsorbOne(st, url, rest);
        }
      case Toggle(flag) =>
        Toggles(flag);
        AbsorbOne(st, flag, rest);
      case _ => AbsorbWritten(st, a, rest);
    }
  }

  lemma {:induction false} NonEmptyConcat(a: seq<string>, b: seq<string>)
    ensures NonEmpty(a + b) == NonEmpty(a) + NonEmpty(b)
  {
    if a == [] {
      assert a + b == b;
    } else {
      assert (a + b)[1..] == a[1..] + b;
      NonEmptyConcat(a[1..], b);
    }
  }

  lemma OneNonEmpty(part: string)
    ensures NonEmpty([part]) == if part != "" then [part] else []
  {
    assert [part][1..] == [];
  }

  function AfterAll(st: Progress, args: seq<Arg>): Progress
    decreases |args|
  {
    if args == [] then st else AfterAll(After(st, args[0]), args[1..])
  }

  lemma {:induction false} AbsorbArgs(st: Progress, args: seq<Arg>)
    requires forall i :: 0 <= i < |args| ==> GoodArg(args[i])
    ensures Absorb(st, AllWords(args)) == AfterAll(st, args)
    decreases |args|
  {
    if args != [] {
      AbsorbArg(st, args[0], AllWords(args[1..]));
      AbsorbArgs(After(st, args[0]), args[1..]);
    }
  }

  lemma {:induction false} AfterAllFields(st: Progress, args: seq<Arg>)
    ensures AfterAll(st, args).verb == VerbOf(args, st.verb)
    ensures AfterAll(st, args).url == UrlOf(args, st.url)
    ensures AfterAll(st, args).headers == HeadersOf(args, st.headers)
    decreases |args|
  {
    if args != [] {
      AfterAllFields(After(st, args[0]), args[1..]);
    }
  }

  lemma {:induction false} AfterAllBodies(st: Progress, args: seq<Arg>)
    ensures NonEmpty(AfterAll(st, args).data) == NonEmpty(st.data) + BodiesOf(args)
    decreases |args|
  {
    if args == [] {
      assert NonEmpty(st.data) + [] == NonEmpty(st.data);
    } else {
      var a, rest := args[0], BodiesOf(args[1..]);
      var own := if a.Body? && a.text != "" then [a.text] else [];
      AfterAllBodies(After(st, a), args[1..]);
      Reassociate(NonEmpty(st.data), own, rest);
      if a.Body? {
        NonEmptyConcat(st.data, [a.text]);
        OneNonEmpty(a.text);
      } else {
        assert NonEmpty(st.data) + own == NonEmpty(st.data);
      }
    }
  }

  lemma Reassociate(a: seq<string>, b: seq<string>, c: seq<string>)
    ensures a + b + c == a + (b + c)
  {}

  lemma JoinedIsNonEmpty(parts: seq<string>)
    requires forall p :: p in parts ==> p != ""
    ensures Join(parts, '&') == "" <==> parts == []
  {
    if parts != [] {
      assert parts[0] in parts;
    }
  }

  lemma {:induction false} BodiesAreNonEmpty(args: seq<Arg>)
    ensures forall p :: p in BodiesOf(args) ==> p != ""
  {
    if args != [] {
      BodiesAreNonEmpty(args[1..]);
    }
  }

  /** A pasted curl command is read as the request its arguments ask for: in any order, with
      glued or separate values, unused flags skipped with their values, however the words
      are quoted and wherever the line is broken between them. */
  lemma PastedCurlIsRead(name: string, args: seq<Arg>, qs: seq<string>, gaps: seq<seq<string>>)
    requires ToLower(name) == "curl" && forall i :: 0 <= i < |args| ==> GoodArg(args[i])
    requires IsLayout(qs, gaps) && QuotesEach(qs, [name] + AllWords(args)) && !AnyBroken(qs)
    ensures Curl(Laid(qs, gaps)) == Asked(args)
  {
    ReadLaid(qs, gaps, [name] + AllWords(args));
    assert ([name] + AllWords(args))[1..] == AllWords(args);
    AbsorbArgs(START, args);
    AfterAllFields(START, args);
    AfterAllBodies(START, args);
    assert [] + BodiesOf(args) == BodiesOf(args);
    BodiesAreNonEmpty(args);
    JoinedIsNonEmpty(BodiesOf(args));
  }
}
