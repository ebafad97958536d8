/** Piping the bare credential placeholders of a form body through urlquery. */
module LoginTemplates {
  import opened Options
  import opened FormCodec
  import opened RequestTemplates
  import opened RefreshGrant

  // -------------------------------------------------------------------------
  // \{\{\s*\.(name)\s*\}\} and its replacement
  // -------------------------------------------------------------------------

  predicate IsBlank(c: char) {
    c == '\t' || c == '\n' || c == '\U{0C}' || c == '\r' || c == ' '
  }

  predicate IsLetter(c: char) {
    'a' <= c <= 'z' || 'A' <= c <= 'Z'
  }

  /** Length of the leading run of blanks. */
  function Blanks(s: string): (n: nat)
    ensures n <= |s|
  {
    if s != "" && IsBlank(s[0]) then 1 + Blanks(s[1..]) else 0
  }

  function Letters(s: string): (n: nat)
    ensures n <= |s|
  {
    if s != "" && IsLetter(s[0]) then 1 + Letters(s[1..]) else 0
  }

  datatype Match = Match(length: nat, name: string)

  predicate Opens(s: string) {
    |s| > 1 && s[0] == '{' && s[1] == '{'
  }

  predicate Closes(s: string) {
    |s| > 1 && s[0] == '}' && s[1] == '}'
  }

  function Shift(n: nat, m: Option<Match>): Option<Match> {
    match m case Some(x) => Some(Match(n + x.length, x.name)) case None => None
  }

  /** A name, blanks and the closing braces at the head of the text. Names consist of
      letters, so the leading run of letters is the only candidate. */
  function CloseAt(s: string, names: set<string>): Option<Match> {
    var n := Letters(s);
    var b := n + Blanks(s[n..]);
    if s[..n] in names && Closes(s[b..]) then Some(Match(b + 2, s[..n])) else None
  }

  /** Blanks, a dot and such a name. */
  function DotAt(s: string, names: set<string>): Option<Match> {
    var a := Blanks(s);
    if a < |s| && s[a] == '.' then Shift(a + 1, CloseAt(s[a + 1..], names)) else None
  }

  /** The bare placeholder at the head of the text, if there is one. */
  function BareAt(s: string, names: set<string>): Option<Match> {
    if Opens(s) then Shift(2, DotAt(s[2..], names)) else None
  }

  lemma BareLength(s: string, names: set<string>)
    ensures BareAt(s, names).Some? ==> 4 < BareAt(s, names).value.length <= |s|
  {}

  /** ReplaceAllString: leftmost matches, left to right, without overlap. */
  function Rewrite(s: string, names: set<string>): string
    decreases |s|
  {
    if s == "" then ""
    else
      BareLength(s, names);
      match BareAt(s, names)
      case Some(m) => Piped(m.name) + Rewrite(s[m.length..], names)
      case None => [s[0]] + Rewrite(s[1..], names)
  }

  predicate AllBlank(w: string) {
    Blanks(w) == |w|
  }

  predicate IsWord(w: string) {
    w != "" && Letters(w) == |w|
  }

  predicate AreNames(names: set<string>) {
    forall n :: n in names ==> IsWord(n)
  }

  // -------------------------------------------------------------------------
  // The rewrite is idempotent on every text
  // -------------------------------------------------------------------------

  predicate NoBare(s: string, names: set<string>) {
    s != "" ==> BareAt(s, names).None? && NoBare(s[1..], names)
  }

  lemma {:induction false} NothingToRewrite(s: string, names: set<string>)
    requires NoBare(s, names)
    ensures Rewrite(s, names) == s
  {
    if s != "" {
      NothingToRewrite(s[1..], names);
    }
  }

  lemma {:induction false} BlanksOf(w: string, rest: string)
    requires AllBlank(w) && (rest == "" || !IsBlank(rest[0]))
    ensures Blanks(w + rest) == |w|
  {
    if w == "" {
      assert w + rest == rest;
    } else {
      assert (w + rest)[1..] == w[1..] + rest;
      BlanksOf(w[1..], rest);
    }
  }

  lemma {:induction false} LettersOf(w: string, rest: string)
    requires Letters(w) == |w| && (rest == "" || !IsLetter(rest[0]))
    ensures Letters(w + rest) == |w|
  {
    if w == "" {
      assert w + rest == rest;
    } else {
      assert (w + rest)[1..] == w[1..] + rest;
      LettersOf(w[1..], rest);
    }
  }

  /** What follows the opening braces of a placeholder. */
  function Inner(pre: string, name: string, post: string): string {
    pre + ("." + (name + (post + "}}")))
  }

  /** The placeholder with the given blanks. */
  function Bare(pre: string, name: string, post: string): string {
    "{{" + Inner(pre, name, post)
  }

  lemma DropTail(name: string, tail: string, k: nat)
    requires k <= |tail|
    ensures (name + tail)[..|name|] == name && (name + tail)[|name| + k..] == tail[k..]
  {}

  lemma {:induction false} CloseThen(name: string, tail: string, names: set<string>)
    requires IsWord(name) && name in names && tail != "" && !IsLetter(tail[0])
    ensures CloseAt(name + tail, names)
         == if Closes(tail[Blanks(tail)..]) then Some(Match(|name| + Blanks(tail) + 2, name)) else None
  {
    LettersOf(name, tail);
    DropTail(name, tail, 0);
    assert tail[0..] == tail;
    DropTail(name, tail, Blanks(tail));
  }

  lemma CloseIsFound(name: string, post: string, rest: string, names: set<string>)
    requires IsWord(name) && name in names && AllBlank(post)
    ensures CloseAt(name + (post + ("}}" + rest)), names) == Some(Match(|name| + |post| + 2, name))
  {
    var tail := post + ("}}" + rest);
    assert tail[0] == if post == "" then '}' else post[0];
    BlanksOf(post, "}}" + rest);
    DropTail(post, "}}" + rest, 0);
    assert tail[|post|..] == "}}" + rest;
    CloseThen(name, tail, names);
  }

  lemma DotThen(pre: string, u: string, names: set<string>)
    requires AllBlank(pre)
    ensures DotAt(pre + ("." + u), names) == Shift(|pre| + 1, CloseAt(u, names))
  {
    var s := pre + ("." + u);
    BlanksOf(pre, "." + u);
    assert s[|pre|] == '.' && s[|pre| + 1..] == u;
  }

  lemma OpenThen(t: string, names: set<string>)
    ensures BareAt("{{" + t, names) == Shift(2, DotAt(t, names))
  {
    assert ("{{" + t)[2..] == t;
  }

  lemma InnerThen(pre: string, name: string, post: string, rest: string)
    ensures Inner(pre, name, post) + rest == pre + ("." + (name + (post + ("}}" + rest))))
    ensures |Inner(pre, name, post)| == |pre| + 1 + |name| + |post| + 2
  {
    Assoc(pre, "." + (name + (post + "}}")), rest);
    Assoc(".", name + (post + "}}"), rest);
    Assoc(name, post + "}}", rest);
    Assoc(post, "}}", rest);
  }

  lemma BareThen(inner: string, rest: string)
    ensures ("{{" + inner) + rest == "{{" + (inner + rest)
    ensures |"{{" + inner| == 2 + |inner|
  {}

  lemma DotIsFound(pre: string, name: string, post: string, rest: string, names: set<string>)
    requires IsWord(name) && name in names && AllBlank(pre) && AllBlank(post)
    ensures DotAt(Inner(pre, name, post) + rest, names) == Some(Match(|Inner(pre, name, post)|, name))
  {
    InnerThen(pre, name, post, rest);
    DotIsFoundIn(pre, name, post, rest, Inner(pre, name, post) + rest, names);
  }

  lemma DotIsFoundIn(pre: string, name: string, post: string, rest: string, whole: string, names: set<string>)
    requires IsWord(name) && name in names && AllBlank(pre) && AllBlank(post)
    requires whole == pre + ("." + (name + (post + ("}}" + rest))))
    ensures DotAt(whole, names) == Some(Match(|pre| + 1 + |name| + |post| + 2, name))
  {
    CloseIsFound(name, post, rest, names);
    DotThen(pre, name + (post + ("}}" + rest)), names);
  }

  lemma OpenIsFound(inner: string, name: string, rest: string, names: set<string>)
    requires DotAt(inner + rest, names) == Some(Match(|inner|, name))
    ensures BareAt("{{" + inner + rest, names) == Some(Match(|"{{" + inner|, name))
  {
    BareThen(inner, rest);
    OpenThen(inner + rest, names);
  }

  /** A placeholder spelled out is found, with its name. */
  lemma BareIsFound(pre: string, name: string, post: string, rest: string, names: set<string>)
    requires IsWord(name) && name in names && AllBlank(pre) && AllBlank(post)
    ensures BareAt(Bare(pre, name, post) + rest, names) == Some(Match(|Bare(pre, name, post)|, name))
  {
    DotIsFound(pre, name, post, rest, names);
    OpenIsFound(Inner(pre, name, post), name, rest, names);
  }

  lemma CloseIsSpelled(s: string, names: set<string>) returns (post: string)
    requires CloseAt(s, names).Some?
    ensures AllBlank(post)
    ensures var m := CloseAt(s, names).value;
      m.name in names && m.length <= |s| && s[..m.length] == m.name + (post + "}}")
  {
    var n := Letters(s);
    var b := n + Blanks(s[n..]);
    post := s[n..b];
    BlankRun(s[n..]);
    assert post == s[n..][..b - n];
    assert s[..b + 2] == s[..n] + (s[n..b] + s[b..b + 2]);
    assert s[b..b + 2] == "}}";
  }

  lemma TakeThrough(s: string, a: nat, n: nat)
    requires a + 1 + n <= |s|
    ensures s[..a + 1 + n] == s[..a] + ([s[a]] + s[a + 1..][..n])
  {}

  /** Taken apart, a match is exactly such a spelling. */
  lemma DotIsSpelled(s: string, names: set<string>) returns (pre: string, post: string)
    requires DotAt(s, names).Some?
    ensures AllBlank(pre) && AllBlank(post)
    ensures var m := DotAt(s, names).value;
      m.name in names && m.length <= |s| && s[..m.length] == Inner(pre, m.name, post)
  {
    var a := Blanks(s);
    pre := s[..a];
    BlankRun(s);
    var u := s[a + 1..];
    var n := CloseAt(u, names).value.length;
    post := CloseIsSpelled(u, names);
    TakeThrough(s, a, n);
    assert [s[a]] == ".";
  }

  lemma {:induction false} BlankRun(s: string)
    ensures AllBlank(s[..Blanks(s)])
  {
    if s != "" && IsBlank(s[0]) {
      BlankRun(s[1..]);
      assert s[..Blanks(s)][1..] == s[1..][..Blanks(s[1..])];
    }
  }

  lemma {:induction false} RunsHaveNoBrace(w: string)
    requires Blanks(w) == |w| || Letters(w) == |w|
    ensures '{' !in w
  {
    if w != "" {
      RunsHaveNoBrace(w[1..]);
    }
  }

  /** Text without an opening brace is copied, and only copied text can start so. */
  lemma {:induction false} RewrittenPrefix(s: string, w: string, names: set<string>)
    requires w <= Rewrite(s, names) && '{' !in w
    ensures w <= s
    decreases |s|
  {
    if w != "" {
      assert w[0] == Rewrite(s, names)[0] && w[0] in w;
      assert BareAt(s, names).None?;
      assert Rewrite(s, names)[1..] == Rewrite(s[1..], names);
      assert w[1..] <= Rewrite(s[1..], names);
      RewrittenPrefix(s[1..], w[1..], names);
    }
  }

  lemma {:induction false} NoBareBehind(a: string, rest: string, names: set<string>)
    requires '{' !in a && NoBare(rest, names)
    ensures NoBare(a + rest, names)
  {
    if a == "" {
      assert a + rest == rest;
    } else {
      assert (a + rest)[0] == a[0] && a[0] in a;
      assert (a + rest)[1..] == a[1..] + rest;
      NoBareBehind(a[1..], rest, names);
    }
  }

  /** A name with a pipe behind it does not close a bare placeholder. */
  lemma PipedDoesNotClose(name: string, rest: string, names: set<string>)
    requires IsWord(name) && name in names
    ensures DotAt("." + (name + (" |" + rest)), names).None?
  {
    var tail := " |" + rest;
    var u := name + tail;
    assert "" + ("." + u) == "." + u;
    DotThen("", u, names);
    CloseThen(name, tail, names);
    BlanksOf(" ", "|" + rest);
    assert tail == " " + ("|" + rest);
    assert tail[1..] == "|" + rest;
  }

  lemma NoBareAfterBraces(t: string, names: set<string>)
    requires t != "" && t[0] == '.' && NoBare(t, names) && DotAt(t, names).None?
    ensures NoBare("{{" + t, names)
  {
    var s := "{{" + t;
    OpenThen(t, names);
    assert s[1..][1..] == t && s[1..][1] == '.';
  }

  /** The emitted placeholder is not bare. */
  lemma PipedIsNotBare(name: string, rest: string, names: set<string>)
    requires AreNames(names) && name in names && NoBare(rest, names)
    ensures NoBare(Piped(name) + rest, names)
  {
    var inner := "." + (name + (" |" + " urlquery}}"));
    PipedSplit(name, rest);
    Assoc(".", name + (" |" + " urlquery}}"), rest);
    Assoc(name, " |" + " urlquery}}", rest);
    Assoc(" |", " urlquery}}", rest);
    PipedDoesNotClose(name, " urlquery}}" + rest, names);
    RunsHaveNoBrace(name);
    NoBraceInPipe();
    NoBareBehind(inner, rest, names);
    NoBareAfterBraces(inner + rest, names);
  }

  lemma NoBraceInPipe()
    ensures '{' !in " |" && '{' !in " urlquery}}"
  {}

  lemma PipedSplit(name: string, rest: string)
    ensures Piped(name) + rest == "{{" + ("." + (name + (" |" + " urlquery}}")) + rest)
  {
    assert PIPE + "}}" == " |" + " urlquery}}";
    assert Piped(name) == "{{" + ("." + (name + (PIPE + "}}")));
    Assoc("{{", "." + (name + (PIPE + "}}")), rest);
  }

  lemma InnerHasNoBrace(pre: string, name: string, post: string)
    requires AllBlank(pre) && AllBlank(post) && IsWord(name)
    ensures '{' !in Inner(pre, name, post)
  {
    RunsHaveNoBrace(pre);
    RunsHaveNoBrace(name);
    RunsHaveNoBrace(post);
  }

  lemma PrefixOf(s: string, w: string)
    ensures |w| <= |s| && s[..|w|] == w ==> w <= s
    ensures w <= s ==> s == w + s[|w|..]
  {}

  /** A placeholder tail seen in rewritten text was there before. */
  lemma DotSurvives(u: string, names: set<string>)
    requires AreNames(names) && DotAt(Rewrite(u, names), names).Some?
    ensures DotAt(u, names).Some?
  {
    var r := Rewrite(u, names);
    var pre, post := DotIsSpelled(r, names);
    var m := DotAt(r, names).value;
    var inner := Inner(pre, m.name, post);
    assert IsWord(m.name);
    InnerHasNoBrace(pre, m.name, post);
    PrefixOf(r, inner);
    RewrittenPrefix(u, inner, names);
    PrefixOf(u, inner);
    DotIsFound(pre, m.name, post, u[|inner|..], names);
  }

  lemma DotStarts(s: string, names: set<string>)
    requires DotAt(s, names).Some?
    ensures s != "" && s[0] != '{'
  {}

  lemma OpenSplit(c: char, r: string, names: set<string>)
    ensures BareAt([c] + r, names).Some? <==> c == '{' && r != "" && r[0] == '{' && DotAt(r[1..], names).Some?
  {
    if r != "" {
      assert ([c] + r)[2..] == r[1..];
    }
  }

  /** Behind its first character, rewritten text that is no placeholder is rewritten. */
  lemma RewriteTail(t: string, names: set<string>)
    ensures Rewrite(t, names) != "" ==> t != ""
    ensures |Rewrite(t, names)| > 1 && Rewrite(t, names)[1] != '{' ==>
      t[0] == Rewrite(t, names)[0] && Rewrite(t, names)[1..] == Rewrite(t[1..], names)
  {
    if t != "" {
      BareLength(t, names);
      match BareAt(t, names) {
        case Some(m) => PipedOpens(m.name, Rewrite(t[m.length..], names));
        case None => HeadCopied(t[0], Rewrite(t[1..], names));
      }
    }
  }

  lemma PipedOpens(name: string, rest: string)
    ensures |Piped(name) + rest| > 1 && (Piped(name) + rest)[1] == '{'
  {}

  lemma HeadCopied(c: char, rest: string)
    ensures ([c] + rest)[0] == c && ([c] + rest)[1..] == rest
  {}

  /** A copied character does not complete a placeholder with what follows it. */
  lemma CopiedStartsNoBare(c: char, t: string, names: set<string>)
    requires AreNames(names) && BareAt([c] + t, names).None?
    ensures BareAt([c] + Rewrite(t, names), names).None?
  {
    var r := Rewrite(t, names);
    OpenSplit(c, r, names);
    if BareAt([c] + r, names).Some? {
      DotStarts(r[1..], names);
      RewriteTail(t, names);
      DotSurvives(t[1..], names);
      OpenSplit(c, t, names);
      assert false;
    }
  }

  lemma {:induction false} RewriteLeavesNoBare(s: string, names: set<string>)
    requires AreNames(names)
    ensures NoBare(Rewrite(s, names), names)
    decreases |s|
  {
    if s != "" {
      BareLength(s, names);
      match BareAt(s, names) {
        case Some(m) =>
          RewriteLeavesNoBare(s[m.length..], names);
          assert m.name in names by {
            var pre, post := DotIsSpelled(s[2..], names);
          }
          PipedIsNotBare(m.name, Rewrite(s[m.length..], names), names);
        case None =>
          RewriteLeavesNoBare(s[1..], names);
          assert s == [s[0]] + s[1..];
          CopiedStartsNoBare(s[0], s[1..], names);
          assert ([s[0]] + Rewrite(s[1..], names))[1..] == Rewrite(s[1..], names);
      }
    }
  }

  /** Rewriting twice changes nothing more, on any text whatever. */
  lemma RewriteIdempotent(s: string, names: set<string>)
    requires AreNames(names)
    ensures Rewrite(Rewrite(s, names), names) == Rewrite(s, names)
  {
    RewriteLeavesNoBare(s, names);
    NothingToRewrite(Rewrite(s, names), names);
  }

  // -------------------------------------------------------------------------
  // What a form login sends
  // -------------------------------------------------------------------------

  /** A stretch of a form body: authored text, a bare credential placeholder, one that is
      piped already, or a placeholder for another seeded value. */
  datatype Piece =
    | Lit(raw: string) | Hole(pre: string, name: string, post: string)
    | Done(name: string) | Other(name: string, value: string)

  /** A field of a login form: a key and a value that may mix text and placeholders. */
  datatype Field = Field(key: string, value: seq<Piece>)

  predicate IsPiece(p: Piece, names: set<string>) {
    match p
    case Lit(raw) => '{' !in raw
    case Hole(pre, name, post) => AllBlank(pre) && AllBlank(post) && name in names
    case Done(name) => name in names
    case Other(name, value) => IsWord(name) && name !in names && IsValueText(value)
  }

  ghost predicate ArePieces(ps: seq<Piece>, names: set<string>) {
    forall i {:trigger ps[i]} :: 0 <= i < |ps| ==> IsPiece(ps[i], names)
  }

  function PieceText(p: Piece): string {
    match p
    case Lit(raw) => raw
    case Hole(pre, name, post) => Bare(pre, name, post)
    case Done(name) => Piped(name)
    case Other(name, _) => Plain(name)
  }

  function PipedText(p: Piece): string {
    match p
    case Lit(raw) => raw
    case Hole(_, name, _) => Piped(name)
    case Done(name) => Piped(name)
    case Other(name, _) => Plain(name)
  }

  function AuthoredText(ps: seq<Piece>): string {
    if ps == [] then "" else PieceText(ps[0]) + AuthoredText(ps[1..])
  }

  function RewrittenText(ps: seq<Piece>): string {
    if ps == [] then "" else PipedText(ps[0]) + RewrittenText(ps[1..])
  }

  /** Contexts seed every placeholder name. */
  ghost predicate Seeds(env: map<string, string>, names: set<string>) {
    IsContext(env) && forall n :: n in names ==> n in env
  }

  /** The other placeholders have their values in the context. */
  ghost predicate SeedsOthers(ps: seq<Piece>, env: map<string, string>) {
    forall i {:trigger ps[i]} :: 0 <= i < |ps| && ps[i].Other? ==> ps[i].name in env && env[ps[i].name] == ps[i].value
  }

  function RenderedPiece(p: Piece, env: map<string, string>, ghost names: set<string>): string
    requires IsPiece(p, names) && Seeds(env, names)
  {
    match p
    case Lit(raw) => raw
    case Hole(_, name, _) => QueryEscape(env[name])
    case Done(name) => QueryEscape(env[name])
    case Other(_, value) => value
  }

  function RenderedText(ps: seq<Piece>, env: map<string, string>, ghost names: set<string>): string
    requires ArePieces(ps, names) && Seeds(env, names)
  {
    if ps == [] then "" else RenderedPiece(ps[0], env, names) + RenderedText(ps[1..], env, names)
  }

  lemma {:induction false} RewriteCopies(a: string, rest: string, names: set<string>)
    requires '{' !in a
    ensures Rewrite(a + rest, names) == a + Rewrite(rest, names)
  {
    if a == "" {
      assert a + rest == rest;
    } else {
      assert (a + rest)[0] == a[0] && a[0] in a;
      assert (a + rest)[1..] == a[1..] + rest;
      RewriteCopies(a[1..], rest, names);
      assert [a[0]] + (a[1..] + Rewrite(rest, names)) == a + Rewrite(rest, names);
    }
  }

  lemma RewriteReplaces(pre: string, name: string, post: string, rest: string, names: set<string>)
    requires IsWord(name) && name in names && AllBlank(pre) && AllBlank(post)
    ensures Rewrite(Bare(pre, name, post) + rest, names) == Piped(name) + Rewrite(rest, names)
  {
    var s := Bare(pre, name, post) + rest;
    BareIsFound(pre, name, post, rest, names);
    assert s[|Bare(pre, name, post)|..] == rest;
  }

  /** Braces around what is no bare placeholder are copied with it. */
  lemma RewriteSkips(inner: string, rest: string, names: set<string>)
    requires inner != "" && inner[0] == '.' && '{' !in inner && DotAt(inner + rest, names).None?
    ensures Rewrite("{{" + (inner + rest), names) == "{{" + (inner + Rewrite(rest, names))
  {
    var t := inner + rest;
    OpenThen(t, names);
    assert ("{{" + t)[1..] == "{" + t && ("{" + t)[1..] == t;
    assert BareAt("{" + t, names).None?;
    RewriteCopies(inner, rest, names);
    assert ['{'] + (['{'] + Rewrite(t, names)) == "{{" + Rewrite(t, names);
  }

  lemma RewriteKeepsPiped(name: string, rest: string, names: set<string>)
    requires IsWord(name) && name in names
    ensures Rewrite(Piped(name) + rest, names) == Piped(name) + Rewrite(rest, names)
  {
    var inner := "." + (name + (" |" + " urlquery}}"));
    PipedSplit(name, rest);
    PipedSplit(name, Rewrite(rest, names));
    Assoc(".", name + (" |" + " urlquery}}"), rest);
    Assoc(name, " |" + " urlquery}}", rest);
    Assoc(" |", " urlquery}}", rest);
    PipedDoesNotClose(name, " urlquery}}" + rest, names);
    RunsHaveNoBrace(name);
    NoBraceInPipe();
    RewriteSkips(inner, rest, names);
  }

  lemma OtherDoesNotClose(name: string, rest: string, names: set<string>)
    requires IsWord(name) && name !in names
    ensures DotAt("." + (name + ("}}" + rest)), names).None?
  {
    var u := name + ("}}" + rest);
    assert "" + ("." + u) == "." + u;
    DotThen("", u, names);
    LettersOf(name, "}}" + rest);
    DropTail(name, "}}" + rest, 0);
  }

  lemma PlainSplit(name: string, rest: string)
    ensures Plain(name) + rest == "{{" + (("." + (name + "}}")) + rest)
    ensures ("." + (name + "}}")) + rest == "." + (name + ("}}" + rest))
  {
    assert Plain(name) == "{{" + ("." + (name + "}}"));
    Assoc("{{", "." + (name + "}}"), rest);
    Assoc(".", name + "}}", rest);
    Assoc(name, "}}", rest);
  }

  lemma RewriteKeepsOther(name: string, rest: string, names: set<string>)
    requires IsWord(name) && name !in names
    ensures Rewrite(Plain(name) + rest, names) == Plain(name) + Rewrite(rest, names)
  {
    PlainSplit(name, rest);
    PlainSplit(name, Rewrite(rest, names));
    OtherDoesNotClose(name, rest, names);
    RunsHaveNoBrace(name);
    RewriteSkips("." + (name + "}}"), rest, names);
  }

  lemma {:induction false} RewritePieces(ps: seq<Piece>, names: set<string>)
    requires AreNames(names) && ArePieces(ps, names)
    ensures Rewrite(AuthoredText(ps), names) == RewrittenText(ps)
  {
    if ps != [] {
      var rest := AuthoredText(ps[1..]);
      RewritePieces(ps[1..], names);
      match ps[0] {
        case Lit(raw) => RewriteCopies(raw, rest, names);
        case Hole(pre, name, post) => RewriteReplaces(pre, name, post, rest, names);
        case Done(name) => RewriteKeepsPiped(name, rest, names);
        case Other(name, _) => RewriteKeepsOther(name, rest, names);
      }
    }
  }

  lemma WordsAreNames(name: string)
    requires IsWord(name)
    ensures IsName(name)
  {
    WordChars(name);
  }

  lemma {:induction false} WordChars(w: string)
    requires Letters(w) == |w|
    ensures forall i :: 0 <= i < |w| ==> IsLetter(w[i])
  {
    if w != "" {
      WordChars(w[1..]);
    }
  }

  lemma {:induction false} RenderPieces(ps: seq<Piece>, env: map<string, string>, names: set<string>)
    requires AreNames(names) && ArePieces(ps, names) && Seeds(env, names) && SeedsOthers(ps, env)
    ensures RenderText(RewrittenText(ps), env) == Some(RenderedText(ps, env, names))
  {
    if ps != [] {
      var rest := RewrittenText(ps[1..]);
      RenderPieces(ps[1..], env, names);
      match ps[0] {
        case Lit(raw) => RenderLiteral(raw, rest, env);
        case Hole(_, name, _) =>
          WordsAreNames(name);
          RenderPiped(name, rest, env);
        case Done(name) =>
          WordsAreNames(name);
          RenderPiped(name, rest, env);
        case Other(name, _) =>
          WordsAreNames(name);
          RenderPlain(name, rest, env);
      }
    }
  }

  /** A value whose authored text is form-encoded. */
  ghost predicate IsFieldValue(ps: seq<Piece>, names: set<string>) {
    forall i {:trigger ps[i]} :: 0 <= i < |ps| ==> IsPiece(ps[i], names) && (ps[i].Lit? ==> IsValueText(ps[i].raw))
  }

  /** The bytes a piece stands for: authored text is decoded, and so is the value of another
      placeholder; a credential placeholder gives the credential's own bytes. */
  function SentPiece(p: Piece, env: map<string, string>, ghost names: set<string>): string
    requires IsPiece(p, names) && Seeds(env, names) && (p.Lit? ==> IsValueText(p.raw))
  {
    match p
    case Lit(raw) => QueryUnescape(raw).value
    case Hole(_, name, _) => env[name]
    case Done(name) => env[name]
    case Other(_, value) => QueryUnescape(value).value
  }

  function SentValue(ps: seq<Piece>, env: map<string, string>, ghost names: set<string>): string
    requires IsFieldValue(ps, names) && Seeds(env, names)
  {
    if ps == [] then "" else SentPiece(ps[0], env, names) + SentValue(ps[1..], env, names)
  }

  lemma PieceDecodes(p: Piece, env: map<string, string>, names: set<string>)
    requires IsPiece(p, names) && Seeds(env, names) && (p.Lit? ==> IsValueText(p.raw))
    ensures IsValueText(RenderedPiece(p, env, names))
    ensures QueryUnescape(RenderedPiece(p, env, names)) == Some(SentPiece(p, env, names))
  {
    if p.Hole? || p.Done? {
      EscapedSlot("", env[p.name]);
      UnescapeEscape(env[p.name]);
    }
  }

  lemma {:induction false} ValueDecodes(ps: seq<Piece>, env: map<string, string>, names: set<string>)
    requires IsFieldValue(ps, names) && Seeds(env, names)
    ensures ArePieces(ps, names) && IsValueText(RenderedText(ps, env, names))
    ensures QueryUnescape(RenderedText(ps, env, names)) == Some(SentValue(ps, env, names))
  {
    if ps != [] {
      PieceDecodes(ps[0], env, names);
      ValueDecodes(ps[1..], env, names);
      UnescapeConcat(RenderedPiece(ps[0], env, names), RenderedText(ps[1..], env, names));
    }
  }

  ghost predicate IsField(f: Field, names: set<string>) {
    IsBytes(f.key) && IsFieldValue(f.value, names)
  }

  ghost predicate IsLoginForm(fields: seq<Field>, names: set<string>) {
    forall i {:trigger fields[i]} :: 0 <= i < |fields| ==> IsField(fields[i], names)
  }

  /** The pieces of one field behind a lead: nothing for the first field, & otherwise. */
  function FieldPieces(lead: string, f: Field): seq<Piece>
    requires IsBytes(f.key)
  {
    [Lit(lead + QueryEscape(f.key) + "=")] + f.value
  }

  function MoreFields(fields: seq<Field>, ghost names: set<string>): seq<Piece>
    requires IsLoginForm(fields, names)
  {
    if fields == [] then [] else FieldPieces("&", fields[0]) + MoreFields(fields[1..], names)
  }

  function FormPieces(fields: seq<Field>, ghost names: set<string>): seq<Piece>
    requires fields != [] && IsLoginForm(fields, names)
  {
    FieldPieces("", fields[0]) + MoreFields(fields[1..], names)
  }

  /** The form body as authored, bare placeholders and all. */
  function FormText(fields: seq<Field>, ghost names: set<string>): string
    requires fields != [] && IsLoginForm(fields, names)
  {
    AuthoredText(FormPieces(fields, names))
  }

  function SentPairs(fields: seq<Field>, env: map<string, string>, ghost names: set<string>): seq<(string, string)>
    requires IsLoginForm(fields, names) && Seeds(env, names)
  {
    if fields == [] then []
    else [(fields[0].key, SentValue(fields[0].value, env, names))] + SentPairs(fields[1..], env, names)
  }

  function FieldSlot(f: Field, env: map<string, string>, ghost names: set<string>): Slot
    requires IsField(f, names) && Seeds(env, names)
  {
    ValueDecodes(f.value, env, names);
    Slot(f.key, RenderedText(f.value, env, names))
  }

  function FormSlots(fields: seq<Field>, env: map<string, string>, ghost names: set<string>): seq<Slot>
    requires IsLoginForm(fields, names) && Seeds(env, names)
  {
    if fields == [] then [] else [FieldSlot(fields[0], env, names)] + FormSlots(fields[1..], env, names)
  }

  lemma {:induction false} RenderedConcat(a: seq<Piece>, b: seq<Piece>, env: map<string, string>, names: set<string>)
    requires ArePieces(a, names) && ArePieces(b, names) && Seeds(env, names)
    ensures ArePieces(a + b, names)
    ensures RenderedText(a + b, env, names) == RenderedText(a, env, names) + RenderedText(b, env, names)
  {
    if a == [] {
      assert a + b == b;
    } else {
      var ab := a + b;
      assert ab[0] == a[0] && ab[1..] == a[1..] + b;
      assert IsPiece(a[0], names);
      RenderedConcat(a[1..], b, env, names);
      Assoc(RenderedPiece(a[0], env, names), RenderedText(a[1..], env, names), RenderedText(b, env, names));
    }
  }

  lemma FieldRenders(lead: string, f: Field, env: map<string, string>, names: set<string>)
    requires IsField(f, names) && Seeds(env, names) && '{' !in lead
    ensures ArePieces(FieldPieces(lead, f), names)
    ensures RenderedText(FieldPieces(lead, f), env, names) == lead + SlotText(FieldSlot(f, env, names))
  {
    var ps := FieldPieces(lead, f);
    EscapedIsSafe(f.key, '{');
    ValueDecodes(f.value, env, names);
    assert ps[1..] == f.value;
    assert IsPiece(ps[0], names);
    Assoc(lead, QueryEscape(f.key) + "=", RenderedText(f.value, env, names));
    Assoc(lead, QueryEscape(f.key), "=");
  }

  lemma {:induction false} FormRenders(fields: seq<Field>, env: map<string, string>, names: set<string>)
    requires IsLoginForm(fields, names) && Seeds(env, names)
    ensures ArePieces(MoreFields(fields, names), names) && GoodSlots(FormSlots(fields, env, names))
    ensures RenderedText(MoreFields(fields, names), env, names) == MoreSlots(FormSlots(fields, env, names))
    ensures SlotPairs(FormSlots(fields, env, names)) == SentPairs(fields, env, names)
  {
    if fields != [] {
      var f := fields[0];
      FormRenders(fields[1..], env, names);
      ValueDecodes(f.value, env, names);
      FieldRenders("&", f, env, names);
      RenderedConcat(FieldPieces("&", f), MoreFields(fields[1..], names), env, names);
      var slots := FormSlots(fields, env, names);
      assert slots[0] == FieldSlot(f, env, names) && slots[1..] == FormSlots(fields[1..], env, names);
    }
  }

  ghost predicate SeedsForm(fields: seq<Field>, env: map<string, string>) {
    forall i {:trigger fields[i]} :: 0 <= i < |fields| ==> SeedsOthers(fields[i].value, env)
  }

  lemma {:induction false} SeedsPieces(fields: seq<Field>, env: map<string, string>, names: set<string>)
    requires IsLoginForm(fields, names) && SeedsForm(fields, env)
    ensures SeedsOthers(MoreFields(fields, names), env)
  {
    if fields != [] {
      SeedsPieces(fields[1..], env, names);
      var own, more := FieldPieces("&", fields[0]), MoreFields(fields[1..], names);
      SeedsField("&", fields[0], env);
      SeedsConcat(own, more, env);
    }
  }

  lemma SeedsField(lead: string, f: Field, env: map<string, string>)
    requires IsBytes(f.key) && SeedsOthers(f.value, env)
    ensures SeedsOthers(FieldPieces(lead, f), env)
  {
    SeedsConcat([Lit(lead + QueryEscape(f.key) + "=")], f.value, env);
  }

  lemma SeedsConcat(a: seq<Piece>, b: seq<Piece>, env: map<string, string>)
    requires SeedsOthers(a, env) && SeedsOthers(b, env)
    ensures SeedsOthers(a + b, env)
  {}

  /** Rewriting a form login body, rendering it with any credential bytes and decoding
      the result gives every field its authored text with the credential's exact bytes
      in place of the placeholders, whether those were piped already or not. */
  lemma LoginFormDecodes(fields: seq<Field>, env: map<string, string>, names: set<string>)
    requires fields != [] && IsLoginForm(fields, names) && AreNames(names)
    requires Seeds(env, names) && SeedsForm(fields, env)
    ensures var r := RenderText(Rewrite(FormText(fields, names), names), env);
      r.Some? && Pairs(r.value) == Decoded(true, SentPairs(fields, env, names))
  {
    var ps := FormPieces(fields, names);
    var f, more := fields[0], fields[1..];
    ValueDecodes(f.value, env, names);
    FieldRenders("", f, env, names);
    FormRenders(more, env, names);
    RenderedConcat(FieldPieces("", f), MoreFields(more, names), env, names);
    SeedsField("", f, env);
    SeedsPieces(more, env, names);
    SeedsConcat(FieldPieces("", f), MoreFields(more, names), env);
    RewritePieces(ps, names);
    RenderPieces(ps, env, names);
    DecodeSlots(FieldSlot(f, env, names), FormSlots(more, env, names));
    assert "" + SlotText(FieldSlot(f, env, names)) == SlotText(FieldSlot(f, env, names));
  }

  // -------------------------------------------------------------------------
  // urlqueryFormLoginTemplates
  // -------------------------------------------------------------------------

  const ROW_NAMES: set<string> := {"username", "password", "subject", "secret"}

  lemma {:induction false} AllLetters(w: string)
    requires forall i :: 0 <= i < |w| ==> IsLetter(w[i])
    ensures Letters(w) == |w|
  {
    if w != "" {
      AllLetters(w[1..]);
    }
  }

  lemma CredentialNames()
    ensures IsWord("username") && IsWord("password")
  {
    AllLetters("username");
    AllLetters("password");
  }

  lemma AliasNames()
    ensures IsWord("subject") && IsWord("secret")
  {
    AllLetters("subject");
    AllLetters("secret");
  }

  lemma RowNamesAreNames()
    ensures AreNames(ROW_NAMES)
  {
    CredentialNames();
    AliasNames();
  }

  /** A form template with a body has its placeholders piped; every other template is
      left as it is. */
  function PipeTemplate(t: Template): Template {
    if FormEncoded(t.headers) && t.payload != "" then t.(payload := Rewrite(t.payload, ROW_NAMES)) else t
  }

  lemma PipeTemplateIdempotent(t: Template)
    ensures PipeTemplate(PipeTemplate(t)) == PipeTemplate(t)
  {
    RowNamesAreNames();
    RewriteIdempotent(t.payload, ROW_NAMES);
  }

  /** A template is piped as a form, or left as it is; the latter can happen to a form only
      if it has a second Content-Type, which may be the one that is read. */
  ghost predicate PipedOrKept(t: Template, u: Template) {
    u == PipeTemplate(t) || (u == t && !OneContentType(t.headers))
  }

  method UrlqueryFormLoginTemplates(templates: map<string, Template>) returns (out: map<string, Template>)
    ensures out.Keys == templates.Keys && forall id :: id in templates ==> PipedOrKept(templates[id], out[id])
    ensures forall id :: id in templates && !FormEncoded(templates[id].headers) ==> out[id] == templates[id]
  {
    out := map[];
    var left := templates.Keys;
    while left != {}
      invariant left <= templates.Keys
      invariant out.Keys == templates.Keys - left
      invariant forall id :: id in out ==> PipedOrKept(templates[id], out[id])
      decreases left
    {
      var id :| id in left;
      var tmpl := templates[id];
      var isForm := IsFormURLEncoded(tmpl.headers);
      if isForm && tmpl.payload != "" {
        tmpl := tmpl.(payload := Rewrite(tmpl.payload, ROW_NAMES));
      }
      out := out[id := tmpl];
      left := left - {id};
    }
  }

  /** However a form login spells its credential placeholders, what it sends after this
      decodes to each field's text with the exact bytes of the username, password, subject
      or secret in their place. */
  lemma FormLoginSendsCredentials(t: Template, u: Template, fields: seq<Field>, env: map<string, string>)
    requires FormEncoded(t.headers) && OneContentType(t.headers) && PipedOrKept(t, u)
    requires fields != [] && IsLoginForm(fields, {"username", "password", "subject", "secret"})
    requires t.payload == FormText(fields, {"username", "password", "subject", "secret"})
    requires Seeds(env, {"username", "password", "subject", "secret"}) && SeedsForm(fields, env)
    ensures var r := RenderText(u.payload, env);
      r.Some? && Pairs(r.value) == Decoded(true, SentPairs(fields, env, {"username", "password", "subject", "secret"}))
  {
    assert ROW_NAMES == {"username", "password", "subject", "secret"};
    RowNamesAreNames();
    LoginFormDecodes(fields, env, ROW_NAMES);
    assert t.payload != "" by {
      assert FormPieces(fields, ROW_NAMES)[0] == Lit("" + QueryEscape(fields[0].key) + "=");
    }
  }
}
