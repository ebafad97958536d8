/** Splitting a pasted command line into words: section 2.2 of the POSIX.1-2017 Shell
    Command Language, as far as the console's tokenizer implements it. */
module ShellWords {
  import opened JsText
  import opened Options

  datatype Quote = Bare | Single | Double

  function Prepend(out: seq<string>, r: Option<seq<string>>): Option<seq<string>> {
    match r case Some(rest) => Some(out + rest) case None => None
  }

  lemma PrependTwice(a: seq<string>, b: seq<string>, r: Option<seq<string>>)
    ensures Prepend(a, Prepend(b, r)) == Prepend(a + b, r) && Prepend([], r) == r
  {
    if r.Some? {
      assert a + (b + r.value) == a + b + r.value && [] + r.value == r.value;
    }
  }

  /** The words of the rest of a text, given the word read so far, the open quote and
      whether a word has started (an empty quoted word counts). */
  function Words(text: string, cur: string, quote: Quote, started: bool): Option<seq<string>> {
    if text == "" then
      if quote != Bare then None else Some(if started || cur != "" then [cur] else [])
    else
      var ch := text[0];
      match quote
      case Single =>
        if ch == '\'' then Words(text[1..], cur, Bare, started) else Words(text[1..], cur + [ch], Single, started)
      case Double =>
        if ch == '"' then Words(text[1..], cur, Bare, started)
        else if ch == '\\' && |text| > 1 && (text[1] == '"' || text[1] == '\\')
        then Words(text[2..], cur + [text[1]], Double, started)
        else Words(text[1..], cur + [ch], Double, started)
      case Bare =>
        if ch == '\'' || ch == '"' then Words(text[1..], cur, if ch == '"' then Double else Single, true)
        else if ch == '\\' && |text| > 1 then Words(text[2..], cur + [text[1]], Bare, true)
        else if IsSpace(ch) then
          if started || cur != "" then Prepend([cur], Words(text[1..], "", Bare, false))
          else Words(text[1..], cur, Bare, started)
        else Words(text[1..], cur + [ch], Bare, true)
  }

  /** tokenizeShell */
  method TokenizeShell(text: string) returns (r: Option<seq<string>>)
    ensures r == Words(text, "", Bare, false)
  {
    var out: seq<string> := [];
    var cur, quote, started := "", Bare, false;
    var i := 0;
    assert text[0..] == text;
    PrependTwice([], [], Words(text, "", Bare, false));
    while i < |text|
      invariant 0 <= i <= |text|
      invariant Words(text, "", Bare, false) == Prepend(out, Words(text[i..], cur, quote, started))
    {
      var ch := text[i];
      var rest := text[i..];
      assert rest[1..] == text[i + 1..];
      assert i + 1 < |text| ==> rest[2..] == text[i + 2..];
      if quote == Single {
        if ch == '\'' {
          quote := Bare;
        } else {
          cur := cur + [ch];
        }
      } else if quote == Double {
        if ch == '"' {
          quote := Bare;
        } else if ch == '\\' && i + 1 < |text| && (text[i + 1] == '"' || text[i + 1] == '\\') {
          i := i + 1;
          cur := cur + [text[i]];
        } else {
          cur := cur + [ch];
        }
      } else if ch == '\'' || ch == '"' {
        quote := if ch == '"' then Double else Single;
        started := true;
      } else if ch == '\\' && i + 1 < |text| {
        i := i + 1;
        cur := cur + [text[i]];
        started := true;
      } else if IsSpace(ch) {
        if started || cur != "" {
          PrependTwice(out, [cur], Words(text[i + 1..], "", Bare, false));
          out := out + [cur];
          cur := "";
          started := false;
        }
      } else {
        cur := cur + [ch];
        started := true;
      }
      i := i + 1;
    }
    if quote != Bare {
      return None;
    }
    if started || cur != "" {
      out := out + [cur];
    }
    r := Some(out);
    assert out + [] == out;
  }

  /** The quote left open by a text, read without collecting any word. */
  function QuoteAtEnd(text: string, quote: Quote): Quote {
    if text == "" then quote
    else if quote == Bare && text[0] == '\\' && |text| > 1 then QuoteAtEnd(text[2..], quote)
    else if quote == Double && text[0] == '\\' && |text| > 1 && text[1] in "\"\\" then QuoteAtEnd(text[2..], quote)
    else if quote == Bare then
      QuoteAtEnd(text[1..], if text[0] == '"' then Double else if text[0] == '\'' then Single else Bare)
    else QuoteAtEnd(text[1..], if text[0] == (if quote == Double then '"' else '\'') then Bare else quote)
  }

  /** The tokenizer refuses a text exactly when a quote is still open at its end. */
  lemma {:induction false} RefusedIffQuoteOpen(text: string, cur: string, quote: Quote, started: bool)
    ensures Words(text, cur, quote, started).None? <==> QuoteAtEnd(text, quote) != Bare
  {
    if text != "" {
      var ch := text[0];
      forall c, s, q
        ensures Words(text[1..], c, q, s).None? <==> QuoteAtEnd(text[1..], q) != Bare
      {
        RefusedIffQuoteOpen(text[1..], c, q, s);
      }
      if |text| > 1 {
        RefusedIffQuoteOpen(text[2..], cur + [text[1]], quote, true);
        RefusedIffQuoteOpen(text[2..], cur + [text[1]], quote, started);
      }
    }
  }

  // -------------------------------------------------------------------------
  // Quoting
  // -------------------------------------------------------------------------

  /** Inside single quotes, a quote is written '\''. */
  function Escaped(w: string): string {
    if w == "" then "" else (if w[0] == '\'' then "'\\''" else [w[0]]) + Escaped(w[1..])
  }

  function SingleQuoted(w: string): string {
    "'" + Escaped(w) + "'"
  }

  /** Words that need no quotes. */
  predicate Plain(w: string) {
    w != "" && forall c :: c in w ==> !IsSpace(c) && c != '\'' && c != '"' && c != '\\'
  }

  function ShellQuote(w: string): string {
    if Plain(w) then w else SingleQuoted(w)
  }

  function QuoteAll(ws: seq<string>): seq<string> {
    if ws == [] then [] else [ShellQuote(ws[0])] + QuoteAll(ws[1..])
  }

  // -------------------------------------------------------------------------
  // Every way to write a word
  // -------------------------------------------------------------------------

  /** Inside double quotes: a character as it is, or one behind a backslash. */
  datatype Part = Kept(ch: char) | Escape(ch: char)

  /** Part of a word: bare characters, one behind a backslash, or a quoted stretch. */
  datatype Piece = Unquoted(text: string) | Backslashed(ch: char) | InSingle(text: string) | InDouble(parts: seq<Part>)

  /** Only " and \ can be escaped inside double quotes, and a backslash is kept before
      anything else. */
  predicate GoodParts(parts: seq<Part>) {
    parts == []
    || (GoodParts(parts[1..])
        && match parts[0]
           case Kept(c) => c != '"' && (c == '\\' ==> |parts| > 1 && parts[1].Kept? && parts[1].ch != '\\')
           case Escape(c) => c == '"' || c == '\\')
  }

  predicate GoodPiece(p: Piece) {
    match p
    case Unquoted(text) => Plain(text)
    case Backslashed(_) => true
    case InSingle(text) => '\'' !in text
    case InDouble(parts) => GoodParts(parts)
  }

  function PartsText(parts: seq<Part>): string {
    if parts == [] then ""
    else (match parts[0] case Kept(c) => [c] case Escape(c) => ['\\', c]) + PartsText(parts[1..])
  }

  function PartsWord(parts: seq<Part>): string {
    if parts == [] then "" else [parts[0].ch] + PartsWord(parts[1..])
  }

  /** How a piece is written. */
  function PieceText(p: Piece): string {
    match p
    case Unquoted(text) => text
    case Backslashed(c) => ['\\', c]
    case InSingle(text) => "'" + text + "'"
    case InDouble(parts) => "\"" + PartsText(parts) + "\""
  }

  /** What it stands for. */
  function PieceWord(p: Piece): string {
    match p
    case Unquoted(text) => text
    case Backslashed(c) => [c]
    case InSingle(text) => text
    case InDouble(parts) => PartsWord(parts)
  }

  function TextOf(pieces: seq<Piece>): string {
    if pieces == [] then "" else PieceText(pieces[0]) + TextOf(pieces[1..])
  }

  function WordOf(pieces: seq<Piece>): string {
    if pieces == [] then "" else PieceWord(pieces[0]) + WordOf(pieces[1..])
  }

  ghost predicate Spells(pieces: seq<Piece>, q: string, w: string) {
    pieces != [] && (forall p :: p in pieces ==> GoodPiece(p)) && TextOf(pieces) == q && WordOf(pieces) == w
  }

  /** q is a way to write the word w: any mixture of bare, backslashed, single-quoted and
      double-quoted pieces. */
  ghost predicate Quotes(q: string, w: string) {
    exists pieces :: Spells(pieces, q, w)
  }

  lemma {:induction false} ReadSingle(w: string, rest: string, cur: string)
    requires '\'' !in w
    ensures Words(w + "'" + rest, cur, Single, true) == Words(rest, cur + w, Bare, true)
  {
    var text := w + "'" + rest;
    if w == "" {
      assert text[1..] == rest && cur + w == cur;
    } else {
      assert w[0] in w;
      assert text[1..] == w[1..] + "'" + rest;
      assert cur + [w[0]] + w[1..] == cur + w;
      ReadSingle(w[1..], rest, cur + [w[0]]);
    }
  }

  lemma {:induction false} ReadDouble(parts: seq<Part>, rest: string, cur: string)
    requires GoodParts(parts)
    ensures Words(PartsText(parts) + "\"" + rest, cur, Double, true) == Words(rest, cur + PartsWord(parts), Bare, true)
  {
    var text := PartsText(parts) + "\"" + rest;
    if parts == [] {
      assert text[1..] == rest && cur + PartsWord(parts) == cur;
    } else {
      var tail := PartsText(parts[1..]) + "\"" + rest;
      var c := parts[0].ch;
      assert cur + [c] + PartsWord(parts[1..]) == cur + PartsWord(parts);
      ReadDouble(parts[1..], rest, cur + [c]);
      if parts[0].Kept? {
        assert text == [c] + tail && text[1..] == tail;
        if c == '\\' {
          assert text[1] == tail[0] == parts[1].ch;
          assert parts[1] == parts[1..][0];
        }
      } else {
        assert text == ['\\', c] + tail && text[2..] == tail;
      }
    }
  }

  lemma {:induction false} ReadPlain(w: string, rest: string, cur: string, started: bool)
    requires Plain(w)
    ensures Words(w + rest, cur, Bare, started) == Words(rest, cur + w, Bare, true)
  {
    var text := w + rest;
    assert text[1..] == w[1..] + rest;
    assert w[0] in w;
    assert cur + [w[0]] + w[1..] == cur + w;
    if |w| > 1 {
      ReadPlain(w[1..], rest, cur + [w[0]], true);
    } else {
      assert text[1..] == rest && cur + w == cur + [w[0]];
    }
  }

  lemma ReadPiece(p: Piece, rest: string, cur: string, started: bool)
    requires GoodPiece(p)
    ensures Words(PieceText(p) + rest, cur, Bare, started) == Words(rest, cur + PieceWord(p), Bare, true)
  {
    var text := PieceText(p) + rest;
    match p {
      case Unquoted(w) => ReadPlain(w, rest, cur, started);
      case Backslashed(c) => assert text[2..] == rest;
      case InSingle(w) =>
        assert text[1..] == w + "'" + rest;
        ReadSingle(w, rest, cur);
      case InDouble(parts) =>
        assert text[1..] == PartsText(parts) + "\"" + rest;
        ReadDouble(parts, rest, cur);
    }
  }

  lemma {:induction false} ReadPieces(pieces: seq<Piece>, rest: string, cur: string, started: bool)
    requires pieces != [] && forall p :: p in pieces ==> GoodPiece(p)
    ensures Words(TextOf(pieces) + rest, cur, Bare, started) == Words(rest, cur + WordOf(pieces), Bare, true)
    decreases |pieces|
  {
    var more := TextOf(pieces[1..]) + rest;
    assert TextOf(pieces) + rest == PieceText(pieces[0]) + more;
    ReadPiece(pieces[0], more, cur, started);
    if |pieces| == 1 {
      assert more == rest && WordOf(pieces) == PieceWord(pieces[0]);
    } else {
      ReadPieces(pieces[1..], rest, cur + PieceWord(pieces[0]), true);
      assert cur + PieceWord(pieces[0]) + WordOf(pieces[1..]) == cur + WordOf(pieces);
    }
  }

  lemma ReadWord(q: string, w: string, rest: string)
    requires Quotes(q, w)
    ensures Words(q + rest, "", Bare, false) == Words(rest, w, Bare, true)
  {
    var pieces :| Spells(pieces, q, w);
    ReadPieces(pieces, rest, "", false);
    assert "" + w == w;
  }

  /** The pieces of a single-quoted word, cut at its quotes, given the stretch read so far. */
  function SinglePieces(run: string, w: string): (pieces: seq<Piece>)
    requires '\'' !in run
    ensures pieces != [] && forall p :: p in pieces ==> GoodPiece(p)
    decreases |w|
  {
    if w == "" then [InSingle(run)]
    else if w[0] == '\'' then [InSingle(run)] + ([Backslashed('\'')] + SinglePieces("", w[1..]))
    else SinglePieces(run + [w[0]], w[1..])
  }

  lemma PiecesStep(p: Piece, rest: seq<Piece>)
    ensures TextOf([p] + rest) == PieceText(p) + TextOf(rest) && WordOf([p] + rest) == PieceWord(p) + WordOf(rest)
  {
    assert ([p] + rest)[1..] == rest;
  }

  lemma Flatten(a: string, x: string, y: string, z: string, e: string, end: string)
    ensures a + x + (y + (z + e + end)) == a + (x + y + z + e) + end
  {}

  lemma CutText(run: string, e: string)
    ensures PieceText(InSingle(run)) + (PieceText(Backslashed('\'')) + (("'" + "") + e + "'"))
         == ("'" + run) + ("'\\''" + e) + "'"
  {
    Flatten("'" + run, "'", ['\\', '\''], "'" + "", e, "'");
    assert "'" + ['\\', '\''] + ("'" + "") == "'\\''";
  }

  lemma Shift(a: string, c: char, e: string, end: string)
    ensures a + [c] + e + end == a + ([c] + e) + end
  {}

  lemma {:induction false} SinglePiecesSpell(run: string, w: string)
    requires '\'' !in run
    ensures TextOf(SinglePieces(run, w)) == ("'" + run) + Escaped(w) + "'"
    ensures WordOf(SinglePieces(run, w)) == run + w
    decreases |w|
  {
    if w == "" {
      PiecesStep(InSingle(run), []);
      assert [InSingle(run)] + [] == [InSingle(run)];
      assert ("'" + run) + "" == "'" + run && run + "" == run;
    } else if w[0] == '\'' {
      SinglePiecesCut(run, w);
    } else {
      SinglePiecesSpell(run + [w[0]], w[1..]);
      assert run + [w[0]] + w[1..] == run + w;
      assert "'" + (run + [w[0]]) == ("'" + run) + [w[0]];
      Shift("'" + run, w[0], Escaped(w[1..]), "'");
    }
  }

  lemma {:induction false} SinglePiecesCut(run: string, w: string)
    requires '\'' !in run && w != "" && w[0] == '\''
    ensures TextOf(SinglePieces(run, w)) == ("'" + run) + Escaped(w) + "'"
    ensures WordOf(SinglePieces(run, w)) == run + w
    decreases |w|, 0
  {
    var rest, e := SinglePieces("", w[1..]), Escaped(w[1..]);
    SinglePiecesSpell("", w[1..]);
    PiecesStep(Backslashed('\''), rest);
    PiecesStep(InSingle(run), [Backslashed('\'')] + rest);
    CutText(run, e);
    assert Escaped(w) == "'\\''" + e;
    assert run + (['\''] + ("" + w[1..])) == run + w;
  }

  lemma ShellQuoteQuotes(w: string)
    ensures Quotes(ShellQuote(w), w)
  {
    if Plain(w) {
      PiecesStep(Unquoted(w), []);
      assert [Unquoted(w)] + [] == [Unquoted(w)];
      assert Spells([Unquoted(w)], w, w);
    } else {
      SinglePiecesSpell("", w);
      assert ("'" + "") + Escaped(w) + "'" == SingleQuoted(w) && "" + w == w;
      assert Spells(SinglePieces("", w), SingleQuoted(w), w);
    }
  }

  ghost predicate QuotesEach(qs: seq<string>, ws: seq<string>) {
    |qs| == |ws| && forall i :: 0 <= i < |ws| ==> Quotes(qs[i], ws[i])
  }

  lemma ReadWordAndBlank(q: string, w: string, tail: string)
    requires Quotes(q, w)
    ensures Words(q + [' '] + tail, "", Bare, false) == Prepend([w], Words(tail, "", Bare, false))
  {
    var rest := " " + tail;
    assert q + [' '] + tail == q + rest;
    ReadWord(q, w, rest);
    assert rest[1..] == tail && IsSpace(rest[0]);
  }

  /** Tokenizing the space-join of words gives the words back, empty words included, in
      whatever way each of them is written. */
  lemma {:induction false} QuotedWordsRoundTrip(qs: seq<string>, ws: seq<string>)
    requires QuotesEach(qs, ws)
    ensures Words(Join(qs, ' '), "", Bare, false) == Some(ws)
    decreases |ws|
  {
    if |ws| == 1 {
      assert qs[0] + "" == qs[0];
      ReadWord(qs[0], ws[0], "");
      assert ws == [ws[0]];
    } else if |ws| > 1 {
      ReadWordAndBlank(qs[0], ws[0], Join(qs[1..], ' '));
      assert QuotesEach(qs[1..], ws[1..]);
      QuotedWordsRoundTrip(qs[1..], ws[1..]);
      assert [ws[0]] + ws[1..] == ws;
    }
  }

  lemma {:induction false} QuoteAllQuotes(ws: seq<string>)
    ensures QuotesEach(QuoteAll(ws), ws)
  {
    if ws != [] {
      ShellQuoteQuotes(ws[0]);
      QuoteAllQuotes(ws[1..]);
    }
  }

  lemma WordsRoundTrip(ws: seq<string>)
    ensures Words(Join(QuoteAll(ws), ' '), "", Bare, false) == Some(ws)
  {
    QuoteAllQuotes(ws);
    QuotedWordsRoundTrip(QuoteAll(ws), ws);
  }

  // -------------------------------------------------------------------------
  // Line feeds
  // -------------------------------------------------------------------------

  function Feeds(s: string): nat {
    if s == "" then 0 else (if s[0] == '\n' then 1 else 0) + Feeds(s[1..])
  }

  function FeedsIn(ws: seq<string>): nat {
    if ws == [] then 0 else Feeds(ws[0]) + FeedsIn(ws[1..])
  }

  lemma {:induction false} FeedsConcat(a: string, b: string)
    ensures Feeds(a + b) == Feeds(a) + Feeds(b)
  {
    if a == "" {
      assert a + b == b;
    } else {
      assert (a + b)[1..] == a[1..] + b;
      FeedsConcat(a[1..], b);
    }
  }

  lemma {:induction false} JoinedFeeds(ws: seq<string>)
    ensures Feeds(Join(ws, ' ')) == FeedsIn(ws)
  {
    if |ws| > 1 {
      FeedsConcat(ws[0] + [' '], Join(ws[1..], ' '));
      FeedsConcat(ws[0], [' ']);
      JoinedFeeds(ws[1..]);
    }
  }

  lemma {:induction false} PartsFeeds(parts: seq<Part>)
    requires GoodParts(parts)
    ensures Feeds(PartsText(parts)) == Feeds(PartsWord(parts))
  {
    if parts != [] {
      var c := parts[0].ch;
      PartsFeeds(parts[1..]);
      FeedsConcat([c], PartsWord(parts[1..]));
      FeedsConcat([c], PartsText(parts[1..]));
      FeedsConcat(['\\', c], PartsText(parts[1..]));
      FeedsConcat(['\\'], [c]);
      assert ['\\', c] == ['\\'] + [c];
    }
  }

  lemma PieceFeeds(p: Piece)
    requires GoodPiece(p)
    ensures Feeds(PieceText(p)) == Feeds(PieceWord(p))
  {
    match p {
      case Unquoted(_) =>
      case Backslashed(c) =>
        FeedsConcat(['\\'], [c]);
        assert PieceText(p) == ['\\'] + [c];
      case InSingle(w) =>
        FeedsConcat("'" + w, "'");
        FeedsConcat("'", w);
      case InDouble(parts) =>
        PartsFeeds(parts);
        FeedsConcat("\"" + PartsText(parts), "\"");
        FeedsConcat("\"", PartsText(parts));
    }
  }

  lemma {:induction false} PiecesFeeds(pieces: seq<Piece>)
    requires forall p :: p in pieces ==> GoodPiece(p)
    ensures Feeds(TextOf(pieces)) == Feeds(WordOf(pieces))
  {
    if pieces != [] {
      PieceFeeds(pieces[0]);
      PiecesFeeds(pieces[1..]);
      FeedsConcat(PieceText(pieces[0]), TextOf(pieces[1..]));
      FeedsConcat(PieceWord(pieces[0]), WordOf(pieces[1..]));
    }
  }

  /** However a word is written, it is written with its own line feeds. */
  lemma {:induction false} QuotedFeeds(qs: seq<string>, ws: seq<string>)
    requires QuotesEach(qs, ws)
    ensures FeedsIn(qs) == FeedsIn(ws)
    decreases |ws|
  {
    if ws != [] {
      var pieces :| Spells(pieces, qs[0], ws[0]);
      PiecesFeeds(pieces);
      assert QuotesEach(qs[1..], ws[1..]);
      QuotedFeeds(qs[1..], ws[1..]);
    }
  }

  lemma GrownFeeds(cur: string, c: char)
    ensures Feeds(cur + [c]) == Feeds(cur) + if c == '\n' then 1 else 0
  {
    FeedsConcat(cur, [c]);
  }

  /** Words hold no line feed that the text does not. */
  lemma {:induction false} WordsFeeds(text: string, cur: string, quote: Quote, started: bool)
    requires Words(text, cur, quote, started).Some?
    ensures FeedsIn(Words(text, cur, quote, started).value) <= Feeds(cur) + Feeds(text)
    decreases |text|
  {
    if text == "" {
      assert [cur][1..] == [];
    } else {
      var ch := text[0];
      GrownFeeds(cur, ch);
      if quote == Bare && IsSpace(ch) && (started || cur != "") {
        WordsFeeds(text[1..], "", Bare, false);
      } else if |text| > 1 && ch == '\\' && (quote == Bare || (quote == Double && text[1] in "\"\\")) {
        GrownFeeds(cur, text[1]);
        assert text[1..][1..] == text[2..];
        WordsFeeds(text[2..], cur + [text[1]], quote, quote == Bare || started);
      } else if quote == Bare && (ch == '\'' || ch == '"') {
        WordsFeeds(text[1..], cur, if ch == '"' then Double else Single, true);
      } else if quote == Bare && IsSpace(ch) {
        WordsFeeds(text[1..], cur, Bare, started);
      } else if (quote == Single && ch == '\'') || (quote == Double && ch == '"') {
        WordsFeeds(text[1..], cur, Bare, started);
      } else {
        WordsFeeds(text[1..], cur + [ch], quote, quote == Bare || started);
      }
    }
  }
}
