/** The form encoding the token endpoint reads: application/x-www-form-urlencoded, as in
    appendix B of RFC 6749. Byte strings are written as strings of characters below 256. */
module FormCodec {
  import opened Options

  predicate IsByte(c: char) {
    c < '\U{100}'
  }

  predicate IsBytes(s: string) {
    forall i :: 0 <= i < |s| ==> IsByte(s[i])
  }

  predicate Unreserved(c: char) {
    'a' <= c <= 'z' || 'A' <= c <= 'Z' || '0' <= c <= '9' || c == '-' || c == '_' || c == '.' || c == '~'
  }

  function HexDigit(n: nat): char
    requires n < 16
  {
    if n < 10 then '0' + n as char else 'A' + (n - 10) as char
  }

  /** The value of a hexadecimal digit of either case, or 16. */
  function HexValue(c: char): (n: nat)
    ensures n <= 16
  {
    if '0' <= c <= '9' then (c - '0') as nat
    else if 'a' <= c <= 'f' then 10 + (c - 'a') as nat
    else if 'A' <= c <= 'F' then 10 + (c - 'A') as nat
    else 16
  }

  function EscapeByte(c: char): string
    requires IsByte(c)
  {
    if Unreserved(c) then [c]
    else if c == ' ' then "+"
    else ['%', HexDigit(c as nat / 16), HexDigit(c as nat % 16)]
  }

  /** url.QueryEscape */
  function QueryEscape(s: string): string
    requires IsBytes(s)
  {
    if s == "" then "" else EscapeByte(s[0]) + QueryEscape(s[1..])
  }

  function Cons(c: char, r: Option<string>): Option<string> {
    match r case Some(rest) => Some([c] + rest) case None => None
  }

  /** url.QueryUnescape */
  function QueryUnescape(s: string): Option<string> {
    if s == "" then Some("")
    else if s[0] == '%' then
      if |s| > 2 && HexValue(s[1]) < 16 && HexValue(s[2]) < 16
      then Cons((16 * HexValue(s[1]) + HexValue(s[2])) as char, QueryUnescape(s[3..]))
      else None
    else Cons(if s[0] == '+' then ' ' else s[0], QueryUnescape(s[1..]))
  }

  /** The characters an escaped value can contain; none of them is form syntax. */
  predicate FormSafe(c: char) {
    Unreserved(c) || c == '%' || c == '+'
  }

  lemma {:induction false} EscapedIsSafe(s: string, c: char)
    requires IsBytes(s) && !FormSafe(c)
    ensures c !in QueryEscape(s)
  {
    if s != "" {
      EscapedIsSafe(s[1..], c);
    }
  }

  function Then(a: Option<string>, b: Option<string>): Option<string> {
    if a.Some? && b.Some? then Some(a.value + b.value) else None
  }

  lemma ConsThen(c: char, a: Option<string>, b: Option<string>)
    ensures Then(Cons(c, a), b) == Cons(c, Then(a, b)) && Then(Some(""), b) == b
  {
    if b.Some? {
      assert "" + b.value == b.value;
      if a.Some? {
        assert [c] + (a.value + b.value) == [c] + a.value + b.value;
      }
    }
  }

  lemma {:induction false} UnescapeConcat(a: string, b: string)
    requires QueryUnescape(a).Some?
    ensures QueryUnescape(a + b) == Then(QueryUnescape(a), QueryUnescape(b))
  {
    if a == "" {
      assert a + b == b;
      ConsThen(' ', Some(""), QueryUnescape(b));
    } else {
      var n := if a[0] == '%' then 3 else 1;
      assert (a + b)[n..] == a[n..] + b;
      UnescapeConcat(a[n..], b);
      assert n == 3 ==> (a + b)[1] == a[1] && (a + b)[2] == a[2];
      ConsThen(QueryUnescape(a).value[0], QueryUnescape(a[n..]), QueryUnescape(b));
    }
  }

  lemma HexRoundTrip(n: nat)
    requires n < 16
    ensures HexValue(HexDigit(n)) == n
  {}

  lemma UnescapeByte(c: char)
    requires IsByte(c)
    ensures QueryUnescape(EscapeByte(c)) == Some([c])
  {
    var s := EscapeByte(c);
    if Unreserved(c) || c == ' ' {
      assert s[1..] == "" && [c] + "" == [c];
    } else {
      var hi, lo := c as nat / 16, c as nat % 16;
      HexRoundTrip(hi);
      HexRoundTrip(lo);
      assert s[1] == HexDigit(hi) && s[2] == HexDigit(lo) && s[3..] == "";
      assert 16 * hi + lo == c as nat;
      assert [(16 * hi + lo) as char] + "" == [c];
    }
  }

  /** Decoding an escaped byte string gives exactly its bytes back. */
  lemma {:induction false} UnescapeEscape(s: string)
    requires IsBytes(s)
    ensures QueryUnescape(QueryEscape(s)) == Some(s)
  {
    if s != "" {
      UnescapeByte(s[0]);
      UnescapeConcat(EscapeByte(s[0]), QueryEscape(s[1..]));
      UnescapeEscape(s[1..]);
      assert [s[0]] + s[1..] == s;
    }
  }

  lemma {:induction false} UnescapedIsBytes(s: string)
    requires IsBytes(s)
    ensures QueryUnescape(s).Some? ==> IsBytes(QueryUnescape(s).value)
  {
    if s != "" {
      if s[0] != '%' {
        UnescapedIsBytes(s[1..]);
      } else if |s| > 2 {
        UnescapedIsBytes(s[3..]);
      }
    }
  }

  lemma {:induction false} EscapeUnreserved(s: string)
    requires forall i :: 0 <= i < |s| ==> Unreserved(s[i])
    ensures IsBytes(s) && QueryEscape(s) == s
  {
    if s != "" {
      EscapeUnreserved(s[1..]);
    }
  }

  /** h is the hexadecimal digit n in either case. */
  predicate IsDigit(h: char, n: nat) {
    n < 16 && (h == "0123456789abcdef"[n] || h == "0123456789ABCDEF"[n])
  }

  /** t is a way to write the byte c: as it is, a blank as +, or any byte by its digits. */
  predicate Writes(t: string, c: char) {
    || (t == [c] && c != '%' && c != '+')
    || (t == "+" && c == ' ')
    || (|t| == 3 && IsByte(c) && t[0] == '%' && IsDigit(t[1], c as nat / 16) && IsDigit(t[2], c as nat % 16))
  }

  function Concat(parts: seq<string>): string {
    if parts == [] then "" else parts[0] + Concat(parts[1..])
  }

  lemma DigitValue(h: char, n: nat)
    requires IsDigit(h, n)
    ensures HexValue(h) == n
  {}

  lemma WrittenByte(t: string, c: char)
    requires Writes(t, c)
    ensures QueryUnescape(t) == Some([c])
  {
    if |t| == 3 {
      DigitValue(t[1], c as nat / 16);
      DigitValue(t[2], c as nat % 16);
      assert t[3..] == "" && 16 * (c as nat / 16) + c as nat % 16 == c as nat;
    } else {
      assert t[1..] == "";
    }
    assert [c] + "" == [c];
  }

  /** However each byte of a text is escaped, in digits of whichever case, it decodes to
      that text. */
  lemma {:induction false} AnyEscapeDecodes(parts: seq<string>, s: string)
    requires |parts| == |s| && forall i :: 0 <= i < |s| ==> Writes(parts[i], s[i])
    ensures QueryUnescape(Concat(parts)) == Some(s)
  {
    if s != "" {
      WrittenByte(parts[0], s[0]);
      AnyEscapeDecodes(parts[1..], s[1..]);
      UnescapeConcat(parts[0], Concat(parts[1..]));
      assert [s[0]] + s[1..] == s;
    }
  }

  // -------------------------------------------------------------------------
  // url.ParseQuery
  // -------------------------------------------------------------------------

  /** The text before the first separator. */
  function Before(s: string, sep: char): string {
    if s == "" || s[0] == sep then "" else [s[0]] + Before(s[1..], sep)
  }

  /** The text behind the first separator, empty if there is none. */
  function After(s: string, sep: char): string {
    if s == "" then "" else if s[0] == sep then s[1..] else After(s[1..], sep)
  }

  lemma {:induction false} CutAt(a: string, sep: char, b: string)
    requires sep !in a
    ensures Before(a + [sep] + b, sep) == a && After(a + [sep] + b, sep) == b
    ensures Before(a, sep) == a && After(a, sep) == ""
  {
    var s := a + [sep] + b;
    if a == "" {
      assert s[1..] == b;
    } else {
      assert s[1..] == a[1..] + [sep] + b;
      CutAt(a[1..], sep, b);
    }
  }

  lemma {:induction false} AfterIsShorter(s: string, sep: char)
    requires s != ""
    ensures |After(s, sep)| < |s|
  {
    if s[0] != sep && |s| > 1 {
      AfterIsShorter(s[1..], sep);
    }
  }

  datatype Segment = Bad | Blank | Pair(key: string, value: string)

  function DecodeSegment(seg: string): Segment {
    if ';' in seg then Bad
    else if seg == "" then Blank
    else match (QueryUnescape(Before(seg, '=')), QueryUnescape(After(seg, '=')))
      case (Some(k), Some(v)) => Pair(k, v)
      case _ => Bad
  }

  datatype Decoded = Decoded(ok: bool, pairs: seq<(string, string)>)

  /** The pairs of a query in order; a bad segment is skipped and reported. */
  function Pairs(query: string): Decoded
    decreases |query|
  {
    if query == "" then Decoded(true, [])
    else
      AfterIsShorter(query, '&');
      var rest := Pairs(After(query, '&'));
      match DecodeSegment(Before(query, '&'))
      case Bad => Decoded(false, rest.pairs)
      case Blank => rest
      case Pair(k, v) => Decoded(rest.ok, [(k, v)] + rest.pairs)
  }

  type Values = map<string, seq<string>>

  function Get(m: Values, k: string): seq<string> {
    if k in m then m[k] else []
  }

  function Group(m: Values, pairs: seq<(string, string)>): Values
    decreases pairs
  {
    if pairs == [] then m
    else Group(m[pairs[0].0 := Get(m, pairs[0].0) + [pairs[0].1]], pairs[1..])
  }

  datatype Form = Form(ok: bool, values: Values)

  /** url.ParseQuery: the values of the good segments, and whether all were good. */
  function ParseQuery(query: string): Form {
    var d := Pairs(query);
    Form(d.ok, Group(map[], d.pairs))
  }

  // -------------------------------------------------------------------------
  // Encoding
  // -------------------------------------------------------------------------

  /** A value text that decodes and holds no separator. */
  predicate IsValueText(t: string) {
    '&' !in t && ';' !in t && QueryUnescape(t).Some?
  }

  /** A key and the text its value is written as. */
  datatype Slot = Slot(key: string, text: string)

  ghost predicate GoodSlot(s: Slot) {
    IsBytes(s.key) && IsValueText(s.text)
  }

  ghost predicate GoodSlots(slots: seq<Slot>) {
    forall i {:trigger slots[i]} :: 0 <= i < |slots| ==> GoodSlot(slots[i])
  }

  function SlotText(s: Slot): string
    requires IsBytes(s.key)
  {
    QueryEscape(s.key) + "=" + s.text
  }

  /** Every slot behind its separator. */
  function MoreSlots(slots: seq<Slot>): string
    requires GoodSlots(slots)
  {
    if slots == [] then "" else "&" + SlotText(slots[0]) + MoreSlots(slots[1..])
  }

  /** The pair a slot stands for. */
  function SlotPair(s: Slot): (string, string)
    requires IsValueText(s.text)
  {
    (s.key, QueryUnescape(s.text).value)
  }

  function SlotPairs(slots: seq<Slot>): seq<(string, string)>
    requires GoodSlots(slots)
  {
    if slots == [] then [] else [SlotPair(slots[0])] + SlotPairs(slots[1..])
  }

  lemma DecodeSlot(s: Slot)
    requires GoodSlot(s)
    ensures '&' !in SlotText(s) && SlotText(s) != ""
    ensures DecodeSegment(SlotText(s)) == Pair(s.key, SlotPair(s).1)
  {
    var k := QueryEscape(s.key);
    EscapedIsSafe(s.key, '&');
    EscapedIsSafe(s.key, ';');
    EscapedIsSafe(s.key, '=');
    UnescapeEscape(s.key);
    CutAt(k, '=', s.text);
    assert SlotText(s) == k + ['='] + s.text;
  }

  lemma PairsOfFirst(seg: string, rest: string, pair: (string, string))
    requires '&' !in seg && seg != "" && DecodeSegment(seg) == Pair(pair.0, pair.1)
    ensures Pairs(seg) == Decoded(true, [pair])
    ensures Pairs(seg + "&" + rest) == Decoded(Pairs(rest).ok, [pair] + Pairs(rest).pairs)
  {
    CutAt(seg, '&', rest);
    assert seg + "&" + rest == seg + ['&'] + rest;
  }

  lemma Regroup(s: string, a: string, more: string)
    ensures s + ("&" + a + more) == s + "&" + (a + more)
  {}

  /** Encoded slots joined by & decode to their pairs, in order. */
  lemma {:induction false} DecodeSlots(first: Slot, slots: seq<Slot>)
    requires GoodSlot(first) && GoodSlots(slots)
    ensures Pairs(SlotText(first) + MoreSlots(slots)) == Decoded(true, [SlotPair(first)] + SlotPairs(slots))
    decreases |slots|
  {
    var seg := SlotText(first);
    DecodeSlot(first);
    if slots == [] {
      assert seg + MoreSlots(slots) == seg;
      PairsOfFirst(seg, "", SlotPair(first));
    } else {
      var rest := SlotText(slots[0]) + MoreSlots(slots[1..]);
      Regroup(seg, SlotText(slots[0]), MoreSlots(slots[1..]));
      PairsOfFirst(seg, rest, SlotPair(first));
      DecodeSlots(slots[0], slots[1..]);
    }
  }

  /** An escaped byte string is a value text for itself. */
  lemma EscapedSlot(k: string, v: string)
    requires IsBytes(k) && IsBytes(v)
    ensures GoodSlot(Slot(k, QueryEscape(v))) && SlotPair(Slot(k, QueryEscape(v))) == (k, v)
  {
    EscapedIsSafe(v, '&');
    EscapedIsSafe(v, ';');
    UnescapeEscape(v);
  }
}
