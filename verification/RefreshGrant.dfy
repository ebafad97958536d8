/** Deriving the OAuth2 refresh grant (section 6 of RFC 6749) from a login form. */
module RefreshGrant {
  import opened AsciiCase
  import opened Options
  import opened FormCodec
  import opened RequestTemplates

  // -------------------------------------------------------------------------
  // Byte-wise string order, as sort.Strings uses it
  // -------------------------------------------------------------------------

  predicate Less(a: string, b: string) {
    b != "" && (a == "" || a[0] < b[0] || (a[0] == b[0] && Less(a[1..], b[1..])))
  }

  lemma {:induction false} LessTotal(a: string, b: string)
    ensures a == b || Less(a, b) || Less(b, a)
  {
    if a != "" && b != "" && a[0] == b[0] {
      LessTotal(a[1..], b[1..]);
      assert a == [a[0]] + a[1..] && b == [b[0]] + b[1..];
    }
  }

  lemma {:induction false} LessTransitive(a: string, b: string, c: string)
    requires Less(a, b) && Less(b, c)
    ensures Less(a, c)
  {
    if a != "" && a[0] == b[0] == c[0] {
      LessTransitive(a[1..], b[1..], c[1..]);
    }
  }

  lemma {:induction false} LessIrreflexive(a: string)
    ensures !Less(a, a)
  {
    if a != "" {
      LessIrreflexive(a[1..]);
    }
  }

  ghost predicate Sorted(ks: seq<string>) {
    forall i, j :: 0 <= i < j < |ks| ==> Less(ks[i], ks[j])
  }

  /** Two sorted listings of the same keys are the same list. */
  lemma {:induction false} SortedUnique(a: seq<string>, b: seq<string>)
    requires Sorted(a) && Sorted(b) && forall k :: k in a <==> k in b
    ensures a == b
  {
    if a != [] {
      assert a[0] in a;
    }
    if b != [] {
      assert b[0] in b;
    }
    if a != [] && b != [] {
      assert a[0] in b && b[0] in a;
      if a[0] != b[0] {
        assert Less(a[0], b[0]) && Less(b[0], a[0]);
        LessTransitive(a[0], b[0], a[0]);
        LessIrreflexive(a[0]);
        assert false;
      }
      forall k
        ensures k in a[1..] <==> k in b[1..]
      {
        LessIrreflexive(a[0]);
        assert k in a <==> k == a[0] || k in a[1..];
        assert k in b <==> k == b[0] || k in b[1..];
      }
      SortedUnique(a[1..], b[1..]);
      assert a == [a[0]] + a[1..] && b == [b[0]] + b[1..];
    }
  }

  function Insert(k: string, ks: seq<string>): seq<string> {
    if ks == [] || Less(k, ks[0]) then [k] + ks else [ks[0]] + Insert(k, ks[1..])
  }

  lemma {:induction false} InsertKeepsOrder(k: string, ks: seq<string>)
    requires Sorted(ks) && k !in ks
    ensures Sorted(Insert(k, ks)) && forall x :: x in Insert(k, ks) <==> x == k || x in ks
  {
    if ks != [] {
      if Less(k, ks[0]) {
        forall i | 0 <= i < |ks|
          ensures Less(k, ks[i])
        {
          if i > 0 {
            LessTransitive(k, ks[0], ks[i]);
          }
        }
      } else {
        LessTotal(k, ks[0]);
        var rest := Insert(k, ks[1..]);
        InsertKeepsOrder(k, ks[1..]);
        assert ks == [ks[0]] + ks[1..];
        forall x | x in rest
          ensures Less(ks[0], x)
        {
          if x != k {
            assert x in ks[1..];
          }
        }
      }
    }
  }

  // -------------------------------------------------------------------------
  // The rewrite
  // -------------------------------------------------------------------------

  const DROPPED: set<string> := {"grant_type", "username", "password", "code", "refresh_token"}

  function KeptKeys(form: Values): set<string> {
    form.Keys - DROPPED
  }

  const PREFIX := "grant_type=refresh_token&refresh_token={{.refreshToken | urlquery}}"

  ghost predicate IsByteForm(form: Values) {
    forall k :: k in form ==> IsBytes(k) && forall i :: 0 <= i < |form[k]| ==> IsBytes(form[k][i])
  }

  /** One kept value: a separator, the escaped key, the escaped value. */
  function ValueText(k: string, v: string): string
    requires IsBytes(k) && IsBytes(v)
  {
    "&" + QueryEscape(k) + "=" + QueryEscape(v)
  }

  function FieldText(k: string, vs: seq<string>): string
    requires IsBytes(k) && forall i :: 0 <= i < |vs| ==> IsBytes(vs[i])
  {
    if vs == [] then "" else ValueText(k, vs[0]) + FieldText(k, vs[1..])
  }

  /** Every field of the listed keys, in the order listed. */
  function FieldsText(form: Values, ks: seq<string>): string
    requires IsByteForm(form) && forall i :: 0 <= i < |ks| ==> ks[i] in form
  {
    if ks == [] then "" else FieldText(ks[0], form[ks[0]]) + FieldsText(form, ks[1..])
  }

  /** The kept keys of the form, once each and in order. */
  ghost predicate Listing(form: Values, ks: seq<string>) {
    && Sorted(ks)
    && (forall i :: 0 <= i < |ks| ==> ks[i] in form && ks[i] !in DROPPED)
    && (forall k :: k in form && k !in DROPPED ==> k in ks)
  }

  /** The keys of the form arrive in any order; they are collected and sorted. */
  method CollectKeys(form: Values) returns (keys: seq<string>)
    ensures Listing(form, keys)
  {
    keys := [];
    var left := form.Keys;
    while left != {}
      invariant left <= form.Keys
      invariant Sorted(keys) && forall k :: k in keys <==> k in KeptKeys(form) - left
      decreases left
    {
      var k :| k in left;
      left := left - {k};
      if k !in DROPPED {
        InsertKeepsOrder(k, keys);
        keys := Insert(k, keys);
      }
    }
    assert forall i :: 0 <= i < |keys| ==> keys[i] in keys;
  }

  method AppendField(before: string, k: string, vs: seq<string>) returns (body: string)
    requires IsBytes(k) && forall i :: 0 <= i < |vs| ==> IsBytes(vs[i])
    ensures body == before + FieldText(k, vs)
  {
    body := before;
    for j := 0 to |vs|
      invariant body + FieldText(k, vs[j..]) == before + FieldText(k, vs)
    {
      assert vs[j..][1..] == vs[j + 1..];
      Assoc(body, ValueText(k, vs[j]), FieldText(k, vs[j + 1..]));
      body := body + ("&" + QueryEscape(k) + "=" + QueryEscape(vs[j]));
    }
  }

  lemma Assoc(a: string, b: string, c: string)
    ensures a + (b + c) == a + b + c
  {}

  method AppendFields(before: string, form: Values, keys: seq<string>) returns (body: string)
    requires IsByteForm(form) && forall i :: 0 <= i < |keys| ==> keys[i] in form
    ensures body == before + FieldsText(form, keys)
  {
    body := before;
    for i := 0 to |keys|
      invariant body + FieldsText(form, keys[i..]) == before + FieldsText(form, keys)
    {
      assert keys[i..][1..] == keys[i + 1..];
      Assoc(body, FieldText(keys[i], form[keys[i]]), FieldsText(form, keys[i + 1..]));
      body := AppendField(body, keys[i], form[keys[i]]);
    }
  }

  /** rewriteToRefreshGrant: whatever order the keys arrive in, the text is the prefix
      and the kept fields in sorted key order, and it sends the refresh request of the form. */
  method RewriteToRefreshGrant(form: Values) returns (body: string)
    requires IsByteForm(form)
    ensures IsRefreshText(form, body)
    ensures IsRefreshBodyFor(body, form)
  {
    var keys := CollectKeys(form);
    body := AppendFields(PREFIX, form, keys);
    assert IsTextOf(form, keys, body);
    forall env: map<string, string> | IsContext(env) && "refreshToken" in env
      ensures SendsRefresh(RenderText(body, env), form, env["refreshToken"])
    {
      RefreshBodyDecodes(form, keys, env);
    }
  }

  ghost predicate IsTextOf(form: Values, ks: seq<string>, body: string)
    requires IsByteForm(form)
  {
    Listing(form, ks) && body == PREFIX + FieldsText(form, ks)
  }

  /** The prefix and then the kept fields in sorted key order. */
  ghost predicate IsRefreshText(form: Values, body: string)
    requires IsByteForm(form)
  {
    exists ks :: IsTextOf(form, ks, body)
  }

  /** There is one such text, so the order in which a map hands out its keys cannot matter. */
  lemma RefreshTextUnique(form: Values, a: string, b: string)
    requires IsByteForm(form) && IsRefreshText(form, a) && IsRefreshText(form, b)
    ensures a == b
  {
    var ks :| IsTextOf(form, ks, a);
    var ls :| IsTextOf(form, ls, b);
    ListingUnique(form, ks, ls);
  }

  lemma ListingUnique(form: Values, a: seq<string>, b: seq<string>)
    requires Listing(form, a) && Listing(form, b)
    ensures a == b
  {
    forall k
      ensures k in a <==> k in b
    {
      if k in a {
        var i :| 0 <= i < |a| && a[i] == k;
      }
      if k in b {
        var i :| 0 <= i < |b| && b[i] == k;
      }
    }
    SortedUnique(a, b);
  }

  // -------------------------------------------------------------------------
  // What the token endpoint decodes
  // -------------------------------------------------------------------------

  /** The slots of one kept field, in value order. */
  function FieldSlots(k: string, vs: seq<string>): seq<Slot>
    requires forall i :: 0 <= i < |vs| ==> IsBytes(vs[i])
  {
    if vs == [] then [] else [Slot(k, QueryEscape(vs[0]))] + FieldSlots(k, vs[1..])
  }

  function KeptSlots(form: Values, ks: seq<string>): seq<Slot>
    requires IsByteForm(form) && forall i :: 0 <= i < |ks| ==> ks[i] in form
  {
    if ks == [] then [] else FieldSlots(ks[0], form[ks[0]]) + KeptSlots(form, ks[1..])
  }

  lemma {:induction false} MoreSlotsConcat(a: seq<Slot>, b: seq<Slot>)
    requires GoodSlots(a) && GoodSlots(b)
    ensures MoreSlots(a + b) == MoreSlots(a) + MoreSlots(b)
  {
    if a == [] {
      assert a + b == b;
    } else {
      assert (a + b)[1..] == a[1..] + b;
      MoreSlotsConcat(a[1..], b);
      Assoc("&" + SlotText(a[0]), MoreSlots(a[1..]), MoreSlots(b));
    }
  }

  lemma {:induction false} SlotPairsConcat(a: seq<Slot>, b: seq<Slot>)
    requires GoodSlots(a) && GoodSlots(b)
    ensures SlotPairs(a + b) == SlotPairs(a) + SlotPairs(b)
  {
    if a == [] {
      assert a + b == b;
    } else {
      assert (a + b)[1..] == a[1..] + b;
      SlotPairsConcat(a[1..], b);
    }
  }

  lemma {:induction false} FieldIsSlots(k: string, vs: seq<string>)
    requires IsBytes(k) && forall i :: 0 <= i < |vs| ==> IsBytes(vs[i])
    ensures GoodSlots(FieldSlots(k, vs)) && MoreSlots(FieldSlots(k, vs)) == FieldText(k, vs)
  {
    if vs != [] {
      EscapedSlot(k, vs[0]);
      FieldIsSlots(k, vs[1..]);
      assert "&" + SlotText(Slot(k, QueryEscape(vs[0]))) == ValueText(k, vs[0]);
    }
  }

  lemma {:induction false} FieldsAreSlots(form: Values, ks: seq<string>)
    requires IsByteForm(form) && forall i :: 0 <= i < |ks| ==> ks[i] in form
    ensures GoodSlots(KeptSlots(form, ks)) && MoreSlots(KeptSlots(form, ks)) == FieldsText(form, ks)
  {
    if ks != [] {
      FieldIsSlots(ks[0], form[ks[0]]);
      FieldsAreSlots(form, ks[1..]);
      MoreSlotsConcat(FieldSlots(ks[0], form[ks[0]]), KeptSlots(form, ks[1..]));
    }
  }

  // -------------------------------------------------------------------------
  // Grouping the decoded pairs
  // -------------------------------------------------------------------------

  lemma {:induction false} GroupConcat(m: Values, a: seq<(string, string)>, b: seq<(string, string)>)
    ensures Group(m, a + b) == Group(Group(m, a), b)
    decreases a
  {
    if a == [] {
      assert a + b == b;
    } else {
      assert (a + b)[1..] == a[1..] + b;
      GroupConcat(m[a[0].0 := Get(m, a[0].0) + [a[0].1]], a[1..], b);
    }
  }

  function FieldPairs(k: string, vs: seq<string>): seq<(string, string)> {
    if vs == [] then [] else [(k, vs[0])] + FieldPairs(k, vs[1..])
  }

  function KeptPairs(form: Values, ks: seq<string>): seq<(string, string)>
    requires forall i :: 0 <= i < |ks| ==> ks[i] in form
  {
    if ks == [] then [] else FieldPairs(ks[0], form[ks[0]]) + KeptPairs(form, ks[1..])
  }

  lemma {:induction false} FieldSlotPairs(k: string, vs: seq<string>)
    requires IsBytes(k) && forall i :: 0 <= i < |vs| ==> IsBytes(vs[i])
    requires GoodSlots(FieldSlots(k, vs))
    ensures SlotPairs(FieldSlots(k, vs)) == FieldPairs(k, vs)
  {
    if vs != [] {
      EscapedSlot(k, vs[0]);
      var slots := FieldSlots(k, vs);
      assert slots[1..] == FieldSlots(k, vs[1..]);
      FieldSlotPairs(k, vs[1..]);
    }
  }

  lemma {:induction false} KeptSlotPairs(form: Values, ks: seq<string>)
    requires IsByteForm(form) && forall i :: 0 <= i < |ks| ==> ks[i] in form
    requires GoodSlots(KeptSlots(form, ks))
    ensures SlotPairs(KeptSlots(form, ks)) == KeptPairs(form, ks)
  {
    if ks != [] {
      FieldIsSlots(ks[0], form[ks[0]]);
      FieldsAreSlots(form, ks[1..]);
      SlotPairsConcat(FieldSlots(ks[0], form[ks[0]]), KeptSlots(form, ks[1..]));
      FieldSlotPairs(ks[0], form[ks[0]]);
      KeptSlotPairs(form, ks[1..]);
    }
  }

  lemma GroupStep(m: Values, k: string, v: string, rest: seq<(string, string)>)
    ensures Group(m, [(k, v)] + rest) == Group(m[k := Get(m, k) + [v]], rest)
  {
    assert ([(k, v)] + rest)[1..] == rest;
  }

  lemma FirstThenTail(had: seq<string>, vs: seq<string>)
    requires vs != []
    ensures had + [vs[0]] + vs[1..] == had + vs
    ensures vs[1..] == [] ==> had + [vs[0]] == had + vs
  {}

  /** Grouping one field's pairs appends its values to that key only. */
  lemma {:induction false} GroupField(m: Values, k: string, vs: seq<string>)
    ensures Group(m, FieldPairs(k, vs)) == if vs == [] then m else m[k := Get(m, k) + vs]
    decreases vs
  {
    if vs != [] {
      var had, tail := Get(m, k), vs[1..];
      var m' := m[k := had + [vs[0]]];
      GroupStep(m, k, vs[0], FieldPairs(k, tail));
      GroupField(m', k, tail);
      FirstThenTail(had, vs);
      if tail != [] {
        assert m'[k := had + vs] == m[k := had + vs];
      }
    }
  }

  /** The listed fields that have a value. */
  function Listed(form: Values, ks: seq<string>): Values {
    map k | k in form && k in ks && form[k] != [] :: form[k]
  }

  lemma {:induction false} GroupKept(m: Values, form: Values, ks: seq<string>)
    requires forall i :: 0 <= i < |ks| ==> ks[i] in form && ks[i] !in m
    requires forall i, j :: 0 <= i < j < |ks| ==> ks[i] != ks[j]
    ensures Group(m, KeptPairs(form, ks)) == m + Listed(form, ks)
    decreases ks
  {
    if ks == [] {
      assert m + Listed(form, ks) == m;
    } else {
      var k, vs := ks[0], form[ks[0]];
      var m' := if vs == [] then m else m[k := vs];
      GroupConcat(m, FieldPairs(k, vs), KeptPairs(form, ks[1..]));
      GroupField(m, k, vs);
      assert [] + vs == vs;
      GroupKept(m', form, ks[1..]);
      ListedStep(m, form, ks);
    }
  }

  lemma ListedStep(m: Values, form: Values, ks: seq<string>)
    requires ks != [] && ks[0] in form && ks[0] !in m && ks[0] !in ks[1..]
    ensures var k, vs := ks[0], form[ks[0]];
      (if vs == [] then m else m[k := vs]) + Listed(form, ks[1..]) == m + Listed(form, ks)
  {
    assert forall x :: x in ks <==> x == ks[0] || x in ks[1..];
  }

  /** What a refresh exchange has to carry: the grant, the captured token, and every
      kept field with its values in order; nothing else. */
  function RefreshFields(form: Values, token: string): Values {
    map["grant_type" := ["refresh_token"], "refresh_token" := [token]]
    + map k | k in form && k !in DROPPED && form[k] != [] :: form[k]
  }

  lemma SortedAreDistinct(ks: seq<string>)
    requires Sorted(ks)
    ensures forall i, j :: 0 <= i < j < |ks| ==> ks[i] != ks[j]
  {
    forall i, j | 0 <= i < j < |ks|
      ensures ks[i] != ks[j]
    {
      LessIrreflexive(ks[i]);
    }
  }

  const HEAD := "grant_type=refresh_token&refresh_token="

  lemma PrefixShape()
    ensures PREFIX == HEAD + Piped("refreshToken") && '{' !in HEAD
  {
    PrefixText();
    NoBraceInHead();
  }

  lemma PrefixText()
    ensures PREFIX == HEAD + Piped("refreshToken")
  {}

  lemma NoBraceInHead()
    ensures '{' !in HEAD
  {}

  lemma GrantNames()
    ensures IsName("refreshToken")
  {}

  lemma RenderBehind(head: string, tail: string, env: map<string, string>)
    requires '{' !in head && '{' !in tail
    requires IsContext(env) && "refreshToken" in env
    ensures RenderText(head + Piped("refreshToken") + tail, env) == Some(head + QueryEscape(env["refreshToken"]) + tail)
  {
    var hole := Piped("refreshToken") + tail;
    Assoc(head, Piped("refreshToken"), tail);
    RenderLiteral(head, hole, env);
    GrantNames();
    RenderPiped("refreshToken", tail, env);
    RenderLiteral(tail, "", env);
    assert tail + "" == tail;
    Assoc(head, QueryEscape(env["refreshToken"]), tail);
  }

  /** No kept key or value can open a template action. */
  lemma {:induction false} SlotTextsHaveNoBrace(form: Values, ks: seq<string>)
    requires IsByteForm(form) && forall i :: 0 <= i < |ks| ==> ks[i] in form
    ensures '{' !in FieldsText(form, ks)
  {
    if ks != [] {
      FieldHasNoBrace(ks[0], form[ks[0]]);
      SlotTextsHaveNoBrace(form, ks[1..]);
    }
  }

  lemma {:induction false} FieldHasNoBrace(k: string, vs: seq<string>)
    requires IsBytes(k) && forall i :: 0 <= i < |vs| ==> IsBytes(vs[i])
    ensures '{' !in FieldText(k, vs)
  {
    if vs != [] {
      EscapedIsSafe(k, '{');
      EscapedIsSafe(vs[0], '{');
      FieldHasNoBrace(k, vs[1..]);
    }
  }

  lemma UnreservedGrantType()
    ensures var w := "grant_type"; forall i :: 0 <= i < |w| ==> Unreserved(w[i])
  {}

  lemma UnreservedRefreshToken()
    ensures var w := "refresh_token"; forall i :: 0 <= i < |w| ==> Unreserved(w[i])
  {}

  lemma GrantWords()
    ensures IsBytes("grant_type") && IsBytes("refresh_token") && "grant_type" != "refresh_token"
    ensures QueryEscape("grant_type") == "grant_type" && QueryEscape("refresh_token") == "refresh_token"
  {
    UnreservedGrantType();
    UnreservedRefreshToken();
    EscapeUnreserved("grant_type");
    EscapeUnreserved("refresh_token");
    assert |"grant_type"| == 10 && |"refresh_token"| == 13;
  }

  lemma HeadWords()
    ensures HEAD == "grant_type" + "=" + "refresh_token" + "&" + "refresh_token" + "="
  {}

  /** Two leading pairs in plain text, the second value escaped, then more slots. */
  lemma DecodedHead(k: string, v: string, k': string, token: string, slots: seq<Slot>)
    requires IsBytes(k) && IsBytes(v) && IsBytes(k') && IsBytes(token) && GoodSlots(slots)
    requires QueryEscape(k) == k && QueryEscape(v) == v && QueryEscape(k') == k'
    ensures Pairs(k + "=" + v + "&" + k' + "=" + QueryEscape(token) + MoreSlots(slots))
         == Decoded(true, [(k, v), (k', token)] + SlotPairs(slots))
  {
    EscapedSlot(k, v);
    EscapedSlot(k', token);
    DecodeTwo(Slot(k, QueryEscape(v)), Slot(k', QueryEscape(token)), slots);
    RegroupHead(k + "=" + v, k', QueryEscape(token), MoreSlots(slots));
  }

  lemma PairFirst<T>(a: T, b: T, rest: seq<T>)
    ensures [a] + ([b] + rest) == [a, b] + rest
  {}

  lemma DecodeTwo(first: Slot, second: Slot, slots: seq<Slot>)
    requires GoodSlot(first) && GoodSlot(second) && GoodSlots(slots)
    ensures Pairs(SlotText(first) + "&" + (SlotText(second) + MoreSlots(slots)))
         == Decoded(true, [SlotPair(first), SlotPair(second)] + SlotPairs(slots))
  {
    DecodeSlot(first);
    DecodeSlots(second, slots);
    PairsOfFirst(SlotText(first), SlotText(second) + MoreSlots(slots), SlotPair(first));
    PairFirst(SlotPair(first), SlotPair(second), SlotPairs(slots));
  }

  lemma RegroupHead(s: string, k: string, e: string, more: string)
    ensures s + "&" + k + "=" + e + more == s + "&" + (k + "=" + e + more)
  {}

  lemma GroupHead(k: string, v: string, k': string, token: string)
    requires k != k'
    ensures Group(map[], [(k, v), (k', token)]) == map[k := [v], k' := [token]]
  {
    var m0: Values := map[];
    var m1: Values := map[k := [v]];
    var pairs := [(k, v), (k', token)];
    assert Get(m0, k) + [v] == [v] && Get(m1, k') + [token] == [token];
    assert pairs[1..] == [(k', token)] && pairs[1..][1..] == [];
    assert m0[k := [v]] == m1;
    assert Group(m0, pairs) == Group(m1, pairs[1..]) == Group(m1[k' := [token]], []);
  }

  lemma GroupRefresh(form: Values, ks: seq<string>, token: string)
    requires Listing(form, ks)
    ensures Group(map[], [("grant_type", "refresh_token"), ("refresh_token", token)] + KeptPairs(form, ks))
         == RefreshFields(form, token)
  {
    var m := map["grant_type" := ["refresh_token"], "refresh_token" := [token]];
    GrantWords();
    GroupConcat(map[], [("grant_type", "refresh_token"), ("refresh_token", token)], KeptPairs(form, ks));
    GroupHead("grant_type", "refresh_token", "refresh_token", token);
    SortedAreDistinct(ks);
    GroupKept(m, form, ks);
    ListedIsKept(form, ks);
  }

  lemma ListedIsKept(form: Values, ks: seq<string>)
    requires Listing(form, ks)
    ensures Listed(form, ks) == map k | k in form && k !in DROPPED && form[k] != [] :: form[k]
  {
    forall k | k in ks
      ensures k in form && k !in DROPPED
    {
      var i :| 0 <= i < |ks| && ks[i] == k;
    }
  }

  /** A request for a refresh grant made from a login form: the grant, the captured token and
      no other one, none of the inputs of a password or code login, and every field under any
      other name with exactly its values. */
  ghost predicate IsRefreshRequest(sent: Values, form: Values, token: string) {
    && Get(sent, "grant_type") == ["refresh_token"] && Get(sent, "refresh_token") == [token]
    && "username" !in sent && "password" !in sent && "code" !in sent
    && forall k :: k !in {"grant_type", "refresh_token", "username", "password", "code"} ==>
         Get(sent, k) == Get(form, k) && (k in sent ==> sent[k] != [])
  }

  /** What is rendered decodes without an error to such a request. */
  ghost predicate SendsRefresh(rendered: Option<string>, form: Values, token: string) {
    && rendered.Some? && ParseQuery(rendered.value).ok
    && IsRefreshRequest(ParseQuery(rendered.value).values, form, token)
  }

  lemma RefreshFieldsAreARequest(form: Values, token: string)
    ensures IsRefreshRequest(RefreshFields(form, token), form, token)
  {
    assert |"grant_type"| == 10 && |"refresh_token"| == 13;
  }

  /** Rendering the refresh body with any captured token and form-decoding it yields
      the grant, that token byte for byte, and every kept field, and nothing else. */
  lemma RefreshBodyDecodes(form: Values, ks: seq<string>, env: map<string, string>)
    requires IsByteForm(form) && Listing(form, ks)
    requires IsContext(env) && "refreshToken" in env
    ensures var r := RenderText(PREFIX + FieldsText(form, ks), env);
      && r.Some? && ParseQuery(r.value) == FormCodec.Form(true, RefreshFields(form, env["refreshToken"]))
      && SendsRefresh(r, form, env["refreshToken"])
  {
    RefreshFieldsAreARequest(form, env["refreshToken"]);
    var token, tail := env["refreshToken"], FieldsText(form, ks);
    PrefixShape();
    SlotTextsHaveNoBrace(form, ks);
    RenderBehind(HEAD, tail, env);
    FieldsAreSlots(form, ks);
    KeptSlotPairs(form, ks);
    GrantWords();
    HeadWords();
    DecodedHead("grant_type", "refresh_token", "refresh_token", token, KeptSlots(form, ks));
    GroupRefresh(form, ks, token);
  }

  // -------------------------------------------------------------------------
  // Deriving the refresh template
  // -------------------------------------------------------------------------

  datatype Template = Template(id: string, verb: string, path: string, headers: map<string, string>,
                               payload: string, extract: map<string, string>)

  const CONTENT_TYPE := "content-type"
  const FORM_TYPE := "application/x-www-form-urlencoded"

  predicate IsContentType(k: string) {
    ToLower(k) == CONTENT_TYPE
  }

  predicate FormEncoded(headers: map<string, string>) {
    exists k :: k in headers && IsContentType(k) && Contains(ToLower(headers[k]), FORM_TYPE)
  }

  /** The header name is read letter by letter, in either case. */
  lemma ContentTypeLetters(k: string)
    ensures IsContentType(k)
       <==> |k| == 12 && forall i :: 0 <= i < 12 ==> k[i] == "content-type"[i] || k[i] == "CONTENT-TYPE"[i]
  {
    LowerAt(k);
    var w := "content-type";
    if |k| == 12 {
      forall i | 0 <= i < 12
        ensures ToLower(k)[i] == w[i] <==> (k[i] == w[i] || k[i] == "CONTENT-TYPE"[i])
      {
        assert ToLower(k)[i] == LowerOf(k[i]);
      }
    }
  }

  ghost predicate OneContentType(headers: map<string, string>) {
    forall k, l :: k in headers && l in headers && IsContentType(k) && IsContentType(l) ==> k == l
  }

  /** isFormURLEncoded: the first Content-Type header met decides, in map order. */
  method IsFormURLEncoded(headers: map<string, string>) returns (r: bool)
    ensures r ==> FormEncoded(headers)
    ensures OneContentType(headers) ==> r == FormEncoded(headers)
  {
    var left := headers.Keys;
    while left != {}
      invariant left <= headers.Keys
      invariant forall k :: k in headers && k !in left ==> !IsContentType(k)
      decreases left
    {
      var k :| k in left;
      if IsContentType(k) {
        return Contains(ToLower(headers[k]), FORM_TYPE);
      }
      left := left - {k};
    }
    return false;
  }

  lemma {:induction false} BeforeAfterBytes(s: string, sep: char)
    requires IsBytes(s)
    ensures IsBytes(Before(s, sep)) && IsBytes(After(s, sep))
  {
    if s != "" && s[0] != sep {
      BeforeAfterBytes(s[1..], sep);
    }
  }

  lemma {:induction false} DecodedPairsAreBytes(query: string)
    requires IsBytes(query)
    ensures forall p :: p in Pairs(query).pairs ==> IsBytes(p.0) && IsBytes(p.1)
    decreases |query|
  {
    if query != "" {
      AfterIsShorter(query, '&');
      BeforeAfterBytes(query, '&');
      var seg := Before(query, '&');
      BeforeAfterBytes(seg, '=');
      UnescapedIsBytes(Before(seg, '='));
      UnescapedIsBytes(After(seg, '='));
      DecodedPairsAreBytes(After(query, '&'));
    }
  }

  /** Parsed values: byte strings, and at least one under every key. */
  ghost predicate IsParsed(form: Values) {
    IsByteForm(form) && forall k :: k in form ==> form[k] != []
  }

  lemma {:induction false} GroupIsParsed(m: Values, pairs: seq<(string, string)>)
    requires IsParsed(m) && forall p :: p in pairs ==> IsBytes(p.0) && IsBytes(p.1)
    ensures IsParsed(Group(m, pairs))
    decreases pairs
  {
    if pairs != [] {
      assert pairs[0] in pairs;
      GroupIsParsed(m[pairs[0].0 := Get(m, pairs[0].0) + [pairs[0].1]], pairs[1..]);
    }
  }

  lemma ParseQueryIsParsed(query: string)
    requires IsBytes(query)
    ensures IsParsed(ParseQuery(query).values)
  {
    DecodedPairsAreBytes(query);
    GroupIsParsed(map[], Pairs(query).pairs);
  }

  /** url.Values.Get */
  function GetFirst(form: Values, k: string): string {
    if k in form && form[k] != [] then form[k][0] else ""
  }

  /** The body of a refresh template, whatever it is rendered with, decodes to the
      refresh grant for the login form it came from. */
  ghost predicate IsRefreshBodyFor(body: string, form: Values) {
    forall env: map<string, string> :: IsContext(env) && "refreshToken" in env ==>
      SendsRefresh(RenderText(body, env), form, env["refreshToken"])
  }

  const REFRESH_NODE := "refresh"

  /** A form-encoded request whose body parses and names a grant type. */
  predicate IsGrantRequest(t: Template) {
    var form := ParseQuery(t.payload);
    && FormEncoded(t.headers) && form.ok
    && "grant_type" in form.values && form.values["grant_type"] != [] && form.values["grant_type"][0] != ""
  }

  /** deriveRefreshTemplate, from the login flow's token template. */
  method DeriveRefreshTemplate(tokenTmpl: Option<Template>) returns (r: Option<Template>)
    requires tokenTmpl.Some? ==> IsBytes(tokenTmpl.value.payload)
    ensures r.Some? ==> tokenTmpl.Some? && IsGrantRequest(tokenTmpl.value)
    ensures tokenTmpl.Some? && OneContentType(tokenTmpl.value.headers) ==>
      (r.Some? <==> IsGrantRequest(tokenTmpl.value))
    ensures r.Some? ==>
      r.value == tokenTmpl.value.(id := REFRESH_NODE, extract := map[], payload := r.value.payload)
      && IsRefreshBodyFor(r.value.payload, ParseQuery(tokenTmpl.value.payload).values)
  {
    if tokenTmpl.None? {
      return None;
    }
    var tmpl := tokenTmpl.value;
    var isForm := IsFormURLEncoded(tmpl.headers);
    if !isForm {
      return None;
    }
    var parsed := ParseQuery(tmpl.payload);
    if !parsed.ok {
      return None;
    }
    if GetFirst(parsed.values, "grant_type") == "" {
      return None;
    }
    ParseQueryIsParsed(tmpl.payload);
    var body := RewriteToRefreshGrant(parsed.values);
    return Some(tmpl.(id := REFRESH_NODE, extract := map[], payload := body));
  }
}
