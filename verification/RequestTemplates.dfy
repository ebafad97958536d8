/** Request templates: the {{.name}} and {{.name | urlquery}} actions a payload is
    rendered with, and the rewrite that pipes bare placeholders through urlquery. */
module RequestTemplates {
  import opened Options
  import opened FormCodec

  // -------------------------------------------------------------------------
  // Rendering
  // -------------------------------------------------------------------------

  /** The text up to the first "}}", or nothing when the action is not closed. */
  function ActionText(s: string): Option<string> {
    if s == "" then None
    else if "}}" <= s then Some("")
    else Cons(s[0], ActionText(s[1..]))
  }

  function Strip(s: string): string {
    if s != "" && s[0] == ' ' then Strip(s[1..])
    else if s != "" && s[|s| - 1] == ' ' then Strip(s[..|s| - 1])
    else s
  }

  const PIPE := " | urlquery"

  /** Render contexts hold byte strings. */
  ghost predicate IsContext(env: map<string, string>) {
    forall k :: k in env ==> IsBytes(env[k])
  }

  predicate IsNameStart(c: char) {
    'a' <= c <= 'z' || 'A' <= c <= 'Z' || c == '_'
  }

  predicate IsNameChar(c: char) {
    IsNameStart(c) || '0' <= c <= '9'
  }

  /** A name a field can be referred to by; a dot would make it a chain of fields. */
  predicate IsName(name: string) {
    name != "" && IsNameStart(name[0]) && forall i :: 0 <= i < |name| ==> IsNameChar(name[i])
  }

  /** One action: a field, or a field piped through urlquery. A missing key is an error,
      and so is every action outside these two forms. */
  function Eval(action: string, env: map<string, string>): Option<string>
    requires IsContext(env)
  {
    var a := Strip(action);
    if a == "" || a[0] != '.' then None
    else
      var ref := a[1..];
      if IsName(ref) then Field(ref, env)
      else if |ref| > |PIPE| && ref[|ref| - |PIPE|..] == PIPE then
        match Field(ref[..|ref| - |PIPE|], env) case Some(v) => Some(QueryEscape(v)) case None => None
      else None
  }

  function Field(name: string, env: map<string, string>): (r: Option<string>)
    requires IsContext(env)
    ensures r.Some? ==> IsBytes(r.value)
  {
    if IsName(name) && name in env then Some(env[name]) else None
  }

  lemma {:induction false} ActionLength(s: string)
    ensures ActionText(s).Some? ==> |ActionText(s).value| + 2 <= |s|
  {
    if s != "" && !("}}" <= s) {
      ActionLength(s[1..]);
    }
  }

  /** Substituted values are emitted, never read as template text again. */
  function RenderText(s: string, env: map<string, string>): Option<string>
    requires IsContext(env)
    decreases |s|
  {
    if s == "" then Some("")
    else if "{{" <= s then
      ActionLength(s[2..]);
      match ActionText(s[2..])
      case None => None
      case Some(action) => Then(Eval(action, env), RenderText(s[|action| + 4..], env))
    else Cons(s[0], RenderText(s[1..], env))
  }

  /** Text without an opening brace is its own rendering. */
  lemma {:induction false} RenderLiteral(a: string, rest: string, env: map<string, string>)
    requires IsContext(env) && '{' !in a
    ensures RenderText(a + rest, env) == Then(Some(a), RenderText(rest, env))
  {
    if a == "" {
      assert a + rest == rest;
      ConsThen(' ', Some(""), RenderText(rest, env));
    } else {
      assert a[0] in a;
      assert (a + rest)[1..] == a[1..] + rest;
      RenderLiteral(a[1..], rest, env);
      ConsThen(a[0], Some(a[1..]), RenderText(rest, env));
      assert [a[0]] + a[1..] == a;
    }
  }

  lemma {:induction false} ActionTextIs(action: string, rest: string)
    requires '}' !in action
    ensures ActionText(action + "}}" + rest) == Some(action)
  {
    var s := action + "}}" + rest;
    if action == "" {
      assert s == "}}" + rest && s[..2] == "}}";
    } else {
      assert action[0] in action && s[0] == action[0] != '}';
      assert s[1..] == action[1..] + "}}" + rest;
      ActionTextIs(action[1..], rest);
      assert [action[0]] + action[1..] == action;
    }
  }

  function Piped(name: string): string {
    "{{." + name + PIPE + "}}"
  }

  lemma EvalPiped(name: string, env: map<string, string>)
    requires IsContext(env) && IsName(name) && name in env
    ensures Eval("." + name + PIPE, env) == Some(QueryEscape(env[name]))
  {
    var a := "." + name + PIPE;
    assert a[0] == '.' && a[|a| - 1] == 'y';
    var ref := a[1..];
    assert ref == name + PIPE;
    assert !IsName(ref) by {
      assert ref[|name|] == ' ';
    }
    assert ref[|ref| - |PIPE|..] == PIPE && ref[..|ref| - |PIPE|] == name;
  }

  /** A piped placeholder renders to the escaped value. */
  lemma RenderPiped(name: string, rest: string, env: map<string, string>)
    requires IsContext(env) && IsName(name) && name in env
    ensures RenderText(Piped(name) + rest, env) == Then(Some(QueryEscape(env[name])), RenderText(rest, env))
  {
    var action := "." + name + PIPE;
    var s := Piped(name) + rest;
    assert s[2..] == action + "}}" + rest;
    NoBraceInName(name);
    assert '}' !in PIPE && '}' !in "." && '}' !in action;
    ActionTextIs(action, rest);
    assert s[|action| + 4..] == rest;
    EvalPiped(name, env);
  }

  lemma NoBraceInName(name: string)
    requires IsName(name)
    ensures '}' !in name && ' ' !in name && '{' !in name && '.' !in name
  {}

  function Plain(name: string): string {
    "{{." + name + "}}"
  }

  /** A bare placeholder renders to the value as it is. */
  lemma RenderPlain(name: string, rest: string, env: map<string, string>)
    requires IsContext(env) && IsName(name) && name in env
    ensures RenderText(Plain(name) + rest, env) == Then(Some(env[name]), RenderText(rest, env))
  {
    var action := "." + name;
    var s := Plain(name) + rest;
    assert s[2..] == action + "}}" + rest;
    NoBraceInName(name);
    assert '}' !in action;
    ActionTextIs(action, rest);
    assert s[|action| + 4..] == rest;
    assert action[0] == '.' && action[|action| - 1] == name[|name| - 1] && action[1..] == name;
  }

  /** A placeholder the context does not have makes the whole rendering fail. */
  lemma RenderMissing(name: string, rest: string, env: map<string, string>)
    requires IsContext(env) && IsName(name) && name !in env
    ensures RenderText(Plain(name) + rest, env).None? && RenderText(Piped(name) + rest, env).None?
  {
    NoBraceInName(name);
    PlainMissing(name, rest, env);
    var action := "." + name + PIPE;
    var s := Piped(name) + rest;
    assert '}' !in PIPE && '}' !in "." && '}' !in action;
    assert s[2..] == action + "}}" + rest;
    ActionTextIs(action, rest);
    EvalMissing(name, env);
  }

  lemma PlainMissing(name: string, rest: string, env: map<string, string>)
    requires IsContext(env) && IsName(name) && name !in env
    ensures RenderText(Plain(name) + rest, env).None?
  {
    NoBraceInName(name);
    var action := "." + name;
    var s := Plain(name) + rest;
    assert '}' !in action && s[2..] == action + "}}" + rest;
    ActionTextIs(action, rest);
    assert action[0] == '.' && action[|action| - 1] == name[|name| - 1] && action[1..] == name;
  }

  lemma EvalMissing(name: string, env: map<string, string>)
    requires IsContext(env) && IsName(name) && name !in env
    ensures Eval("." + name + PIPE, env).None?
  {
    var a := "." + name + PIPE;
    assert a[0] == '.' && a[|a| - 1] == 'y';
    var ref := a[1..];
    assert ref == name + PIPE && ref[|name|] == ' ';
    assert ref[..|ref| - |PIPE|] == name;
  }
}
