/** Login credentials: minting and rotating them, and the holders sessions read them from. */
module LoginSessions {
  import opened Options

  /** A credential; ExpiresIn is in seconds. */
  datatype Credential = Credential(subject: string, secret: string, refresh: string, expiresIn: int)

  const NOBODY := Credential("", "", "", 0)

  /** What a token endpoint's answer was found to carry; empty where it carries nothing. */
  datatype Answer = Answer(token: string, subject: string, refresh: string, expiresIn: int)

  // -------------------------------------------------------------------------
  // Minting
  // -------------------------------------------------------------------------

  datatype LoginFlow = LoginFlow(tokenVar: string, subjectVar: string, entries: seq<Credential>)

  function RowOf(entries: seq<Credential>, userIndex: nat): Credential {
    if entries == [] then NOBODY else entries[userIndex % |entries|]
  }

  function Captured(vars: map<string, string>, name: string): string {
    if name in vars then vars[name] else ""
  }

  /** NewLoginTokenFunc, behind the walk of the login flow: its captured variables and its
      last answer. None is a failed login. */
  function Mint(flow: LoginFlow, userIndex: nat, captured: map<string, string>, last: Answer): (r: Option<Credential>)
    ensures r.None? <==> (if flow.tokenVar == "" then last.token else Captured(captured, flow.tokenVar)) == ""
    ensures r.Some? && flow.tokenVar != "" ==> r.value.secret == Captured(captured, flow.tokenVar)
    ensures r.Some? && flow.tokenVar == "" ==> r.value.secret == last.token
    ensures r.Some? && flow.subjectVar != "" ==> r.value.subject == Captured(captured, flow.subjectVar)
    ensures r.Some? && flow.subjectVar == "" && last.subject != "" ==> r.value.subject == last.subject
    ensures r.Some? && flow.subjectVar == "" && last.subject == "" ==>
      r.value.subject == if flow.entries == [] then "" else flow.entries[userIndex % |flow.entries|].subject
    ensures r.Some? ==> r.value.refresh == last.refresh && r.value.expiresIn == last.expiresIn
  {
    var auto := flow.tokenVar == "" || flow.subjectVar == "";
    var autoSubject := if auto then last.subject else "";
    var token := if flow.tokenVar == "" then last.token else Captured(captured, flow.tokenVar);
    if token == "" then None
    else
      var subject :=
        if flow.subjectVar != "" then Captured(captured, flow.subjectVar)
        else if autoSubject != "" then autoSubject
        else RowOf(flow.entries, userIndex).subject;
      Some(Credential(subject, token, last.refresh, last.expiresIn))
  }

  // -------------------------------------------------------------------------
  // Rotating
  // -------------------------------------------------------------------------

  /** NewRefreshTokenFunc, behind the exchange. None is an answer without an access token. */
  function Rotate(cur: Credential, answer: Answer): Option<Credential> {
    if answer.token == "" then None
    else
      var refresh := if answer.refresh == "" then cur.refresh else answer.refresh;
      Some(Credential(cur.subject, answer.token, refresh, answer.expiresIn))
  }

  /** The credential held after some answers; a failed exchange leaves the held one. */
  function Rotated(cur: Credential, answers: seq<Answer>): Credential
    decreases |answers|
  {
    if answers == [] then cur
    else
      var held := Rotated(cur, answers[..|answers| - 1]);
      match Rotate(held, answers[|answers| - 1]) case Some(next) => next case None => held
  }

  predicate Rotates(a: Answer) {
    a.token != "" && a.refresh != ""
  }

  /** The last answer along the chain that handed out a new refresh token. */
  ghost predicate LastRotation(answers: seq<Answer>, k: nat) {
    k < |answers| && Rotates(answers[k]) && forall j :: k < j < |answers| ==> !Rotates(answers[j])
  }

  ghost predicate LastToken(answers: seq<Answer>, k: nat) {
    k < |answers| && answers[k].token != "" && forall j :: k < j < |answers| ==> answers[j].token == ""
  }

  /** Whatever the server answers along a chain of refreshes, the subject never changes, and
      a refresh token is only lost to a newer one. */
  lemma {:induction false} SubjectIsConstant(cur: Credential, answers: seq<Answer>)
    ensures Rotated(cur, answers).subject == cur.subject
    ensures (forall j :: 0 <= j < |answers| ==> !Rotates(answers[j])) ==> Rotated(cur, answers).refresh == cur.refresh
    decreases |answers|
  {
    if answers != [] {
      SubjectIsConstant(cur, answers[..|answers| - 1]);
    }
  }

  /** The refresh token held is the last non-empty one an accepted answer carried. */
  lemma {:induction false} LastRefreshTokenIsHeld(cur: Credential, answers: seq<Answer>, k: nat)
    requires LastRotation(answers, k)
    ensures Rotated(cur, answers).refresh == answers[k].refresh
    decreases |answers|
  {
    if k < |answers| - 1 {
      var init := answers[..|answers| - 1];
      assert init[k] == answers[k] && !Rotates(answers[|answers| - 1]);
      assert LastRotation(init, k);
      LastRefreshTokenIsHeld(cur, init, k);
    }
  }

  /** The access token held is the last one an answer carried, with its lifetime. */
  lemma {:induction false} LastTokenIsHeld(cur: Credential, answers: seq<Answer>, k: nat)
    requires LastToken(answers, k)
    ensures Rotated(cur, answers).secret == answers[k].token
    ensures Rotated(cur, answers).expiresIn == answers[k].expiresIn
    decreases |answers|
  {
    if k < |answers| - 1 {
      var init := answers[..|answers| - 1];
      assert init[k] == answers[k] && answers[|answers| - 1].token == "";
      assert LastToken(init, k);
      LastTokenIsHeld(cur, init, k);
    }
  }

  // -------------------------------------------------------------------------
  // The provider
  // -------------------------------------------------------------------------

  /** One refresh against a cache: an exchange if there is a transport and a refresh token,
      another login otherwise. relogin and answer are what either of them would yield. */
  function RefreshOutcome(cache: map<int, Credential>, canExchange: bool, key: int,
                          relogin: Option<Credential>, answer: Option<Answer>): Option<Credential> {
    if canExchange && key in cache && cache[key].refresh != "" then
      match answer case Some(a) => Rotate(cache[key], a) case None => None
    else relogin
  }

  class LoginProvider {
    var cache: map<int, Credential>
    const canExchange: bool

    constructor (canExchange: bool)
      ensures cache == map[] && this.canExchange == canExchange
    {
      this.canExchange := canExchange;
      cache := map[];
    }

    /** Acquire: a login only for a key that has no credential yet. A failed one is not kept. */
    method Acquire(key: int, login: Option<Credential>) returns (r: Option<Credential>)
      modifies this
      ensures r == if key in old(cache) then Some(old(cache)[key]) else login
      ensures cache == if r.Some? then old(cache)[key := r.value] else old(cache)
    {
      if key in cache {
        r := Some(cache[key]);
        assert cache == cache[key := cache[key]];
        return;
      }
      if login.Some? {
        cache := cache[key := login.value];
      }
      return login;
    }

    /** refreshOnce: read the current credential, exchange it, write the result back. */
    method Refresh(key: int, relogin: Option<Credential>, answer: Option<Answer>) returns (r: Option<Credential>)
      modifies this
      ensures r == RefreshOutcome(old(cache), canExchange, key, relogin, answer)
      ensures !canExchange || key !in old(cache) || old(cache)[key].refresh == "" ==> r == relogin
      ensures canExchange && key in old(cache) && old(cache)[key].refresh != "" ==>
        (r.Some? <==> answer.Some? && answer.value.token != "")
        && (r.Some? ==> r.value.subject == old(cache)[key].subject && r.value.secret == answer.value.token)
      ensures cache == if r.Some? then old(cache)[key := r.value] else old(cache)
    {
      if canExchange {
        if key in cache && cache[key].refresh != "" {
          if answer.None? {
            return None;
          }
          r := Rotate(cache[key], answer.value);
          if r.Some? {
            cache := cache[key := r.value];
          }
          return;
        }
      }
      if relogin.Some? {
        cache := cache[key := relogin.value];
      }
      return relogin;
    }
  }

  // -------------------------------------------------------------------------
  // Holders and the sessions seeded with them
  // -------------------------------------------------------------------------

  class Holder {
    var cred: Credential

    constructor (cred: Credential)
      ensures this.cred == cred
    {
      this.cred := cred;
    }

    method Set(c: Credential)
      modifies this
      ensures cred == c
    {
      cred := c;
    }
  }

  /** What seed hands to a session: its holder, and the key its refresh closure is bound to. */
  datatype Session = Session(key: int, holder: Holder)

  class LoginAuth {
    const provider: LoginProvider
    const shared: bool
    var sharedHolder: Holder?
    ghost var sessions: seq<Session>

    ghost predicate Valid()
      reads this
    {
      if shared then
        forall i :: 0 <= i < |sessions| ==> sessions[i].key == 0 && sessions[i].holder == sharedHolder
      else
        && sharedHolder == null
        && forall i, j :: 0 <= i < j < |sessions| ==> sessions[i].holder != sessions[j].holder
    }

    ghost function Holders(): set<object>
      reads this
    {
      (set s | s in sessions :: s.holder) + (if sharedHolder == null then {} else {sharedHolder})
    }

    /** In the shared scope every session reads the provider's one current credential. */
    ghost predicate Current()
      reads this, provider, sharedHolder
    {
      shared && sharedHolder != null ==> 0 in provider.cache && sharedHolder.cred == provider.cache[0]
    }

    constructor (provider: LoginProvider, shared: bool)
      ensures Valid() && Current() && sessions == [] && this.provider == provider && this.shared == shared
    {
      this.provider, this.shared := provider, shared;
      sharedHolder, sessions := null, [];
    }

    /** seed. The shared scope hands out one and the same holder for ever. */
    method Seed(userIndex: int, login: Option<Credential>) returns (r: Option<Session>)
      requires Valid() && Current()
      modifies this, provider
      ensures Valid() && Current()
      ensures r.None? ==> sessions == old(sessions) && sharedHolder == old(sharedHolder)
      ensures r.Some? ==> sessions == old(sessions) + [r.value]
      ensures r.Some? && shared ==> r.value == Session(0, r.value.holder) && sharedHolder == r.value.holder
      ensures shared && old(sharedHolder) != null ==> r == Some(Session(0, old(sharedHolder)))
      ensures r.Some? && !shared ==> r.value.key == userIndex && fresh(r.value.holder)
      ensures r.Some? ==> r.value.key in provider.cache && r.value.holder.cred == provider.cache[r.value.key]
    {
      if shared {
        r := SharedSeed(login);
        return;
      }
      var cred := provider.Acquire(userIndex, login);
      if cred.None? {
        return None;
      }
      var holder := new Holder(cred.value);
      r := Some(Session(userIndex, holder));
      sessions := sessions + [r.value];
    }

    /** sharedSeed */
    method SharedSeed(login: Option<Credential>) returns (r: Option<Session>)
      requires Valid() && Current() && shared
      modifies this, provider
      ensures Valid() && Current()
      ensures r.None? ==> sessions == old(sessions) && sharedHolder == old(sharedHolder) == null
      ensures r.Some? ==> sessions == old(sessions) + [r.value] && r.value.key == 0 && sharedHolder == r.value.holder
      ensures old(sharedHolder) != null ==> r == Some(Session(0, old(sharedHolder)))
    {
      if sharedHolder != null {
        r := Some(Session(0, sharedHolder));
        sessions := sessions + [r.value];
        return;
      }
      var cred := provider.Acquire(0, login);
      if cred.None? {
        return None;
      }
      var holder := new Holder(cred.value);
      sharedHolder := holder;
      r := Some(Session(0, holder));
      sessions := sessions + [r.value];
    }

    /** The closure refreshFunc builds, run by session k. In the shared scope every session
        then reads the outcome; per user, every other session's holder is as it was. */
    method RunRefresh(ghost k: nat, s: Session, relogin: Option<Credential>, answer: Option<Answer>) returns (ok: bool)
      requires Valid() && Current() && k < |sessions| && s == sessions[k]
      modifies provider, s.holder
      ensures Valid() && Current()
      ensures var outcome := RefreshOutcome(old(provider.cache), provider.canExchange, s.key, relogin, answer);
        && ok == outcome.Some?
        && provider.cache == (if ok then old(provider.cache)[s.key := outcome.value] else old(provider.cache))
        && s.holder.cred == (if ok then outcome.value else old(s.holder.cred))
        && (shared ==> forall i :: 0 <= i < |sessions| ==> sessions[i].holder.cred == s.holder.cred)
      ensures !shared || !ok ==>
        forall i :: 0 <= i < |sessions| && (i != k || !ok) ==> sessions[i].holder.cred == old(sessions[i].holder.cred)
    {
      var cred := provider.Refresh(s.key, relogin, answer);
      if cred.None? {
        return false;
      }
      s.holder.Set(cred.value);
      return true;
    }
  }
}
