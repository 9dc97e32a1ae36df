/** Sessions of the local authentication provider: login, use, invalidation, key rotation and
    the sweep of idle entries. Times are in seconds. */
module Sessions {
  import opened Common

  const KEYS := 2
  const IDLETIME := 600
  const REGENERATE := 900

  type Key = nat
  type Id = nat

  datatype TokenType = LoginToken | SessionToken

  datatype Session = Session(uid: string, id: Id, role: string)

  /** The claims of a token: the audience it is for, when it expires (section 4.1.4 of RFC 7519),
      and the login or session it names. */
  datatype Claims = Claims(audience: TokenType, exp: int, login: Option<Id>, session: Option<Session>)

  /** A signed token. Signing is ideal: a token exists only if it was issued. */
  datatype Token = Token(key: Key, claims: Claims)

  datatype Config = Config(loginExpiry: int, sessionExpiry: int)

  datatype State = State(keys: seq<Option<Key>>, logins: map<Id, int>, sessions: map<Id, int>)

  datatype Outcome =
    | Issued(token: Token)
    | Accepted(uid: string, role: string, renewed: Option<Token>)
    | Verified
    | Done
    | Rejected
    | Panicked

  datatype Op =
    | Preauthenticate(loginId: Id)
    | Authenticate(uid: string, role: string, id: Id, genuine: bool)
    | Authenticated(token: Token, userExists: bool)
    | Verify(tt: TokenType, token: Token)
    | Invalidate(tt: TokenType, token: Token)
    | Regenerate(key: Key)
    | Sweep

  // ---- One step ----

  predicate Extant(touched: map<Id, int>, id: Id, now: int) {
    id in touched && touched[id] >= now - IDLETIME
  }

  function Kept(touched: map<Id, int>, now: int): map<Id, int> {
    map id | id in touched && touched[id] >= now - 2 * IDLETIME :: touched[id]
  }

  /** The first key that verifies a token's signature. */
  function KeyIndex(keys: seq<Option<Key>>, key: Key): (ix: nat)
    ensures ix <= |keys|
    ensures ix < |keys| ==> keys[ix] == Some(key)
    ensures forall i :: 0 <= i < ix ==> keys[i] != Some(key)
  {
    if keys == [] then 0
    else if keys[0] == Some(key) then 0
    else 1 + KeyIndex(keys[1..], key)
  }

  predicate Signed(s: State, token: Token) {
    KeyIndex(s.keys, token.key) < |s.keys|
  }

  /** The keys after a rotation: the loop copies upwards, so that every later slot ends up with
      the key that was current. */
  function Rotated(keys: seq<Option<Key>>, key: Key): (r: seq<Option<Key>>)
    requires keys != []
    ensures |r| == |keys| && r[0] == Some(key) && forall i :: 0 < i < |r| ==> r[i] == keys[0]
  {
    [Some(key)] + seq(|keys| - 1, _ => keys[0])
  }

  /** With two slots that is the current key and the one before; with more slots the older keys
      would be lost. */
  lemma RotationKeepsHistory(keys: seq<Option<Key>>, key: Key)
    requires keys != []
    ensures Rotated(keys, key) == [Some(key)] + keys[..|keys| - 1] <==>
              forall i :: 0 < i < |keys| - 1 ==> keys[i] == keys[0]
  {
    var shifted := [Some(key)] + keys[..|keys| - 1];
    if Rotated(keys, key) == shifted {
      forall i | 0 < i < |keys| - 1 ensures keys[i] == keys[0] {
        assert Rotated(keys, key)[i + 1] == shifted[i + 1];
      }
    }
  }

  predicate CanUse(s: State, token: Token, now: int) {
    && Signed(s, token) && token.claims.audience == SessionToken && now < token.claims.exp
    && token.claims.session.Some? && Extant(s.sessions, token.claims.session.value.id, now)
  }

  predicate CanVerify(s: State, tt: TokenType, token: Token, now: int) {
    && Signed(s, token) && now < token.claims.exp && token.claims.audience == tt
    && match tt
       case LoginToken => token.claims.login.Some? && Extant(s.logins, token.claims.login.value, now)
       case SessionToken => token.claims.session.Some? && Extant(s.sessions, token.claims.session.value.id, now)
  }

  ghost predicate WellFormed(s: State) {
    |s.keys| == KEYS && s.keys[0].Some?
  }

  function LoginClaims(c: Config, now: int, id: Id): Claims {
    Claims(LoginToken, now + c.loginExpiry, Some(id), None)
  }

  function SessionClaims(c: Config, now: int, uid: string, id: Id, role: string): Claims {
    Claims(SessionToken, now + c.sessionExpiry, None, Some(Session(uid, id, role)))
  }

  function Next(s: State, c: Config, now: int, op: Op): (r: State)
    requires WellFormed(s)
    ensures WellFormed(r)
  {
    match op
    case Preauthenticate(id) => s.(logins := s.logins[id := now])
    case Authenticate(_, _, id, genuine) => if genuine then s.(sessions := s.sessions[id := now]) else s
    case Authenticated(token, userExists) =>
      if !CanUse(s, token, now) then s
      else
        var id := token.claims.session.value.id;
        s.(sessions := if userExists then s.sessions[id := now] else s.sessions - {id})
    case Verify(_, _) => s
    case Invalidate(tt, token) =>
      if !Signed(s, token) then s
      else
        (match tt
         case LoginToken => if token.claims.login.None? then s else s.(logins := s.logins - {token.claims.login.value})
         case SessionToken =>
           if token.claims.session.None? then s else s.(sessions := s.sessions - {token.claims.session.value.id}))
    case Regenerate(key) => s.(keys := Rotated(s.keys, key))
    case Sweep => s.(logins := Kept(s.logins, now), sessions := Kept(s.sessions, now))
  }

  function Answer(s: State, c: Config, now: int, op: Op): Outcome
    requires WellFormed(s)
  {
    match op
    case Preauthenticate(id) => Issued(Token(s.keys[0].value, LoginClaims(c, now, id)))
    case Authenticate(uid, role, id, genuine) =>
      if genuine then Issued(Token(s.keys[0].value, SessionClaims(c, now, uid, id, role))) else Rejected
    case Authenticated(token, userExists) =>
      if !CanUse(s, token, now) || !userExists then Rejected
      else
        var renewed := if KeyIndex(s.keys, token.key) == 0 then None else Some(Token(s.keys[0].value, token.claims));
        Accepted(token.claims.session.value.uid, token.claims.session.value.role, renewed)
    case Verify(tt, token) => if CanVerify(s, tt, token, now) then Verified else Rejected
    case Invalidate(tt, token) =>
      if !Signed(s, token) then Rejected
      else if tt == LoginToken && token.claims.login.None? then Panicked
      else if tt == SessionToken && token.claims.session.None? then Panicked
      else Done
    case Regenerate(_) => Done
    case Sweep => Done
  }

  // ---- The provider ----

  class Local {
    var keys: array<Option<Key>>
    const config: Config
    var logins: map<Id, int>
    var sessions: map<Id, int>

    ghost function Abs(): State
      reads this, keys
    {
      State(keys[..], logins, sessions)
    }

    ghost predicate Valid()
      reads this, keys
    {
      WellFormed(Abs())
    }

    constructor (config: Config, key: Key)
      ensures Valid() && fresh(keys) && this.config == config
      ensures Abs() == State([Some(key), None], map[], map[])
    {
      this.config := config;
      logins, sessions := map[], map[];
      keys := new Option<Key>[KEYS](_ => None);
      new;
      keys[0] := Some(key);
    }

    /** Which key verifies the token; the number of keys if none does. */
    method GetToken(token: Token) returns (ix: nat)
      ensures ix == KeyIndex(keys[..], token.key)
    {
      ix := 0;
      while ix < keys.Length
        invariant ix <= keys.Length
        invariant KeyIndex(keys[..], token.key) == ix + KeyIndex(keys[ix..], token.key)
      {
        if keys[ix] == Some(token.key) {
          return;
        }
        assert keys[ix..][1..] == keys[ix + 1..];
        ix := ix + 1;
      }
    }

    method Preauthenticate(now: int, id: Id) returns (r: Outcome)
      requires Valid()
      modifies this`logins
      ensures Valid() && Abs() == Next(old(Abs()), config, now, Op.Preauthenticate(id))
      ensures r == Answer(old(Abs()), config, now, Op.Preauthenticate(id))
    {
      var claims := LoginClaims(config, now, id);
      r := Issued(Token(keys[0].value, claims));
      logins := logins[id := now];
    }

    /** `genuine` says whether the user exists and the password or one-time code is right. */
    method Authenticate(now: int, uid: string, role: string, id: Id, genuine: bool) returns (r: Outcome)
      requires Valid()
      modifies this`sessions
      ensures Valid() && Abs() == Next(old(Abs()), config, now, Op.Authenticate(uid, role, id, genuine))
      ensures r == Answer(old(Abs()), config, now, Op.Authenticate(uid, role, id, genuine))
    {
      if !genuine {
        return Rejected;
      }
      var claims := SessionClaims(config, now, uid, id, role);
      r := Issued(Token(keys[0].value, claims));
      sessions := sessions[id := now];
    }

    method Authenticated(now: int, token: Token, userExists: bool) returns (r: Outcome)
      requires Valid()
      modifies this`sessions
      ensures Valid() && Abs() == Next(old(Abs()), config, now, Op.Authenticated(token, userExists))
      ensures r == Answer(old(Abs()), config, now, Op.Authenticated(token, userExists))
    {
      var ix := GetToken(token);
      if ix == keys.Length || token.claims.audience != SessionToken || token.claims.exp <= now
          || token.claims.session.None? {
        return Rejected;
      }
      var session := token.claims.session.value;
      if !Extant(sessions, session.id, now) {
        return Rejected;
      }
      if !userExists {
        sessions := sessions - {session.id};
        return Rejected;
      }
      sessions := sessions[session.id := now];
      if ix == 0 {
        return Accepted(session.uid, session.role, None);
      }
      r := Accepted(session.uid, session.role, Some(Token(keys[0].value, token.claims)));
    }

    method Verify(now: int, tt: TokenType, token: Token) returns (r: Outcome)
      requires Valid()
      ensures Valid() && r == Answer(Abs(), config, now, Op.Verify(tt, token))
    {
      var ix := GetToken(token);
      if ix == keys.Length || token.claims.exp <= now || token.claims.audience != tt {
        return Rejected;
      }
      match tt
      case LoginToken =>
        r := if token.claims.login.Some? && Extant(logins, token.claims.login.value, now) then Verified else Rejected;
      case SessionToken =>
        r := if token.claims.session.Some? && Extant(sessions, token.claims.session.value.id, now) then Verified
             else Rejected;
    }

    method Invalidate(tt: TokenType, token: Token, ghost now: int) returns (r: Outcome)
      requires Valid()
      modifies this`logins, this`sessions
      ensures Valid() && Abs() == Next(old(Abs()), config, now, Op.Invalidate(tt, token))
      ensures r == Answer(old(Abs()), config, now, Op.Invalidate(tt, token))
    {
      var ix := GetToken(token);
      if ix == keys.Length {
        return Rejected;
      }
      match tt
      case LoginToken =>
        if token.claims.login.None? {
          return Panicked;
        }
        logins := logins - {token.claims.login.value};
        r := Done;
      case SessionToken =>
        if token.claims.session.None? {
          return Panicked;
        }
        sessions := sessions - {token.claims.session.value.id};
        r := Done;
    }

    method Regenerate(key: Key, ghost now: int)
      requires Valid()
      modifies keys
      ensures Valid() && Abs() == Next(old(Abs()), config, now, Op.Regenerate(key))
    {
      for i := 1 to keys.Length
        invariant keys[0] == old(keys[0])
        invariant forall j :: 0 < j < i ==> keys[j] == old(keys[0])
        invariant forall j :: i <= j < keys.Length ==> keys[j] == old(keys[j])
      {
        keys[i] := keys[i - 1];
      }
      keys[0] := Some(key);
      assert keys[..] == Rotated(old(keys[..]), key);
    }

    method Sweep(now: int)
      requires Valid()
      modifies this`logins, this`sessions
      ensures Valid() && Abs() == Next(old(Abs()), config, now, Op.Sweep)
    {
      logins := SweepIdle(logins, now);
      sessions := SweepIdle(sessions, now);
    }
  }

  /** Lists the idle entries first and deletes them afterwards. */
  method SweepIdle(touched: map<Id, int>, now: int) returns (kept: map<Id, int>)
    ensures kept == Kept(touched, now)
  {
    var list: set<Id> := {};
    var todo := touched.Keys;
    while todo != {}
      invariant todo <= touched.Keys
      invariant list == set id | id in touched && id !in todo && touched[id] < now - 2 * IDLETIME
    {
      var id :| id in todo;
      if touched[id] < now - 2 * IDLETIME {
        list := list + {id};
      }
      todo := todo - {id};
    }
    kept := touched - list;
  }
}
