/** What every operation of a run is answered, in terms of the operations before it alone: which
    logins, uses, invalidations and rotations there were, and when. */
module SessionHistory {
  import opened Common
  import opened Sessions
  import opened SessionRuns

  // ---- Keys ----

  ghost function Current(key: Key, es: seq<Event>, j: nat): Key
    requires j <= |es|
  {
    var t := KeyTrail(key, es[..j]);
    t[|t| - 1]
  }

  /** The current key or the one before it. */
  ghost predicate HoldsKey(key: Key, es: seq<Event>, j: nat, k: Key)
    requires j <= |es|
  {
    var t := KeyTrail(key, es[..j]);
    k == t[|t| - 1] || (|t| > 1 && k == t[|t| - 2])
  }

  lemma HeldIsSigned(c: Config, key: Key, es: seq<Event>, j: nat, token: Token)
    requires j <= |es|
    ensures var s := After(c, key, es[..j]);
            && s.keys[0] == Some(Current(key, es, j))
            && (Signed(s, token) <==> HoldsKey(key, es, j, token.key))
            && (KeyIndex(s.keys, token.key) == 0 <==> token.key == Current(key, es, j))
  {
    KeysHeld(c, key, es[..j]);
  }

  // ---- Sessions ----

  /** The claims are those of the session opened by the login at l. */
  ghost predicate OpenedAt(c: Config, es: seq<Event>, l: nat, claims: Claims)
    requires l < |es|
  {
    && es[l].op.Authenticate? && es[l].op.genuine
    && claims == Claims(SessionToken, es[l].now + c.sessionExpiry, None,
                        Some(Session(es[l].op.uid, es[l].op.id, es[l].op.role)))
  }

  /** A session can be used with a token when its key is held, the expiry fixed at its login has not
      passed, it was touched within the idle time, and it has not ended since that login. */
  ghost predicate Usable(c: Config, key: Key, es: seq<Event>, j: nat, token: Token)
    requires j < |es|
    decreases j, 0
  {
    && token.claims.session.Some? && HoldsKey(key, es, j, token.key) && es[j].now < token.claims.exp
    && exists l, k :: 0 <= l <= k < j && UsableSince(c, key, es, l, k, j, token)
  }

  ghost predicate UsableSince(c: Config, key: Key, es: seq<Event>, l: nat, k: nat, j: nat, token: Token)
    requires l <= k < j < |es|
    decreases j - 1, 2
  {
    && OpenedAt(c, es, l, token.claims) && es[k].now >= es[j].now - IDLETIME
    && TouchedBy(c, key, es, k, token.claims.session.value.id)
    && forall d :: l < d < j ==> !EndedBy(c, key, es, d, token.claims.session.value.id)
  }

  /** A session is touched by its login and whenever it is used. */
  ghost predicate TouchedBy(c: Config, key: Key, es: seq<Event>, k: nat, id: Id)
    requires k < |es|
    decreases k, 1
  {
    match es[k].op
    case Authenticate(_, _, i, genuine) => genuine && i == id
    case Authenticated(token, userExists) =>
      userExists && Usable(c, key, es, k, token) && token.claims.session.value.id == id
    case _ => false
  }

  /** It ends when it is used after its user has gone, or is invalidated with a key that is held. */
  ghost predicate EndedBy(c: Config, key: Key, es: seq<Event>, d: nat, id: Id)
    requires d < |es|
    decreases d, 1
  {
    match es[d].op
    case Authenticated(token, userExists) =>
      !userExists && Usable(c, key, es, d, token) && token.claims.session.value.id == id
    case Invalidate(tt, token) =>
      && tt == SessionToken && HoldsKey(key, es, d, token.key)
      && token.claims.session.Some? && token.claims.session.value.id == id
    case _ => false
  }

  // ---- Logins ----

  /** When a login was opened, if it has not been invalidated since. */
  ghost function LoginTime(key: Key, es: seq<Event>, id: Id): Option<int> {
    if es == [] then None
    else
      var n := |es| - 1;
      match es[n].op
      case Preauthenticate(i) => if i == id then Some(es[n].now) else LoginTime(key, es[..n], id)
      case Invalidate(tt, token) =>
        if tt == LoginToken && token.claims.login == Some(id) && HoldsKey(key, es, n, token.key) then None
        else LoginTime(key, es[..n], id)
      case _ => LoginTime(key, es[..n], id)
  }

  ghost predicate LoginUsable(key: Key, es: seq<Event>, j: nat, token: Token)
    requires j < |es|
  {
    && token.claims.login.Some? && token.claims.audience == LoginToken
    && HoldsKey(key, es, j, token.key) && es[j].now < token.claims.exp
    && var t := LoginTime(key, es[..j], token.claims.login.value);
    t.Some? && t.value >= es[j].now - IDLETIME
  }

  // ---- The answers ----

  /** The answer to the j-th operation. An accepted use returns the user and role of the login, and
      a token with the current key and the same claims exactly when the one presented has another. */
  ghost predicate Answered(c: Config, key: Key, es: seq<Event>, j: nat, r: Outcome)
    requires j < |es|
  {
    var now, current := es[j].now, Current(key, es, j);
    match es[j].op
    case Preauthenticate(id) => r == Issued(Token(current, Claims(LoginToken, now + c.loginExpiry, Some(id), None)))
    case Authenticate(uid, role, id, genuine) =>
      if genuine
      then r == Issued(Token(current, Claims(SessionToken, now + c.sessionExpiry, None, Some(Session(uid, id, role)))))
      else r == Rejected
    case Authenticated(token, userExists) =>
      if userExists && Usable(c, key, es, j, token)
      then AcceptedAs(c, es, j, token, if token.key == current then None else Some(Token(current, token.claims)), r)
      else r == Rejected
    case Verify(tt, token) =>
      r == if tt == SessionToken && Usable(c, key, es, j, token) then Verified
           else if tt == LoginToken && LoginUsable(key, es, j, token) then Verified else Rejected
    case Invalidate(tt, token) =>
      r == if !HoldsKey(key, es, j, token.key) then Rejected
           else if tt == LoginToken && token.claims.login.None? then Panicked
           else if tt == SessionToken && token.claims.session.None? then Panicked else Done
    case Regenerate(_) => r == Done
    case Sweep => r == Done
  }

  /** With the user and role of the login that the token comes from. */
  ghost predicate AcceptedAs(c: Config, es: seq<Event>, j: nat, token: Token, renewed: Option<Token>, r: Outcome)
    requires j < |es|
  {
    exists l :: 0 <= l < j && OpenedAt(c, es, l, token.claims) && r == Accepted(es[l].op.uid, es[l].op.role, renewed)
  }

  /** The clock never goes back, session identifiers are fresh, and only tokens that earlier answers
      gave out are presented. */
  ghost predicate Legitimate(es: seq<Event>, answers: seq<Outcome>) {
    && |answers| == |es|
    && (forall i, j :: 0 <= i < j < |es| ==> es[i].now <= es[j].now)
    && (forall i, j :: 0 <= i < j < |es| && es[i].op.Authenticate? && es[j].op.Authenticate? ==>
          es[i].op.id != es[j].op.id)
    && forall i :: 0 <= i < |es| && Presented(es[i].op).Some? ==>
         exists k :: 0 <= k < i && GivesOut(answers[k], Presented(es[i].op).value)
  }

  // ---- The machine gives these answers ----

  lemma PrefixOf(c: Config, key: Key, es: seq<Event>, j: nat, d: nat)
    requires d < j <= |es|
    ensures es[..j][..d] == es[..d] && es[..j][d] == es[d]
    ensures forall id :: EndsAt(c, key, es[..j], d, id) == EndsAt(c, key, es, d, id)
    ensures forall id :: TouchesAt(c, key, es[..j], d, id) == TouchesAt(c, key, es, d, id)
    ensures forall claims :: LoginAt(c, es[..j], d, claims) <==> OpenedAt(c, es, d, claims)
  {
    assert es[..j][..d] == es[..d];
  }

  lemma {:induction false} UsableIsCanUse(c: Config, key: Key, es: seq<Event>, j: nat, token: Token)
    requires Legit(c, key, es) && j < |es| && GivenOut(c, key, es, j, token)
    ensures CanUse(After(c, key, es[..j]), token, es[j].now) <==> Usable(c, key, es, j, token)
    decreases j, 2
  {
    HeldIsSigned(c, key, es, j, token);
    if token.claims.session.Some? {
      var before, now := es[..j], es[j].now;
      if CanUse(After(c, key, before), token, now) {
        ExtantIsGenuine(c, key, es, j, token, now);
        GenuineIsUsable(c, key, es, j, token);
      }
      if Usable(c, key, es, j, token) {
        UsableIsGenuine(c, key, es, j, token);
        GenuineIsExtant(c, key, before, token, now);
      }
    }
  }

  lemma GenuineIsUsable(c: Config, key: Key, es: seq<Event>, j: nat, token: Token)
    requires Legit(c, key, es) && j < |es| && Genuine(c, key, es[..j], token, es[j].now)
    ensures exists l, k :: 0 <= l <= k < j && UsableSince(c, key, es, l, k, j, token)
    decreases j, 0
  {
    var before, id := es[..j], token.claims.session.value.id;
    var l, k :|
        OpenSince(c, key, before, l, k, id) && LoginAt(c, before, l, token.claims)
            && before[k].now >= es[j].now - IDLETIME;
    PrefixOf(c, key, es, j, l);
    PrefixOf(c, key, es, j, k);
    EntryIs(c, key, es, k, id);
    forall d | l < d < j ensures !EndedBy(c, key, es, d, id) {
      PrefixOf(c, key, es, j, d);
      EntryIs(c, key, es, d, id);
      assert !EndsAt(c, key, before, d, id);
    }
    assert UsableSince(c, key, es, l, k, j, token);
  }

  lemma UsableIsGenuine(c: Config, key: Key, es: seq<Event>, j: nat, token: Token)
    requires Legit(c, key, es) && j < |es| && Usable(c, key, es, j, token)
    ensures Genuine(c, key, es[..j], token, es[j].now) && token.claims.audience == SessionToken
    decreases j, 0
  {
    var before, id := es[..j], token.claims.session.value.id;
    var l, k :| 0 <= l <= k < j && UsableSince(c, key, es, l, k, j, token);
    PrefixOf(c, key, es, j, l);
    PrefixOf(c, key, es, j, k);
    EntryIs(c, key, es, k, id);
    forall d | l < d < |before| ensures !EndsAt(c, key, before, d, id) {
      PrefixOf(c, key, es, j, d);
      EntryIs(c, key, es, d, id);
    }
    assert OpenSince(c, key, before, l, k, id);
  }

  /** Touching and ending a session, by the machine and by history. */
  lemma EntryIs(c: Config, key: Key, es: seq<Event>, k: nat, id: Id)
    requires Legit(c, key, es) && k < |es|
    ensures TouchesAt(c, key, es, k, id) <==> TouchedBy(c, key, es, k, id)
    ensures EndsAt(c, key, es, k, id) <==> EndedBy(c, key, es, k, id)
    decreases k, 3
  {
    match es[k].op
    case Authenticated(token, _) =>
      assert Presented(es[k].op) == Some(token);
      UsableIsCanUse(c, key, es, k, token);
    case Invalidate(_, token) =>
      HeldIsSigned(c, key, es, k, token);
    case _ =>
  }

  lemma {:induction false} LoginEntry(c: Config, key: Key, es: seq<Event>, id: Id)
    requires forall i, j :: 0 <= i < j < |es| ==> es[i].now <= es[j].now
    ensures var logins, t := After(c, key, es).logins, LoginTime(key, es, id);
            && (id in logins ==> t == Some(logins[id]))
            && (t.Some? && id !in logins ==> es != [] && t.value < es[|es| - 1].now - IDLETIME)
  {
    if es != [] {
      var n := |es| - 1;
      LoginEntry(c, key, es[..n], id);
      if es[n].op.Invalidate? {
        HeldIsSigned(c, key, es, n, es[n].op.token);
      }
    }
  }

  lemma LoginIsUsable(c: Config, key: Key, es: seq<Event>, j: nat, token: Token)
    requires j < |es| && forall i, k :: 0 <= i < k < |es| ==> es[i].now <= es[k].now
    ensures CanVerify(After(c, key, es[..j]), LoginToken, token, es[j].now) <==> LoginUsable(key, es, j, token)
  {
    HeldIsSigned(c, key, es, j, token);
    if token.claims.login.Some? {
      LoginEntry(c, key, es[..j], token.claims.login.value);
    }
  }

  lemma AnsweredByHistory(c: Config, key: Key, es: seq<Event>, j: nat)
    requires Legit(c, key, es) && j < |es|
    ensures Answered(c, key, es, j, AnswerAt(c, key, es, j))
  {
    match es[j].op
    case Preauthenticate(_) => KeysHeld(c, key, es[..j]);
    case Authenticate(_, _, _, _) => KeysHeld(c, key, es[..j]);
    case Authenticated(token, userExists) =>
      HeldIsSigned(c, key, es, j, token);
      assert Presented(es[j].op) == Some(token);
      UsableIsCanUse(c, key, es, j, token);
      if userExists && Usable(c, key, es, j, token) {
        var l, k :| 0 <= l <= k < j && UsableSince(c, key, es, l, k, j, token);
        assert OpenedAt(c, es, l, token.claims);
      }
    case Verify(tt, token) =>
      assert Presented(es[j].op) == Some(token);
      if tt == SessionToken {
        UsableIsCanUse(c, key, es, j, token);
      } else {
        LoginIsUsable(c, key, es, j, token);
      }
    case Invalidate(_, token) => HeldIsSigned(c, key, es, j, token);
    case Regenerate(_) =>
    case Sweep =>
  }

  /** Every operation of a run is answered by the provider as its history says. */
  method Serve(c: Config, key: Key, es: seq<Event>) returns (answers: seq<Outcome>)
    ensures |answers| == |es|
    ensures Legitimate(es, answers) ==> forall j :: 0 <= j < |es| ==> Answered(c, key, es, j, answers[j])
  {
    answers := Run(c, key, es);
    if Legitimate(es, answers) {
      forall i | 0 <= i < |es| && Presented(es[i].op).Some?
        ensures GivenOut(c, key, es, i, Presented(es[i].op).value)
      {
        var k :| 0 <= k < i && GivesOut(answers[k], Presented(es[i].op).value);
        assert GivesOut(AnswerAt(c, key, es, k), Presented(es[i].op).value);
      }
      forall j | 0 <= j < |es| ensures Answered(c, key, es, j, answers[j]) {
        AnsweredByHistory(c, key, es, j);
      }
    }
  }

  // ---- A client that keeps up ----

  /** The token that a client holds after its first i + 1 calls: that of its login, or the last one
      it was given since. */
  ghost function TokenHeld(answers: seq<Outcome>, calls: seq<nat>, i: nat): Option<Token>
    requires i < |calls| && forall n :: 0 <= n < |calls| ==> calls[n] < |answers|
  {
    var r := answers[calls[i]];
    if i == 0 then (if r.Issued? then Some(r.token) else None)
    else if r.Accepted? && r.renewed.Some? then r.renewed
    else TokenHeld(answers, calls, i - 1)
  }

  /** A login and then uses of it, each with the last token given out to the client, no further apart
      than the idle time and before the expiry fixed at the login; nothing else ends the session. */
  ghost predicate KeepsUp(c: Config, key: Key, es: seq<Event>, answers: seq<Outcome>, calls: seq<nat>) {
    && |answers| == |es| && calls != [] && (forall n :: 0 <= n < |calls| ==> calls[n] < |es|)
    && (forall m, n :: 0 <= m < n < |calls| ==> calls[m] < calls[n])
    && es[calls[0]].op.Authenticate? && es[calls[0]].op.genuine
    && forall n :: 1 <= n < |calls| ==>
         && es[calls[n]].now <= es[calls[n - 1]].now + IDLETIME
         && es[calls[n]].now < es[calls[0]].now + c.sessionExpiry
         && es[calls[n]].op.Authenticated? && es[calls[n]].op.userExists
         && TokenHeld(answers, calls, n - 1) == Some(es[calls[n]].op.token)
         && forall d :: calls[0] < d < calls[n] ==> !EndedBy(c, key, es, d, es[calls[0]].op.id)
  }

  lemma TrailKeeps(key: Key, es: seq<Event>, i: nat, j: nat)
    requires i < j <= |es| && Spaced(es) && es[j - 1].now - es[i].now <= IDLETIME && !es[i].op.Regenerate?
    requires forall a, b :: 0 <= a < b < |es| ==> es[a].now <= es[b].now
    ensures HoldsKey(key, es, j, Current(key, es, i))
  {
    var before := es[..j];
    assert before[..i + 1] == es[..i + 1] && es[..i + 1][..i] == es[..i];
    assert KeyTrail(key, es[..i + 1]) == KeyTrail(key, es[..i]);
    OneRotationAtMost(key, before, i, es[j - 1].now);
    TrailGrows(key, before, i + 1);
  }

  /** A use within the idle time of the one before, with a token whose key is still held. */
  lemma NextUse(c: Config, key: Key, es: seq<Event>, l: nat, k: nat, j: nat, r: Outcome)
    requires l <= k < j < |es| && es[j].op.Authenticated? && es[j].op.userExists && es[l].op.Authenticate?
    requires forall a, b :: 0 <= a < b < |es| && es[a].op.Authenticate? && es[b].op.Authenticate? ==>
               es[a].op.id != es[b].op.id
    requires var token := es[j].op.token;
             && OpenedAt(c, es, l, token.claims) && HoldsKey(key, es, j, token.key)
             && TouchedBy(c, key, es, k, es[l].op.id)
    requires es[j].now <= es[k].now + IDLETIME && es[j].now < es[l].now + c.sessionExpiry
    requires (forall d :: l < d < j ==> !EndedBy(c, key, es, d, es[l].op.id)) && Answered(c, key, es, j, r)
    ensures TouchedBy(c, key, es, j, es[l].op.id)
    ensures r.Accepted? && r.uid == es[l].op.uid && r.role == es[l].op.role
    ensures var token, current := es[j].op.token, Current(key, es, j);
            r.renewed == if token.key == current then None else Some(Token(current, token.claims))
  {
    var token := es[j].op.token;
    assert UsableSince(c, key, es, l, k, j, token);
    assert Usable(c, key, es, j, token);
    var m :| 0 <= m < j && OpenedAt(c, es, m, token.claims) && r.Accepted?
             && r.uid == es[m].op.uid && r.role == es[m].op.role;
    assert es[m].op.id == es[l].op.id;
  }

  /** After each call the client holds a token with the login's claims and the key current then. */
  lemma {:induction false} CallIsAccepted(c: Config, key: Key, es: seq<Event>, answers: seq<Outcome>, calls: seq<nat>,
                                          i: nat)
    requires Legitimate(es, answers) && (forall j :: 0 <= j < |es| ==> Answered(c, key, es, j, answers[j]))
    requires Spaced(es) && KeepsUp(c, key, es, answers, calls) && i < |calls|
    ensures var login := es[calls[0]]; var held := TokenHeld(answers, calls, i);
            && held.Some? && OpenedAt(c, es, calls[0], held.value.claims)
            && held.value.key == Current(key, es, calls[i])
            && TouchedBy(c, key, es, calls[i], login.op.id)
            && (i > 0 ==> answers[calls[i]].Accepted? && answers[calls[i]].uid == login.op.uid
                          && answers[calls[i]].role == login.op.role)
  {
    var l, j := calls[0], calls[i];
    assert Answered(c, key, es, j, answers[j]);
    if i > 0 {
      var k := calls[i - 1];
      CallIsAccepted(c, key, es, answers, calls, i - 1);
      assert calls[i - 1] < calls[i];
      assert i > 1 ==> calls[0] < calls[i - 1];
      assert !es[k].op.Regenerate?;
      assert es[j - 1].now <= es[j].now;
      TrailKeeps(key, es, k, j);
      NextUse(c, key, es, l, k, j, answers[j]);
    }
  }

  /** A client that always presents the last token it was given, at intervals within the idle time,
      is accepted as the user of its login until the expiry fixed at that login, across any number of
      rotations. */
  lemma ClientStaysIn(c: Config, key: Key, es: seq<Event>, answers: seq<Outcome>, calls: seq<nat>)
    requires Legitimate(es, answers) && (forall j :: 0 <= j < |es| ==> Answered(c, key, es, j, answers[j]))
    requires Spaced(es) && KeepsUp(c, key, es, answers, calls)
    ensures forall i :: 1 <= i < |calls| ==>
              && answers[calls[i]].Accepted? && answers[calls[i]].uid == es[calls[0]].op.uid
              && answers[calls[i]].role == es[calls[0]].op.role
  {
    forall i | 1 <= i < |calls|
      ensures answers[calls[i]].Accepted? && answers[calls[i]].uid == es[calls[0]].op.uid
      ensures answers[calls[i]].role == es[calls[0]].op.role
    {
      CallIsAccepted(c, key, es, answers, calls, i);
    }
  }
}
