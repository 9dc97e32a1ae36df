/** Whole runs of the session table: why a session is accepted, and that sweeping is never
    noticed. */
module SessionRuns {
  import opened Common
  import opened Sessions

  // ---- Sweeping ----

  /** The tables agree on every entry that is not idle. */
  ghost predicate SameLive(a: map<Id, int>, b: map<Id, int>, now: int) {
    forall id: Id :: Extant(a, id, now) || Extant(b, id, now) ==> id in a && id in b && a[id] == b[id]
  }

  ghost predicate Alike(s: State, t: State, now: int) {
    s.keys == t.keys && SameLive(s.logins, t.logins, now) && SameLive(s.sessions, t.sessions, now)
  }

  lemma StaysSameLive(a: map<Id, int>, b: map<Id, int>, before: int, now: int)
    requires SameLive(a, b, before) && before <= now
    ensures SameLive(a, b, now) && SameLive(Sessions.Kept(a, now), b, now)
              && SameLive(Sessions.Kept(a, now), Sessions.Kept(b, now), now)
  {
    forall k: Id | Extant(a, k, now) || Extant(b, k, now) ensures k in a && k in b && a[k] == b[k] {
      assert Extant(a, k, before) || Extant(b, k, before);
    }
  }

  lemma StaysAlike(s: State, t: State, before: int, now: int)
    requires Alike(s, t, before) && before <= now
    ensures Alike(s, t, now)
  {
    StaysSameLive(s.logins, t.logins, before, now);
    StaysSameLive(s.sessions, t.sessions, before, now);
  }

  lemma SameExtant(a: map<Id, int>, b: map<Id, int>, now: int, id: Id)
    requires SameLive(a, b, now)
    ensures Extant(a, id, now) == Extant(b, id, now)
    ensures SameLive(a[id := now], b[id := now], now) && SameLive(a - {id}, b - {id}, now)
  {
    forall k: Id | k != id && (Extant(a, k, now) || Extant(b, k, now)) ensures k in a && k in b && a[k] == b[k] {
    }
  }

  lemma AliveAlike(s: State, t: State, c: Config, now: int, tt: TokenType, token: Token)
    requires Alike(s, t, now)
    ensures CanUse(s, token, now) == CanUse(t, token, now)
              && CanVerify(s, tt, token, now) == CanVerify(t, tt, token, now)
  {
    if token.claims.session.Some? {
      SameExtant(s.sessions, t.sessions, now, token.claims.session.value.id);
    }
    if token.claims.login.Some? {
      SameExtant(s.logins, t.logins, now, token.claims.login.value);
    }
  }

  /** Tables that differ only in idle entries give the same answer... */
  lemma AnswersAlike(s: State, t: State, c: Config, now: int, op: Op)
    requires WellFormed(s) && WellFormed(t) && Alike(s, t, now)
    ensures Answer(s, c, now, op) == Answer(t, c, now, op)
  {
    match op
    case Authenticated(token, _) => AliveAlike(s, t, c, now, SessionToken, token);
    case Verify(tt, token) => AliveAlike(s, t, c, now, tt, token);
    case _ =>
  }

  /** ...and still differ only in idle entries afterwards. */
  lemma NextAlike(s: State, t: State, c: Config, now: int, op: Op)
    requires WellFormed(s) && WellFormed(t) && Alike(s, t, now)
    ensures Alike(Next(s, c, now, op), Next(t, c, now, op), now)
  {
    match op
    case Preauthenticate(id) => SameExtant(s.logins, t.logins, now, id);
    case Authenticate(_, _, id, _) => SameExtant(s.sessions, t.sessions, now, id);
    case Authenticated(token, _) =>
      AliveAlike(s, t, c, now, SessionToken, token);
      if token.claims.session.Some? {
        SameExtant(s.sessions, t.sessions, now, token.claims.session.value.id);
      }
    case Verify(_, _) =>
    case Invalidate(_, token) =>
      if token.claims.session.Some? {
        SameExtant(s.sessions, t.sessions, now, token.claims.session.value.id);
      }
      if token.claims.login.Some? {
        SameExtant(s.logins, t.logins, now, token.claims.login.value);
      }
    case Regenerate(_) =>
    case Sweep =>
      StaysSameLive(s.logins, t.logins, now, now);
      StaysSameLive(s.sessions, t.sessions, now, now);
  }

  datatype Event = Event(now: int, op: Op)

  /** The clock never goes back. */
  ghost predicate Timed(es: seq<Event>, start: int) {
    && (forall i :: 0 <= i < |es| ==> start <= es[i].now)
    && forall i, j :: 0 <= i < j < |es| ==> es[i].now <= es[j].now
  }

  /** The answers to all operations but sweeps. */
  function Answers(s: State, c: Config, es: seq<Event>): seq<Outcome>
    requires WellFormed(s)
    decreases |es|
  {
    if es == [] then []
    else
      (if es[0].op.Sweep? then [] else [Answer(s, c, es[0].now, es[0].op)])
          + Answers(Next(s, c, es[0].now, es[0].op), c, es[1..])
  }

  function WithoutSweeps(es: seq<Event>): seq<Event> {
    if es == [] then [] else (if es[0].op.Sweep? then [] else [es[0]]) + WithoutSweeps(es[1..])
  }

  lemma {:induction false} AlikeForever(s: State, t: State, c: Config, now: int, es: seq<Event>)
    requires WellFormed(s) && WellFormed(t) && Alike(s, t, now) && Timed(es, now)
    ensures Answers(s, c, es) == Answers(t, c, WithoutSweeps(es))
    decreases |es|
  {
    if es != [] {
      var e := es[0];
      StaysAlike(s, t, now, e.now);
      AnswersAlike(s, t, c, e.now, e.op);
      NextAlike(s, t, c, e.now, e.op);
      var s' := Next(s, c, e.now, e.op);
      if e.op.Sweep? {
        StaysSameLive(s.logins, t.logins, e.now, e.now);
        StaysSameLive(s.sessions, t.sessions, e.now, e.now);
        AlikeForever(s', t, c, e.now, es[1..]);
        assert WithoutSweeps(es) == WithoutSweeps(es[1..]);
      } else {
        AlikeForever(s', Next(t, c, e.now, e.op), c, e.now, es[1..]);
        assert WithoutSweeps(es)[1..] == WithoutSweeps(es[1..]);
      }
    }
  }

  /** Sweeping is never noticed: with any sweeps at any times, every other operation is answered
      as if there had been none. */
  lemma SweepsAreInvisible(s: State, c: Config, start: int, es: seq<Event>)
    requires WellFormed(s) && Timed(es, start)
    ensures Answers(s, c, es) == Answers(s, c, WithoutSweeps(es))
  {
    AlikeForever(s, s, c, start, es);
  }

  // ---- Why a session is accepted ----

  function After(c: Config, key: Key, es: seq<Event>): (s: State)
    ensures WellFormed(s)
  {
    if es == [] then State([Some(key), None], map[], map[])
    else
      var last := es[|es| - 1];
      Next(After(c, key, es[..|es| - 1]), c, last.now, last.op)
  }

  /** The answer to the i-th operation of a run. */
  function AnswerAt(c: Config, key: Key, es: seq<Event>, i: nat): Outcome
    requires i < |es|
  {
    Answer(After(c, key, es[..i]), c, es[i].now, es[i].op)
  }

  predicate GivesOut(r: Outcome, token: Token) {
    r == Issued(token) || (r.Accepted? && r.renewed == Some(token))
  }

  function Presented(op: Op): Option<Token> {
    match op
    case Authenticated(token, _) => Some(token)
    case Verify(_, token) => Some(token)
    case Invalidate(_, token) => Some(token)
    case _ => None
  }

  ghost predicate GivenOut(c: Config, key: Key, es: seq<Event>, i: nat, token: Token)
    requires i <= |es|
  {
    exists k :: 0 <= k < i && GivesOut(AnswerAt(c, key, es, k), token)
  }

  /** The clock never goes back, session identifiers are fresh, and only tokens that were given
      out are presented. */
  ghost predicate Legit(c: Config, key: Key, es: seq<Event>) {
    && (forall i, j :: 0 <= i < j < |es| ==> es[i].now <= es[j].now)
    && (forall i, j :: 0 <= i < j < |es| && es[i].op.Authenticate? && es[j].op.Authenticate? ==>
          es[i].op.id != es[j].op.id)
    && forall i :: 0 <= i < |es| && Presented(es[i].op).Some? ==> GivenOut(c, key, es, i, Presented(es[i].op).value)
  }

  /** A successful login that issued these claims. */
  predicate LoginAt(c: Config, es: seq<Event>, l: nat, claims: Claims)
    requires l < |es|
  {
    match es[l].op
    case Authenticate(uid, role, id, genuine) => genuine && claims == SessionClaims(c, es[l].now, uid, id, role)
    case _ => false
  }

  /** A session ends when its token is invalidated or its user turns out not to exist. */
  predicate Ends(s: State, c: Config, now: int, op: Op, id: Id)
    requires WellFormed(s)
  {
    match op
    case Authenticated(token, userExists) =>
      CanUse(s, token, now) && !userExists && token.claims.session.value.id == id
    case Invalidate(tt, token) =>
      tt == SessionToken && Answer(s, c, now, op) == Done && token.claims.session.value.id == id
    case _ => false
  }

  /** A session is touched by the login and by every accepted use. */
  predicate Touches(s: State, c: Config, now: int, op: Op, id: Id)
    requires WellFormed(s)
  {
    match op
    case Authenticate(_, _, i, genuine) => genuine && i == id
    case Authenticated(token, _) => Answer(s, c, now, op).Accepted? && token.claims.session.value.id == id
    case _ => false
  }

  /** What one operation makes of an entry. */
  lemma EntryAfter(s: State, c: Config, now: int, op: Op, id: Id)
    requires WellFormed(s)
    ensures var after := Next(s, c, now, op).sessions;
            && (Touches(s, c, now, op, id) ==> id in after && after[id] == now && !Ends(s, c, now, op, id))
            && (Touches(s, c, now, op, id) && !op.Authenticate? ==> id in s.sessions)
            && (!Touches(s, c, now, op, id) && id in after ==>
                  id in s.sessions && after[id] == s.sessions[id] && !Ends(s, c, now, op, id))
            && (id in s.sessions && s.sessions[id] >= now - 2 * IDLETIME && !Ends(s, c, now, op, id) ==>
                  id in after && after[id] == if Touches(s, c, now, op, id) then now else s.sessions[id])
  {
    match op
    case Preauthenticate(_) =>
    case Authenticate(_, _, _, _) =>
    case Authenticated(_, _) =>
    case Verify(_, _) =>
    case Invalidate(_, _) =>
    case Regenerate(_) =>
    case Sweep =>
  }

  predicate EndsAt(c: Config, key: Key, es: seq<Event>, d: nat, id: Id)
    requires d < |es|
  {
    Ends(After(c, key, es[..d]), c, es[d].now, es[d].op, id)
  }

  predicate TouchesAt(c: Config, key: Key, es: seq<Event>, k: nat, id: Id)
    requires k < |es|
  {
    Touches(After(c, key, es[..k]), c, es[k].now, es[k].op, id)
  }

  /** The session was opened at l, touched at k, and has not ended. */
  ghost predicate OpenSince(c: Config, key: Key, es: seq<Event>, l: int, k: int, id: Id) {
    && 0 <= l <= k < |es| && es[l].op.Authenticate? && es[l].op.genuine && es[l].op.id == id
         && TouchesAt(c, key, es, k, id)
    && forall d :: l < d < |es| ==> !EndsAt(c, key, es, d, id)
  }

  /** Every entry stands for an open session and has the time of a touch. */
  ghost predicate Backed(c: Config, key: Key, es: seq<Event>, id: Id, t: int) {
    exists l, k :: OpenSince(c, key, es, l, k, id) && es[k].now == t
  }

  lemma Prefix(c: Config, key: Key, es: seq<Event>, i: nat)
    requires i < |es| - 1
    ensures var front := es[..|es| - 1];
            front[..i] == es[..i] && front[i] == es[i] && AnswerAt(c, key, front, i) == AnswerAt(c, key, es, i)
  {
    assert es[..|es| - 1][..i] == es[..i];
  }

  lemma OpenStep(c: Config, key: Key, es: seq<Event>, l: int, k: int, id: Id)
    requires es != [] && OpenSince(c, key, es[..|es| - 1], l, k, id) && !EndsAt(c, key, es, |es| - 1, id)
    ensures OpenSince(c, key, es, l, k, id)
    ensures TouchesAt(c, key, es, |es| - 1, id) ==> OpenSince(c, key, es, l, |es| - 1, id)
  {
    var front := es[..|es| - 1];
    Prefix(c, key, es, k);
    forall d | l < d < |es| ensures !EndsAt(c, key, es, d, id) {
      if d < |es| - 1 {
        Prefix(c, key, es, d);
        assert !EndsAt(c, key, front, d, id);
      }
    }
  }

  /** One more operation keeps every entry backed. */
  lemma BackedStep(c: Config, key: Key, es: seq<Event>, id: Id)
    requires es != [] && id in After(c, key, es).sessions
    requires var s := After(c, key, es[..|es| - 1]);
               id in s.sessions ==> Backed(c, key, es[..|es| - 1], id, s.sessions[id])
    ensures Backed(c, key, es, id, After(c, key, es).sessions[id])
  {
    var n := |es| - 1;
    var front, last := es[..n], es[n];
    var s := After(c, key, front);
    EntryAfter(s, c, last.now, last.op, id);
    if last.op.Authenticate? && last.op.genuine && last.op.id == id {
      assert OpenSince(c, key, es, n, n, id);
    } else {
      assert id in s.sessions && !EndsAt(c, key, es, n, id);
      var l, k :| OpenSince(c, key, front, l, k, id) && front[k].now == s.sessions[id];
      OpenStep(c, key, es, l, k, id);
      assert front[k] == es[k];
    }
  }

  lemma {:induction false} EntriesAreBacked(c: Config, key: Key, es: seq<Event>, id: Id)
    requires id in After(c, key, es).sessions
    ensures Backed(c, key, es, id, After(c, key, es).sessions[id])
  {
    if es != [] {
      if id in After(c, key, es[..|es| - 1]).sessions {
        EntriesAreBacked(c, key, es[..|es| - 1], id);
      }
      BackedStep(c, key, es, id);
    }
  }

  /** Renewal copies the claims, so every session token has the claims of a login. */
  lemma {:induction false} TokensComeFromLogins(c: Config, key: Key, es: seq<Event>, i: nat, token: Token)
    requires Legit(c, key, es) && i < |es| && GivesOut(AnswerAt(c, key, es, i), token) && token.claims.session.Some?
    ensures exists l :: 0 <= l <= i && LoginAt(c, es, l, token.claims)
    decreases i
  {
    if es[i].op.Authenticate? {
      assert LoginAt(c, es, i, token.claims);
    } else {
      var presented := Presented(es[i].op).value;
      assert presented.claims == token.claims;
      var k :| 0 <= k < i && GivesOut(AnswerAt(c, key, es, k), presented);
      TokensComeFromLogins(c, key, es, k, presented);
    }
  }

  /** The token's claims were issued at a login, the session has not ended since, and it was
      touched within the idle time. */
  ghost predicate Genuine(c: Config, key: Key, es: seq<Event>, token: Token, now: int) {
    token.claims.session.Some? &&
    exists l, k ::
        OpenSince(c, key, es, l, k, token.claims.session.value.id) && LoginAt(c, es, l, token.claims)
            && es[k].now >= now - IDLETIME
  }

  lemma ExtantIsGenuine(c: Config, key: Key, es: seq<Event>, j: nat, token: Token, now: int)
    requires Legit(c, key, es) && j <= |es| && GivenOut(c, key, es, j, token) && token.claims.session.Some?
    requires Extant(After(c, key, es[..j]).sessions, token.claims.session.value.id, now)
    ensures Genuine(c, key, es[..j], token, now)
  {
    var before, id := es[..j], token.claims.session.value.id;
    var i :| 0 <= i < j && GivesOut(AnswerAt(c, key, es, i), token);
    TokensComeFromLogins(c, key, es, i, token);
    var m :| 0 <= m <= i && LoginAt(c, es, m, token.claims);
    EntriesAreBacked(c, key, before, id);
    var l, k :| OpenSince(c, key, before, l, k, id) && before[k].now == After(c, key, before).sessions[id];
    assert before[l] == es[l] && before[m] == es[m];
    assert es[l].op.id == es[m].op.id;
    assert l == m;
    assert LoginAt(c, before, l, token.claims);
  }

  lemma EntryStays(c: Config, key: Key, es: seq<Event>, id: Id, t: int)
    requires es != [] && t <= es[|es| - 1].now <= t + 2 * IDLETIME && !EndsAt(c, key, es, |es| - 1, id)
    requires var s := After(c, key, es[..|es| - 1]); id in s.sessions && s.sessions[id] >= t
    ensures id in After(c, key, es).sessions && After(c, key, es).sessions[id] >= t
  {
    var last := es[|es| - 1];
    EntryAfter(After(c, key, es[..|es| - 1]), c, last.now, last.op, id);
  }

  /** A touched session stays extant for the idle time unless it ends; sweeping keeps it. */
  lemma {:induction false} StaysExtant(c: Config, key: Key, es: seq<Event>, k: nat, id: Id, now: int)
    requires k < |es| && TouchesAt(c, key, es, k, id) && es[k].now >= now - IDLETIME
    requires forall i, j :: 0 <= i < j < |es| ==> es[i].now <= es[j].now
    requires es[|es| - 1].now <= now && forall d :: k < d < |es| ==> !EndsAt(c, key, es, d, id)
    ensures Extant(After(c, key, es).sessions, id, now)
    ensures After(c, key, es).sessions[id] >= es[k].now
  {
    var n := |es| - 1;
    var front := es[..n];
    if k < n {
      Prefix(c, key, es, k);
      forall d | k < d < n ensures !EndsAt(c, key, front, d, id) {
        Prefix(c, key, es, d);
        assert !EndsAt(c, key, es, d, id);
      }
      StaysExtant(c, key, front, k, id, now);
      EntryStays(c, key, es, id, es[k].now);
    }
  }

  lemma GenuineIsExtant(c: Config, key: Key, es: seq<Event>, token: Token, now: int)
    requires Genuine(c, key, es, token, now) && (es != [] ==> es[|es| - 1].now <= now)
    requires forall i, j :: 0 <= i < j < |es| ==> es[i].now <= es[j].now
    ensures Extant(After(c, key, es).sessions, token.claims.session.value.id, now)
  {
    var id := token.claims.session.value.id;
    var l, k :| OpenSince(c, key, es, l, k, id) && LoginAt(c, es, l, token.claims) && es[k].now >= now - IDLETIME;
    StaysExtant(c, key, es, k, id, now);
  }

  /** Over every run a session is accepted exactly when its key is still held, the expiry fixed
      at the login has not passed, the user exists, and the session is genuine. */
  lemma AcceptedExactly(c: Config, key: Key, es: seq<Event>, j: nat, token: Token, userExists: bool)
    requires Legit(c, key, es) && j < |es| && es[j].op == Op.Authenticated(token, userExists)
    ensures AnswerAt(c, key, es, j).Accepted? <==>
              && userExists && Signed(After(c, key, es[..j]), token) && es[j].now < token.claims.exp
              && Genuine(c, key, es[..j], token, es[j].now)
  {
    var before := es[..j];
    assert GivenOut(c, key, es, j, token);
    if AnswerAt(c, key, es, j).Accepted? {
      ExtantIsGenuine(c, key, es, j, token, es[j].now);
    }
    if Genuine(c, key, before, token, es[j].now) {
      GenuineIsExtant(c, key, before, token, es[j].now);
    }
  }

  // ---- Key rotation ----

  /** Every key there has been, in order. */
  function KeyTrail(key: Key, es: seq<Event>): (t: seq<Key>)
    ensures t != []
  {
    if es == [] then [key]
    else KeyTrail(key, es[..|es| - 1]) + if es[|es| - 1].op.Regenerate? then [es[|es| - 1].op.key] else []
  }

  lemma {:induction false} KeysHeld(c: Config, key: Key, es: seq<Event>)
    ensures var t, keys := KeyTrail(key, es), After(c, key, es).keys;
            keys[0] == Some(t[|t| - 1]) && keys[1] == if |t| == 1 then None else Some(t[|t| - 2])
  {
    if es != [] {
      KeysHeld(c, key, es[..|es| - 1]);
    }
  }

  lemma {:induction false} TrailGrows(key: Key, es: seq<Event>, i: nat)
    requires i <= |es|
    ensures KeyTrail(key, es[..i]) <= KeyTrail(key, es)
  {
    if i < |es| {
      TrailGrows(key, es[..|es| - 1], i);
      assert es[..|es| - 1][..i] == es[..i];
    } else {
      assert es[..i] == es;
    }
  }

  /** When keys are fresh, a token signed with the key current after i operations verifies
      exactly until the second rotation. */
  lemma SignedUntilSecondRotation(c: Config, key: Key, es: seq<Event>, i: nat, token: Token)
    requires i <= |es| && Distinct(KeyTrail(key, es)) && Some(token.key) == After(c, key, es[..i]).keys[0]
    ensures Signed(After(c, key, es), token) <==> |KeyTrail(key, es)| <= |KeyTrail(key, es[..i])| + 1
  {
    var t, u := KeyTrail(key, es[..i]), KeyTrail(key, es);
    KeysHeld(c, key, es[..i]);
    KeysHeld(c, key, es);
    TrailGrows(key, es, i);
    var keys := After(c, key, es).keys;
    assert token.key == u[|t| - 1];
    assert Signed(After(c, key, es), token) <==> keys[0] == Some(token.key) || keys[1] == Some(token.key);
  }

  lemma {:induction false} Rotates(key: Key, es: seq<Event>, i: nat)
    requires i <= |es| && |KeyTrail(key, es)| > |KeyTrail(key, es[..i])|
    ensures exists a :: i <= a < |es| && es[a].op.Regenerate? && |KeyTrail(key, es[..a])| == |KeyTrail(key, es)| - 1
  {
    assert es[..|es|] == es;
    if i < |es| {
      var n := |es| - 1;
      if es[n].op.Regenerate? {
        assert i <= n && es[n].op.Regenerate?;
      } else {
        assert es[..n][..i] == es[..i];
        Rotates(key, es[..n], i);
        var a :|
            i <= a < n && es[..n][a].op.Regenerate? && |KeyTrail(key, es[..n][..a])| == |KeyTrail(key, es[..n])| - 1;
        assert es[..n][..a] == es[..a] && es[a].op.Regenerate?;
      }
    }
  }

  /** The timer rotates the keys at a fixed interval. */
  ghost predicate Spaced(es: seq<Event>) {
    forall a, b :: 0 <= a < b < |es| && es[a].op.Regenerate? && es[b].op.Regenerate? ==>
        es[b].now - es[a].now >= REGENERATE
  }

  lemma TwoRotations(key: Key, es: seq<Event>, i: nat)
    requires i <= |es| && |KeyTrail(key, es)| > |KeyTrail(key, es[..i])| + 1
    ensures exists a, b :: i <= a < b < |es| && es[a].op.Regenerate? && es[b].op.Regenerate?
  {
    Rotates(key, es, i);
    var b :| i <= b < |es| && es[b].op.Regenerate? && |KeyTrail(key, es[..b])| == |KeyTrail(key, es)| - 1;
    assert es[..b][..i] == es[..i];
    Rotates(key, es[..b], i);
    var a :| i <= a < b && es[..b][a].op.Regenerate?;
    assert es[a].op.Regenerate?;
  }

  /** The idle time is shorter than the interval between rotations. */
  lemma OneRotationAtMost(key: Key, es: seq<Event>, i: nat, now: int)
    requires Spaced(es) && i < |es| && now - es[i].now <= IDLETIME
    requires forall a, b :: 0 <= a < b < |es| ==> es[a].now <= es[b].now
    requires forall a :: 0 <= a < |es| ==> es[a].now <= now
    ensures |KeyTrail(key, es)| <= |KeyTrail(key, es[..i + 1])| + 1
  {
    if |KeyTrail(key, es)| > |KeyTrail(key, es[..i + 1])| + 1 {
      TwoRotations(key, es, i + 1);
    }
  }

  /** A session in use is not lost to rotation: touched within the idle time, with a token whose
      key was current then, it can be used until it expires or ends. */
  lemma ActiveSessionIsUsable(c: Config, key: Key, es: seq<Event>, k: nat, token: Token, now: int)
    requires k < |es| && token.claims.session.Some? && token.claims.audience == SessionToken && now < token.claims.exp
    requires Spaced(es) && Distinct(KeyTrail(key, es))
    requires forall a, b :: 0 <= a < b < |es| ==> es[a].now <= es[b].now
    requires (forall a :: 0 <= a < |es| ==> es[a].now <= now) && now - es[k].now <= IDLETIME
    requires TouchesAt(c, key, es, k, token.claims.session.value.id)
               && Some(token.key) == After(c, key, es[..k + 1]).keys[0]
    requires forall d :: k < d < |es| ==> !EndsAt(c, key, es, d, token.claims.session.value.id)
    ensures CanUse(After(c, key, es), token, now)
  {
    OneRotationAtMost(key, es, k, now);
    SignedUntilSecondRotation(c, key, es, k + 1, token);
    StaysExtant(c, key, es, k, token.claims.session.value.id, now);
  }

  // ---- The provider's own runs ----

  method Take(p: Local, e: Event) returns (r: Outcome)
    requires p.Valid()
    modifies p, p.keys
    ensures p.Valid() && p.keys == old(p.keys)
    ensures p.Abs() == Next(old(p.Abs()), p.config, e.now, e.op) && r == Answer(old(p.Abs()), p.config, e.now, e.op)
  {
    match e.op
    case Preauthenticate(id) => r := p.Preauthenticate(e.now, id);
    case Authenticate(uid, role, id, genuine) => r := p.Authenticate(e.now, uid, role, id, genuine);
    case Authenticated(token, userExists) => r := p.Authenticated(e.now, token, userExists);
    case Verify(tt, token) => r := p.Verify(e.now, tt, token);
    case Invalidate(tt, token) => r := p.Invalidate(tt, token, e.now);
    case Regenerate(key) =>
      p.Regenerate(key, e.now);
      r := Done;
    case Sweep =>
      p.Sweep(e.now);
      r := Done;
  }

  /** A fresh provider answers every operation of a run as the machine does. */
  method Run(c: Config, key: Key, es: seq<Event>) returns (answers: seq<Outcome>)
    ensures |answers| == |es| && forall i :: 0 <= i < |es| ==> answers[i] == AnswerAt(c, key, es, i)
  {
    var p := new Local(c, key);
    answers := [];
    for n := 0 to |es|
      invariant p.Valid() && fresh(p) && fresh(p.keys) && p.config == c && p.Abs() == After(c, key, es[..n])
      invariant |answers| == n && forall i :: 0 <= i < n ==> answers[i] == AnswerAt(c, key, es, i)
    {
      assert es[..n + 1][..n] == es[..n];
      var r := Take(p, es[n]);
      answers := answers + [r];
    }
  }
}
