/** What one account call sets up and a later one honours, and who is let in at all. */
module AccountFlows {
  import opened Wrappers
  import opened Text
  import opened AccountTables
  import opened AccountOperations
  import opened AccountSafety
  import opened AccountTheorems

  /** Generated tokens carry no blanks. */
  predicate PlainToken(token: string) {
    token != "" && Strip(token) == token
  }

  ghost predicate Owns(s: State, u: Id, email: string) {
    u in s.users.byId && s.users.byId[u].email == email
  }

  /** An address is found exactly when some stored user has it. */
  lemma AddressIsFound(s: State, email: string)
    requires Inv(s) && NormalEmail(email)
    ensures s.users.GetByEmail(email).Some? <==> exists u :: Owns(s, u, email)
    ensures s.users.GetByEmail(email).Some? ==> Owns(s, s.users.GetByEmail(email).value.id, email)
    ensures s.users.GetByEmail(email).Some? ==>
              s.users.byId[s.users.GetByEmail(email).value.id] == s.users.GetByEmail(email).value
  {
    assert s.users.Key(email);
    if s.users.GetByEmail(email).Some? {
      var u := s.users.byEmail[email];
      StoredUser(s, u);
      assert Owns(s, u, email);
    }
    if u :| Owns(s, u, email) {
      StoredUser(s, u);
    }
  }

  /** The session row that signing a user in writes. */
  function SessionOf(c: Config, userId: Id, rememberMe: bool, e: Env): Session {
    Ticket(e.sessionId, userId, c.hashToken(e.sessionToken), e.now,
           e.now + if rememberMe then c.rememberTtl else c.sessionTtl, false, SessionData(rememberMe, e.now))
  }

  lemma SessionIsIssued(c: Config, s: State, userId: Id, rememberMe: bool, e: Env)
    ensures IssueSession(c, s, userId, rememberMe, e) ==
              if e.fault.Hits(SaveSession) then (s, Raised)
              else (s.(sessions := s.sessions.Replace(SessionOf(c, userId, rememberMe, e))),
                    SignedIn(SessionOf(c, userId, rememberMe, e)))
  {
  }

  /** The input is valid, the caller admitted, and nobody has the address. */
  ghost predicate Registrable(
    c: Config, s: State, email: string, password: string, name: string, consents: bool, admitted: bool)
  {
    && c.enabled && NormalizeEmail(email).Some? && ValidPassword(password) && Strip(name) != "" && consents && admitted
    && !exists u :: Owns(s, u, NormalizeEmail(email).value)
  }

  /**
   * Fault by fault: a registration that is allowed adds one active, unverified user with the
   * normal form of the address, then one verification ticket, then one session, and stops
   * where a repository call raises. It signs in exactly when none does. Otherwise nothing
   * changes.
   */
  lemma RegisterSucceedsExactlyWhen(
    c: Config, s: State, email: string, password: string, name: string, rememberMe: bool, consents: bool, e: Env)
    requires Inv(s) && Fresh(c, s, e)
    ensures
      var (s', outcome) := Register(c, s, email, password, name, rememberMe, consents, e);
      var f := e.fault;
      var saved := Registrable(c, s, email, password, name, consents, e.admitted) &&
        !f.Hits(FindByEmail) && !f.Hits(SaveUser);
      var ticketed := saved && !f.Hits(Bootstrap) && !f.Hits(SaveTicket);
      var session := SessionOf(c, e.userId, rememberMe, e);
      && (outcome.SignedIn? <==> ticketed && !f.Hits(SaveSession))
      && (outcome.SignedIn? ==> outcome.session == session)
      && (if saved then
            s'.users.byId == s.users.byId[e.userId :=
              User(e.userId, NormalizeEmail(email).value, e.passwordHash, Strip(name), true, false, e.now, e.now)]
          else s'.users == s.users)
      && s'.verifications == (if ticketed then s.verifications.Insert(NewTicket(c, e.userId, EMAIL_VERIFICATION_TTL, e))
                              else s.verifications)
      && s'.sessions == (if outcome.SignedIn? then s.sessions.Insert(session) else s.sessions)
      && s'.resets == s.resets && s'.changes == s.changes && s'.notices == s.notices
  {
    hide Inv, NormalizeEmail, ValidPassword, IssueSession, UserTable.Save, UserTable.GetByEmail, UserTable.Taken;
    hide TicketTable<SessionData>.Replace, TicketTable<SessionData>.Insert, TicketTable<NoData>.Insert;
    var cleaned := NormalizeEmail(email);
    if cleaned.Some? {
      AddressIsFound(s, cleaned.value);
      if s.users.GetByEmail(cleaned.value).None? {
        var user := User(e.userId, cleaned.value, e.passwordHash, Strip(name), true, false, e.now, e.now);
        FreeAddress(s, user);
        UserSaved(s, user);
        InvTables(s);
        InsertFresh(s.sessions, SessionOf(c, e.userId, rememberMe, e));
        var s1 := s.(users := s.users.Save(user).value);
        var ticket := NewTicket(c, e.userId, EMAIL_VERIFICATION_TTL, e);
        SessionIsIssued(c, s1.(verifications := s1.verifications.Insert(ticket)), e.userId, rememberMe, e);
      }
    }
  }

  /** Why a registration is refused. */
  lemma RegisterRefusals(
    c: Config, s: State, email: string, password: string, name: string, rememberMe: bool, consents: bool, e: Env)
    requires Inv(s) && Fresh(c, s, e)
    ensures
      var outcome := Register(c, s, email, password, name, rememberMe, consents, e).1;
      var cleaned := NormalizeEmail(email);
      var valid := cleaned.Some? && ValidPassword(password) && Strip(name) != "" && consents;
      && (outcome == Rejected(Disabled) <==> !c.enabled)
      && (outcome == Rejected(InvalidInput) <==> c.enabled && !valid)
      && (outcome == Rejected(RateLimited) <==> c.enabled && valid && !e.admitted)
      && (outcome == Rejected(Conflict) <==>
            c.enabled && valid && e.admitted && !e.fault.Hits(FindByEmail) && exists u :: Owns(s, u, cleaned.value))
      && (outcome == Raised ==> e.fault.Raises?)
  {
    hide Inv, NormalizeEmail, ValidPassword, UserTable.Save, UserTable.GetByEmail, UserTable.Taken;
    var cleaned := NormalizeEmail(email);
    if cleaned.Some? {
      AddressIsFound(s, cleaned.value);
      if s.users.GetByEmail(cleaned.value).None? {
        var user := User(e.userId, cleaned.value, e.passwordHash, Strip(name), true, false, e.now, e.now);
        FreeAddress(s, user);
        UserSaved(s, user);
      }
    }
  }

  /** The password opens an active user with that address. */
  ghost predicate Knows(c: Config, s: State, u: Id, email: string, password: string) {
    Owns(s, u, email) && s.users.byId[u].isActive && c.verifyPassword(password, s.users.byId[u].passwordHash)
  }

  /** The user that a login finds is the only one it could be. */
  lemma OnlyOneKnows(c: Config, s: State, email: string, password: string)
    requires Inv(s) && NormalEmail(email)
    ensures (exists u :: Knows(c, s, u, email, password)) <==>
            && s.users.GetByEmail(email).Some?
            && Knows(c, s, s.users.GetByEmail(email).value.id, email, password)
    ensures forall u :: Owns(s, u, email) ==> s.users.GetByEmail(email).Some? && u == s.users.GetByEmail(email).value.id
  {
    AddressIsFound(s, email);
    forall u | Owns(s, u, email)
      ensures s.users.GetByEmail(email).Some? && u == s.users.GetByEmail(email).value.id
    {
      EmailsAreUnique(s.users, u, s.users.GetByEmail(email).value.id);
    }
  }

  /**
   * A login succeeds exactly for the password of an active user with that address, unless
   * storage fails; it then stores that user's session and changes nothing else. A wrong
   * password, an unknown address and an inactive user are refused alike.
   */
  lemma LoginSucceedsExactlyWhen(c: Config, s: State, email: string, password: string, rememberMe: bool, e: Env)
    requires Inv(s)
    ensures
      var (s', outcome) := Login(c, s, email, password, rememberMe, e);
      var f := e.fault;
      var cleaned := NormalizeEmail(email);
      var known := cleaned.Some? && exists u :: Knows(c, s, u, cleaned.value, password);
      && (outcome.SignedIn? <==> c.enabled && e.admitted && known && !f.Hits(FindByEmail) && !f.Hits(SaveSession))
      && (outcome.SignedIn? ==>
            && Knows(c, s, outcome.session.userId, cleaned.value, password)
            && outcome.session == SessionOf(c, outcome.session.userId, rememberMe, e)
            && s' == s.(sessions := s.sessions.Replace(outcome.session)))
      && (!outcome.SignedIn? ==> s' == s)
      && (outcome == Rejected(Disabled) <==> !c.enabled)
      && (outcome == Rejected(InvalidInput) <==> c.enabled && cleaned.None?)
      && (outcome == Rejected(RateLimited) <==> c.enabled && cleaned.Some? && !e.admitted)
      && (outcome == Rejected(InvalidCredentials) <==>
            c.enabled && cleaned.Some? && e.admitted && !f.Hits(FindByEmail) && !known)
  {
    hide Inv, NormalizeEmail, UserTable.GetByEmail, IssueSession, TicketTable<SessionData>.Replace;
    var cleaned := NormalizeEmail(email);
    if cleaned.Some? {
      AddressIsFound(s, cleaned.value);
      OnlyOneKnows(c, s, cleaned.value, password);
      if s.users.GetByEmail(cleaned.value).Some? {
        SessionIsIssued(c, s, s.users.GetByEmail(cleaned.value).value.id, rememberMe, e);
      }
    }
  }

  /** A fresh session row is accepted under its token for exactly its term, and names its user. */
  lemma IssuedSessionOpensForItsTerm(c: Config, s: State, userId: Id, rememberMe: bool, e: Env, e': Env)
    requires Inv(s) && c.enabled && s.sessions.Fresh(e.sessionId, c.hashToken(e.sessionToken))
    requires PlainToken(e.sessionToken) && e'.fault == NoFault
    ensures
      var s' := s.(sessions := s.sessions.Replace(SessionOf(c, userId, rememberMe, e)));
      var outcome := ValidateSession(c, s', e.sessionToken, e').1;
      && (outcome.SignedIn? <==> e'.now < e.now + if rememberMe then c.rememberTtl else c.sessionTtl)
      && (outcome.SignedIn? ==> outcome.session.userId == userId && outcome.session.id == e.sessionId)
  {
    InvTables(s);
    InsertFresh(s.sessions, SessionOf(c, userId, rememberMe, e));
    hide Inv;
  }

  /** The token that a login hands out opens that user's session for exactly its term. */
  lemma LoginOpensForItsTerm(c: Config, s: State, email: string, password: string, rememberMe: bool, e: Env, e': Env)
    requires Inv(s) && Fresh(c, s, e) && PlainToken(e.sessionToken) && e'.fault == NoFault
    requires Login(c, s, email, password, rememberMe, e).1.SignedIn?
    ensures
      var (s', signedIn) := Login(c, s, email, password, rememberMe, e);
      var outcome := ValidateSession(c, s', e.sessionToken, e').1;
      && (outcome.SignedIn? <==> e'.now < e.now + if rememberMe then c.rememberTtl else c.sessionTtl)
      && (outcome.SignedIn? ==>
            && outcome.session.id == e.sessionId && NormalizeEmail(email).Some?
            && Knows(c, s, outcome.session.userId, NormalizeEmail(email).value, password))
  {
    hide Inv, Login, ValidateSession, NormalizeEmail, Knows;
    LoginSucceedsExactlyWhen(c, s, email, password, rememberMe, e);
    var u := Login(c, s, email, password, rememberMe, e).1.session.userId;
    IssuedSessionOpensForItsTerm(c, s, u, rememberMe, e, e');
  }

  /** The token that a registration hands out opens the new user's session for exactly its term. */
  lemma RegisterOpensForItsTerm(
    c: Config, s: State, email: string, password: string, name: string, rememberMe: bool, consents: bool,
    e: Env, e': Env)
    requires Inv(s) && Fresh(c, s, e) && PlainToken(e.sessionToken) && e'.fault == NoFault
    requires Register(c, s, email, password, name, rememberMe, consents, e).1.SignedIn?
    ensures
      var s' := Register(c, s, email, password, name, rememberMe, consents, e).0;
      var outcome := ValidateSession(c, s', e.sessionToken, e').1;
      && (outcome.SignedIn? <==> e'.now < e.now + if rememberMe then c.rememberTtl else c.sessionTtl)
      && (outcome.SignedIn? ==> outcome.session.id == e.sessionId && outcome.session.userId == e.userId)
  {
    hide Inv, Register, ValidateSession, NormalizeEmail;
    RegisterSucceedsExactlyWhen(c, s, email, password, name, rememberMe, consents, e);
    var s' := Register(c, s, email, password, name, rememberMe, consents, e).0;
    InvTables(s);
    InsertFresh(s.sessions, SessionOf(c, e.userId, rememberMe, e));
    IssuedSessionOpensForItsTerm(c, s, e.userId, rememberMe, e, e');
    SameSessionsSameAnswer(c, s', s.(sessions := s'.sessions), e.sessionToken, e');
  }

  /** Validation reads the sessions only. */
  lemma SameSessionsSameAnswer(c: Config, s: State, s': State, token: string, e: Env)
    requires s.sessions == s'.sessions
    ensures ValidateSession(c, s, token, e).1 == ValidateSession(c, s', token, e).1
  {
  }

  /** The call signs a user in. */
  ghost predicate SignedInBy(c: Config, s: State, ev: Event) {
    && (ev.call.CallLogin? || ev.call.CallRegister?)
    && Perform(c, s, ev.call, ev.env).1.SignedIn?
  }

  function Remembers(call: Call): bool
    requires call.CallLogin? || call.CallRegister?
  {
    call.rememberMe
  }

  lemma SignInStores(c: Config, s: State, ev: Event)
    requires Inv(s) && Fresh(c, s, ev.env) && SignedInBy(c, s, ev)
    ensures var (s', outcome) := Perform(c, s, ev.call, ev.env);
            && s'.sessions.Find(c.hashToken(ev.env.sessionToken)) == Some(outcome.session)
            && outcome.session == SessionOf(c, outcome.session.userId, Remembers(ev.call), ev.env)
  {
    hide Inv, Login, Register, NormalizeEmail, Knows;
    InvTables(s);
    match ev.call
    case CallLogin(email, password, rememberMe) =>
      LoginSucceedsExactlyWhen(c, s, email, password, rememberMe, ev.env);
      InsertFresh(s.sessions, Login(c, s, email, password, rememberMe, ev.env).1.session);
    case CallRegister(email, password, name, rememberMe, consents) =>
      RegisterSucceedsExactlyWhen(c, s, email, password, name, rememberMe, consents, ev.env);
  }

  /**
   * Over any run, the token of a sign-in is accepted exactly until its term ends or its row is
   * revoked, and always for the user who signed in.
   */
  lemma SignInHoldsAlongRun(c: Config, states: seq<State>, events: seq<Event>, i: nat, j: nat, e': Env)
    requires IsRun(c, states, events) && Inv(states[0]) && i < j < |states|
    requires SignedInBy(c, states[i], events[i]) && PlainToken(events[i].env.sessionToken) && e'.fault == NoFault
    requires c.enabled
    ensures
      var e := events[i].env;
      var user := Perform(c, states[i], events[i].call, e).1.session.userId;
      var outcome := ValidateSession(c, states[j], e.sessionToken, e').1;
      && e.sessionId in states[j].sessions.byId
      && (outcome.SignedIn? <==>
            && e'.now < e.now + (if Remembers(events[i].call) then c.rememberTtl else c.sessionTtl)
            && !states[j].sessions.byId[e.sessionId].spent)
      && (outcome.SignedIn? ==> outcome.session.userId == user && outcome.session.id == e.sessionId)
  {
    hide Inv, Later, Perform;
    RunIsGood(c, states, events, i, i + 1);
    RunIsGood(c, states, events, i + 1, j);
    assert StepAt(c, states, events, i);
    SignInStores(c, states[i], events[i]);
    var hash := c.hashToken(events[i].env.sessionToken);
    RowAlongTime(states[i + 1], states[j], hash);
  }

  /** The row behind a token keeps its terms in every later state. */
  lemma RowAlongTime(s: State, s': State, hash: string)
    requires Inv(s) && Inv(s') && Later(s, s') && s.sessions.Find(hash).Some?
    ensures var row := s.sessions.Find(hash).value;
            && s'.sessions.Find(hash).Some?
            && row.id in s'.sessions.byId && s'.sessions.byId[row.id] == s'.sessions.Find(hash).value
            && s'.sessions.Find(hash).value.id == row.id
            && s'.sessions.Find(hash).value.userId == row.userId
            && s'.sessions.Find(hash).value.expiresAt == row.expiresAt
  {
    FindInValid(s.sessions, hash);
    FindInValid(s'.sessions, hash);
    assert KeyAges(s.sessions, s'.sessions, hash) && RowAges(s.sessions, s'.sessions, s.sessions.Find(hash).value.id);
  }

  /**
   * Why a token is refused: its row is unknown or spent, or has expired; the row of an expired
   * token is then revoked, and in no other refusal does anything change.
   */
  lemma ValidateRefusals(c: Config, s: State, token: string, e: Env)
    requires Inv(s)
    ensures
      var (s', outcome) := ValidateSession(c, s, token, e);
      var row := s.sessions.Find(c.hashToken(Strip(token)));
      var live := c.enabled && Strip(token) != "" && !e.fault.Hits(FindSession) && row.Some? && !row.value.spent;
      var expired := live && row.value.expiresAt <= e.now;
      && (outcome == Rejected(Disabled) <==> !c.enabled)
      && (outcome == Rejected(SessionExpired) <==> expired && !e.fault.Hits(RevokeSession))
      && (outcome == Rejected(SessionExpired) ==>
            s' == s.(sessions := TicketTable(s.sessions.byId[row.value.id := row.value.(spent := true)],
                                             s.sessions.byToken)))
      && (outcome == Rejected(InvalidSession) <==>
            c.enabled && (Strip(token) == "" || (!e.fault.Hits(FindSession) && (row.None? || row.value.spent))))
      && (outcome.SignedIn? <==> live && !expired && !e.fault.Hits(SaveSession))
      && (outcome == Raised || outcome == Rejected(InvalidSession) || outcome == Rejected(Disabled) ==> s' == s)
  {
    var hash := c.hashToken(Strip(token));
    if s.sessions.Find(hash).Some? {
      StoredSession(s, hash);
    }
    hide Inv;
  }

  /** Right after an undisturbed logout its token opens nothing, and only the presented session is revoked. */
  lemma LogoutShutsTheSession(c: Config, s: State, token: string, e: Env, e': Env)
    requires Inv(s) && c.enabled && e.fault == NoFault
    ensures !ValidateSession(c, Logout(c, s, token, e).0, token, e').1.SignedIn?
    ensures s.sessions.Find(c.hashToken(Strip(token))).Some? && Opens(c, s, token, e.now) ==>
              Logout(c, s, token, e).0.sessions.byId ==
              s.sessions.byId[s.sessions.Find(c.hashToken(Strip(token))).value.id :=
                s.sessions.Find(c.hashToken(Strip(token))).value.(spent := true, data :=
                  s.sessions.Find(c.hashToken(Strip(token))).value.data.(lastSeenAt := e.now))]
  {
    var hash := c.hashToken(Strip(token));
    if s.sessions.Find(hash).Some? {
      StoredSession(s, hash);
      FindInValid(s.sessions, hash);
      var row := s.sessions.Find(hash).value;
      assert s.sessions.Replace(row.(data := row.data.(lastSeenAt := e.now))) ==
        TicketTable(s.sessions.byId[row.id := row.(data := row.data.(lastSeenAt := e.now))], s.sessions.byToken);
    }
    hide Inv;
  }

  /** The token names no row that could open. */
  ghost predicate Shut(c: Config, s: State, token: string) {
    var row := s.sessions.Find(c.hashToken(Strip(token)));
    Strip(token) == "" || row.None? || row.value.spent
  }

  lemma ShutIsRefused(c: Config, s: State, token: string, e: Env)
    requires Shut(c, s, token)
    ensures !ValidateSession(c, s, token, e).1.SignedIn?
  {
  }

  /** What validation leaves: an accepted row under its token, or a token that is shut unless a call raised. */
  lemma ValidationLeaves(c: Config, s: State, token: string, e: Env)
    requires Inv(s) && c.enabled
    ensures
      var (s', outcome) := ValidateSession(c, s, token, e);
      && (outcome.SignedIn? ==>
            && s'.sessions.Find(c.hashToken(Strip(token))) == Some(outcome.session)
            && outcome.session.id in s'.sessions.byId && s'.sessions.byId[outcome.session.id] == outcome.session
            && s'.sessions.byToken[c.hashToken(Strip(token))] == outcome.session.id && outcome.session.id != "")
      && (outcome.Rejected? ==> Shut(c, s', token))
      && (outcome.SignedIn? || outcome.Rejected? || (outcome == Raised && e.fault.Raises?))
  {
    var hash := c.hashToken(Strip(token));
    if s.sessions.Find(hash).Some? {
      StoredSession(s, hash);
      InvTables(s);
      FindInValid(s.sessions, hash);
    }
    hide Inv, TicketTable<SessionData>.Replace;
  }

  /** Whatever raises: a logout that reports success has shut its token, and one that does not says so. */
  lemma LogoutDoneMeansShut(c: Config, s: State, token: string, e: Env, e': Env)
    requires Inv(s)
    ensures Logout(c, s, token, e).1 == Done ==> !ValidateSession(c, Logout(c, s, token, e).0, token, e').1.SignedIn?
    ensures Logout(c, s, token, e).1 == Raised ==> e.fault.Raises?
    ensures Logout(c, s, token, e).1 == Rejected(Disabled) <==> !c.enabled
    ensures Logout(c, s, token, e).1 in {Done, Raised, Rejected(Disabled)}
  {
    hide Inv, ValidateSession;
    if c.enabled {
      ValidationLeaves(c, s, token, e);
      var s' := Logout(c, s, token, e).0;
      if Logout(c, s, token, e).1 == Done {
        BlankIsShut(c, s', token);
        assert Shut(c, s', token);
        ShutIsRefused(c, s', token, e');
      }
    }
  }

  lemma BlankIsShut(c: Config, s: State, token: string)
    ensures token == "" ==> Shut(c, s, token)
  {
  }

  /** An undisturbed logout leaves the session that its token names revoked. */
  lemma LogoutSpends(c: Config, s: State, token: string, e: Env)
    requires Inv(s) && c.enabled && e.fault == NoFault && Strip(token) != ""
    requires s.sessions.Find(c.hashToken(Strip(token))).Some?
    ensures var found := Logout(c, s, token, e).0.sessions.Find(c.hashToken(Strip(token)));
            found.Some? && found.value.spent
  {
    var hash := c.hashToken(Strip(token));
    StoredSession(s, hash);
    FindInValid(s.sessions, hash);
    var row := s.sessions.Find(hash).value;
    assert s.sessions.Replace(row.(data := row.data.(lastSeenAt := e.now))) ==
      TicketTable(s.sessions.byId[row.id := row.(data := row.data.(lastSeenAt := e.now))], s.sessions.byToken);
    assert token != "";
    hide Inv;
  }

  /** Over any run: after an undisturbed logout the token of a stored session is never accepted again. */
  lemma LogoutShutsForGood(c: Config, states: seq<State>, events: seq<Event>, i: nat, j: nat, token: string, e: Env)
    requires IsRun(c, states, events) && Inv(states[0]) && i < j < |states| && c.enabled
    requires events[i].call == CallLogout(token) && events[i].env.fault == NoFault
    requires states[i].sessions.Find(c.hashToken(Strip(token))).Some?
    ensures !ValidateSession(c, states[j], token, e).1.SignedIn?
  {
    if Strip(token) != "" {
      hide Inv, Later, Logout;
      RunIsGood(c, states, events, i, i);
      assert StepAt(c, states, events, i);
      LogoutSpends(c, states[i], token, events[i].env);
      SpentSessionStaysShut(c, states, events, i + 1, j, token, e);
    }
  }

  /** The verification token names a live record of an active user. */
  ghost predicate Verifiable(c: Config, s: State, token: string, now: Instant) {
    && c.enabled && Strip(token) != ""
    && var found := s.verifications.Find(c.hashToken(Strip(token)));
       && found.Some? && !found.value.spent && now < found.value.expiresAt
       && found.value.userId in s.users.byId && s.users.byId[found.value.userId].isActive
  }

  /**
   * Fault by fault: a verification that its token allows marks the user verified, then the
   * token consumed, and stops where a repository call raises. It succeeds exactly when none
   * does; a token that does not allow it is refused, and nothing changes.
   */
  lemma VerificationSucceedsExactlyWhen(c: Config, s: State, token: string, e: Env)
    requires Inv(s)
    ensures
      var (s', outcome) := ConfirmEmailVerification(c, s, token, e);
      var f := e.fault;
      var saved := Verifiable(c, s, token, e.now) &&
        !(f.Hits(FindTicket) || f.Hits(FindUser) || f.Hits(SaveUser));
      var record := s.verifications.Find(c.hashToken(Strip(token)));
      && (outcome == Done <==> saved && !f.Hits(MarkConsumed))
      && (outcome == Rejected(Disabled) <==> !c.enabled)
      && (outcome == Rejected(InvalidToken) ==> !Verifiable(c, s, token, e.now))
      && (outcome == Done || outcome == Raised || outcome == Rejected(Disabled) || outcome == Rejected(InvalidToken))
      && (outcome == Raised ==> f.Raises?)
      && (if saved then
            s'.users.byId == s.users.byId[record.value.userId :=
              s.users.byId[record.value.userId].(emailVerified := true, updatedAt := e.now)]
          else s'.users == s.users)
      && s'.verifications == (if outcome == Done then s.verifications.Spend(record.value.id) else s.verifications)
      && s' == s.(users := s'.users, verifications := s'.verifications)
  {
    hide Inv, UserTable.Save, UserTable.Taken, UserTable.GetByEmail;
    if Verifiable(c, s, token, e.now) {
      var u := s.verifications.Find(c.hashToken(Strip(token))).value.userId;
      StoredUser(s, u);
      var updated := s.users.byId[u].(emailVerified := true, updatedAt := e.now);
      FreeAddress(s, updated);
      UserSaved(s, updated);
    }
  }

  /** A reset that was asked for by address takes the new password with its token, for exactly one hour. */
  lemma RequestedResetConfirms(
    c: Config, s: State, email: string, newPassword: string, e: Env, e': Env)
    requires Inv(s) && c.enabled && Fresh(c, s, e) && PlainToken(e.ticketToken)
    requires e.fault == NoFault && e'.fault == NoFault && e.admitted && ValidPassword(newPassword)
    requires NormalizeEmail(email).Some? && s.users.GetByEmail(NormalizeEmail(email).value).Some?
    requires s.users.GetByEmail(NormalizeEmail(email).value).value.isActive
    ensures
      var u := s.users.GetByEmail(NormalizeEmail(email).value).value.id;
      var s' := RequestPasswordReset(c, s, email, e).0;
      var (s'', outcome) := ConfirmPasswordReset(c, s', e.ticketToken, newPassword, e');
      && u in s.users.byId
      && (outcome == Done <==> e'.now < e.now + PASSWORD_RESET_TTL)
      && (outcome == Done ==>
          && s''.users.byId == s.users.byId[u := s.users.byId[u].(passwordHash := e'.passwordHash, updatedAt := e'.now)]
          && s''.sessions == s.sessions.SpendAll(u, None))
  {
    hide Inv, Good, Later, NormalizeEmail, ValidPassword, UserTable.Save, UserTable.GetByEmail, UserTable.Taken;
    var user := s.users.GetByEmail(NormalizeEmail(email).value).value;
    AddressIsFound(s, NormalizeEmail(email).value);
    var s' := RequestPasswordReset(c, s, email, e).0;
    ResetInsertIsGood(s, NewTicket(c, user.id, PASSWORD_RESET_TTL, e));
    GoodInv(s, s');
    if e'.now < e.now + PASSWORD_RESET_TTL {
      assert Resettable(c, s', e.ticketToken, newPassword, e'.now);
      ResetOutcome(c, s', e.ticketToken, newPassword, e');
      StoredUser(s', user.id);
      FreeAddress(s', s'.users.byId[user.id].(passwordHash := e'.passwordHash, updatedAt := e'.now));
      UserSaved(s', s'.users.byId[user.id].(passwordHash := e'.passwordHash, updatedAt := e'.now));
    }
  }

  /**
   * A created email change is confirmed by its token for exactly one day, moves the address, and
   * signs every session out.
   */
  lemma CreatedChangeConfirms(c: Config, s: State, u: Id, newEmail: string, e: Env, e': Env)
    requires Inv(s) && c.enabled && s.changes.Fresh(e.ticketId, c.hashToken(e.ticketToken)) && PlainToken(e.ticketToken)
    requires e.fault == NoFault && e'.fault == NoFault
    requires u in s.users.byId && s.users.byId[u].isActive && NormalEmail(newEmail) &&
      s.users.GetByEmail(newEmail).None?
    ensures
      var s' := CreateEmailChange(c, s, u, newEmail, e).0;
      var (s'', outcome) := ConfirmEmailChange(c, s', e.ticketToken, e');
      && (outcome == Done <==> e'.now < e.now + EMAIL_CHANGE_TTL)
      && (outcome == Done ==>
          && s''.users.byId ==
             s.users.byId[u := s.users.byId[u].(email := newEmail, emailVerified := true, updatedAt := e'.now)]
          && s''.sessions == s.sessions.SpendAll(u, None))
  {
    hide ConfirmEmailChange, ApplyEmailChange, Good, Later;
    var s' := CreateEmailChange(c, s, u, newEmail, e).0;
    CreateEmailChangeIsGood(c, s, u, newEmail, e);
    GoodInv(s, s');
    NewestIsFound(c, s, u, newEmail, e);
    StoredUser(s, u);
    ConfirmSucceedsExactlyWhen(c, s', e.ticketToken, e');
    hide Inv;
    if Confirmable(c, s', e.ticketToken, e'.now) {
      ConfirmWritesOnlyWhenConfirmable(c, s', e.ticketToken, e');
      ApplyOutcome(s', RecordOf(c, s', e.ticketToken), e');
    }
  }

  lemma NewestIsFound(c: Config, s: State, u: Id, newEmail: string, e: Env)
    requires s.changes.Fresh(e.ticketId, c.hashToken(e.ticketToken)) && PlainToken(e.ticketToken) && e.fault == NoFault
    ensures var s' := CreateEmailChange(c, s, u, newEmail, e).0;
            && s' == s.(changes := s'.changes)
            && s'.changes.Find(c.hashToken(Strip(e.ticketToken))) ==
               Some(Ticket(e.ticketId, u, c.hashToken(e.ticketToken), e.now, e.now + EMAIL_CHANGE_TTL, false,
                           ChangeData(newEmail, EMAIL_CHANGE_PURPOSE)))
  {
  }

  // A reset that leaves a session live.

  const WITNESS_CONFIG := Config(true, t => t, (p, h) => p == h, 10, 10)

  const WITNESS_USER := User("u", "a@b.c", "old", "A", true, true, 0, 0)

  /** One user with a live session and a live reset ticket. */
  const WITNESS_STATE: State := State(
    UserTable(map["u" := WITNESS_USER], map["a@b.c" := "u"]),
    TicketTable(map["s" := Ticket("s", "u", "access", 0, 10, false, SessionData(false, 0))], map["access" := "s"]),
    TicketTable(map["r" := Ticket("r", "u", "reset", 0, 10, false, NoData)], map["reset" := "r"]),
    TicketTable(map[], map[]), TicketTable(map[], map[]), [])

  /** The reset is stopped where it consumes the ticket. */
  const WITNESS_ENV := Env(1, "", "", "", "", "", "new", true, true, Raises(MarkConsumed, {}))

  lemma WitnessPassword()
    ensures ValidPassword("Passw0rd")
  {
    assert "Passw0rd"[5] == '0' && Lower("Passw0rd")[0] == 'p' && Upper("Passw0rd")[1] == 'A';
  }

  lemma WitnessUsersAreSound()
    ensures WITNESS_STATE.users.Valid()
  {
    hide Strip;
    StripTrims("a@b.c");
    assert Lower("a@b.c") == "a@b.c";
  }

  lemma WitnessIsSound()
    ensures Inv(WITNESS_STATE)
  {
    hide UserTable.Valid;
    WitnessUsersAreSound();
  }

  lemma WitnessIsResettable()
    ensures Resettable(WITNESS_CONFIG, WITNESS_STATE, "reset", "Passw0rd", 1)
  {
    hide ValidPassword, Strip;
    WitnessPassword();
    WitnessTokens();
  }

  /** The new password is in place, and the session from before still opens. */
  lemma ResetCanLeaveASessionLive()
    ensures var s' := ConfirmPasswordReset(WITNESS_CONFIG, WITNESS_STATE, "reset", "Passw0rd", WITNESS_ENV).0;
            && s'.users.Get("u") == Some(WITNESS_USER.(passwordHash := "new", updatedAt := 1))
            && Opens(WITNESS_CONFIG, s', "access", 1)
  {
    hide ConfirmPasswordReset, Inv, Resettable, ValidPassword, Strip;
    WitnessIsSound();
    WitnessIsResettable();
    WitnessTokens();
    ResetOutcome(WITNESS_CONFIG, WITNESS_STATE, "reset", "Passw0rd", WITNESS_ENV);
  }

  lemma WitnessTokens()
    ensures Strip("reset") == "reset" && Strip("access") == "access"
  {
    StripTrims("reset");
    StripTrims("access");
  }
}
