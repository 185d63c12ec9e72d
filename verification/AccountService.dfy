/** The account service over its repositories: each call does what `AccountOperations` says. */
module AccountService {
  import opened Wrappers
  import opened Text
  import opened AccountTables
  import opened AccountOperations
  import opened AccountSafety
  import opened AccountRepositories

  class AuthService {
    const config: Config
    const users: UserRepository
    const sessions: SessionRepository
    const resets: OneTimeRepository<NoData>
    const verifications: OneTimeRepository<NoData>
    const changes: OneTimeRepository<ChangeData>
    var notices: seq<string>

    function State(): AccountOperations.State
      reads this, users, sessions, resets, verifications, changes
    {
      AccountOperations.State.State(
        users.Table(), sessions.Table(), resets.Table(), verifications.Table(), changes.Table(), notices)
    }

    ghost predicate Valid()
      reads this, users, sessions, resets, verifications, changes
    {
      resets != verifications && Inv(State())
    }

    constructor (c: Config)
      ensures config == c && Valid()
      ensures fresh(users) && fresh(sessions) && fresh(resets) && fresh(verifications) && fresh(changes)
      ensures State() ==
              AccountOperations.State.State(
                UserTable(map[], map[]), TicketTable(map[], map[]), TicketTable(map[], map[]),
                TicketTable(map[], map[]), TicketTable(map[], map[]), [])
    {
      config := c;
      users := new UserRepository();
      sessions := new SessionRepository();
      resets := new OneTimeRepository();
      verifications := new OneTimeRepository();
      changes := new OneTimeRepository();
      notices := [];
    }

    method IssueSessionFor(userId: Id, rememberMe: bool, e: Env) returns (outcome: Outcome)
      requires Valid() && sessions.Table().Fresh(e.sessionId, config.hashToken(e.sessionToken))
      modifies sessions
      ensures Valid()
      ensures (State(), outcome) == IssueSession(config, old(State()), userId, rememberMe, e)
    {
      hide Inv, Good, Later;
      IssueSessionIsGood(config, State(), userId, rememberMe, e);
      GoodInv(State(), IssueSession(config, State(), userId, rememberMe, e).0);
      var ttl := if rememberMe then config.rememberTtl else config.sessionTtl;
      var session := Ticket(e.sessionId, userId, config.hashToken(e.sessionToken), e.now, e.now + ttl, false,
                            SessionData(rememberMe, e.now));
      if e.fault.Hits(SaveSession) {
        return Raised;
      }
      sessions.Save(session);
      return SignedIn(session);
    }

    method Register(email: string, password: string, displayName: string, rememberMe: bool, consents: bool, e: Env)
      returns (outcome: Outcome)
      requires Valid() && Fresh(config, State(), e)
      modifies users, verifications, sessions
      ensures Valid()
      ensures (State(), outcome) ==
              AccountOperations.Register(config, old(State()), email, password, displayName, rememberMe, consents, e)
    {
      hide Inv, Good, Later;
      ghost var s := State();
      RegisterIsGood(config, s, email, password, displayName, rememberMe, consents, e);
      GoodInv(s, AccountOperations.Register(config, s, email, password, displayName, rememberMe, consents, e).0);
      if !config.enabled { return Rejected(Disabled); }
      var cleaned := NormalizeEmail(email);
      if cleaned.None? || !ValidPassword(password) || Strip(displayName) == "" || !consents {
        return Rejected(InvalidInput);
      }
      if !e.admitted { return Rejected(RateLimited); }
      if e.fault.Hits(FindByEmail) { return Raised; }
      if users.Table().GetByEmail(cleaned.value).Some? { return Rejected(Conflict); }
      var user := User(e.userId, cleaned.value, e.passwordHash, Strip(displayName), true, false, e.now, e.now);
      FreeAddress(s, user);
      UserSaveIsGood(s, user);
      GoodInv(s, s.(users := s.users.Save(user).value));
      if e.fault.Hits(SaveUser) { return Raised; }
      var saved := users.Save(user);
      if !saved { return Rejected(Conflict); }
      if e.fault.Hits(Bootstrap) || e.fault.Hits(SaveTicket) { return Raised; }
      ghost var s1 := State();
      ghost var ticket := NewTicket(config, e.userId, EMAIL_VERIFICATION_TTL, e);
      VerificationInsertIsGood(s1, ticket);
      GoodInv(s1, s1.(verifications := s1.verifications.Insert(ticket)));
      verifications.Save(NewTicket(config, e.userId, EMAIL_VERIFICATION_TTL, e));
      outcome := IssueSessionFor(e.userId, rememberMe, e);
    }

    method Login(email: string, password: string, rememberMe: bool, e: Env) returns (outcome: Outcome)
      requires Valid() && Fresh(config, State(), e)
      modifies sessions
      ensures Valid()
      ensures (State(), outcome) == AccountOperations.Login(config, old(State()), email, password, rememberMe, e)
    {
      hide Inv, Good, Later, IssueSession;
      if !config.enabled { return Rejected(Disabled); }
      var cleaned := NormalizeEmail(email);
      if cleaned.None? { return Rejected(InvalidInput); }
      if !e.admitted { return Rejected(RateLimited); }
      if e.fault.Hits(FindByEmail) { return Raised; }
      var found := users.Table().GetByEmail(cleaned.value);
      if found.None? || !found.value.isActive || !config.verifyPassword(password, found.value.passwordHash) {
        return Rejected(InvalidCredentials);
      }
      outcome := IssueSessionFor(found.value.id, rememberMe, e);
    }

    method ValidateSession(token: string, e: Env) returns (outcome: Outcome)
      requires Valid()
      modifies sessions
      ensures Valid()
      ensures (State(), outcome) == AccountOperations.ValidateSession(config, old(State()), token, e)
    {
      hide Inv, Good, Later;
      ghost var s := State();
      ValidateIsGood(config, s, token, e);
      GoodInv(s, AccountOperations.ValidateSession(config, s, token, e).0);
      InvTables(s);
      if !config.enabled { return Rejected(Disabled); }
      if Strip(token) == "" { return Rejected(InvalidSession); }
      if e.fault.Hits(FindSession) { return Raised; }
      var found := sessions.Table().Find(config.hashToken(Strip(token)));
      if found.None? || found.value.spent { return Rejected(InvalidSession); }
      var session := found.value;
      if session.expiresAt <= e.now {
        if e.fault.Hits(RevokeSession) { return Raised; }
        sessions.Revoke(session.id);
        return Rejected(SessionExpired);
      }
      if e.fault.Hits(SaveSession) { return Raised; }
      var refreshed := session.(data := session.data.(lastSeenAt := e.now), spent := false);
      sessions.Save(refreshed);
      return SignedIn(refreshed);
    }

    method Logout(token: string, e: Env) returns (outcome: Outcome)
      requires Valid()
      modifies sessions
      ensures Valid()
      ensures (State(), outcome) == AccountOperations.Logout(config, old(State()), token, e)
    {
      hide Inv, Good, Later, AccountOperations.ValidateSession;
      ghost var s := State();
      LogoutIsGood(config, s, token, e);
      GoodInv(s, AccountOperations.Logout(config, s, token, e).0);
      if !config.enabled { return Rejected(Disabled); }
      if token == "" { return Done; }
      var validated := ValidateSession(token, e);
      if validated == Raised { return Raised; }
      if !validated.SignedIn? { return Done; }
      if e.fault.Hits(RevokeSession) { return Raised; }
      InvTables(State());
      sessions.Revoke(validated.session.id);
      return Done;
    }

    method RequestPasswordReset(email: string, e: Env) returns (outcome: Outcome)
      requires Valid() && Fresh(config, State(), e)
      modifies resets
      ensures Valid()
      ensures (State(), outcome) == AccountOperations.RequestPasswordReset(config, old(State()), email, e)
    {
      hide Inv, Good, Later;
      ghost var s := State();
      if !config.enabled { return Rejected(Disabled); }
      var cleaned := NormalizeEmail(email);
      if cleaned.None? { return Rejected(InvalidInput); }
      if !e.admitted { return Rejected(RateLimited); }
      if e.fault.Hits(FindByEmail) { return Raised; }
      var found := users.Table().GetByEmail(cleaned.value);
      if found.None? { return Done; }
      if e.fault.Hits(SaveTicket) { return Raised; }
      var ticket := NewTicket(config, found.value.id, PASSWORD_RESET_TTL, e);
      ResetInsertIsGood(s, ticket);
      GoodInv(s, s.(resets := s.resets.Insert(ticket)));
      resets.Save(ticket);
      return Done;
    }

    method ConfirmPasswordReset(token: string, newPassword: string, e: Env) returns (outcome: Outcome)
      requires Valid()
      modifies users, resets, sessions
      ensures Valid()
      ensures (State(), outcome) == AccountOperations.ConfirmPasswordReset(config, old(State()), token, newPassword, e)
    {
      hide Inv, Good, Later, ValidPassword, UserTable.Valid, TicketTable<SessionData>.Valid, TicketTable<NoData>.Valid;
      ghost var s := State();
      ConfirmPasswordResetIsGood(config, s, token, newPassword, e);
      GoodInv(s, AccountOperations.ConfirmPasswordReset(config, s, token, newPassword, e).0);
      InvTables(s);
      if !config.enabled { return Rejected(Disabled); }
      if !ValidPassword(newPassword) { return Rejected(InvalidInput); }
      if Strip(token) == "" { return Rejected(InvalidToken); }
      if e.fault.Hits(FindTicket) { return Raised; }
      var found := resets.Table().Find(config.hashToken(Strip(token)));
      if found.None? || found.value.spent || found.value.expiresAt <= e.now { return Rejected(InvalidToken); }
      if e.fault.Hits(FindUser) { return Raised; }
      var owner := users.Table().Get(found.value.userId);
      if owner.None? || !owner.value.isActive { return Rejected(InvalidToken); }
      if e.fault.Hits(SaveUser) { return Raised; }
      var saved := users.Save(owner.value.(passwordHash := e.passwordHash, updatedAt := e.now));
      if !saved { return Rejected(Conflict); }
      if e.fault.Hits(MarkConsumed) { return Raised; }
      resets.MarkConsumed(found.value.id);
      var revoked := sessions.RevokeAllForUser(owner.value.id, e.fault.Within(RevokeAll));
      return if revoked then Done else Raised;
    }

    method RequestEmailVerification(userId: Id, e: Env) returns (outcome: Outcome)
      requires Valid() && Fresh(config, State(), e)
      modifies verifications
      ensures Valid()
      ensures (State(), outcome) == AccountOperations.RequestEmailVerification(config, old(State()), userId, e)
    {
      hide Inv, Good, Later;
      ghost var s := State();
      if !config.enabled { return Rejected(Disabled); }
      if e.fault.Hits(FindUser) { return Raised; }
      var found := users.Table().Get(userId);
      if found.None? { return Rejected(NotFound); }
      if e.fault.Hits(SaveTicket) { return Raised; }
      var ticket := NewTicket(config, found.value.id, EMAIL_VERIFICATION_TTL, e);
      VerificationInsertIsGood(s, ticket);
      GoodInv(s, s.(verifications := s.verifications.Insert(ticket)));
      verifications.Save(ticket);
      return Done;
    }

    method ConfirmEmailVerification(token: string, e: Env) returns (outcome: Outcome)
      requires Valid()
      modifies users, verifications
      ensures Valid()
      ensures (State(), outcome) == AccountOperations.ConfirmEmailVerification(config, old(State()), token, e)
    {
      hide Inv, Good, Later;
      ghost var s := State();
      ConfirmEmailVerificationIsGood(config, s, token, e);
      GoodInv(s, AccountOperations.ConfirmEmailVerification(config, s, token, e).0);
      if !config.enabled { return Rejected(Disabled); }
      if Strip(token) == "" { return Rejected(InvalidToken); }
      if e.fault.Hits(FindTicket) { return Raised; }
      var found := verifications.Table().Find(config.hashToken(Strip(token)));
      if found.None? || found.value.spent || found.value.expiresAt <= e.now { return Rejected(InvalidToken); }
      if e.fault.Hits(FindUser) { return Raised; }
      var owner := users.Table().Get(found.value.userId);
      if owner.None? || !owner.value.isActive { return Rejected(InvalidToken); }
      if e.fault.Hits(SaveUser) { return Raised; }
      var saved := users.Save(owner.value.(emailVerified := true, updatedAt := e.now));
      if !saved { return Rejected(Conflict); }
      if e.fault.Hits(MarkConsumed) { return Raised; }
      verifications.MarkConsumed(found.value.id);
      return Done;
    }

    method RequestEmailChange(accessToken: string, newEmail: string, password: string, e: Env)
      returns (outcome: Outcome)
      requires Valid() && Fresh(config, State(), e)
      modifies sessions, changes
      ensures Valid()
      ensures (State(), outcome) ==
              AccountOperations.RequestEmailChange(config, old(State()), accessToken, newEmail, password, e)
    {
      hide Inv, Good, Later, AccountOperations.ValidateSession, CreateEmailChange;
      ghost var s := State();
      RequestEmailChangeIsGood(config, s, accessToken, newEmail, password, e);
      GoodInv(s, AccountOperations.RequestEmailChange(config, s, accessToken, newEmail, password, e).0);
      ValidateIsGood(config, s, accessToken, e);
      var session := ValidateSession(accessToken, e);
      if !session.SignedIn? { return session; }
      if e.fault.Hits(FindUser) { return Raised; }
      var found := users.Table().Get(session.session.userId);
      if found.None? || !found.value.isActive { return Rejected(InvalidSession); }
      if !e.admitted { return Rejected(RateLimited); }
      if !config.verifyPassword(password, found.value.passwordHash) { return Rejected(InvalidCredentials); }
      var cleaned := NormalizeEmail(newEmail);
      if cleaned.None? || cleaned.value == found.value.email { return Rejected(InvalidInput); }
      if e.fault.Hits(FindByEmail) { return Raised; }
      if users.Table().GetByEmail(cleaned.value).Some? { return Done; }
      outcome := CreateEmailChangeFor(found.value.id, cleaned.value, e);
    }

    method CreateEmailChangeFor(userId: Id, newEmail: string, e: Env) returns (outcome: Outcome)
      requires Valid() && NormalEmail(newEmail)
      requires changes.Table().Fresh(e.ticketId, config.hashToken(e.ticketToken))
      modifies changes
      ensures Valid()
      ensures (State(), outcome) == CreateEmailChange(config, old(State()), userId, newEmail, e)
    {
      hide Inv, Good, Later;
      CreateEmailChangeIsGood(config, State(), userId, newEmail, e);
      GoodInv(State(), CreateEmailChange(config, State(), userId, newEmail, e).0);
      var invalidated := changes.InvalidateForUser(userId, e.fault.Within(Invalidate));
      if !invalidated || e.fault.Hits(SaveTicket) { return Raised; }
      changes.Save(Ticket(e.ticketId, userId, config.hashToken(e.ticketToken), e.now, e.now + EMAIL_CHANGE_TTL, false,
                          ChangeData(newEmail, EMAIL_CHANGE_PURPOSE)));
      return Done;
    }

    method ConfirmEmailChange(token: string, e: Env) returns (outcome: Outcome)
      requires Valid()
      modifies this`notices, users, sessions, changes
      ensures Valid()
      ensures (State(), outcome) == AccountOperations.ConfirmEmailChange(config, old(State()), token, e)
    {
      hide Inv, Good, Later, Superseded, ConsumeEmailChange;
      ghost var s := State();
      ConfirmEmailChangeIsGood(config, s, token, e);
      GoodInv(s, AccountOperations.ConfirmEmailChange(config, s, token, e).0);
      InvTables(s);
      if !config.enabled { return Rejected(Disabled); }
      if Strip(token) == "" { return Rejected(InvalidToken); }
      if e.fault.Hits(FindTicket) { return Raised; }
      var found := changes.Table().Find(config.hashToken(Strip(token)));
      if found.None? || found.value.spent || found.value.expiresAt <= e.now
         || found.value.data.purpose != EMAIL_CHANGE_PURPOSE {
        return Rejected(InvalidToken);
      }
      var record := found.value;
      if e.fault.Hits(ListChanges) { return Raised; }
      if Superseded(changes.Table(), record) { return Rejected(InvalidToken); }
      if e.fault.Hits(FindUser) { return Raised; }
      var owner := users.Table().Get(record.userId);
      if owner.None? || !owner.value.isActive { return Rejected(InvalidToken); }
      if e.fault.Hits(FindByEmail) { return Raised; }
      var user := owner.value;
      var occupant := users.Table().GetByEmail(record.data.newEmail);
      if occupant.Some? && occupant.value.id != user.id { return Rejected(InvalidToken); }
      var revoked := sessions.RevokeAllForUser(user.id, e.fault.Within(RevokeAll));
      if !revoked { return Rejected(CompletionError); }
      if !(user.email == record.data.newEmail && user.emailVerified) {
        if e.fault.Hits(SaveUser) { return Raised; }
        var saved := users.Save(user.(email := record.data.newEmail, emailVerified := true, updatedAt := e.now));
        if !saved { return Rejected(InvalidToken); }
        if e.fault.Hits(SendNotice) { return Raised; }
        if e.delivered {
          notices := notices + [user.email];
        }
      }
      outcome := ConsumeEmailChangeOf(record, user.id, e);
    }

    method ConsumeEmailChangeOf(record: Ticket<ChangeData>, userId: Id, e: Env) returns (outcome: Outcome)
      modifies changes
      ensures (State(), outcome) == ConsumeEmailChange(old(State()), record, userId, e)
    {
      if e.fault.Hits(MarkConsumed) { return Rejected(CompletionError); }
      changes.MarkConsumed(record.id);
      var invalidated := changes.InvalidateForUser(userId, e.fault.Within(Invalidate));
      return if invalidated then Done else Rejected(CompletionError);
    }
  }
}
