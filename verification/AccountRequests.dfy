/** What the calls that ask for a ticket store, and what that ticket then does. */
module AccountRequests {
  import opened Wrappers
  import opened Text
  import opened AccountTables
  import opened AccountOperations
  import opened AccountSafety
  import opened AccountTheorems
  import opened AccountFlows

  /** A ticket without data, as a request stores it. */
  function TicketFor(c: Config, userId: Id, ttl: int, e: Env): Ticket<NoData> {
    Ticket(e.ticketId, userId, c.hashToken(e.ticketToken), e.now, e.now + ttl, false, NoData)
  }

  // Password resets.

  /**
   * A reset request answers every admitted caller alike; it stores a one-hour ticket for the
   * owner of the address, active or not, and nothing when there is none.
   */
  lemma ResetIsStoredExactlyWhen(c: Config, s: State, email: string, e: Env)
    requires Inv(s) && Fresh(c, s, e)
    ensures
      var (s', outcome) := RequestPasswordReset(c, s, email, e);
      var cleaned := NormalizeEmail(email);
      var asked := c.enabled && cleaned.Some? && e.admitted && !e.fault.Hits(FindByEmail);
      var owned := asked && exists u :: Owns(s, u, cleaned.value);
      && (outcome == Done <==> asked && !(owned && e.fault.Hits(SaveTicket)))
      && (outcome == Rejected(Disabled) <==> !c.enabled)
      && (outcome == Rejected(InvalidInput) <==> c.enabled && cleaned.None?)
      && (outcome == Rejected(RateLimited) <==> c.enabled && cleaned.Some? && !e.admitted)
      && (e.ticketId in s'.resets.byId <==> owned && !e.fault.Hits(SaveTicket))
      && (if e.ticketId in s'.resets.byId then
            && Owns(s, s'.resets.byId[e.ticketId].userId, cleaned.value)
            && s' == s.(resets :=
                 s.resets.Insert(TicketFor(c, s'.resets.byId[e.ticketId].userId, PASSWORD_RESET_TTL, e)))
          else s' == s)
  {
    hide Inv, NormalizeEmail, UserTable.GetByEmail;
    if NormalizeEmail(email).Some? {
      AddressIsFound(s, NormalizeEmail(email).value);
    }
  }

  // Verification of an address.

  /** A verification request stores a one-day ticket for an existing user, and nothing otherwise. */
  lemma VerificationIsStoredExactlyWhen(c: Config, s: State, userId: Id, e: Env)
    requires Inv(s)
    ensures
      var (s', outcome) := RequestEmailVerification(c, s, userId, e);
      && (outcome == Done <==>
            c.enabled && userId in s.users.byId && !e.fault.Hits(FindUser) && !e.fault.Hits(SaveTicket))
      && (outcome == Rejected(Disabled) <==> !c.enabled)
      && (outcome == Rejected(NotFound) <==> c.enabled && !e.fault.Hits(FindUser) && userId !in s.users.byId)
      && s' == if outcome == Done
               then s.(verifications := s.verifications.Insert(TicketFor(c, userId, EMAIL_VERIFICATION_TTL, e)))
               else s
  {
    if userId in s.users.byId {
      StoredUser(s, userId);
    }
    hide Inv;
  }

  /** A fresh verification ticket verifies its active user for exactly one day. */
  lemma TicketVerifiesForItsTerm(c: Config, s: State, u: Id, e: Env, e': Env)
    requires Inv(s) && c.enabled && u in s.users.byId && s.users.byId[u].isActive && e'.fault == NoFault
    requires PlainToken(e.ticketToken)
    requires s.verifications.Find(c.hashToken(e.ticketToken)) == Some(TicketFor(c, u, EMAIL_VERIFICATION_TTL, e))
    ensures
      var (s', outcome) := ConfirmEmailVerification(c, s, e.ticketToken, e');
      && (outcome == Done <==> e'.now < e.now + EMAIL_VERIFICATION_TTL)
      && (outcome == Done ==>
            s'.users.byId == s.users.byId[u := s.users.byId[u].(emailVerified := true, updatedAt := e'.now)])
      && (outcome != Done ==> s' == s)
  {
    hide Inv, ConfirmEmailVerification;
    VerificationSucceedsExactlyWhen(c, s, e.ticketToken, e');
  }

  /** A requested verification confirms with its token, for exactly one day. */
  lemma RequestedVerificationConfirms(c: Config, s: State, u: Id, e: Env, e': Env)
    requires Inv(s) && c.enabled && Fresh(c, s, e) && PlainToken(e.ticketToken)
    requires e.fault == NoFault && e'.fault == NoFault && u in s.users.byId && s.users.byId[u].isActive
    ensures
      var s' := RequestEmailVerification(c, s, u, e).0;
      var (s'', outcome) := ConfirmEmailVerification(c, s', e.ticketToken, e');
      && (outcome == Done <==> e'.now < e.now + EMAIL_VERIFICATION_TTL)
      && (outcome == Done ==>
            s''.users.byId == s.users.byId[u := s.users.byId[u].(emailVerified := true, updatedAt := e'.now)])
  {
    hide Inv, Good, Later, RequestEmailVerification, ConfirmEmailVerification;
    var s' := RequestEmailVerification(c, s, u, e).0;
    VerificationIsStoredExactlyWhen(c, s, u, e);
    VerificationInsertIsGood(s, TicketFor(c, u, EMAIL_VERIFICATION_TTL, e));
    GoodInv(s, s');
    TicketVerifiesForItsTerm(c, s', u, e, e');
  }

  /** So does the ticket that a registration stores: it verifies the new user. */
  lemma RegisteredTicketConfirms(
    c: Config, s: State, email: string, password: string, name: string, rememberMe: bool, consents: bool,
    e: Env, e': Env)
    requires Inv(s) && Fresh(c, s, e) && PlainToken(e.ticketToken) && e'.fault == NoFault
    requires Register(c, s, email, password, name, rememberMe, consents, e).1.SignedIn?
    ensures
      var s' := Register(c, s, email, password, name, rememberMe, consents, e).0;
      var (s'', outcome) := ConfirmEmailVerification(c, s', e.ticketToken, e');
      && e.userId in s'.users.byId && !s'.users.byId[e.userId].emailVerified
      && (outcome == Done <==> e'.now < e.now + EMAIL_VERIFICATION_TTL)
      && (outcome == Done ==>
            s''.users.byId == s'.users.byId[e.userId :=
              s'.users.byId[e.userId].(emailVerified := true, updatedAt := e'.now)])
  {
    hide Inv, Good, Later, Register, ConfirmEmailVerification, NormalizeEmail;
    var s' := Register(c, s, email, password, name, rememberMe, consents, e).0;
    RegisterIsGood(c, s, email, password, name, rememberMe, consents, e);
    GoodInv(s, s');
    RegisterSucceedsExactlyWhen(c, s, email, password, name, rememberMe, consents, e);
    TicketVerifiesForItsTerm(c, s', e.userId, e, e');
  }

  // Changes of an address.

  /** What validation gives a change request: the session and its user. */
  ghost predicate Asking(c: Config, s: State, access: string, e: Env) {
    Opens(c, s, access, e.now) && !e.fault.Hits(FindSession) && !e.fault.Hits(SaveSession)
  }

  lemma ValidationAdmits(c: Config, s: State, access: string, e: Env)
    requires Inv(s)
    ensures var (s', outcome) := ValidateSession(c, s, access, e);
            && s' == s.(sessions := s'.sessions) && outcome != Done
            && (outcome.SignedIn? <==> Asking(c, s, access, e))
            && (outcome.SignedIn? ==>
                  outcome.session.userId == s.sessions.Find(c.hashToken(Strip(access))).value.userId)
  {
    hide Inv;
  }

  /** The request is allowed: an active user, the right password, and a valid address that is not the user's own. */
  ghost predicate MayChange(c: Config, s: State, u: Id, newEmail: string, password: string, e: Env) {
    && u in s.users.byId && s.users.byId[u].isActive && e.admitted && !e.fault.Hits(FindUser)
    && c.verifyPassword(password, s.users.byId[u].passwordHash)
    && NormalizeEmail(newEmail).Some? && NormalizeEmail(newEmail).value != s.users.byId[u].email
    && !e.fault.Hits(FindByEmail)
  }

  /** The change row that a request stores. */
  function ChangeFor(c: Config, userId: Id, newEmail: string, e: Env): Ticket<ChangeData> {
    Ticket(e.ticketId, userId, c.hashToken(e.ticketToken), e.now, e.now + EMAIL_CHANGE_TTL, false,
           ChangeData(newEmail, EMAIL_CHANGE_PURPOSE))
  }

  lemma ChangeIsCreated(c: Config, s: State, u: Id, address: string, e: Env)
    ensures
      var (s', outcome) := CreateEmailChange(c, s, u, address, e);
      var f := e.fault;
      && s' == s.(changes := s'.changes)
      && (outcome == if f.Hits(Invalidate) || f.Hits(SaveTicket) then Raised else Done)
      && s'.changes == (if f.Hits(Invalidate) || f.Hits(SaveTicket)
                        then s.changes.SpendAll(u, f.Within(Invalidate))
                        else s.changes.SpendAll(u, None).Insert(ChangeFor(c, u, address, e)))
  {
  }

  /**
   * Fault by fault: a change request is stored, behind the invalidation of that user's
   * earlier ones, exactly for a live session of an active user who gives the right password
   * and a valid address that is neither the user's own nor anybody's; a taken address is
   * answered alike but stores nothing. What is stored is for that user and that address.
   */
  lemma ChangeIsCreatedExactlyWhen(c: Config, s: State, access: string, newEmail: string, password: string, e: Env)
    requires Inv(s) && Fresh(c, s, e)
    ensures
      var (s', outcome) := RequestEmailChange(c, s, access, newEmail, password, e);
      var f := e.fault;
      var row := s.sessions.Find(c.hashToken(Strip(access)));
      var asked := Asking(c, s, access, e) && MayChange(c, s, row.value.userId, newEmail, password, e);
      var creates := asked && !exists u :: Owns(s, u, NormalizeEmail(newEmail).value);
      && (outcome == Done <==> asked && !(creates && (f.Hits(Invalidate) || f.Hits(SaveTicket))))
      && s'.changes ==
         (if !creates then s.changes
          else if f.Hits(Invalidate) || f.Hits(SaveTicket) then
            s.changes.SpendAll(row.value.userId, f.Within(Invalidate))
          else
            s.changes.SpendAll(row.value.userId, None)
              .Insert(ChangeFor(c, row.value.userId, NormalizeEmail(newEmail).value, e)))
      && s' == ValidateSession(c, s, access, e).0.(changes := s'.changes)
      && (!Asking(c, s, access, e) ==> outcome == ValidateSession(c, s, access, e).1)
  {
    hide Inv, NormalizeEmail, ValidateSession, CreateEmailChange, UserTable.GetByEmail, Asking, ChangeFor;
    hide TicketTable<ChangeData>.SpendAll, TicketTable<ChangeData>.Insert;
    var cleaned := NormalizeEmail(newEmail);
    ValidationAdmits(c, s, access, e);
    if Asking(c, s, access, e) {
      SignedRow(c, s, access, e);
      var (s1, session) := ValidateSession(c, s, access, e);
      var u := session.session.userId;
      if u in s.users.byId {
        StoredUser(s, u);
        if cleaned.Some? {
          AddressIsFound(s, cleaned.value);
          ChangeIsCreated(c, s1, u, cleaned.value, e);
        }
      }
    }
  }

  /** Why a change request behind a live session is refused. */
  lemma ChangeRefusals(c: Config, s: State, access: string, newEmail: string, password: string, e: Env)
    requires Inv(s) && Asking(c, s, access, e) && !e.fault.Hits(FindUser)
    ensures
      var outcome := RequestEmailChange(c, s, access, newEmail, password, e).1;
      var u := s.sessions.Find(c.hashToken(Strip(access))).value.userId;
      var cleaned := NormalizeEmail(newEmail);
      var active := u in s.users.byId && s.users.byId[u].isActive;
      var trusted := active && e.admitted && c.verifyPassword(password, s.users.byId[u].passwordHash);
      && (outcome == Rejected(InvalidSession) <==> !active)
      && (outcome == Rejected(RateLimited) <==> active && !e.admitted)
      && (outcome == Rejected(InvalidCredentials) <==> active && e.admitted && !trusted)
      && (outcome == Rejected(InvalidInput) <==>
            trusted && (cleaned.None? || cleaned.value == s.users.byId[u].email))
      && (outcome == Raised ==> e.fault.Raises?)
  {
    hide Inv, NormalizeEmail, ValidateSession, CreateEmailChange, UserTable.GetByEmail, Asking;
    ValidationAdmits(c, s, access, e);
    var (s1, session) := ValidateSession(c, s, access, e);
    var u := session.session.userId;
    SignedRow(c, s, access, e);
    var address := NormalizeEmail(newEmail);
    if address.Some? && u in s.users.byId {
      CreationAnswers(c, s1, s.users.byId[u].id, address.value, e);
    }
  }

  lemma SignedRow(c: Config, s: State, access: string, e: Env)
    requires Asking(c, s, access, e)
    ensures s.sessions.Find(c.hashToken(Strip(access))).Some?
  {
  }

  lemma CreationAnswers(c: Config, s: State, u: Id, address: string, e: Env)
    ensures var outcome := CreateEmailChange(c, s, u, address, e).1;
            outcome == Done || (outcome == Raised && e.fault.Raises?)
  {
    hide TicketTable<ChangeData>.SpendAll, TicketTable<ChangeData>.Insert;
  }
}
