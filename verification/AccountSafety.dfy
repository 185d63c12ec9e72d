/** What holds over every run of account calls, whichever repository calls raise. */
module AccountSafety {
  import opened Wrappers
  import opened Text
  import opened AccountTables
  import opened AccountOperations

  /** Two open requests of one user. */
  predicate Open(a: Ticket<ChangeData>, b: Ticket<ChangeData>) {
    !a.spent && !b.spent && a.userId == b.userId
  }

  ghost predicate OnlyOpen(t: TicketTable<ChangeData>, a: Id, b: Id) {
    a in t.byId && b in t.byId && Open(t.byId[a], t.byId[b]) ==> a == b
  }

  /** At most one email-change request per user is still open. */
  ghost predicate OneOpenChange(t: TicketTable<ChangeData>) {
    forall a, b :: OnlyOpen(t, a, b)
  }

  ghost predicate BoundRow(t: TicketTable<ChangeData>, id: Id) {
    id in t.byId ==> NormalEmail(t.byId[id].data.newEmail) && t.byId[id].data.purpose == EMAIL_CHANGE_PURPOSE
  }

  /** Every request names a normal address and carries the email-change purpose. */
  ghost predicate Bound(t: TicketTable<ChangeData>) {
    forall id :: BoundRow(t, id)
  }

  ghost predicate Inv(s: State) {
    && s.users.Valid()
    && s.sessions.Valid()
    && s.resets.Valid()
    && s.verifications.Valid()
    && s.changes.Valid()
    && OneOpenChange(s.changes)
    && Bound(s.changes)
  }

  ghost predicate SameEmail(s: State, s': State, u: Id) {
    u in s.users.byId ==> u in s'.users.byId && s'.users.byId[u].email == s.users.byId[u].email
  }

  /** A session that is still live vouches that its user's email is what it was. */
  ghost predicate Vouches(s: State, s': State, sid: Id) {
    sid in s.sessions.byId && sid in s'.sessions.byId && !s'.sessions.byId[sid].spent ==>
      SameEmail(s, s', s.sessions.byId[sid].userId)
  }

  ghost predicate LiveKeepsEmail(s: State, s': State) {
    forall sid :: Vouches(s, s', sid)
  }

  /** How a state may follow another. */
  ghost predicate Later(s: State, s': State) {
    && Ages(s.sessions, s'.sessions)
    && Ages(s.resets, s'.resets)
    && Ages(s.verifications, s'.verifications)
    && Ages(s.changes, s'.changes)
    && s.users.byId.Keys <= s'.users.byId.Keys
    && LiveKeepsEmail(s, s')
  }

  lemma LaterTrans(s: State, s': State, s'': State)
    requires Later(s, s') && Later(s', s'')
    ensures Later(s, s'')
  {
    AgesTrans(s.sessions, s'.sessions, s''.sessions);
    AgesTrans(s.resets, s'.resets, s''.resets);
    AgesTrans(s.verifications, s'.verifications, s''.verifications);
    AgesTrans(s.changes, s'.changes, s''.changes);
    forall sid
      ensures Vouches(s, s'', sid)
    {
      assert Vouches(s, s', sid) && Vouches(s', s'', sid);
      assert RowAges(s.sessions, s'.sessions, sid) && RowAges(s'.sessions, s''.sessions, sid);
    }
  }

  /** A step keeps the invariant and moves to a later state. */
  ghost predicate Good(s: State, s': State) {
    Inv(s) ==> Inv(s') && Later(s, s')
  }

  lemma GoodRefl(s: State)
    ensures Good(s, s)
  {
  }

  lemma GoodInv(s: State, s': State)
    requires Inv(s) && Good(s, s')
    ensures Inv(s') && Later(s, s')
  {
  }

  lemma GoodTrans(s: State, s': State, s'': State)
    requires Inv(s) && Good(s, s') && Good(s', s'')
    ensures Good(s, s'')
  {
    LaterTrans(s, s', s'');
  }

  // The elementary writes.

  lemma SessionInsertIsGood(s: State, r: Session)
    requires s.sessions.Fresh(r.id, r.tokenHash)
    ensures Good(s, s.(sessions := s.sessions.Replace(r)))
  {
    if Inv(s) {
      InsertFresh(s.sessions, r);
    }
  }

  lemma SessionRefreshIsGood(s: State, r: Session)
    requires r.id in s.sessions.byId && !s.sessions.byId[r.id].spent
    requires r == s.sessions.byId[r.id].(data := r.data)
    ensures Good(s, s.(sessions := s.sessions.Replace(r)))
  {
    if Inv(s) {
      ReplaceKnown(s.sessions, r);
    }
  }

  lemma SessionSpendIsGood(s: State, id: Id)
    ensures Good(s, s.(sessions := s.sessions.Spend(id)))
  {
    if Inv(s) {
      SpendAges(s.sessions, id);
    }
  }

  lemma SessionSpendAllIsGood(s: State, u: Id, within: Option<set<Id>>)
    ensures Good(s, s.(sessions := s.sessions.SpendAll(u, within)))
  {
    if Inv(s) {
      SpendAllAges(s.sessions, u, within);
    }
  }

  lemma ResetInsertIsGood(s: State, r: Ticket<NoData>)
    requires s.resets.Fresh(r.id, r.tokenHash)
    ensures Good(s, s.(resets := s.resets.Insert(r)))
  {
    if Inv(s) {
      InsertFresh(s.resets, r);
    }
  }

  lemma ResetSpendIsGood(s: State, id: Id)
    ensures Good(s, s.(resets := s.resets.Spend(id)))
  {
    if Inv(s) {
      SpendAges(s.resets, id);
    }
  }

  lemma VerificationInsertIsGood(s: State, r: Ticket<NoData>)
    requires s.verifications.Fresh(r.id, r.tokenHash)
    ensures Good(s, s.(verifications := s.verifications.Insert(r)))
  {
    if Inv(s) {
      InsertFresh(s.verifications, r);
    }
  }

  lemma VerificationSpendIsGood(s: State, id: Id)
    ensures Good(s, s.(verifications := s.verifications.Spend(id)))
  {
    if Inv(s) {
      SpendAges(s.verifications, id);
    }
  }

  /** Spending requests opens none. */
  lemma FewerOpen(t: TicketTable<ChangeData>, t': TicketTable<ChangeData>)
    requires OneOpenChange(t) && Bound(t) && t'.byId.Keys == t.byId.Keys
    requires forall id :: id in t.byId ==> t'.byId[id] == t.byId[id] || t'.byId[id] == t.byId[id].(spent := true)
    ensures OneOpenChange(t') && Bound(t')
  {
    forall a, b
      ensures OnlyOpen(t', a, b)
    {
      assert OnlyOpen(t, a, b);
    }
    forall id
      ensures BoundRow(t', id)
    {
      assert BoundRow(t, id);
    }
  }

  lemma ChangeSpendIsGood(s: State, id: Id)
    ensures Good(s, s.(changes := s.changes.Spend(id)))
  {
    if Inv(s) {
      SpendAges(s.changes, id);
      FewerOpen(s.changes, s.changes.Spend(id));
    }
  }

  lemma ChangeSpendAllIsGood(s: State, u: Id, within: Option<set<Id>>)
    ensures Good(s, s.(changes := s.changes.SpendAll(u, within)))
  {
    if Inv(s) {
      SpendAllAges(s.changes, u, within);
      FewerOpen(s.changes, s.changes.SpendAll(u, within));
    }
  }

  /** A new request may open once no other request of the user is open. */
  lemma InsertKeepsOneOpen(t: TicketTable<ChangeData>, r: Ticket<ChangeData>)
    requires OneOpenChange(t) && Bound(t)
    requires NormalEmail(r.data.newEmail) && r.data.purpose == EMAIL_CHANGE_PURPOSE
    requires forall id :: id in t.byId && t.byId[id].userId == r.userId ==> t.byId[id].spent
    ensures OneOpenChange(t.Insert(r)) && Bound(t.Insert(r))
  {
    forall a, b
      ensures OnlyOpen(t.Insert(r), a, b)
    {
      assert OnlyOpen(t, a, b);
    }
    forall id
      ensures BoundRow(t.Insert(r), id)
    {
      assert BoundRow(t, id);
    }
  }

  lemma ChangeInsertIsGood(s: State, r: Ticket<ChangeData>)
    requires s.changes.Fresh(r.id, r.tokenHash)
    requires NormalEmail(r.data.newEmail) && r.data.purpose == EMAIL_CHANGE_PURPOSE
    requires forall id :: id in s.changes.byId && s.changes.byId[id].userId == r.userId ==> s.changes.byId[id].spent
    ensures Good(s, s.(changes := s.changes.Insert(r)))
  {
    if Inv(s) {
      hide OneOpenChange, Bound, TicketTable<ChangeData>.Valid, NormalEmail;
      InsertFresh(s.changes, r);
      InsertKeepsOneOpen(s.changes, r);
    }
  }

  /** Saving a user row is safe when the address stays or the user's sessions are all revoked. */
  lemma UserSaveIsGood(s: State, u: User)
    requires u.id != "" && NormalEmail(u.email) && !s.users.Taken(u)
    requires
      || (u.id in s.users.byId && s.users.byId[u.id].email == u.email)
      || u.id !in s.users.byId
      || forall sid :: sid in s.sessions.byId && s.sessions.byId[sid].userId == u.id ==> s.sessions.byId[sid].spent
    ensures s.users.Save(u).Some?
    ensures Good(s, s.(users := s.users.Save(u).value))
  {
    if Inv(s) {
      SaveKeepsUsersValid(s.users, u);
    }
  }

  // What the calls use of the invariant.

  /** A stored row sits under its id and has a normal address. */
  lemma StoredUser(s: State, u: Id)
    requires Inv(s) && u in s.users.byId
    ensures u != "" && s.users.byId[u].id == u && NormalEmail(s.users.byId[u].email)
    ensures s.users.GetByEmail(s.users.byId[u].email) == Some(s.users.byId[u])
  {
    assert s.users.Row(u);
  }

  /** An address without another occupant never meets the uniqueness error. */
  lemma FreeAddress(s: State, u: User)
    requires Inv(s) && NormalEmail(u.email)
    requires s.users.GetByEmail(u.email).None? || s.users.GetByEmail(u.email).value.id == u.id
    ensures !s.users.Taken(u)
  {
    assert s.users.Key(u.email);
    if u.email in s.users.byEmail {
      assert s.users.Row(s.users.byEmail[u.email]);
    }
  }

  lemma InvTables(s: State)
    requires Inv(s)
    ensures s.users.Valid() && s.sessions.Valid() && s.resets.Valid() && s.verifications.Valid() && s.changes.Valid()
  {
  }

  /** Saving a row whose address is free changes that row only. */
  lemma UserSaved(s: State, u: User)
    requires Inv(s) && u.id != "" && NormalEmail(u.email) && !s.users.Taken(u)
    ensures s.users.Save(u).Some? && s.users.Save(u).value.byId == s.users.byId[u.id := u]
  {
    SaveKeepsUsersValid(s.users, u);
  }

  lemma StoredSession(s: State, hash: string)
    requires Inv(s) && s.sessions.Find(hash).Some?
    ensures var r := s.sessions.Find(hash).value; r.id in s.sessions.byId && s.sessions.byId[r.id] == r
    ensures var r := s.sessions.Find(hash).value;
            forall d :: s.sessions.Replace(r.(data := d)) ==
              TicketTable(s.sessions.byId[r.id := r.(data := d)], s.sessions.byToken)
  {
    FindInValid(s.sessions, hash);
    var r := s.sessions.Find(hash).value;
    forall d
      ensures s.sessions.Replace(r.(data := d)) ==
        TicketTable(s.sessions.byId[r.id := r.(data := d)], s.sessions.byToken)
    {
      ReplaceKnown(s.sessions, r.(data := d));
    }
  }

  lemma StoredChange(s: State, hash: string)
    requires Inv(s) && s.changes.Find(hash).Some?
    ensures var r := s.changes.Find(hash).value;
            r.id in s.changes.byId && s.changes.byId[r.id] == r && r.tokenHash == hash
    ensures hash in s.changes.byToken && s.changes.byToken[hash] == s.changes.Find(hash).value.id
    ensures s.changes.Find(hash).value.id != ""
    ensures NormalEmail(s.changes.Find(hash).value.data.newEmail)
    ensures s.changes.Find(hash).value.data.purpose == EMAIL_CHANGE_PURPOSE
  {
    FindInValid(s.changes, hash);
    assert BoundRow(s.changes, s.changes.Find(hash).value.id);
  }

  // The calls.

  lemma IssueSessionIsGood(c: Config, s: State, userId: Id, rememberMe: bool, e: Env)
    requires s.sessions.Fresh(e.sessionId, c.hashToken(e.sessionToken))
    ensures Good(s, IssueSession(c, s, userId, rememberMe, e).0)
  {
    hide Good, Inv, Later;
    GoodRefl(s);
    var ttl := if rememberMe then c.rememberTtl else c.sessionTtl;
    SessionInsertIsGood(s, Ticket(e.sessionId, userId, c.hashToken(e.sessionToken), e.now, e.now + ttl, false,
                                  SessionData(rememberMe, e.now)));
  }

  lemma RegisterIsGood(c: Config, s: State, email: string, password: string, name: string, rememberMe: bool,
                       consents: bool, e: Env)
    requires Inv(s) && Fresh(c, s, e)
    ensures Good(s, Register(c, s, email, password, name, rememberMe, consents, e).0)
  {
    hide Good, Inv, Later, NormalizeEmail, ValidPassword, UserTable.Save, UserTable.Taken, UserTable.GetByEmail;
    GoodRefl(s);
    var cleaned := NormalizeEmail(email);
    if cleaned.Some? && s.users.GetByEmail(cleaned.value).None? {
      var user := User(e.userId, cleaned.value, e.passwordHash, Strip(name), true, false, e.now, e.now);
      FreeAddress(s, user);
      UserSaveIsGood(s, user);
      var s1 := s.(users := s.users.Save(user).value);
      var ticket := NewTicket(c, e.userId, EMAIL_VERIFICATION_TTL, e);
      VerificationInsertIsGood(s1, ticket);
      var s2 := s1.(verifications := s1.verifications.Insert(ticket));
      GoodTrans(s, s1, s2);
      IssueSessionIsGood(c, s2, e.userId, rememberMe, e);
      GoodTrans(s, s2, IssueSession(c, s2, e.userId, rememberMe, e).0);
    }
  }

  /** Validation moves the presented session and nothing else. */
  lemma ValidateIsGood(c: Config, s: State, token: string, e: Env)
    requires Inv(s)
    ensures Good(s, ValidateSession(c, s, token, e).0)
    ensures var r := ValidateSession(c, s, token, e);
            && r.0 == s.(sessions := r.0.sessions)
            && (r.1.SignedIn? ==> r.1.session.id in r.0.sessions.byId)
  {
    hide Good, Inv, Later;
    GoodRefl(s);
    var hash := c.hashToken(Strip(token));
    if s.sessions.Find(hash).Some? {
      var session := s.sessions.Find(hash).value;
      StoredSession(s, hash);
      SessionSpendIsGood(s, session.id);
      if !session.spent {
        SessionRefreshIsGood(s, session.(data := session.data.(lastSeenAt := e.now)));
      }
    }
  }

  lemma LogoutIsGood(c: Config, s: State, token: string, e: Env)
    requires Inv(s)
    ensures Good(s, Logout(c, s, token, e).0)
  {
    hide Good, Inv, Later, ValidateSession;
    GoodRefl(s);
    ValidateIsGood(c, s, token, e);
    var (s1, outcome) := ValidateSession(c, s, token, e);
    if outcome.SignedIn? {
      SessionSpendIsGood(s1, outcome.session.id);
      GoodTrans(s, s1, s1.(sessions := s1.sessions.Spend(outcome.session.id)));
    }
  }

  lemma ConfirmPasswordResetIsGood(c: Config, s: State, token: string, newPassword: string, e: Env)
    requires Inv(s)
    ensures Good(s, ConfirmPasswordReset(c, s, token, newPassword, e).0)
  {
    hide Good, Inv, Later;
    GoodRefl(s);
    var found := s.resets.Find(c.hashToken(Strip(token)));
    if found.Some? && s.users.Get(found.value.userId).Some? {
      var user := s.users.Get(found.value.userId).value;
      var updated := user.(passwordHash := e.passwordHash, updatedAt := e.now);
      StoredUser(s, found.value.userId);
      FreeAddress(s, updated);
      UserSaveIsGood(s, updated);
      var s1 := s.(users := s.users.Save(updated).value);
      ResetSpendIsGood(s1, found.value.id);
      var s2 := s1.(resets := s1.resets.Spend(found.value.id));
      GoodTrans(s, s1, s2);
      SessionSpendAllIsGood(s2, user.id, e.fault.Within(RevokeAll));
      GoodTrans(s, s2, s2.(sessions := s2.sessions.SpendAll(user.id, e.fault.Within(RevokeAll))));
    }
  }

  lemma ConfirmEmailVerificationIsGood(c: Config, s: State, token: string, e: Env)
    requires Inv(s)
    ensures Good(s, ConfirmEmailVerification(c, s, token, e).0)
  {
    hide Good, Inv, Later;
    GoodRefl(s);
    var found := s.verifications.Find(c.hashToken(Strip(token)));
    if found.Some? && s.users.Get(found.value.userId).Some? {
      var user := s.users.Get(found.value.userId).value;
      var updated := user.(emailVerified := true, updatedAt := e.now);
      StoredUser(s, found.value.userId);
      FreeAddress(s, updated);
      UserSaveIsGood(s, updated);
      var s1 := s.(users := s.users.Save(updated).value);
      VerificationSpendIsGood(s1, found.value.id);
      GoodTrans(s, s1, s1.(verifications := s1.verifications.Spend(found.value.id)));
    }
  }

  lemma CreateEmailChangeIsGood(c: Config, s: State, u: Id, newEmail: string, e: Env)
    requires Inv(s) && NormalEmail(newEmail)
    requires s.changes.Fresh(e.ticketId, c.hashToken(e.ticketToken))
    ensures Good(s, CreateEmailChange(c, s, u, newEmail, e).0)
  {
    hide Good, Inv, Later;
    ChangeSpendAllIsGood(s, u, e.fault.Within(Invalidate));
    if !e.fault.Hits(Invalidate) {
      var s1 := s.(changes := s.changes.SpendAll(u, None));
      var record := Ticket(e.ticketId, u, c.hashToken(e.ticketToken), e.now, e.now + EMAIL_CHANGE_TTL, false,
                           ChangeData(newEmail, EMAIL_CHANGE_PURPOSE));
      ChangeInsertIsGood(s1, record);
      GoodTrans(s, s1, s1.(changes := s1.changes.Insert(record)));
    }
  }

  lemma RequestEmailChangeIsGood(c: Config, s: State, token: string, newEmail: string, password: string, e: Env)
    requires Inv(s) && Fresh(c, s, e)
    ensures Good(s, RequestEmailChange(c, s, token, newEmail, password, e).0)
  {
    hide Good, Inv, Later, ValidateSession, CreateEmailChange;
    ValidateIsGood(c, s, token, e);
    var (s1, session) := ValidateSession(c, s, token, e);
    GoodInv(s, s1);
    var cleaned := NormalizeEmail(newEmail);
    if session.SignedIn? && s1.users.Get(session.session.userId).Some? && cleaned.Some? {
      var u := s1.users.Get(session.session.userId).value.id;
      CreateEmailChangeIsGood(c, s1, u, cleaned.value, e);
      GoodTrans(s, s1, CreateEmailChange(c, s1, u, cleaned.value, e).0);
    }
  }

  lemma ConsumeEmailChangeIsGood(s: State, record: Ticket<ChangeData>, u: Id, e: Env)
    requires Inv(s)
    ensures Good(s, ConsumeEmailChange(s, record, u, e).0)
  {
    hide Good, Inv, Later;
    GoodRefl(s);
    ChangeSpendIsGood(s, record.id);
    var s1 := s.(changes := s.changes.Spend(record.id));
    ChangeSpendAllIsGood(s1, u, e.fault.Within(Invalidate));
    GoodTrans(s, s1, s1.(changes := s1.changes.SpendAll(u, e.fault.Within(Invalidate))));
  }

  lemma NoticeIsGood(s: State, notices: seq<string>)
    ensures Good(s, s.(notices := notices))
  {
  }

  lemma ApplyEmailChangeIsGood(s: State, record: Ticket<ChangeData>, user: User, e: Env)
    requires Inv(s) && user.id in s.users.byId && s.users.byId[user.id] == user
    requires NormalEmail(record.data.newEmail)
    requires s.users.GetByEmail(record.data.newEmail).Some? ==>
      s.users.GetByEmail(record.data.newEmail).value.id == user.id
    ensures Good(s, ApplyEmailChange(s, record, user, e).0)
  {
    hide Good, Inv, Later, ConsumeEmailChange;
    var f := e.fault;
    SessionSpendAllIsGood(s, user.id, f.Within(RevokeAll));
    if !f.Hits(RevokeAll) {
      var s1 := s.(sessions := s.sessions.SpendAll(user.id, None));
      GoodInv(s, s1);
      ConsumeEmailChangeIsGood(s1, record, user.id, e);
      GoodTrans(s, s1, ConsumeEmailChange(s1, record, user.id, e).0);
      var updated := user.(email := record.data.newEmail, emailVerified := true, updatedAt := e.now);
      StoredUser(s, user.id);
      FreeAddress(s1, updated);
      UserSaveIsGood(s1, updated);
      var s2 := s1.(users := s1.users.Save(updated).value);
      GoodTrans(s, s1, s2);
      var s3 := if e.delivered then s2.(notices := s2.notices + [user.email]) else s2;
      NoticeIsGood(s2, s3.notices);
      GoodTrans(s, s2, s3);
      GoodInv(s, s3);
      ConsumeEmailChangeIsGood(s3, record, user.id, e);
      GoodTrans(s, s3, ConsumeEmailChange(s3, record, user.id, e).0);
    }
  }

  lemma ConfirmEmailChangeIsGood(c: Config, s: State, token: string, e: Env)
    requires Inv(s)
    ensures Good(s, ConfirmEmailChange(c, s, token, e).0)
  {
    hide Good, Inv, Later, ApplyEmailChange, Superseded;
    GoodRefl(s);
    var hash := c.hashToken(Strip(token));
    if s.changes.Find(hash).Some? {
      var record := s.changes.Find(hash).value;
      StoredChange(s, hash);
      if s.users.Get(record.userId).Some? {
        var user := s.users.Get(record.userId).value;
        StoredUser(s, record.userId);
        var occupant := s.users.GetByEmail(record.data.newEmail);
        if occupant.None? || occupant.value.id == user.id {
          ApplyEmailChangeIsGood(s, record, user, e);
        }
      }
    }
  }

  /** Every call, under every fault, keeps the invariant and leads to a later state. */
  lemma PerformIsGood(c: Config, s: State, call: Call, e: Env)
    requires Inv(s) && Fresh(c, s, e)
    ensures Good(s, Perform(c, s, call, e).0)
  {
    hide Good, Inv, Later, Register, ValidateSession, Logout, ConfirmPasswordReset, ConfirmEmailVerification,
         RequestEmailChange, ConfirmEmailChange, IssueSession;
    GoodRefl(s);
    match call
    case CallRegister(email, password, name, rememberMe, consents) =>
      RegisterIsGood(c, s, email, password, name, rememberMe, consents, e);
    case CallLogin(email, password, rememberMe) =>
      if NormalizeEmail(email).Some? && s.users.GetByEmail(NormalizeEmail(email).value).Some? {
        IssueSessionIsGood(c, s, s.users.GetByEmail(NormalizeEmail(email).value).value.id, rememberMe, e);
      }
    case CallValidate(token) => ValidateIsGood(c, s, token, e);
    case CallLogout(token) => LogoutIsGood(c, s, token, e);
    case CallRequestReset(email) =>
      if NormalizeEmail(email).Some? && s.users.GetByEmail(NormalizeEmail(email).value).Some? {
        var u := s.users.GetByEmail(NormalizeEmail(email).value).value.id;
        ResetInsertIsGood(s, NewTicket(c, u, PASSWORD_RESET_TTL, e));
      }
    case CallConfirmReset(token, newPassword) => ConfirmPasswordResetIsGood(c, s, token, newPassword, e);
    case CallRequestVerification(userId) =>
      if s.users.Get(userId).Some? {
        VerificationInsertIsGood(s, NewTicket(c, s.users.Get(userId).value.id, EMAIL_VERIFICATION_TTL, e));
      }
    case CallConfirmVerification(token) => ConfirmEmailVerificationIsGood(c, s, token, e);
    case CallRequestChange(token, newEmail, password) => RequestEmailChangeIsGood(c, s, token, newEmail, password, e);
    case CallConfirmChange(token) => ConfirmEmailChangeIsGood(c, s, token, e);
  }

  /** Along a run from a sound state every state is sound and later than those before it. */
  lemma {:induction false} RunIsGood(c: Config, states: seq<State>, events: seq<Event>, i: nat, j: nat)
    requires IsRun(c, states, events) && Inv(states[0])
    requires i <= j <= |events|
    ensures Inv(states[i]) && Inv(states[j]) && Later(states[i], states[j])
    decreases j
  {
    if j == 0 {
      GoodRefl(states[0]);
    } else if i == j {
      hide Inv, Later, Good, Perform;
      RunIsGood(c, states, events, i - 1, j - 1);
      assert StepAt(c, states, events, j - 1);
      PerformIsGood(c, states[j - 1], events[j - 1].call, events[j - 1].env);
      GoodInv(states[j - 1], states[j]);
      GoodRefl(states[j]);
      GoodInv(states[j], states[j]);
    } else {
      hide Inv, Later, Good, Perform;
      RunIsGood(c, states, events, i, j - 1);
      assert StepAt(c, states, events, j - 1);
      PerformIsGood(c, states[j - 1], events[j - 1].call, events[j - 1].env);
      GoodInv(states[j - 1], states[j]);
      LaterTrans(states[i], states[j - 1], states[j]);
    }
  }
}
