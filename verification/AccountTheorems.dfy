/** The account promises, for all states, tokens, clocks, faults and runs. */
module AccountTheorems {
  import opened Wrappers
  import opened Text
  import opened AccountTables
  import opened AccountOperations
  import opened AccountSafety

  const EMPTY: State := State(
    UserTable(map[], map[]), TicketTable(map[], map[]), TicketTable(map[], map[]), TicketTable(map[], map[]),
    TicketTable(map[], map[]), [])

  /** In every reachable state addresses are normal and unshared and each user has one open change at most. */
  lemma ReachableStatesAreSound(c: Config, states: seq<State>, events: seq<Event>, i: nat)
    requires IsRun(c, states, events) && states[0] == EMPTY && i < |states|
    ensures var s := states[i];
            && (forall u :: u in s.users.byId ==> NormalEmail(s.users.byId[u].email))
            && (forall u, v | u in s.users.byId && v in s.users.byId ::
                  s.users.byId[u].email == s.users.byId[v].email ==> u == v)
            && (forall a, b | a in s.changes.byId && b in s.changes.byId ::
                  Open(s.changes.byId[a], s.changes.byId[b]) ==> a == b)
  {
    assert Inv(EMPTY);
    RunIsGood(c, states, events, 0, i);
    var s := states[i];
    forall u | u in s.users.byId
      ensures NormalEmail(s.users.byId[u].email)
    {
      StoredUser(s, u);
    }
    forall u, v | u in s.users.byId && v in s.users.byId && s.users.byId[u].email == s.users.byId[v].email
      ensures u == v
    {
      EmailsAreUnique(s.users, u, v);
    }
    forall a, b | a in s.changes.byId && b in s.changes.byId && Open(s.changes.byId[a], s.changes.byId[b])
      ensures a == b
    {
      assert OnlyOpen(s.changes, a, b);
    }
  }

  // Sessions.

  /** The live, unexpired row that a token names. */
  ghost predicate Opens(c: Config, s: State, token: string, now: Instant) {
    && c.enabled && Strip(token) != ""
    && var row := s.sessions.Find(c.hashToken(Strip(token)));
       row.Some? && !row.value.spent && now < row.value.expiresAt
  }

  /** Without a fault a token is accepted exactly when it opens a row; the row is then only stamped. */
  lemma ValidateAcceptsExactly(c: Config, s: State, token: string, e: Env)
    requires Inv(s) && e.fault == NoFault
    ensures ValidateSession(c, s, token, e).1.SignedIn? <==> Opens(c, s, token, e.now)
    ensures Opens(c, s, token, e.now) ==>
              var row := s.sessions.Find(c.hashToken(Strip(token))).value;
              ValidateSession(c, s, token, e).0 ==
              s.(sessions := TicketTable(
                   s.sessions.byId[row.id := row.(data := row.data.(lastSeenAt := e.now))], s.sessions.byToken))
  {
    if Opens(c, s, token, e.now) {
      StoredSession(s, c.hashToken(Strip(token)));
    }
  }

  /** A spent session row never opens again, although validation writes `revoked=False` back. */
  lemma SpentSessionStaysShut(c: Config, states: seq<State>, events: seq<Event>, i: nat, j: nat, token: string, e: Env)
    requires IsRun(c, states, events) && Inv(states[0]) && i <= j < |states|
    requires states[i].sessions.Find(c.hashToken(Strip(token))).Some?
    requires states[i].sessions.Find(c.hashToken(Strip(token))).value.spent
    ensures !ValidateSession(c, states[j], token, e).1.SignedIn?
  {
    RunIsGood(c, states, events, i, j);
    FoundStaysSpent(states[i].sessions, states[j].sessions, c.hashToken(Strip(token)));
  }

  /** The row of a spent token is found spent in any later table. */
  lemma FoundStaysSpent<P>(t: TicketTable<P>, t': TicketTable<P>, hash: string)
    requires t.Valid() && t'.Valid() && Ages(t, t')
    requires t.Find(hash).Some? && t.Find(hash).value.spent
    ensures t'.Find(hash).Some? && t'.Find(hash).value.spent
  {
    FindInValid(t, hash);
    FindInValid(t', hash);
    assert KeyAges(t, t', hash) && RowAges(t, t', t.Find(hash).value.id);
  }

  /** No call moves the expiry, the owner or the token of a session that exists. */
  lemma SessionTermsAreFixed(c: Config, states: seq<State>, events: seq<Event>, i: nat, j: nat, sid: Id)
    requires IsRun(c, states, events) && Inv(states[0]) && i <= j < |states|
    requires sid in states[i].sessions.byId
    ensures var s, s' := states[i], states[j];
            && sid in s'.sessions.byId
            && s'.sessions.byId[sid].expiresAt == s.sessions.byId[sid].expiresAt
            && s'.sessions.byId[sid].userId == s.sessions.byId[sid].userId
            && s'.sessions.byId[sid].tokenHash == s.sessions.byId[sid].tokenHash
  {
    RunIsGood(c, states, events, i, j);
    assert RowAges(states[i].sessions, states[j].sessions, sid);
  }

  // Password reset.

  ghost predicate NamesSessionOf(c: Config, s: State, access: string, u: Id) {
    var found := s.sessions.Find(c.hashToken(Strip(access)));
    found.Some? && found.value.userId == u
  }

  /** A successful reset has spent every session row of its user. */
  lemma ResetSpendsSessions(c: Config, s: State, token: string, newPassword: string, e: Env)
    requires Inv(s) && ConfirmPasswordReset(c, s, token, newPassword, e).1 == Done
    ensures var u := s.resets.Find(c.hashToken(Strip(token))).value.userId;
            ConfirmPasswordReset(c, s, token, newPassword, e).0.sessions == s.sessions.SpendAll(u, None)
  {
    hide Inv, ValidPassword, UserTable.Save, TicketTable<SessionData>.SpendAll, Strip;
    StoredUser(s, s.resets.Find(c.hashToken(Strip(token))).value.userId);
  }

  /** After a successful reset no token of that user issued before it ever opens a session. */
  lemma ResetEndsEarlierSessions(c: Config, states: seq<State>, events: seq<Event>, i: nat, j: nat,
                                 access: string, e: Env)
    requires IsRun(c, states, events) && Inv(states[0]) && i < j < |states|
    requires events[i].call.CallConfirmReset?
    requires Perform(c, states[i], events[i].call, events[i].env).1 == Done
    requires NamesSessionOf(c, states[i], access,
                            states[i].resets.Find(c.hashToken(Strip(events[i].call.token))).value.userId)
    ensures !ValidateSession(c, states[j], access, e).1.SignedIn?
  {
    hide Inv, Later, Good, ConfirmPasswordReset, ValidateSession;
    RunIsGood(c, states, events, i, i);
    assert StepAt(c, states, events, i);
    ResetSpendsSessions(c, states[i], events[i].call.token, events[i].call.newPassword, events[i].env);
    SpentSessionStaysShut(c, states, events, i + 1, j, access, e);
  }

  /** The reset token names a live record of an active user. */
  ghost predicate Resettable(c: Config, s: State, token: string, newPassword: string, now: Instant) {
    && c.enabled && ValidPassword(newPassword) && Strip(token) != ""
    && var found := s.resets.Find(c.hashToken(Strip(token)));
       && found.Some? && !found.value.spent && now < found.value.expiresAt
       && found.value.userId in s.users.byId && s.users.byId[found.value.userId].isActive
  }

  /** What a reset leaves behind, fault by fault. */
  lemma ResetOutcome(c: Config, s: State, token: string, newPassword: string, e: Env)
    requires Inv(s) && Resettable(c, s, token, newPassword, e.now)
    ensures
      var record := s.resets.Find(c.hashToken(Strip(token))).value;
      var u := record.userId;
      var f := e.fault;
      var s' := ConfirmPasswordReset(c, s, token, newPassword, e).0;
      var unsaved := f.Hits(FindTicket) || f.Hits(FindUser) || f.Hits(SaveUser);
      && s'.users.byId == (if unsaved then s.users.byId
                           else s.users.byId[u := s.users.byId[u].(passwordHash := e.passwordHash, updatedAt := e.now)])
      && s'.sessions == (if unsaved || f.Hits(MarkConsumed) then s.sessions
                         else s.sessions.SpendAll(u, f.Within(RevokeAll)))
  {
    hide Inv;
    var u := s.resets.Find(c.hashToken(Strip(token))).value.userId;
    var updated := s.users.byId[u].(passwordHash := e.passwordHash, updatedAt := e.now);
    StoredUser(s, u);
    FreeAddress(s, updated);
    UserSaved(s, updated);
  }

  /**
   * The reset saves the password before it revokes. A session of the user that was live
   * is therefore live beside the new password exactly when consuming the token or
   * revoking the sessions raised, the latter before it reached that session.
   */
  lemma ResetLeavesSessionLiveExactlyWhen(c: Config, s: State, token: string, newPassword: string, e: Env, sid: Id)
    requires Inv(s) && Resettable(c, s, token, newPassword, e.now)
    requires sid in s.sessions.byId && !s.sessions.byId[sid].spent
    requires s.sessions.byId[sid].userId == s.resets.Find(c.hashToken(Strip(token))).value.userId
    requires s.users.byId[s.sessions.byId[sid].userId].passwordHash != e.passwordHash
    ensures var s' := ConfirmPasswordReset(c, s, token, newPassword, e).0;
            var u := s.sessions.byId[sid].userId;
            && u in s'.users.byId && sid in s'.sessions.byId
            && ((s'.users.byId[u].passwordHash == e.passwordHash && !s'.sessions.byId[sid].spent) <==>
                (e.fault.Hits(MarkConsumed) || (e.fault.Hits(RevokeAll) && sid !in e.fault.written)))
  {
    hide Inv, ConfirmPasswordReset;
    ResetOutcome(c, s, token, newPassword, e);
  }

  // Email change.

  /** What `confirm_email_change` asks of the stored state before it writes. */
  ghost predicate Confirmable(c: Config, s: State, token: string, now: Instant) {
    && c.enabled && Strip(token) != ""
    && var found := s.changes.Find(c.hashToken(Strip(token)));
       && found.Some? && !found.value.spent && now < found.value.expiresAt
       && found.value.userId in s.users.byId && s.users.byId[found.value.userId].isActive
       && var occupant := s.users.GetByEmail(found.value.data.newEmail);
          occupant.Some? ==> occupant.value.id == found.value.userId
  }

  ghost function RecordOf(c: Config, s: State, token: string): Ticket<ChangeData>
    requires s.changes.Find(c.hashToken(Strip(token))).Some?
  {
    s.changes.Find(c.hashToken(Strip(token))).value
  }

  predicate HitsRead(f: Fault) {
    f.Hits(FindTicket) || f.Hits(ListChanges) || f.Hits(FindUser) || f.Hits(FindByEmail)
  }

  /** With one open request per user, an open request is never superseded. */
  lemma OpenIsNewest(s: State, record: Ticket<ChangeData>)
    requires Inv(s) && record.id in s.changes.byId && s.changes.byId[record.id] == record && !record.spent
    ensures !Superseded(s.changes, record)
  {
    forall id | id in s.changes.byId && s.changes.byId[id].userId == record.userId && !s.changes.byId[id].spent
      ensures s.changes.byId[id].id == record.id
    {
      assert OnlyOpen(s.changes, id, record.id);
    }
  }

  /** Either the call writes, or the state is what it was and the call does not succeed. */
  lemma ConfirmWritesOnlyWhenConfirmable(c: Config, s: State, token: string, e: Env)
    requires Inv(s)
    ensures Confirmable(c, s, token, e.now) && !HitsRead(e.fault) ==>
              var record := RecordOf(c, s, token);
              ConfirmEmailChange(c, s, token, e) == ApplyEmailChange(s, record, s.users.byId[record.userId], e)
    ensures !(Confirmable(c, s, token, e.now) && !HitsRead(e.fault)) ==>
              ConfirmEmailChange(c, s, token, e).0 == s && ConfirmEmailChange(c, s, token, e).1 != Done
  {
    hide Inv, Superseded, ApplyEmailChange;
    var hash := c.hashToken(Strip(token));
    if s.changes.Find(hash).Some? {
      StoredChange(s, hash);
      var record := s.changes.Find(hash).value;
      if !record.spent {
        OpenIsNewest(s, record);
      }
      if record.userId in s.users.byId {
        StoredUser(s, record.userId);
      }
    }
  }

  /** What the writing half leaves behind, fault by fault. */
  lemma ApplyOutcome(s: State, record: Ticket<ChangeData>, e: Env)
    requires Inv(s) && record.userId in s.users.byId && NormalEmail(record.data.newEmail)
    requires s.users.GetByEmail(record.data.newEmail).Some? ==>
               s.users.GetByEmail(record.data.newEmail).value.id == record.userId
    ensures
      var u := record.userId;
      var user := s.users.byId[u];
      var f := e.fault;
      var applied := user.email == record.data.newEmail && user.emailVerified;
      var stopped := f.Hits(RevokeAll) || (!applied && (f.Hits(SaveUser) || f.Hits(SendNotice)));
      var saved := s.users.Save(user.(email := record.data.newEmail, emailVerified := true, updatedAt := e.now));
      var s' := ApplyEmailChange(s, record, user, e).0;
      var outcome := ApplyEmailChange(s, record, user, e).1;
      && saved.Some?
      && saved.value.byId ==
        s.users.byId[u := user.(email := record.data.newEmail, emailVerified := true, updatedAt := e.now)]
      && s'.sessions == s.sessions.SpendAll(u, f.Within(RevokeAll))
      && s'.users == (if f.Hits(RevokeAll) || applied || f.Hits(SaveUser) then s.users else saved.value)
      && s'.notices == (if f.Hits(RevokeAll) || applied || f.Hits(SaveUser) || f.Hits(SendNotice) || !e.delivered
                        then s.notices else s.notices + [user.email])
      && s'.changes == (if stopped || f.Hits(MarkConsumed) then s.changes
                        else s.changes.Spend(record.id).SpendAll(u, f.Within(Invalidate)))
      && s'.resets == s.resets && s'.verifications == s.verifications
      && (outcome == Done <==> !(stopped || f.Hits(MarkConsumed) || f.Hits(Invalidate)))
  {
    var user := s.users.byId[record.userId];
    var updated := user.(email := record.data.newEmail, emailVerified := true, updatedAt := e.now);
    StoredUser(s, record.userId);
    FreeAddress(s, updated);
    SaveKeepsUsersValid(s.users, updated);
    hide Inv;
  }

  /**
   * In every state that a confirmation passes through: either a user's address is the old
   * one, or every session that user had is revoked. Nobody else is touched.
   */
  lemma EmailMovesOnlyBehindRevocation(c: Config, s: State, token: string, e: Env, u: Id)
    requires Inv(s) && u in s.users.byId
    ensures var s' := ConfirmEmailChange(c, s, token, e).0;
            && u in s'.users.byId
            && (s'.users.byId[u].email == s.users.byId[u].email ||
                forall sid :: sid in s.sessions.byId && s.sessions.byId[sid].userId == u ==>
                  sid in s'.sessions.byId && s'.sessions.byId[sid].spent)
            && (s'.users.byId[u] == s.users.byId[u] ||
                (Confirmable(c, s, token, e.now) && RecordOf(c, s, token).userId == u))
    ensures var s' := ConfirmEmailChange(c, s, token, e).0;
            forall sid | sid in s.sessions.byId ::
              && sid in s'.sessions.byId
              && (s'.sessions.byId[sid] == s.sessions.byId[sid] ||
                  (Confirmable(c, s, token, e.now) && RecordOf(c, s, token).userId == s.sessions.byId[sid].userId))
  {
    hide Inv, ConfirmEmailChange, ApplyEmailChange;
    ConfirmWritesOnlyWhenConfirmable(c, s, token, e);
    if Confirmable(c, s, token, e.now) {
      StoredChange(s, c.hashToken(Strip(token)));
      ApplyOutcome(s, RecordOf(c, s, token), e);
    }
  }

  /** Over any run: a session that is still live at the end proves that its user's address has not moved. */
  lemma LiveSessionMeansSameEmail(c: Config, states: seq<State>, events: seq<Event>, i: nat, j: nat, sid: Id)
    requires IsRun(c, states, events) && Inv(states[0]) && i <= j < |states|
    requires sid in states[i].sessions.byId && states[i].sessions.byId[sid].userId in states[i].users.byId
    ensures var s, s' := states[i], states[j];
            var u := s.sessions.byId[sid].userId;
            && u in s'.users.byId && sid in s'.sessions.byId
            && (!s'.sessions.byId[sid].spent ==> s'.users.byId[u].email == s.users.byId[u].email)
  {
    RunIsGood(c, states, events, i, j);
    assert RowAges(states[i].sessions, states[j].sessions, sid);
    assert Vouches(states[i], states[j], sid);
  }

  /** Without faults a confirmation succeeds exactly when the stored state allows it. */
  lemma ConfirmSucceedsExactlyWhen(c: Config, s: State, token: string, e: Env)
    requires Inv(s) && e.fault == NoFault
    ensures ConfirmEmailChange(c, s, token, e).1 == Done <==> Confirmable(c, s, token, e.now)
  {
    hide Inv, ConfirmEmailChange, ApplyEmailChange;
    ConfirmWritesOnlyWhenConfirmable(c, s, token, e);
    if Confirmable(c, s, token, e.now) {
      StoredChange(s, c.hashToken(Strip(token)));
      ApplyOutcome(s, RecordOf(c, s, token), e);
    }
  }

  /** Consuming the one open request of a user leaves nothing to invalidate. */
  lemma NoSiblings(s: State, record: Ticket<ChangeData>, within: Option<set<Id>>)
    requires Inv(s) && record.id in s.changes.byId && s.changes.byId[record.id] == record && !record.spent
    ensures s.changes.Spend(record.id).SpendAll(record.userId, within) == s.changes.Spend(record.id)
  {
    var t := s.changes.Spend(record.id);
    forall id | id in t.byId && t.byId[id].userId == record.userId
      ensures t.byId[id].spent
    {
      assert OnlyOpen(s.changes, id, record.id);
    }
    assert t.SpendAll(record.userId, within).byId == t.byId;
  }

  lemma RevokingAgain(t: TicketTable<SessionData>, u: Id, within: Option<set<Id>>)
    ensures t.SpendAll(u, within).SpendAll(u, None) == t.SpendAll(u, None)
  {
  }

  /** A state in which a confirmation of `record` stopped before it consumed the token. */
  ghost predicate Midway(s: State, first: State, record: Ticket<ChangeData>, now: Instant) {
    && first.changes == s.changes && first.resets == s.resets && first.verifications == s.verifications
    && (first.sessions == s.sessions || exists w :: first.sessions == s.sessions.SpendAll(record.userId, w))
    && (first.users == s.users || first.users == Applied(s, record, now))
  }

  /** The user table with the requested address in place. */
  ghost function Applied(s: State, record: Ticket<ChangeData>, now: Instant): UserTable {
    if record.userId !in s.users.byId then s.users
    else
      var user := s.users.byId[record.userId].(email := record.data.newEmail, emailVerified := true, updatedAt := now);
      match s.users.Save(user)
      case None => s.users
      case Some(users) => users
  }

  ghost predicate AlreadyApplied(s: State, record: Ticket<ChangeData>)
    requires record.userId in s.users.byId
  {
    s.users.byId[record.userId].email == record.data.newEmail && s.users.byId[record.userId].emailVerified
  }

  /** Equal but for the moment of the last update. */
  predicate SameRow(a: User, b: User) {
    a.(updatedAt := b.updatedAt) == b
  }

  predicate SameRows(a: map<Id, User>, b: map<Id, User>) {
    a.Keys == b.Keys && forall u | u in a && u in b :: SameRow(a[u], b[u])
  }

  /** The applied row is confirmable and recognised as applied. */
  lemma AppliedRow(s: State, record: Ticket<ChangeData>, now: Instant)
    requires Inv(s) && record.userId in s.users.byId && NormalEmail(record.data.newEmail)
    requires s.users.GetByEmail(record.data.newEmail).Some? ==>
               s.users.GetByEmail(record.data.newEmail).value.id == record.userId
    ensures Applied(s, record, now).byId ==
              s.users.byId[record.userId := s.users.byId[record.userId].(
                email := record.data.newEmail, emailVerified := true, updatedAt := now)]
  {
    var user := s.users.byId[record.userId].(email := record.data.newEmail, emailVerified := true, updatedAt := now);
    StoredUser(s, record.userId);
    FreeAddress(s, user);
    SaveKeepsUsersValid(s.users, user);
  }

  /** From a midway state the undisturbed call runs to its end. */
  lemma SecondCallFinishes(c: Config, s: State, first: State, token: string, now: Instant, e': Env)
    requires Inv(s) && Inv(first) && Confirmable(c, s, token, now)
    requires Midway(s, first, RecordOf(c, s, token), now)
    requires e'.fault == NoFault && e'.now < RecordOf(c, s, token).expiresAt
    ensures
      var record := RecordOf(c, s, token);
      var second := ConfirmEmailChange(c, first, token, e');
      && second.1 == Done
      && second.0.sessions == s.sessions.SpendAll(record.userId, None)
      && second.0.changes == s.changes.Spend(record.id)
      && second.0.resets == s.resets && second.0.verifications == s.verifications
      && second.0.users == (if AlreadyApplied(s, record) || first.users != s.users then first.users
                            else Applied(s, record, e'.now))
      && |second.0.notices| <= |first.notices| + (if AlreadyApplied(s, record) || first.users != s.users then 0 else 1)
  {
    hide Inv, ConfirmEmailChange, ApplyEmailChange;
    var record := RecordOf(c, s, token);
    var u := record.userId;
    StoredChange(s, c.hashToken(Strip(token)));
    StoredUser(s, u);
    AppliedRow(s, record, now);
    StoredUser(first, u);
    assert Confirmable(c, first, token, e'.now);
    ConfirmWritesOnlyWhenConfirmable(c, first, token, e');
    ApplyOutcome(first, record, e');
    NoSiblings(first, record, None);
    if w :| first.sessions == s.sessions.SpendAll(u, w) {
      RevokingAgain(s.sessions, u, w);
    }
  }

  /** Where one fault leaves the first call: midway, or done in all but its report. */
  lemma FirstCallStops(c: Config, s: State, token: string, e: Env)
    requires Inv(s) && Confirmable(c, s, token, e.now)
    ensures
      var record := RecordOf(c, s, token);
      var first := ConfirmEmailChange(c, s, token, e);
      && (first.1 != Done && !e.fault.Hits(Invalidate) ==> Midway(s, first.0, record, e.now))
      && (first.1 == Done || e.fault.Hits(Invalidate) ==>
            && first.0.sessions == s.sessions.SpendAll(record.userId, None)
            && first.0.changes == s.changes.Spend(record.id)
            && first.0.resets == s.resets && first.0.verifications == s.verifications
            && first.0.users == (if AlreadyApplied(s, record) then s.users else Applied(s, record, e.now)))
      && (AlreadyApplied(s, record) ==> first.0.users == s.users)
      && |first.0.notices| <= |s.notices| + (if AlreadyApplied(s, record) || first.0.users == s.users then 0 else 1)
  {
    hide Inv, ConfirmEmailChange, ApplyEmailChange;
    var record := RecordOf(c, s, token);
    StoredChange(s, c.hashToken(Strip(token)));
    StoredUser(s, record.userId);
    ConfirmWritesOnlyWhenConfirmable(c, s, token, e);
    ApplyOutcome(s, record, e);
    AppliedRow(s, record, e.now);
    NoSiblings(s, record, e.fault.Within(Invalidate));
  }

  /** Two states that agree but for update stamps and notices. */
  predicate Converged(a: State, b: State) {
    && a.sessions == b.sessions && a.changes == b.changes && a.resets == b.resets && a.verifications == b.verifications
    && SameRows(a.users.byId, b.users.byId)
  }

  lemma ConfirmableRecord(c: Config, s: State, token: string, now: Instant)
    requires Inv(s) && Confirmable(c, s, token, now)
    ensures s.changes.Find(c.hashToken(Strip(token))).Some?
    ensures var record := RecordOf(c, s, token);
            && record.userId in s.users.byId && NormalEmail(record.data.newEmail)
            && (s.users.GetByEmail(record.data.newEmail).Some? ==>
                  s.users.GetByEmail(record.data.newEmail).value.id == record.userId)
  {
    StoredChange(s, c.hashToken(Strip(token)));
  }

  lemma MidwayUsers(s: State, first: State, record: Ticket<ChangeData>, now: Instant)
    requires Midway(s, first, record, now)
    ensures first.users == s.users || first.users == Applied(s, record, now)
  {
  }

  lemma ConsumedTokenIsRefused(c: Config, s: State, first: State, token: string, e': Env)
    requires Inv(s) && Inv(first) && s.changes.Find(c.hashToken(Strip(token))).Some?
    requires first.changes == s.changes.Spend(RecordOf(c, s, token).id)
    ensures ConfirmEmailChange(c, first, token, e').0 == first
    ensures ConfirmEmailChange(c, first, token, e').1 != Done
  {
    StoredChange(s, c.hashToken(Strip(token)));
    hide Inv, ApplyEmailChange;
  }

  /**
   * Retry convergence. Take a confirmation that the stored state allows and let any one
   * repository call raise. A second, undisturbed call with the same token before it
   * expires ends in the state of the uninterrupted call: same rows (the very same when the
   * first call had saved them), sessions revoked, token consumed, and the old address told
   * at most once in all. The second call reports success exactly when the first one had not
   * consumed the token; when it had, everything was already in place.
   */
  lemma RetryConverges(c: Config, s: State, token: string, e: Env, e': Env)
    requires Inv(s) && Confirmable(c, s, token, e.now)
    requires e'.fault == NoFault && e'.now < RecordOf(c, s, token).expiresAt
    requires ConfirmEmailChange(c, s, token, e).1 != Done
    ensures
      var whole := ConfirmEmailChange(c, s, token, e.(fault := NoFault)).0;
      var first := ConfirmEmailChange(c, s, token, e).0;
      var second := ConfirmEmailChange(c, first, token, e');
      && Converged(second.0, whole)
      && (first.users != s.users ==> second.0.users == whole.users)
      && |second.0.notices| <= |s.notices| + 1
      && (second.1 == Done <==> !e.fault.Hits(Invalidate))
      && (e.fault.Hits(Invalidate) ==> second.0 == first)
    ensures TokenSpent(c, ConfirmEmailChange(c, s, token, e.(fault := NoFault)).0, Change, token)
  {
    hide Inv, ConfirmEmailChange, ApplyEmailChange, Good, Later, Confirmable, Midway, TokenSpent;
    ConfirmableRecord(c, s, token, e.now);
    var record := RecordOf(c, s, token);
    var first := ConfirmEmailChange(c, s, token, e).0;
    FirstCallStops(c, s, token, e);
    FirstCallStops(c, s, token, e.(fault := NoFault));
    ConfirmSucceedsExactlyWhen(c, s, token, e.(fault := NoFault));
    ChangeSuccessSpends(c, s, token, e.(fault := NoFault));
    ConfirmEmailChangeIsGood(c, s, token, e);
    GoodInv(s, first);
    AppliedRow(s, record, e.now);
    AppliedRow(s, record, e'.now);
    if e.fault.Hits(Invalidate) {
      ConsumedTokenIsRefused(c, s, first, token, e');
    } else {
      SecondCallFinishes(c, s, first, token, e.now, e');
      MidwayUsers(s, first, record, e.now);
    }
  }

  // One-time use.

  /** The confirmations, each with the table its token is looked up in. */
  datatype Kind = Reset | Verification | Change

  ghost predicate Succeeds(c: Config, s: State, kind: Kind, token: string, newPassword: string, e: Env) {
    match kind
    case Reset => ConfirmPasswordReset(c, s, token, newPassword, e).1 == Done
    case Verification => ConfirmEmailVerification(c, s, token, e).1 == Done
    case Change => ConfirmEmailChange(c, s, token, e).1 == Done
  }

  function CallOf(kind: Kind, token: string, newPassword: string): Call {
    match kind
    case Reset => CallConfirmReset(token, newPassword)
    case Verification => CallConfirmVerification(token)
    case Change => CallConfirmChange(token)
  }

  ghost predicate TokenSpent(c: Config, s: State, kind: Kind, token: string) {
    var hash := c.hashToken(Strip(token));
    match kind
    case Reset => s.resets.Find(hash).Some? && s.resets.Find(hash).value.spent
    case Verification => s.verifications.Find(hash).Some? && s.verifications.Find(hash).value.spent
    case Change => s.changes.Find(hash).Some? && s.changes.Find(hash).value.spent
  }

  lemma ResetSuccessSpends(c: Config, s: State, token: string, newPassword: string, e: Env)
    requires Inv(s) && ConfirmPasswordReset(c, s, token, newPassword, e).1 == Done
    ensures TokenSpent(c, ConfirmPasswordReset(c, s, token, newPassword, e).0, Reset, token)
  {
    FindInValid(s.resets, c.hashToken(Strip(token)));
    hide Inv;
  }

  lemma VerificationSuccessSpends(c: Config, s: State, token: string, e: Env)
    requires Inv(s) && ConfirmEmailVerification(c, s, token, e).1 == Done
    ensures TokenSpent(c, ConfirmEmailVerification(c, s, token, e).0, Verification, token)
  {
    FindInValid(s.verifications, c.hashToken(Strip(token)));
    hide Inv;
  }

  lemma ChangeSuccessSpends(c: Config, s: State, token: string, e: Env)
    requires Inv(s) && ConfirmEmailChange(c, s, token, e).1 == Done
    ensures TokenSpent(c, ConfirmEmailChange(c, s, token, e).0, Change, token)
  {
    hide Inv, ConfirmEmailChange, ApplyEmailChange;
    ConfirmWritesOnlyWhenConfirmable(c, s, token, e);
    StoredChange(s, c.hashToken(Strip(token)));
    FirstCallStops(c, s, token, e);
  }

  /** A successful confirmation has spent its token. */
  lemma SuccessSpends(c: Config, s: State, kind: Kind, token: string, newPassword: string, e: Env)
    requires Inv(s) && Succeeds(c, s, kind, token, newPassword, e)
    ensures TokenSpent(c, Perform(c, s, CallOf(kind, token, newPassword), e).0, kind, token)
  {
    hide Inv, TokenSpent, ConfirmEmailChange, ConfirmPasswordReset, ConfirmEmailVerification;
    match kind
    case Reset => ResetSuccessSpends(c, s, token, newPassword, e);
    case Verification => VerificationSuccessSpends(c, s, token, e);
    case Change => ChangeSuccessSpends(c, s, token, e);
  }

  lemma SpentTokenFails(c: Config, s: State, kind: Kind, token: string, newPassword: string, e: Env)
    requires TokenSpent(c, s, kind, token)
    ensures !Succeeds(c, s, kind, token, newPassword, e)
    ensures Perform(c, s, CallOf(kind, token, newPassword), e).0 == s
  {
  }

  lemma SpentTokenStaysSpent(c: Config, s: State, s': State, kind: Kind, token: string)
    requires Inv(s) && Inv(s') && Later(s, s') && TokenSpent(c, s, kind, token)
    ensures TokenSpent(c, s', kind, token)
  {
    var hash := c.hashToken(Strip(token));
    match kind
    case Reset => FoundStaysSpent(s.resets, s'.resets, hash);
    case Verification => FoundStaysSpent(s.verifications, s'.verifications, hash);
    case Change => FoundStaysSpent(s.changes, s'.changes, hash);
  }

  /** Over any run a one-time token is confirmed successfully at most once. */
  lemma TokenSucceedsOnce(c: Config, states: seq<State>, events: seq<Event>, i: nat, j: nat,
                          kind: Kind, token: string, p: string, p': string, e': Env)
    requires IsRun(c, states, events) && Inv(states[0]) && i < j < |states|
    requires events[i].call == CallOf(kind, token, p)
    requires Perform(c, states[i], events[i].call, events[i].env).1 == Done
    ensures Perform(c, states[j], CallOf(kind, token, p'), e').1 != Done
    ensures Perform(c, states[j], CallOf(kind, token, p'), e').0 == states[j]
  {
    hide Inv, Later, Good, TokenSpent, ConfirmPasswordReset, ConfirmEmailVerification, ConfirmEmailChange;
    RunIsGood(c, states, events, i, i);
    RunIsGood(c, states, events, i + 1, j);
    assert StepAt(c, states, events, i);
    SuccessSpends(c, states[i], kind, token, p, events[i].env);
    SpentTokenStaysSpent(c, states[i + 1], states[j], kind, token);
    SpentTokenFails(c, states[j], kind, token, p', e');
  }
}
