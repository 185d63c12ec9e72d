/** How long a password-reset ticket lives: what consumes it, and what does not. */
module AccountTickets {
  import opened Wrappers
  import opened Text
  import opened AccountTables
  import opened AccountOperations
  import opened AccountSafety
  import opened AccountTheorems

  /** A reset succeeds exactly when its token and password allow it. */
  lemma ResetSucceedsExactlyWhen(c: Config, s: State, token: string, newPassword: string, e: Env)
    requires Inv(s) && e.fault == NoFault
    ensures ConfirmPasswordReset(c, s, token, newPassword, e).1 == Done <==> Resettable(c, s, token, newPassword, e.now)
  {
    hide Inv, ValidPassword, UserTable.Save, UserTable.Taken, UserTable.GetByEmail;
    if Resettable(c, s, token, newPassword, e.now) {
      var u := s.resets.Find(c.hashToken(Strip(token))).value.userId;
      var updated := s.users.byId[u].(passwordHash := e.passwordHash, updatedAt := e.now);
      StoredUser(s, u);
      FreeAddress(s, updated);
      UserSaved(s, updated);
    }
  }

  /** The confirmation gets as far as consuming the ticket that its token names. */
  ghost predicate Consumes(c: Config, s: State, call: Call, e: Env) {
    && call.CallConfirmReset? && Resettable(c, s, call.token, call.newPassword, e.now)
    && !(e.fault.Hits(FindTicket) || e.fault.Hits(FindUser) || e.fault.Hits(SaveUser) || e.fault.Hits(MarkConsumed))
  }

  lemma ConfirmingOnResets(c: Config, s: State, token: string, newPassword: string, e: Env)
    requires Inv(s)
    ensures var s' := ConfirmPasswordReset(c, s, token, newPassword, e).0;
            s'.resets == if Consumes(c, s, CallConfirmReset(token, newPassword), e)
                         then s.resets.Spend(s.resets.Find(c.hashToken(Strip(token))).value.id) else s.resets
  {
    hide Inv, ValidPassword, UserTable.Save, UserTable.Taken, UserTable.GetByEmail;
    if Resettable(c, s, token, newPassword, e.now) {
      var u := s.resets.Find(c.hashToken(Strip(token))).value.userId;
      var updated := s.users.byId[u].(passwordHash := e.passwordHash, updatedAt := e.now);
      StoredUser(s, u);
      FreeAddress(s, updated);
      UserSaved(s, updated);
    }
  }

  lemma ChangingKeepsResets(c: Config, s: State, token: string, e: Env)
    requires Inv(s)
    ensures ConfirmEmailChange(c, s, token, e).0.resets == s.resets
  {
    hide Inv, ConfirmEmailChange, ApplyEmailChange;
    ConfirmWritesOnlyWhenConfirmable(c, s, token, e);
    if Confirmable(c, s, token, e.now) {
      ConfirmableRecord(c, s, token, e.now);
      ApplyOutcome(s, RecordOf(c, s, token), e);
    }
  }

  lemma ValidatingKeepsTheRest(c: Config, s: State, token: string, e: Env)
    ensures var s' := ValidateSession(c, s, token, e).0; s' == s.(sessions := s'.sessions)
  {
  }

  lemma RequestingChangeKeepsTheRest(c: Config, s: State, token: string, newEmail: string, password: string, e: Env)
    ensures var s' := RequestEmailChange(c, s, token, newEmail, password, e).0;
            s'.resets == s.resets && s'.users == s.users
  {
    ValidatingKeepsTheRest(c, s, token, e);
    hide ValidateSession, NormalizeEmail, TicketTable<ChangeData>.SpendAll, TicketTable<ChangeData>.Insert;
  }

  lemma OthersKeepResets(c: Config, s: State, call: Call, e: Env)
    requires Inv(s) && !call.CallRequestReset? && !call.CallConfirmReset?
    ensures Perform(c, s, call, e).0.resets == s.resets
  {
    hide Inv, NormalizeEmail, ValidPassword, UserTable.Save, UserTable.GetByEmail, ConfirmEmailChange,
         RequestEmailChange, ValidateSession;
    match call
    case CallConfirmChange(token) => ChangingKeepsResets(c, s, token, e);
    case CallRequestChange(token, newEmail, password) =>
      RequestingChangeKeepsTheRest(c, s, token, newEmail, password, e);
    case CallValidate(token) => ValidatingKeepsTheRest(c, s, token, e);
    case CallLogout(token) => ValidatingKeepsTheRest(c, s, token, e);
    case _ =>
  }

  /** No call but its own confirmation consumes a reset ticket. */
  lemma StepOnTicket(c: Config, s: State, call: Call, e: Env, id: Id)
    requires Inv(s) && Fresh(c, s, e) && id in s.resets.byId
    ensures var s' := Perform(c, s, call, e).0;
            && id in s'.resets.byId
            && s'.resets.byId[id] == s.resets.byId[id].(spent := s'.resets.byId[id].spent)
            && (s'.resets.byId[id].spent <==>
                s.resets.byId[id].spent ||
                (Consumes(c, s, call, e) && s.resets.Find(c.hashToken(Strip(call.token))).value.id == id))
  {
    hide Inv, NormalizeEmail, ValidPassword, UserTable.GetByEmail, ConfirmPasswordReset;
    if call.CallConfirmReset? {
      ConfirmingOnResets(c, s, call.token, call.newPassword, e);
    } else if !call.CallRequestReset? {
      hide Perform;
      OthersKeepResets(c, s, call, e);
    }
  }

  ghost predicate StillActive(s: State, s': State, u: Id) {
    u in s.users.byId ==> u in s'.users.byId && s'.users.byId[u].isActive == s.users.byId[u].isActive
  }

  /** Saving a changed row of a stored user, or a new one, switches nobody on or off. */
  lemma SavingKeepsActive(s: State, row: User, u: Id)
    requires Inv(s) && s.users.Save(row).Some?
    requires row.id in s.users.byId ==> row.isActive == s.users.byId[row.id].isActive
    ensures StillActive(s, s.(users := s.users.Save(row).value), u)
  {
  }

  lemma ResettingKeepsActive(c: Config, s: State, token: string, newPassword: string, e: Env, u: Id)
    requires Inv(s)
    ensures StillActive(s, ConfirmPasswordReset(c, s, token, newPassword, e).0, u)
  {
    hide Inv, ValidPassword, UserTable.Save;
    if Resettable(c, s, token, newPassword, e.now) {
      ResetOutcome(c, s, token, newPassword, e);
    }
  }

  lemma VerifyingKeepsActive(c: Config, s: State, token: string, e: Env, u: Id)
    requires Inv(s)
    ensures StillActive(s, ConfirmEmailVerification(c, s, token, e).0, u)
  {
    hide Inv, UserTable.Save, UserTable.Taken, UserTable.GetByEmail;
    var found := s.verifications.Find(c.hashToken(Strip(token)));
    if found.Some? && found.value.userId in s.users.byId {
      StoredUser(s, found.value.userId);
      var row := s.users.byId[found.value.userId].(emailVerified := true, updatedAt := e.now);
      if s.users.Save(row).Some? {
        SavingKeepsActive(s, row, u);
      }
    }
  }

  lemma ChangingKeepsActive(c: Config, s: State, token: string, e: Env, u: Id)
    requires Inv(s)
    ensures StillActive(s, ConfirmEmailChange(c, s, token, e).0, u)
  {
    hide Inv, ConfirmEmailChange, ApplyEmailChange;
    ConfirmWritesOnlyWhenConfirmable(c, s, token, e);
    if Confirmable(c, s, token, e.now) {
      ConfirmableRecord(c, s, token, e.now);
      ApplyOutcome(s, RecordOf(c, s, token), e);
    }
  }

  lemma RegisteringKeepsActive(
    c: Config, s: State, email: string, password: string, name: string, rememberMe: bool, consents: bool, e: Env, u: Id)
    requires Fresh(c, s, e)
    ensures StillActive(s, Register(c, s, email, password, name, rememberMe, consents, e).0, u)
  {
    hide NormalizeEmail, ValidPassword, UserTable.GetByEmail;
  }

  /** No call switches a stored user on or off. */
  lemma StepKeepsActive(c: Config, s: State, call: Call, e: Env, u: Id)
    requires Inv(s) && Fresh(c, s, e)
    ensures StillActive(s, Perform(c, s, call, e).0, u)
  {
    hide Inv, NormalizeEmail, ValidPassword, Register, UserTable.GetByEmail, ConfirmEmailChange, RequestEmailChange,
         ConfirmPasswordReset, ConfirmEmailVerification, ValidateSession;
    match call
    case CallRegister(email, password, name, rememberMe, consents) =>
      RegisteringKeepsActive(c, s, email, password, name, rememberMe, consents, e, u);
    case CallConfirmChange(token) => ChangingKeepsActive(c, s, token, e, u);
    case CallRequestChange(token, newEmail, password) =>
      RequestingChangeKeepsTheRest(c, s, token, newEmail, password, e);
    case CallConfirmReset(token, newPassword) => ResettingKeepsActive(c, s, token, newPassword, e, u);
    case CallConfirmVerification(token) => VerifyingKeepsActive(c, s, token, e, u);
    case CallValidate(token) => ValidatingKeepsTheRest(c, s, token, e);
    case CallLogout(token) => ValidatingKeepsTheRest(c, s, token, e);
    case _ =>
  }

  /** The k-th call consumes the ticket behind the digest. */
  ghost predicate ConsumedAt(c: Config, states: seq<State>, events: seq<Event>, k: int, hash: string) {
    && 0 <= k < |events| && k < |states|
    && Consumes(c, states[k], events[k].call, events[k].env)
    && c.hashToken(Strip(events[k].call.token)) == hash
  }

  ghost predicate ConsumedWithin(c: Config, states: seq<State>, events: seq<Event>, i: int, j: int, hash: string) {
    exists k :: i <= k < j && ConsumedAt(c, states, events, k, hash)
  }

  /** The row of a ticket between two states of a run: the same, but for being spent by its own confirmation. */
  lemma {:induction false} TicketAlongRun(
    c: Config, states: seq<State>, events: seq<Event>, i: nat, j: nat, hash: string)
    requires IsRun(c, states, events) && Inv(states[0]) && i <= j < |states|
    requires states[i].resets.Find(hash).Some?
    ensures var row := states[i].resets.Find(hash).value;
            && states[j].resets.Find(hash).Some?
            && states[j].resets.Find(hash).value ==
               row.(spent := row.spent || ConsumedWithin(c, states, events, i, j, hash))
            && StillActive(states[i], states[j], row.userId)
    decreases j
  {
    hide Inv, Later, Good, Perform, Consumes;
    RunIsGood(c, states, events, i, j);
    InvTables(states[i]);
    FindInValid(states[i].resets, hash);
    if i < j {
      TicketAlongRun(c, states, events, i, j - 1, hash);
      RunIsGood(c, states, events, j - 1, j);
      assert StepAt(c, states, events, j - 1);
      var row, e := states[i].resets.Find(hash).value, events[j - 1];
      InvTables(states[j - 1]);
      InvTables(states[j]);
      FindInValid(states[j - 1].resets, hash);
      StepOnTicket(c, states[j - 1], e.call, e.env, row.id);
      StepKeepsActive(c, states[j - 1], e.call, e.env, row.userId);
      ConsumedNext(c, states, events, i, j, hash);
      if Consumes(c, states[j - 1], e.call, e.env) {
        SameRowSameDigest(c, states[j - 1], e.call, e.env, hash);
      }
      LaterTickets(states[j - 1], states[j], hash);
    }
  }

  lemma ConsumedNext(c: Config, states: seq<State>, events: seq<Event>, i: int, j: int, hash: string)
    requires i < j
    ensures ConsumedWithin(c, states, events, i, j, hash) <==>
            ConsumedWithin(c, states, events, i, j - 1, hash) || ConsumedAt(c, states, events, j - 1, hash)
  {
    hide ConsumedAt;
  }

  /** Two digests name one row only when they are the same. */
  lemma SameRowSameDigest(c: Config, s: State, call: Call, e: Env, hash: string)
    requires Inv(s) && s.resets.Find(hash).Some? && Consumes(c, s, call, e)
    ensures s.resets.Find(c.hashToken(Strip(call.token))).value.id == s.resets.Find(hash).value.id <==>
            c.hashToken(Strip(call.token)) == hash
  {
    FindInValid(s.resets, hash);
    FindInValid(s.resets, c.hashToken(Strip(call.token)));
  }

  lemma LaterTickets(s: State, s': State, hash: string)
    requires Inv(s) && Inv(s') && Later(s, s') && s.resets.Find(hash).Some?
    ensures s'.resets.Find(hash).Some?
    ensures s'.resets.Find(hash).value.id == s.resets.Find(hash).value.id
    ensures s.resets.Find(hash).value.id in s'.resets.byId
    ensures s'.resets.byId[s.resets.Find(hash).value.id] == s'.resets.Find(hash).value
  {
    FindInValid(s.resets, hash);
    FindInValid(s'.resets, hash);
    assert KeyAges(s.resets, s'.resets, hash);
  }

  /**
   * Over any run, a reset ticket that could be confirmed once still takes a new password
   * exactly when it has not expired and its own confirmation has not consumed it. Nothing
   * else ends it: no other reset of that user, no move of the address it was mailed to, no
   * logout.
   */
  lemma ResetTicketConfirmsExactlyWhen(
    c: Config, states: seq<State>, events: seq<Event>, i: nat, j: nat, token: string, newPassword: string,
    now: Instant, e: Env)
    requires IsRun(c, states, events) && Inv(states[0]) && i <= j < |states|
    requires Resettable(c, states[i], token, newPassword, now) && e.fault == NoFault
    ensures ConfirmPasswordReset(c, states[j], token, newPassword, e).1 == Done <==>
            && e.now < states[i].resets.Find(c.hashToken(Strip(token))).value.expiresAt
            && !ConsumedWithin(c, states, events, i, j, c.hashToken(Strip(token)))
  {
    hide Inv, Later, Good, ConfirmPasswordReset, ConsumedWithin;
    RunIsGood(c, states, events, i, j);
    TicketAlongRun(c, states, events, i, j, c.hashToken(Strip(token)));
    ResetSucceedsExactlyWhen(c, states[j], token, newPassword, e);
  }

  /** So a ticket mailed to the old address confirms after the address has moved exactly when it did before. */
  lemma AddressChangeKeepsResets(
    c: Config, s: State, change: string, e: Env, token: string, newPassword: string, e': Env)
    requires Inv(s) && e'.fault == NoFault
    ensures ConfirmPasswordReset(c, ConfirmEmailChange(c, s, change, e).0, token, newPassword, e').1 == Done <==>
            ConfirmPasswordReset(c, s, token, newPassword, e').1 == Done
  {
    hide Inv, Later, Good, ConfirmPasswordReset, ConfirmEmailChange, ValidPassword;
    var s' := ConfirmEmailChange(c, s, change, e).0;
    ConfirmEmailChangeIsGood(c, s, change, e);
    GoodInv(s, s');
    ChangingKeepsResets(c, s, change, e);
    ResetSucceedsExactlyWhen(c, s, token, newPassword, e');
    ResetSucceedsExactlyWhen(c, s', token, newPassword, e');
    if s.resets.Find(c.hashToken(Strip(token))).Some? {
      var u := s.resets.Find(c.hashToken(Strip(token))).value.userId;
      ChangingKeepsActive(c, s, change, e, u);
      SameUsers(c, s, change, e, u);
    }
  }

  lemma SameUsers(c: Config, s: State, token: string, e: Env, u: Id)
    requires Inv(s)
    ensures u in ConfirmEmailChange(c, s, token, e).0.users.byId <==> u in s.users.byId
  {
    hide Inv, ConfirmEmailChange, ApplyEmailChange;
    ConfirmWritesOnlyWhenConfirmable(c, s, token, e);
    if Confirmable(c, s, token, e.now) {
      ConfirmableRecord(c, s, token, e.now);
      ApplyOutcome(s, RecordOf(c, s, token), e);
    }
  }

  /** And a sibling ticket confirms after a successful reset exactly when it did before and is another one. */
  lemma SiblingTicketsSurvive(
    c: Config, s: State, used: string, first: string, e: Env, token: string, newPassword: string, e': Env)
    requires Inv(s) && ConfirmPasswordReset(c, s, used, first, e).1 == Done && e.fault == NoFault && e'.fault == NoFault
    ensures ConfirmPasswordReset(c, ConfirmPasswordReset(c, s, used, first, e).0, token, newPassword, e').1 == Done <==>
            && ConfirmPasswordReset(c, s, token, newPassword, e').1 == Done
            && c.hashToken(Strip(token)) != c.hashToken(Strip(used))
  {
    hide Inv, Later, Good, ConfirmPasswordReset, ValidPassword;
    var s' := ConfirmPasswordReset(c, s, used, first, e).0;
    ConfirmPasswordResetIsGood(c, s, used, first, e);
    GoodInv(s, s');
    ResetSucceedsExactlyWhen(c, s, used, first, e);
    ResetOutcome(c, s, used, first, e);
    ConfirmingOnResets(c, s, used, first, e);
    ResetSucceedsExactlyWhen(c, s, token, newPassword, e');
    ResetSucceedsExactlyWhen(c, s', token, newPassword, e');
    if s.resets.Find(c.hashToken(Strip(token))).Some? {
      SameRowSameDigest(c, s, CallConfirmReset(used, first), e, c.hashToken(Strip(token)));
      InvTables(s);
      FindInValid(s.resets, c.hashToken(Strip(token)));
      FindInValid(s.resets, c.hashToken(Strip(used)));
    }
  }
}
