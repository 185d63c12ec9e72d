/** Any number of confirmations with one token, each stopped anywhere, and then one that is not. */
module AccountRetries {
  import opened Wrappers
  import opened Text
  import opened AccountTables
  import opened AccountOperations
  import opened AccountSafety
  import opened AccountTheorems

  /** The state behind attempts with the same token, one after another. */
  function Attempted(c: Config, s: State, token: string, es: seq<Env>): State {
    if es == [] then s
    else ConfirmEmailChange(c, Attempted(c, s, token, es[..|es| - 1]), token, es[|es| - 1]).0
  }

  ghost predicate UsersAt(s: State, t: State, record: Ticket<ChangeData>, now: Instant) {
    t.users == Applied(s, record, now)
  }

  /** The users are as they were, or the requested address is in place since some moment; told at most once. */
  ghost predicate UsersFollow(s: State, t: State, record: Ticket<ChangeData>)
    requires record.userId in s.users.byId
  {
    && t.resets == s.resets && t.verifications == s.verifications
    && (t.users == s.users || (!AlreadyApplied(s, record) && exists now :: UsersAt(s, t, record, now)))
    && |t.notices| <= |s.notices| + (if t.users == s.users then 0 else 1)
  }

  ghost predicate RevokedWithin(s: State, t: State, record: Ticket<ChangeData>, within: Option<set<Id>>) {
    t.sessions == s.sessions.SpendAll(record.userId, within)
  }

  /** Attempts so far have stopped before the token was consumed. */
  ghost predicate Underway(s: State, t: State, record: Ticket<ChangeData>)
    requires record.userId in s.users.byId
  {
    UsersFollow(s, t, record) && t.changes == s.changes && exists within :: RevokedWithin(s, t, record, within)
  }

  /** Some attempt has consumed the token: everything is in place. */
  ghost predicate Complete(s: State, t: State, record: Ticket<ChangeData>)
    requires record.userId in s.users.byId
  {
    && UsersFollow(s, t, record) && t.changes == s.changes.Spend(record.id) && RevokedWithin(s, t, record, None)
    && (AlreadyApplied(s, record) || t.users != s.users)
  }

  lemma NothingYet(s: State, record: Ticket<ChangeData>)
    requires record.userId in s.users.byId
    ensures Underway(s, s, record)
  {
    assert s.sessions.SpendAll(record.userId, Some({})).byId == s.sessions.byId;
    assert RevokedWithin(s, s, record, Some({}));
  }

  lemma RevokingMore(t: TicketTable<SessionData>, u: Id, a: Option<set<Id>>, b: Option<set<Id>>)
      returns (ab: Option<set<Id>>)
    ensures t.SpendAll(u, a).SpendAll(u, b) == t.SpendAll(u, ab)
    ensures b.None? ==> ab.None?
  {
    ab := if a.None? || b.None? then None else Some(a.value + b.value);
  }

  /** The owner's row as the requested address leaves it. */
  lemma AppliedOwner(s: State, record: Ticket<ChangeData>, now: Instant)
    requires Inv(s) && record.userId in s.users.byId && NormalEmail(record.data.newEmail)
    requires s.users.GetByEmail(record.data.newEmail).Some? ==>
               s.users.GetByEmail(record.data.newEmail).value.id == record.userId
    ensures record.userId in Applied(s, record, now).byId
    ensures var user := Applied(s, record, now).byId[record.userId];
            user.email == record.data.newEmail && user.emailVerified
    ensures !AlreadyApplied(s, record) ==> Applied(s, record, now) != s.users
  {
    AppliedRow(s, record, now);
  }

  /** What one attempt does to a state that is underway. */
  lemma AttemptFromUnderway(c: Config, s: State, t: State, token: string, e: Env, now: Instant)
    requires Inv(s) && Inv(t) && Confirmable(c, s, token, now) && Underway(s, t, RecordOf(c, s, token))
    ensures var record := RecordOf(c, s, token);
            var (t', outcome) := ConfirmEmailChange(c, t, token, e);
            && (Underway(s, t', record) || Complete(s, t', record))
            && (outcome == Done ==> Complete(s, t', record))
            && (e.fault == NoFault && e.now < record.expiresAt ==> outcome == Done)
  {
    hide Inv, ConfirmEmailChange, ApplyEmailChange;
    var record := RecordOf(c, s, token);
    ConfirmableRecord(c, s, token, now);
    StoredChange(s, c.hashToken(Strip(token)));
    ConfirmWritesOnlyWhenConfirmable(c, t, token, e);
    StillConfirmable(c, s, t, token, e.now, now);
    if Confirmable(c, t, token, e.now) && !HitsRead(e.fault) {
      ApplyFromUnderway(s, t, record, e);
    }
    if e.fault == NoFault && e.now < record.expiresAt {
      ConfirmSucceedsExactlyWhen(c, t, token, e);
    }
  }

  /** A state underway allows the confirmation until the token expires. */
  lemma StillConfirmable(c: Config, s: State, t: State, token: string, at: Instant, now: Instant)
    requires Inv(s) && Inv(t) && Confirmable(c, s, token, now) && Underway(s, t, RecordOf(c, s, token))
    ensures Confirmable(c, t, token, at) <==> at < RecordOf(c, s, token).expiresAt
    ensures t.changes.Find(c.hashToken(Strip(token))).Some? && RecordOf(c, t, token) == RecordOf(c, s, token)
    ensures RecordOf(c, s, token).userId in t.users.byId
    ensures var record := RecordOf(c, s, token);
            t.users.GetByEmail(record.data.newEmail).Some? ==>
              t.users.GetByEmail(record.data.newEmail).value.id == record.userId
  {
    var record := RecordOf(c, s, token);
    ConfirmableRecord(c, s, token, now);
    StoredUser(s, record.userId);
    hide Inv;
    if t.users != s.users {
      var at' :| UsersAt(s, t, record, at');
      AppliedRow(s, record, at');
      AppliedOwner(s, record, at');
      StoredUser(t, record.userId);
    }
  }

  /** The address is free for the record's owner. */
  ghost predicate FreeFor(s: State, record: Ticket<ChangeData>) {
    && record.userId in s.users.byId && NormalEmail(record.data.newEmail)
    && (s.users.GetByEmail(record.data.newEmail).Some? ==>
          s.users.GetByEmail(record.data.newEmail).value.id == record.userId)
  }

  /** Whether the writing half gets past its user row, and whether it gets to its end. */
  predicate PastUsers(t: State, record: Ticket<ChangeData>, e: Env)
    requires record.userId in t.users.byId
  {
    var user := t.users.byId[record.userId];
    var applied := user.email == record.data.newEmail && user.emailVerified;
    !e.fault.Hits(RevokeAll) && (applied || !(e.fault.Hits(SaveUser) || e.fault.Hits(SendNotice)))
  }

  /** The parts of `ApplyOutcome` that matter here. */
  lemma ApplyParts(t: State, record: Ticket<ChangeData>, e: Env)
    requires Inv(t) && FreeFor(t, record)
    ensures var (t', outcome) := ApplyEmailChange(t, record, t.users.byId[record.userId], e);
            var user := t.users.byId[record.userId];
            var applied := user.email == record.data.newEmail && user.emailVerified;
            && t'.resets == t.resets && t'.verifications == t.verifications
            && t'.sessions == t.sessions.SpendAll(record.userId, e.fault.Within(RevokeAll))
            && (t'.users == t.users || (!applied && t'.users == Applied(t, record, e.now)))
            && |t'.notices| <= |t.notices| + (if t'.users == t.users then 0 else 1)
            && (PastUsers(t, record, e) ==> applied || t'.users == Applied(t, record, e.now))
            && t'.changes == (if PastUsers(t, record, e) && !e.fault.Hits(MarkConsumed)
                              then t.changes.Spend(record.id).SpendAll(record.userId, e.fault.Within(Invalidate))
                              else t.changes)
            && (outcome == Done ==> PastUsers(t, record, e) && !e.fault.Hits(MarkConsumed))
  {
    ApplyOutcome(t, record, e);
    AppliedOwner(t, record, e.now);
    hide Inv, ApplyEmailChange, UserTable.GetByEmail;
  }

  lemma UsersKeepFollowing(s: State, t: State, record: Ticket<ChangeData>, e: Env)
    requires Inv(s) && Inv(t) && FreeFor(s, record) && FreeFor(t, record) && UsersFollow(s, t, record)
    ensures var t' := ApplyEmailChange(t, record, t.users.byId[record.userId], e).0;
            && UsersFollow(s, t', record)
            && (PastUsers(t, record, e) ==> AlreadyApplied(s, record) || t'.users != s.users)
  {
    hide ApplyEmailChange, PastUsers, UserTable.GetByEmail;
    var t' := ApplyEmailChange(t, record, t.users.byId[record.userId], e).0;
    ApplyParts(t, record, e);
    if t.users != s.users {
      var now :| UsersAt(s, t, record, now);
      AppliedOwner(s, record, now);
      assert UsersAt(s, t', record, now);
    } else {
      AppliedOwner(s, record, e.now);
      assert Applied(t, record, e.now) == Applied(s, record, e.now);
      assert t'.users == s.users || UsersAt(s, t', record, e.now);
    }
  }

  lemma ApplyFromUnderway(s: State, t: State, record: Ticket<ChangeData>, e: Env)
    requires Inv(s) && Inv(t) && FreeFor(s, record) && FreeFor(t, record)
    requires record.id in s.changes.byId && s.changes.byId[record.id] == record && !record.spent
    requires Underway(s, t, record)
    ensures var (t', outcome) := ApplyEmailChange(t, record, t.users.byId[record.userId], e);
            && (Underway(s, t', record) || Complete(s, t', record))
            && (outcome == Done ==> Complete(s, t', record))
  {
    hide ApplyEmailChange, UsersFollow, AlreadyApplied, UserTable.GetByEmail;
    var t' := ApplyEmailChange(t, record, t.users.byId[record.userId], e).0;
    UsersKeepFollowing(s, t, record, e);
    ApplyParts(t, record, e);
    NoSiblings(s, record, e.fault.Within(Invalidate));
    hide Inv;
    var w :| RevokedWithin(s, t, record, w);
    var w' := RevokingMore(s.sessions, record.userId, w, e.fault.Within(RevokeAll));
    assert RevokedWithin(s, t', record, w');
  }

  lemma {:induction false} AttemptsStayOnCourse(c: Config, s: State, token: string, es: seq<Env>, now: Instant)
    requires Inv(s) && Confirmable(c, s, token, now)
    ensures Inv(Attempted(c, s, token, es))
    ensures Underway(s, Attempted(c, s, token, es), RecordOf(c, s, token)) ||
            Complete(s, Attempted(c, s, token, es), RecordOf(c, s, token))
  {
    hide Inv, ConfirmEmailChange, Good, Later, Underway, Complete;
    var record := RecordOf(c, s, token);
    if es == [] {
      NothingYet(s, record);
    } else {
      var t := Attempted(c, s, token, es[..|es| - 1]);
      AttemptsStayOnCourse(c, s, token, es[..|es| - 1], now);
      ConfirmEmailChangeIsGood(c, t, token, es[|es| - 1]);
      GoodInv(t, Attempted(c, s, token, es));
      if Underway(s, t, record) {
        AttemptFromUnderway(c, s, t, token, es[|es| - 1], now);
      } else {
        CompleteStays(c, s, t, token, es[|es| - 1], now);
      }
    }
  }

  lemma CompleteStays(c: Config, s: State, t: State, token: string, e: Env, now: Instant)
    requires Inv(s) && Inv(t) && Confirmable(c, s, token, now) && Complete(s, t, RecordOf(c, s, token))
    ensures ConfirmEmailChange(c, t, token, e).0 == t && ConfirmEmailChange(c, t, token, e).1 != Done
  {
    hide Inv, ConfirmEmailChange;
    ConsumedTokenIsRefused(c, s, t, token, e);
  }

  /** Two complete states agree but for update stamps and notices. */
  lemma CompleteStatesConverge(s: State, a: State, b: State, record: Ticket<ChangeData>)
    requires Inv(s) && record.userId in s.users.byId && NormalEmail(record.data.newEmail)
    requires s.users.GetByEmail(record.data.newEmail).Some? ==>
               s.users.GetByEmail(record.data.newEmail).value.id == record.userId
    requires Complete(s, a, record) && Complete(s, b, record)
    ensures Converged(a, b)
  {
    if !AlreadyApplied(s, record) {
      var x, y :| UsersAt(s, a, record, x) && UsersAt(s, b, record, y);
      AppliedRow(s, record, x);
      AppliedRow(s, record, y);
    }
    hide Inv;
  }

  /**
   * Retry convergence for any number of attempts. Take a confirmation that the stored state
   * allows, let any sequence of attempts with its token stop at any repository calls and at
   * any times, and then one more attempt run undisturbed before the token expires. It ends in
   * the state of a single uninterrupted call: the same rows, sessions revoked, token
   * consumed; and the old address is told at most once over all attempts. The last attempt
   * reports success exactly when none before it had consumed the token, and otherwise finds
   * everything in place.
   */
  lemma AnyRetriesConverge(c: Config, s: State, token: string, es: seq<Env>, last: Env, whole: Env)
    requires Inv(s) && Confirmable(c, s, token, whole.now) && whole.fault == NoFault
    requires last.fault == NoFault && last.now < RecordOf(c, s, token).expiresAt
    ensures
      var record := RecordOf(c, s, token);
      var before := Attempted(c, s, token, es);
      var (after, outcome) := ConfirmEmailChange(c, before, token, last);
      && Converged(after, ConfirmEmailChange(c, s, token, whole).0)
      && after.changes == s.changes.Spend(record.id) && after.sessions == s.sessions.SpendAll(record.userId, None)
      && |after.notices| <= |s.notices| + 1
      && (outcome == Done <==> before.changes == s.changes)
      && (outcome != Done ==> after == before)
  {
    hide Inv, ConfirmEmailChange, Underway;
    var record := RecordOf(c, s, token);
    ConfirmableRecord(c, s, token, whole.now);
    StoredChange(s, c.hashToken(Strip(token)));
    var before := Attempted(c, s, token, es);
    AttemptsStayOnCourse(c, s, token, es, whole.now);
    NothingYet(s, record);
    AttemptFromUnderway(c, s, s, token, whole, whole.now);
    ExpiryAhead(c, s, token, whole.now);
    if Underway(s, before, record) {
      UnderwayKeepsChanges(s, before, record);
      AttemptFromUnderway(c, s, before, token, last, whole.now);
    } else {
      CompleteStays(c, s, before, token, last, whole.now);
      assert s.changes.Spend(record.id).byId[record.id].spent;
    }
    var after := ConfirmEmailChange(c, before, token, last).0;
    CompleteStatesConverge(s, after, ConfirmEmailChange(c, s, token, whole).0, record);
  }

  lemma UnderwayKeepsChanges(s: State, t: State, record: Ticket<ChangeData>)
    requires record.userId in s.users.byId && Underway(s, t, record)
    ensures t.changes == s.changes
  {
  }

  lemma ExpiryAhead(c: Config, s: State, token: string, now: Instant)
    requires Confirmable(c, s, token, now)
    ensures now < RecordOf(c, s, token).expiresAt && !RecordOf(c, s, token).spent
  {
  }
}
