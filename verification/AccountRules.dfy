/** What the account rules accept and refuse: passwords, addresses, newest requests, confirmations. */
module AccountRules {
  import opened Wrappers
  import opened Text
  import opened AccountTables
  import opened AccountOperations
  import opened AccountSafety
  import opened AccountTheorems

  // Passwords and addresses.

  /** Mixed case by the two comparisons is one letter of each case at least. */
  lemma PasswordExactlyWhen(p: string)
    ensures ValidPassword(p) <==>
            && |p| >= 8
            && (exists i :: 0 <= i < |p| && IsUpper(p[i]))
            && (exists i :: 0 <= i < |p| && IsLower(p[i]))
            && (exists i :: 0 <= i < |p| && IsDigit(p[i]))
  {
    if i :| 0 <= i < |p| && IsUpper(p[i]) {
      assert Lower(p)[i] != p[i];
    }
    if i :| 0 <= i < |p| && IsLower(p[i]) {
      assert Upper(p)[i] != p[i];
    }
  }

  /** A part of an address: some text without `@` and blanks. */
  predicate Part(s: string) {
    s != "" && NoSpace(s) && '@' !in s
  }

  predicate Address(s: string, local: string, domain: string, top: string) {
    Part(local) && Part(domain) && Part(top) && s == local + "@" + domain + "." + top
  }

  lemma AddressHasShape(s: string, local: string, domain: string, top: string)
    requires Address(s, local, domain, top)
    ensures EmailShape(s)
  {
    var at, dot := |local|, |local| + 1 + |domain|;
    assert s[at] == '@' && s[dot] == '.';
    assert s == local + ("@" + domain + "." + top);
    assert s == local + "@" + domain + ("." + top);
    assert s == (local + "@" + domain + ".") + top;
    forall i | 0 <= i < |s|
      ensures i == at || (s[i] != '@' && !IsSpace(s[i]))
    {
      if i < at {
        assert s[i] == local[i];
      } else if at < i < dot {
        assert s[i] == domain[i - at - 1];
      } else if dot < i {
        assert s[i] == top[i - dot - 1];
      }
    }
    assert AddressAt(s, at, dot);
  }

  lemma ShapeHasParts(s: string)
    requires EmailShape(s)
    ensures exists local, domain, top :: Address(s, local, domain, top)
  {
    var at, dot :| 0 <= at < |s| && 0 <= dot < |s| && AddressAt(s, at, dot);
    var local, domain, top := s[..at], s[at + 1..dot], s[dot + 1..];
    assert s == local + "@" + domain + "." + top;
    assert Address(s, local, domain, top);
  }

  /**
   * An address is accepted exactly when it is, but for blanks around it, some text, an `@`, some
   * text, a dot and some text; it is kept in small letters.
   */
  lemma EmailExactlyWhen(email: string)
    ensures var bare := Lower(Strip(email));
            NormalizeEmail(email) ==
              if exists local, domain, top :: Address(bare, local, domain, top) then Some(bare) else None
  {
    hide Strip;
    var bare := Lower(Strip(email));
    if EmailShape(bare) {
      ShapeHasParts(bare);
      assert bare != "";
    }
    if local, domain, top :| Address(bare, local, domain, top) {
      AddressHasShape(bare, local, domain, top);
    }
  }

  // The newest request.

  /** Where the texts differ first, the one that ends or has the smaller character is the smaller one. */
  predicate BelowAt(a: Id, b: Id, k: int) {
    0 <= k <= |a| && k <= |b| && a[..k] == b[..k] && (k == |a| || (k < |b| && a[k] < b[k]))
  }

  lemma {:induction false} OrderIsByFirstDifference(a: Id, b: Id)
    ensures IdAtMost(a, b) <==> exists k :: BelowAt(a, b, k)
  {
    if a == "" {
      assert BelowAt(a, b, 0);
    } else if b != "" {
      OrderIsByFirstDifference(a[1..], b[1..]);
      if a[0] < b[0] {
        assert BelowAt(a, b, 0);
      } else if k :| a[0] == b[0] && BelowAt(a[1..], b[1..], k) {
        assert a[..k + 1] == [a[0]] + a[1..][..k] && b[..k + 1] == [b[0]] + b[1..][..k];
        assert BelowAt(a, b, k + 1);
      }
      if k :| BelowAt(a, b, k) {
        assert k > 0 ==> a[..k][0] == b[..k][0];
        assert k > 0 ==> a[1..][..k - 1] == a[..k][1..] && b[1..][..k - 1] == b[..k][1..];
        assert k > 0 ==> BelowAt(a[1..], b[1..], k - 1);
      }
    }
  }

  lemma {:induction false} OrderIsTotal(a: Id, b: Id)
    ensures IdAtMost(a, b) || IdAtMost(b, a)
    ensures IdAtMost(a, b) && IdAtMost(b, a) <==> a == b
  {
    if a != "" && b != "" {
      OrderIsTotal(a[1..], b[1..]);
      assert a == [a[0]] + a[1..] && b == [b[0]] + b[1..];
    }
  }

  lemma {:induction false} OrderIsTransitive(a: Id, b: Id, c: Id)
    requires IdAtMost(a, b) && IdAtMost(b, c)
    ensures IdAtMost(a, c)
  {
    if a != "" && a[0] == b[0] && b[0] == c[0] {
      OrderIsTransitive(a[1..], b[1..], c[1..]);
    }
  }

  /** Made later, or at the same moment under a greater id. */
  predicate Newer(o: Ticket<ChangeData>, r: Ticket<ChangeData>) {
    r.createdAt < o.createdAt || (r.createdAt == o.createdAt && o.id != r.id && IdAtMost(r.id, o.id))
  }

  /** Of two rows the first outranks the second exactly when the second is not newer. */
  lemma OutranksExactlyWhen(changes: TicketTable<ChangeData>, id: Id, other: Id)
    requires id in changes.byId && other in changes.byId
    ensures Outranks(changes, id, other) <==> !Newer(changes.byId[other], changes.byId[id])
  {
    OrderIsTotal(changes.byId[id].id, changes.byId[other].id);
  }

  lemma OutranksTransitive(changes: TicketTable<ChangeData>, a: Id, b: Id, c: Id)
    requires a in changes.byId && b in changes.byId && c in changes.byId
    requires Outranks(changes, a, b) && Outranks(changes, b, c)
    ensures Outranks(changes, a, c)
  {
    if changes.byId[a].createdAt == changes.byId[b].createdAt == changes.byId[c].createdAt {
      OrderIsTransitive(changes.byId[c].id, changes.byId[b].id, changes.byId[a].id);
    }
  }

  lemma GreatestOf(changes: TicketTable<ChangeData>, ids: set<Id>) returns (id: Id)
    requires ids != {} && ids <= changes.byId.Keys
    ensures id in ids && forall other :: other in ids ==> Outranks(changes, id, other)
    decreases |ids|
  {
    hide Outranks;
    var x :| x in ids;
    OutranksExactlyWhen(changes, x, x);
    if ids == {x} {
      return x;
    }
    var rest := ids - {x};
    assert rest != {} by {
      assert exists y :: y in ids && y != x;
    }
    var y := GreatestOf(changes, rest);
    OutranksExactlyWhen(changes, x, y);
    OutranksExactlyWhen(changes, y, x);
    OrderIsTotal(changes.byId[x].id, changes.byId[y].id);
    id := if Outranks(changes, x, y) then x else y;
    forall other | other in ids
      ensures Outranks(changes, id, other)
    {
      if id == x && other != x {
        OutranksTransitive(changes, x, y, other);
      }
    }
  }

  /** Some open request of the user is newer. */
  ghost predicate NewerOpen(changes: TicketTable<ChangeData>, record: Ticket<ChangeData>) {
    exists id :: OpenFor(changes, record.userId, id) && Newer(changes.byId[id], record)
  }

  /** An open request is superseded exactly when the same user has a newer open one, in any table. */
  lemma SupersededExactlyWhen(changes: TicketTable<ChangeData>, record: Ticket<ChangeData>)
    requires changes.Valid() && OpenFor(changes, record.userId, record.id) && changes.byId[record.id] == record
    ensures Superseded(changes, record) <==> NewerOpen(changes, record)
  {
    hide Outranks, Newer;
    if id :| id in changes.byId && Latest(changes, record.userId, id) && changes.byId[id].id != record.id {
      assert Outranks(changes, id, record.id);
      OutranksExactlyWhen(changes, id, record.id);
      OutranksExactlyWhen(changes, record.id, id);
      OrderIsTotal(changes.byId[id].id, record.id);
      NewestWins(changes, record, id);
    }
    if newer :| OpenFor(changes, record.userId, newer) && Newer(changes.byId[newer], record) {
      var open := set id | id in changes.byId && OpenFor(changes, record.userId, id);
      assert newer in open;
      var id := GreatestOf(changes, open);
      assert Latest(changes, record.userId, id);
      OutranksExactlyWhen(changes, record.id, newer);
      assert Outranks(changes, id, newer);
      assert changes.Row(id);
    }
  }

  lemma NewestWins(changes: TicketTable<ChangeData>, record: Ticket<ChangeData>, id: Id)
    requires OpenFor(changes, record.userId, id) && changes.byId[id].id != record.id
    requires record.id in changes.byId && changes.byId[record.id] == record && Outranks(changes, id, record.id)
    ensures NewerOpen(changes, record)
  {
    assert Newer(changes.byId[id], record);
  }

  // Why a confirmation is refused.

  /** A reset is refused for its password first, then for its token, and raises only with storage. */
  lemma ResetRefusals(c: Config, s: State, token: string, newPassword: string, e: Env)
    requires Inv(s)
    ensures
      var outcome := ConfirmPasswordReset(c, s, token, newPassword, e).1;
      var allowed := Resettable(c, s, token, newPassword, e.now);
      && (outcome == Rejected(Disabled) <==> !c.enabled)
      && (outcome == Rejected(InvalidInput) <==> c.enabled && !ValidPassword(newPassword))
      && (outcome == Rejected(InvalidToken) ==> !allowed)
      && (c.enabled && ValidPassword(newPassword) && !allowed ==> outcome == Rejected(InvalidToken) || e.fault.Raises?)
      && (outcome == Raised ==> e.fault.Raises?)
  {
    hide Inv, ValidPassword, UserTable.Save, UserTable.Taken, UserTable.GetByEmail;
    if Resettable(c, s, token, newPassword, e.now) {
      var u := s.resets.Find(c.hashToken(Strip(token))).value.userId;
      var updated := s.users.byId[u].(passwordHash := e.passwordHash, updatedAt := e.now);
      StoredUser(s, u);
      FreeAddress(s, updated);
      UserSaved(s, updated);
    }
  }

  /**
   * A change that the stored state does not allow is refused for its token. One that it allows
   * is reported as not completed exactly when the revocation or the consuming of the token
   * fails, and raises only where another repository call or the notice does.
   */
  lemma ChangeConfirmRefusals(c: Config, s: State, token: string, e: Env)
    requires Inv(s)
    ensures
      var outcome := ConfirmEmailChange(c, s, token, e).1;
      var f := e.fault;
      var allowed := Confirmable(c, s, token, e.now);
      && (outcome == Rejected(Disabled) <==> !c.enabled)
      && (outcome == Rejected(InvalidToken) ==> !allowed)
      && (c.enabled && !allowed ==> outcome == Rejected(InvalidToken) || HitsRead(f))
      && (outcome == Raised ==> HitsRead(f) || f.Hits(SaveUser) || f.Hits(SendNotice))
      && (outcome == Rejected(CompletionError) <==>
            allowed && (f.Hits(RevokeAll) || f.Hits(MarkConsumed) || f.Hits(Invalidate)))
  {
    hide Inv, ConfirmEmailChange, ApplyEmailChange, HitsRead;
    ConfirmWritesOnlyWhenConfirmable(c, s, token, e);
    if Confirmable(c, s, token, e.now) {
      ConfirmableRecord(c, s, token, e.now);
      ApplyRefusals(s, RecordOf(c, s, token), e);
      RaisedOnce(e.fault);
    }
    ReadRefusals(c, s, token, e);
  }

  /** One repository call raises at most. */
  lemma RaisedOnce(f: Fault)
    ensures HitsRead(f) ==> !f.Hits(RevokeAll) && !f.Hits(MarkConsumed) && !f.Hits(Invalidate)
  {
  }

  /** The reading half of the confirmation. */
  lemma ReadRefusals(c: Config, s: State, token: string, e: Env)
    requires Inv(s)
    ensures
      var outcome := ConfirmEmailChange(c, s, token, e).1;
      var writes := Confirmable(c, s, token, e.now) && !HitsRead(e.fault);
      && (!c.enabled ==> outcome == Rejected(Disabled))
      && (c.enabled && !writes ==> outcome == Rejected(InvalidToken) || outcome == Raised)
      && (!writes && outcome == Raised ==> HitsRead(e.fault))
      && (!writes && outcome == Rejected(InvalidToken) ==> !Confirmable(c, s, token, e.now))
  {
    hide Inv, Superseded, ApplyEmailChange, UserTable.GetByEmail, Strip;
    var hash := c.hashToken(Strip(token));
    if s.changes.Find(hash).Some? {
      StoredChange(s, hash);
      var record := s.changes.Find(hash).value;
      if !record.spent {
        OpenIsNewest(s, record);
      }
      if record.userId in s.users.byId {
        StoredUser(s, record.userId);
      }
    }
  }

  lemma ApplyRefusals(s: State, record: Ticket<ChangeData>, e: Env)
    requires Inv(s) && record.userId in s.users.byId && NormalEmail(record.data.newEmail)
    requires s.users.GetByEmail(record.data.newEmail).Some? ==>
               s.users.GetByEmail(record.data.newEmail).value.id == record.userId
    ensures
      var f := e.fault;
      var outcome := ApplyEmailChange(s, record, s.users.byId[record.userId], e).1;
      && (outcome == Rejected(CompletionError) <==> f.Hits(RevokeAll) || f.Hits(MarkConsumed) || f.Hits(Invalidate))
      && (outcome == Raised ==> f.Hits(SaveUser) || f.Hits(SendNotice))
      && (outcome == Done || outcome == Raised || outcome == Rejected(CompletionError))
  {
    hide TicketTable<SessionData>.SpendAll, TicketTable<ChangeData>.SpendAll, TicketTable<ChangeData>.Spend;
    var user := s.users.byId[record.userId];
    var updated := user.(email := record.data.newEmail, emailVerified := true, updatedAt := e.now);
    StoredUser(s, record.userId);
    FreeAddress(s, updated);
    hide Inv;
  }
}
