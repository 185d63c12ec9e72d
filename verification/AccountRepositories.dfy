/** The in-memory repositories, whose maps the calls reassign, proved against the tables. */
module AccountRepositories {
  import opened Wrappers
  import opened Text
  import opened AccountTables

  class UserRepository {
    var byId: map<Id, User>
    var byEmail: map<string, Id>

    function Table(): UserTable
      reads this
    {
      UserTable(byId, byEmail)
    }

    constructor ()
      ensures Table() == UserTable(map[], map[])
    {
      byId, byEmail := map[], map[];
    }

    /** False is the raised uniqueness error. */
    method Save(u: User) returns (ok: bool)
      modifies this
      ensures ok <==> old(Table()).Save(u).Some?
      ensures Table() == if ok then old(Table()).Save(u).value else old(Table())
    {
      var email := Lower(Strip(u.email));
      if email in byEmail && byEmail[email] != "" && byEmail[email] != u.id {
        return false;
      }
      var keys := byEmail.Keys;
      ghost var before := byEmail;
      while keys != {}
        invariant keys <= before.Keys
        invariant byEmail.Keys <= before.Keys
        invariant byId == old(byId)
        invariant forall k :: k in byEmail ==> byEmail[k] == before[k]
        invariant forall k :: k in before ==>
          (k in byEmail <==> (k in keys || before[k] != u.id || k == email))
        decreases keys
      {
        var key :| key in keys;
        keys := keys - {key};
        if byEmail[key] == u.id && key != email {
          byEmail := byEmail - {key};
        }
      }
      assert byEmail == map e | e in before && (before[e] != u.id || e == email) :: before[e];
      byId := byId[u.id := u];
      byEmail := byEmail[email := u.id];
      ok := true;
    }
  }

  class SessionRepository {
    var byId: map<Id, Session>
    var byToken: map<string, Id>

    function Table(): TicketTable<SessionData>
      reads this
    {
      TicketTable(byId, byToken)
    }

    constructor ()
      ensures Table() == TicketTable(map[], map[])
    {
      byId, byToken := map[], map[];
    }

    method Save(session: Session)
      modifies this
      ensures Table() == old(Table()).Replace(session)
    {
      if session.id in byId {
        var previous := byId[session.id];
        if previous.tokenHash in byToken && byToken[previous.tokenHash] == session.id {
          byToken := byToken - {previous.tokenHash};
        }
      }
      byId := byId[session.id := session];
      byToken := byToken[session.tokenHash := session.id];
    }

    method Revoke(id: Id)
      requires Table().Valid()
      modifies this
      ensures Table() == old(Table()).Spend(id) && Table().Valid()
    {
      if id in byId {
        assert Table().Row(id);
        ReplaceKnown(Table(), byId[id].(spent := true));
        Save(byId[id].(spent := true));
      }
    }

    /** With `within`, the storage raises once the live rows named there are written. */
    method RevokeAllForUser(userId: Id, within: Option<set<Id>>) returns (ok: bool)
      requires Table().Valid()
      modifies this
      ensures Table() == old(Table()).SpendAll(userId, within) && Table().Valid()
      ensures ok <==> within.None?
    {
      var todo := set id | id in byId && byId[id].userId == userId && !byId[id].spent
                           && (within.None? || id in within.value);
      ghost var before := Table();
      while todo != {}
        invariant Table().Valid() && byToken == before.byToken && byId.Keys == before.byId.Keys
        invariant todo <= byId.Keys
        invariant forall id :: id in todo ==> byId[id].userId == userId && (within.None? || id in within.value)
        invariant forall id :: id in before.byId ==>
          byId[id] == if id in todo then before.byId[id] else before.SpendAll(userId, within).byId[id]
        decreases todo
      {
        var id :| id in todo;
        todo := todo - {id};
        Revoke(id);
      }
      assert byId == before.SpendAll(userId, within).byId;
      ok := within.None?;
    }
  }

  /** The three one-time token repositories: resets, verifications and email changes. */
  class OneTimeRepository<P> {
    var byId: map<Id, Ticket<P>>
    var byToken: map<string, Id>

    function Table(): TicketTable<P>
      reads this
    {
      TicketTable(byId, byToken)
    }

    constructor ()
      ensures Table() == TicketTable(map[], map[])
    {
      byId, byToken := map[], map[];
    }

    method Save(record: Ticket<P>)
      modifies this
      ensures Table() == old(Table()).Insert(record)
    {
      byId := byId[record.id := record];
      byToken := byToken[record.tokenHash := record.id];
    }

    method MarkConsumed(id: Id)
      modifies this
      ensures Table() == old(Table()).Spend(id)
    {
      if id in byId {
        byId := byId[id := byId[id].(spent := true)];
      }
    }

    method InvalidateForUser(userId: Id, within: Option<set<Id>>) returns (ok: bool)
      modifies this
      ensures Table() == old(Table()).SpendAll(userId, within)
      ensures ok <==> within.None?
    {
      var todo := set id | id in byId && byId[id].userId == userId && !byId[id].spent
                           && (within.None? || id in within.value);
      ghost var before := Table();
      while todo != {}
        invariant byToken == before.byToken && byId.Keys == before.byId.Keys
        invariant todo <= byId.Keys
        invariant forall id :: id in todo ==> byId[id].userId == userId && (within.None? || id in within.value)
        invariant forall id :: id in before.byId ==>
          byId[id] == if id in todo then before.byId[id] else before.SpendAll(userId, within).byId[id]
        decreases todo
      {
        var id :| id in todo;
        todo := todo - {id};
        MarkConsumed(id);
      }
      assert byId == before.SpendAll(userId, within).byId;
      ok := within.None?;
    }
  }
}
