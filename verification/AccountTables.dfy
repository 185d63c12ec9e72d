/** What the account repositories hold, as values: the tables behind app/user/memory.py. */
module AccountTables {
  import opened Wrappers
  import opened Text

  type Id = string

  /** One instant of the service clock, in seconds. */
  type Instant = int

  datatype User = User(
    id: Id,
    email: string,
    passwordHash: string,
    displayName: string,
    isActive: bool,
    emailVerified: bool,
    createdAt: Instant,
    updatedAt: Instant)

  /**
   * A row that a bearer token opens: a session or a one-time token. `spent` is the
   * session's `revoked` flag and the one-time token's `consumed` flag.
   */
  datatype Ticket<+P> = Ticket(
    id: Id,
    userId: Id,
    tokenHash: string,
    createdAt: Instant,
    expiresAt: Instant,
    spent: bool,
    data: P)

  datatype SessionData = SessionData(rememberMe: bool, lastSeenAt: Instant)

  datatype NoData = NoData

  datatype ChangeData = ChangeData(newEmail: string, purpose: string)

  const EMAIL_CHANGE_PURPOSE := "email_change"

  type Session = Ticket<SessionData>

  /** The form in which an address is stored: stripped and lower-case. */
  predicate NormalEmail(email: string) {
    Lower(Strip(email)) == email
  }

  /** One `@` at `at`, a dot at `dot` behind it, text around both, and no blank. */
  predicate AddressAt(s: string, at: int, dot: int) {
    && 0 < at && at + 1 < dot < |s| - 1
    && s[at] == '@' && s[dot] == '.'
    && forall i | 0 <= i < |s| :: i == at || (s[i] != '@' && !IsSpace(s[i]))
  }

  /** The pattern `^[^@\s]+@[^@\s]+\.[^@\s]+$`. */
  predicate EmailShape(s: string) {
    exists at, dot {:trigger AddressAt(s, at, dot)} | 0 <= at < |s| && 0 <= dot < |s| :: AddressAt(s, at, dot)
  }

  function NormalizeEmail(email: string): (r: Option<string>)
    ensures r.Some? ==> NormalEmail(r.value)
  {
    var cleaned := Lower(Strip(email));
    StripTrims(email);
    LowerKeepsTrimmed(Strip(email));
    StripTrims(cleaned);
    LowerTwice(Strip(email));
    if cleaned == "" || !EmailShape(cleaned) then None else Some(cleaned)
  }

  datatype UserTable = UserTable(byId: map<Id, User>, byEmail: map<string, Id>) {

    function Get(id: Id): Option<User> {
      if id in byId then Some(byId[id]) else None
    }

    function GetByEmail(email: string): Option<User> {
      var key := Lower(Strip(email));
      if key in byEmail && byEmail[key] != "" && byEmail[key] in byId then Some(byId[byEmail[key]]) else None
    }

    /** Another row already owns the address of `u`. */
    predicate Taken(u: User) {
      var key := Lower(Strip(u.email));
      key in byEmail && byEmail[key] != "" && byEmail[key] != u.id
    }

    /** `save`: None is the raised uniqueness error. */
    function Save(u: User): Option<UserTable> {
      var key := Lower(Strip(u.email));
      if Taken(u) then None
      else
        var kept := map e | e in byEmail && (byEmail[e] != u.id || e == key) :: byEmail[e];
        Some(UserTable(byId[u.id := u], kept[key := u.id]))
    }

    /** A row sits under its own id, and its address is normal and indexed. */
    ghost predicate Row(id: Id) {
      id in byId ==>
        && id != ""
        && byId[id].id == id
        && NormalEmail(byId[id].email)
        && byId[id].email in byEmail
        && byEmail[byId[id].email] == id
    }

    /** An indexed address belongs to the row it names. */
    ghost predicate Key(e: string) {
      e in byEmail ==> byEmail[e] in byId && byId[byEmail[e]].email == e
    }

    ghost predicate Valid() {
      (forall id :: Row(id)) && (forall e :: Key(e))
    }
  }

  /** In a valid table an address identifies its owner. */
  lemma EmailsAreUnique(t: UserTable, u: Id, v: Id)
    requires t.Valid() && u in t.byId && v in t.byId
    requires t.byId[u].email == t.byId[v].email
    ensures u == v
  {
    assert t.Row(u) && t.Row(v);
  }

  /** Looking an address up forgets letter case and the blanks around it. */
  lemma LookupForgets(t: UserTable, email: string)
    ensures t.GetByEmail(email) == t.GetByEmail(Lower(Strip(email)))
  {
    StripTrims(email);
    LowerKeepsTrimmed(Strip(email));
    StripTrims(Lower(Strip(email)));
    LowerTwice(Strip(email));
  }

  lemma SaveKeepsUsersValid(t: UserTable, u: User)
    requires t.Valid() && u.id != "" && NormalEmail(u.email) && !t.Taken(u)
    ensures t.Save(u).Some? && t.Save(u).value.Valid()
    ensures t.Save(u).value.byId == t.byId[u.id := u]
  {
    var t' := t.Save(u).value;
    assert t.Key(u.email);
    forall id
      ensures t'.Row(id)
    {
      assert t.Row(id);
    }
    forall e
      ensures t'.Key(e)
    {
      assert t.Key(e) && t.Row(u.id);
    }
  }

  datatype TicketTable<+P> = TicketTable(byId: map<Id, Ticket<P>>, byToken: map<string, Id>) {

    function Find(hash: string): Option<Ticket<P>> {
      if hash in byToken && byToken[hash] != "" && byToken[hash] in byId then Some(byId[byToken[hash]]) else None
    }

    /** A row sits under its own id and its token is indexed. */
    ghost predicate Row(id: Id) {
      id in byId ==>
        && id != ""
        && byId[id].id == id
        && byId[id].tokenHash in byToken
        && byToken[byId[id].tokenHash] == id
    }

    /** An indexed token belongs to the row it names. */
    ghost predicate Key(h: string) {
      h in byToken ==> byToken[h] in byId && byId[byToken[h]].tokenHash == h
    }

    ghost predicate Valid() {
      (forall id :: Row(id)) && (forall h :: Key(h))
    }

    /** The one-time token repositories' `save`. */
    function Insert(t: Ticket<P>): TicketTable<P> {
      TicketTable(byId[t.id := t], byToken[t.tokenHash := t.id])
    }

    /** The session repository's `save`: the row's previous token entry is dropped first. */
    function Replace(t: Ticket<P>): TicketTable<P> {
      var kept :=
        if t.id in byId && byId[t.id].tokenHash in byToken && byToken[byId[t.id].tokenHash] == t.id
        then byToken - {byId[t.id].tokenHash} else byToken;
      TicketTable(byId[t.id := t], kept[t.tokenHash := t.id])
    }

    /** `mark_consumed` and `revoke`: an absent id is ignored. */
    function Spend(id: Id): TicketTable<P> {
      if id in byId then TicketTable(byId[id := byId[id].(spent := true)], byToken) else this
    }

    /** Every row of the user that `within` admits is spent; `None` admits all. */
    function SpendAll(userId: Id, within: Option<set<Id>>): TicketTable<P> {
      TicketTable(
        map id | id in byId ::
          if byId[id].userId == userId && (within.None? || id in within.value)
          then byId[id].(spent := true) else byId[id],
        byToken)
    }

    /** The id and token of a new row are not in use. */
    predicate Fresh(id: Id, hash: string) {
      id != "" && id !in byId && hash !in byToken
    }
  }

  /** A row stays, keeps owner, token and terms, and stays spent once it is. */
  ghost predicate RowAges<P>(t: TicketTable<P>, t': TicketTable<P>, id: Id) {
    id in t.byId ==>
      && id in t'.byId
      && t'.byId[id].userId == t.byId[id].userId
      && t'.byId[id].tokenHash == t.byId[id].tokenHash
      && t'.byId[id].createdAt == t.byId[id].createdAt
      && t'.byId[id].expiresAt == t.byId[id].expiresAt
      && (t.byId[id].spent ==> t'.byId[id].spent)
  }

  /** A token keeps naming its row. */
  ghost predicate KeyAges<P>(t: TicketTable<P>, t': TicketTable<P>, h: string) {
    h in t.byToken ==> h in t'.byToken && t'.byToken[h] == t.byToken[h]
  }

  /** What time may do to a ticket table. */
  ghost predicate Ages<P>(t: TicketTable<P>, t': TicketTable<P>) {
    (forall id :: RowAges(t, t', id)) && (forall h :: KeyAges(t, t', h))
  }

  lemma AgesTrans<P>(t: TicketTable<P>, t': TicketTable<P>, t'': TicketTable<P>)
    requires Ages(t, t') && Ages(t', t'')
    ensures Ages(t, t'')
  {
    forall id
      ensures RowAges(t, t'', id)
    {
      assert RowAges(t, t', id) && RowAges(t', t'', id);
    }
    forall h
      ensures KeyAges(t, t'', h)
    {
      assert KeyAges(t, t', h) && KeyAges(t', t'', h);
    }
  }

  lemma FindInValid<P>(t: TicketTable<P>, hash: string)
    requires t.Valid()
    ensures t.Find(hash).Some? <==> hash in t.byToken
    ensures t.Find(hash).Some? ==>
              var r := t.Find(hash).value;
              r.id != "" && r.id in t.byId && t.byId[r.id] == r && r.tokenHash == hash && t.byToken[hash] == r.id
  {
    assert t.Key(hash);
    if hash in t.byToken {
      assert t.Row(t.byToken[hash]);
    }
  }

  lemma InsertFresh<P>(t: TicketTable<P>, r: Ticket<P>)
    requires t.Valid() && t.Fresh(r.id, r.tokenHash)
    ensures t.Insert(r).Valid() && Ages(t, t.Insert(r)) && t.Replace(r) == t.Insert(r)
  {
    forall id
      ensures t.Insert(r).Row(id) && RowAges(t, t.Insert(r), id)
    {
      assert t.Row(id);
    }
    forall h
      ensures t.Insert(r).Key(h) && KeyAges(t, t.Insert(r), h)
    {
      assert t.Key(h);
    }
  }

  /** Rewriting rows in place, under their own tokens, keeps a table valid. */
  lemma RewriteKeepsValid<P>(t: TicketTable<P>, t': TicketTable<P>)
    requires t.Valid() && t'.byToken == t.byToken && t'.byId.Keys == t.byId.Keys
    requires forall id :: id in t.byId ==>
      t'.byId[id].id == t.byId[id].id && t'.byId[id].tokenHash == t.byId[id].tokenHash
    ensures t'.Valid()
  {
    forall id
      ensures t'.Row(id)
    {
      assert t.Row(id);
    }
    forall h
      ensures t'.Key(h)
    {
      assert t.Key(h);
    }
  }

  /** Saving a known session again under its own token changes that row only. */
  lemma ReplaceKnown<P>(t: TicketTable<P>, r: Ticket<P>)
    requires t.Valid() && r.id in t.byId && t.byId[r.id].tokenHash == r.tokenHash
    ensures t.Replace(r) == TicketTable(t.byId[r.id := r], t.byToken)
    ensures t.Replace(r).Valid()
  {
    assert t.Row(r.id);
    assert t.Replace(r).byToken == t.byToken;
    RewriteKeepsValid(t, t.Replace(r));
  }

  lemma SpendAges<P>(t: TicketTable<P>, id: Id)
    requires t.Valid()
    ensures t.Spend(id).Valid() && Ages(t, t.Spend(id))
  {
    RewriteKeepsValid(t, t.Spend(id));
  }

  lemma SpendAllAges<P>(t: TicketTable<P>, userId: Id, within: Option<set<Id>>)
    requires t.Valid()
    ensures t.SpendAll(userId, within).Valid() && Ages(t, t.SpendAll(userId, within))
  {
    RewriteKeepsValid(t, t.SpendAll(userId, within));
  }
}
