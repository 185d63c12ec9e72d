/**
 * What every call of the account service does to the stored state, as functions.
 *
 * A call is a sequence of repository calls that commit one by one. `Fault` names the
 * repository call that raises, so the states reached under the different faults are
 * exactly the states that a run of the call passes through.
 */
module AccountOperations {
  import opened Wrappers
  import opened Text
  import opened AccountTables

  /** The repository calls of one service call, and the sending of the old-address notice. */
  datatype Site =
    | FindSession | SaveSession | RevokeSession | RevokeAll
    | FindUser | FindByEmail | SaveUser | Bootstrap
    | FindTicket | ListChanges | SaveTicket | MarkConsumed | Invalidate
    | SendNotice

  /** `Raises`: that call raises; a bulk write has by then written the rows in `written`. */
  datatype Fault = NoFault | Raises(site: Site, written: set<Id>) {
    predicate Hits(at: Site) { Raises? && site == at }

    /** What a bulk write at `at` gets through before it raises; None when it completes. */
    function Within(at: Site): Option<set<Id>> { if Hits(at) then Some(written) else None }
  }

  datatype Reason =
    | Disabled | InvalidInput | RateLimited | Conflict
    | InvalidSession | SessionExpired | InvalidCredentials | InvalidToken | NotFound
    | CompletionError

  datatype Outcome =
    | Done
    | SignedIn(session: Session)
    | Rejected(reason: Reason)
    | Raised

  /** The injected collaborators: digests are unknown functions. */
  datatype Config = Config(
    enabled: bool,
    hashToken: string -> string,
    verifyPassword: (string, string) -> bool,
    sessionTtl: int,
    rememberTtl: int)

  /** What one call takes from outside: the clock, fresh identifiers and tokens, and faults. */
  datatype Env = Env(
    now: Instant,
    userId: Id,
    ticketId: Id,
    ticketToken: string,
    sessionId: Id,
    sessionToken: string,
    passwordHash: string,
    admitted: bool,
    delivered: bool,
    fault: Fault)

  datatype State = State(
    users: UserTable,
    sessions: TicketTable<SessionData>,
    resets: TicketTable<NoData>,
    verifications: TicketTable<NoData>,
    changes: TicketTable<ChangeData>,
    notices: seq<string>)

  const PASSWORD_RESET_TTL := 3600
  const EMAIL_VERIFICATION_TTL := 86400
  const EMAIL_CHANGE_TTL := 86400
  const MIN_PASSWORD_LENGTH := 8

  predicate ValidPassword(p: string) {
    |p| >= MIN_PASSWORD_LENGTH && Lower(p) != p && Upper(p) != p && exists i | 0 <= i < |p| :: IsDigit(p[i])
  }

  /** `_issue_session`. */
  function IssueSession(c: Config, s: State, userId: Id, rememberMe: bool, e: Env): (State, Outcome) {
    var ttl := if rememberMe then c.rememberTtl else c.sessionTtl;
    var session := Ticket(e.sessionId, userId, c.hashToken(e.sessionToken), e.now, e.now + ttl, false,
                          SessionData(rememberMe, e.now));
    if e.fault.Hits(SaveSession) then (s, Raised)
    else (s.(sessions := s.sessions.Replace(session)), SignedIn(session))
  }

  /** The record that `_create_password_reset` and `_issue_email_verification` save. */
  function NewTicket(c: Config, userId: Id, ttl: int, e: Env): Ticket<NoData> {
    Ticket(e.ticketId, userId, c.hashToken(e.ticketToken), e.now, e.now + ttl, false, NoData)
  }

  function Register(
    c: Config, s: State, email: string, password: string, displayName: string, rememberMe: bool, consents: bool, e: Env)
    : (State, Outcome)
  {
    var cleaned := NormalizeEmail(email);
    if !c.enabled then (s, Rejected(Disabled))
    else if cleaned.None? || !ValidPassword(password) || Strip(displayName) == "" || !consents then
      (s, Rejected(InvalidInput))
    else if !e.admitted then (s, Rejected(RateLimited))
    else if e.fault.Hits(FindByEmail) then (s, Raised)
    else if s.users.GetByEmail(cleaned.value).Some? then (s, Rejected(Conflict))
    else if e.fault.Hits(SaveUser) then (s, Raised)
    else
      var user := User(e.userId, cleaned.value, e.passwordHash, Strip(displayName), true, false, e.now, e.now);
      match s.users.Save(user)
      case None => (s, Rejected(Conflict))
      case Some(users) =>
        var s1 := s.(users := users);
        if e.fault.Hits(Bootstrap) || e.fault.Hits(SaveTicket) then (s1, Raised)
        else
          var ticket := NewTicket(c, e.userId, EMAIL_VERIFICATION_TTL, e);
          IssueSession(c, s1.(verifications := s1.verifications.Insert(ticket)), e.userId, rememberMe, e)
  }

  function Login(c: Config, s: State, email: string, password: string, rememberMe: bool, e: Env): (State, Outcome) {
    var cleaned := NormalizeEmail(email);
    if !c.enabled then (s, Rejected(Disabled))
    else if cleaned.None? then (s, Rejected(InvalidInput))
    else if !e.admitted then (s, Rejected(RateLimited))
    else if e.fault.Hits(FindByEmail) then (s, Raised)
    else match s.users.GetByEmail(cleaned.value)
      case None => (s, Rejected(InvalidCredentials))
      case Some(user) =>
        if !user.isActive || !c.verifyPassword(password, user.passwordHash) then (s, Rejected(InvalidCredentials))
        else IssueSession(c, s, user.id, rememberMe, e)
  }

  function ValidateSession(c: Config, s: State, token: string, e: Env): (State, Outcome) {
    if !c.enabled then (s, Rejected(Disabled))
    else if Strip(token) == "" then (s, Rejected(InvalidSession))
    else if e.fault.Hits(FindSession) then (s, Raised)
    else match s.sessions.Find(c.hashToken(Strip(token)))
      case None => (s, Rejected(InvalidSession))
      case Some(session) =>
        if session.spent then (s, Rejected(InvalidSession))
        else if session.expiresAt <= e.now then
          if e.fault.Hits(RevokeSession) then (s, Raised)
          else (s.(sessions := s.sessions.Spend(session.id)), Rejected(SessionExpired))
        else if e.fault.Hits(SaveSession) then (s, Raised)
        else
          var refreshed := session.(data := session.data.(lastSeenAt := e.now), spent := false);
          (s.(sessions := s.sessions.Replace(refreshed)), SignedIn(refreshed))
  }

  function Logout(c: Config, s: State, token: string, e: Env): (State, Outcome) {
    if !c.enabled then (s, Rejected(Disabled))
    else if token == "" then (s, Done)
    else
      var (s1, outcome) := ValidateSession(c, s, token, e);
      match outcome
      case Raised => (s1, Raised)
      case SignedIn(session) =>
        if e.fault.Hits(RevokeSession) then (s1, Raised)
        else (s1.(sessions := s1.sessions.Spend(session.id)), Done)
      case _ => (s1, Done)
  }

  function RequestPasswordReset(c: Config, s: State, email: string, e: Env): (State, Outcome) {
    var cleaned := NormalizeEmail(email);
    if !c.enabled then (s, Rejected(Disabled))
    else if cleaned.None? then (s, Rejected(InvalidInput))
    else if !e.admitted then (s, Rejected(RateLimited))
    else if e.fault.Hits(FindByEmail) then (s, Raised)
    else match s.users.GetByEmail(cleaned.value)
      case None => (s, Done)
      case Some(user) =>
        if e.fault.Hits(SaveTicket) then (s, Raised)
        else (s.(resets := s.resets.Insert(NewTicket(c, user.id, PASSWORD_RESET_TTL, e))), Done)
  }

  function ConfirmPasswordReset(c: Config, s: State, token: string, newPassword: string, e: Env): (State, Outcome) {
    var f := e.fault;
    if !c.enabled then (s, Rejected(Disabled))
    else if !ValidPassword(newPassword) then (s, Rejected(InvalidInput))
    else if Strip(token) == "" then (s, Rejected(InvalidToken))
    else if f.Hits(FindTicket) then (s, Raised)
    else match s.resets.Find(c.hashToken(Strip(token)))
      case None => (s, Rejected(InvalidToken))
      case Some(record) =>
        if record.spent || record.expiresAt <= e.now then (s, Rejected(InvalidToken))
        else if f.Hits(FindUser) then (s, Raised)
        else if s.users.Get(record.userId).None? || !s.users.Get(record.userId).value.isActive then
          (s, Rejected(InvalidToken))
        else if f.Hits(SaveUser) then (s, Raised)
        else
          var user := s.users.Get(record.userId).value;
          match s.users.Save(user.(passwordHash := e.passwordHash, updatedAt := e.now))
          case None => (s, Rejected(Conflict))
          case Some(users) =>
            var s1 := s.(users := users);
            if f.Hits(MarkConsumed) then (s1, Raised)
            else
              var s2 := s1.(resets := s1.resets.Spend(record.id));
              (s2.(sessions := s2.sessions.SpendAll(user.id, f.Within(RevokeAll))),
               if f.Hits(RevokeAll) then Raised else Done)
  }

  function RequestEmailVerification(c: Config, s: State, userId: Id, e: Env): (State, Outcome) {
    if !c.enabled then (s, Rejected(Disabled))
    else if e.fault.Hits(FindUser) then (s, Raised)
    else if s.users.Get(userId).None? then (s, Rejected(NotFound))
    else if e.fault.Hits(SaveTicket) then (s, Raised)
    else
      var user := s.users.Get(userId).value;
      (s.(verifications := s.verifications.Insert(NewTicket(c, user.id, EMAIL_VERIFICATION_TTL, e))), Done)
  }

  function ConfirmEmailVerification(c: Config, s: State, token: string, e: Env): (State, Outcome) {
    var f := e.fault;
    if !c.enabled then (s, Rejected(Disabled))
    else if Strip(token) == "" then (s, Rejected(InvalidToken))
    else if f.Hits(FindTicket) then (s, Raised)
    else match s.verifications.Find(c.hashToken(Strip(token)))
      case None => (s, Rejected(InvalidToken))
      case Some(record) =>
        if record.spent || record.expiresAt <= e.now then (s, Rejected(InvalidToken))
        else if f.Hits(FindUser) then (s, Raised)
        else if s.users.Get(record.userId).None? || !s.users.Get(record.userId).value.isActive then
          (s, Rejected(InvalidToken))
        else if f.Hits(SaveUser) then (s, Raised)
        else
          var user := s.users.Get(record.userId).value;
          match s.users.Save(user.(emailVerified := true, updatedAt := e.now))
          case None => (s, Rejected(Conflict))
          case Some(users) =>
            var s1 := s.(users := users);
            if f.Hits(MarkConsumed) then (s1, Raised)
            else (s1.(verifications := s1.verifications.Spend(record.id)), Done)
  }

  /** `_create_email_change`: earlier requests are invalidated before the new one is saved. */
  function CreateEmailChange(c: Config, s: State, userId: Id, newEmail: string, e: Env): (State, Outcome) {
    var s1 := s.(changes := s.changes.SpendAll(userId, e.fault.Within(Invalidate)));
    if e.fault.Hits(Invalidate) || e.fault.Hits(SaveTicket) then (s1, Raised)
    else
      var record := Ticket(e.ticketId, userId, c.hashToken(e.ticketToken), e.now, e.now + EMAIL_CHANGE_TTL, false,
                           ChangeData(newEmail, EMAIL_CHANGE_PURPOSE));
      (s1.(changes := s1.changes.Insert(record)), Done)
  }

  function RequestEmailChange(c: Config, s: State, accessToken: string, newEmail: string, password: string, e: Env)
    : (State, Outcome)
  {
    var (s1, session) := ValidateSession(c, s, accessToken, e);
    if !session.SignedIn? then (s1, session)
    else if e.fault.Hits(FindUser) then (s1, Raised)
    else match s1.users.Get(session.session.userId)
      case None => (s1, Rejected(InvalidSession))
      case Some(user) =>
        var cleaned := NormalizeEmail(newEmail);
        if !user.isActive then (s1, Rejected(InvalidSession))
        else if !e.admitted then (s1, Rejected(RateLimited))
        else if !c.verifyPassword(password, user.passwordHash) then (s1, Rejected(InvalidCredentials))
        else if cleaned.None? || cleaned.value == user.email then (s1, Rejected(InvalidInput))
        else if e.fault.Hits(FindByEmail) then (s1, Raised)
        else if s1.users.GetByEmail(cleaned.value).Some? then (s1, Done)
        else CreateEmailChange(c, s1, user.id, cleaned.value, e)
  }

  /** Python's order on strings. */
  predicate IdAtMost(a: Id, b: Id) {
    a == "" || (b != "" && (a[0] < b[0] || (a[0] == b[0] && IdAtMost(a[1..], b[1..]))))
  }

  predicate OpenFor(changes: TicketTable<ChangeData>, userId: Id, id: Id) {
    id in changes.byId && changes.byId[id].userId == userId && !changes.byId[id].spent
  }

  /** By (created_at, change_id) the request at `id` is not below the one at `other`. */
  predicate Outranks(changes: TicketTable<ChangeData>, id: Id, other: Id)
    requires id in changes.byId && other in changes.byId
  {
    var r, o := changes.byId[id], changes.byId[other];
    o.createdAt < r.createdAt || (o.createdAt == r.createdAt && IdAtMost(o.id, r.id))
  }

  /** The request at `id` is the one that `_latest_unconsumed_email_change` returns. */
  predicate Latest(changes: TicketTable<ChangeData>, userId: Id, id: Id) {
    && OpenFor(changes, userId, id)
    && forall other {:trigger Outranks(changes, id, other)} | other in changes.byId ::
         OpenFor(changes, userId, other) ==> Outranks(changes, id, other)
  }

  /** `_latest_unconsumed_email_change` names another request of the same user. */
  predicate Superseded(changes: TicketTable<ChangeData>, record: Ticket<ChangeData>) {
    exists id {:trigger Latest(changes, record.userId, id)} | id in changes.byId ::
      Latest(changes, record.userId, id) && changes.byId[id].id != record.id
  }

  function ConfirmEmailChange(c: Config, s: State, token: string, e: Env): (State, Outcome) {
    var f := e.fault;
    if !c.enabled then (s, Rejected(Disabled))
    else if Strip(token) == "" then (s, Rejected(InvalidToken))
    else if f.Hits(FindTicket) then (s, Raised)
    else match s.changes.Find(c.hashToken(Strip(token)))
      case None => (s, Rejected(InvalidToken))
      case Some(record) =>
        if record.spent || record.expiresAt <= e.now || record.data.purpose != EMAIL_CHANGE_PURPOSE then
          (s, Rejected(InvalidToken))
        else if f.Hits(ListChanges) then (s, Raised)
        else if Superseded(s.changes, record) then (s, Rejected(InvalidToken))
        else if f.Hits(FindUser) then (s, Raised)
        else if s.users.Get(record.userId).None? || !s.users.Get(record.userId).value.isActive then
          (s, Rejected(InvalidToken))
        else if f.Hits(FindByEmail) then (s, Raised)
        else
          var user := s.users.Get(record.userId).value;
          var occupant := s.users.GetByEmail(record.data.newEmail);
          if occupant.Some? && occupant.value.id != user.id then (s, Rejected(InvalidToken))
          else ApplyEmailChange(s, record, user, e)
  }

  /** The writing half of `confirm_email_change`: revoke, save, notify, consume. */
  function ApplyEmailChange(s: State, record: Ticket<ChangeData>, user: User, e: Env): (State, Outcome) {
    var f := e.fault;
    var s1 := s.(sessions := s.sessions.SpendAll(user.id, f.Within(RevokeAll)));
    if f.Hits(RevokeAll) then (s1, Rejected(CompletionError))
    else if user.email == record.data.newEmail && user.emailVerified then ConsumeEmailChange(s1, record, user.id, e)
    else if f.Hits(SaveUser) then (s1, Raised)
    else match s1.users.Save(user.(email := record.data.newEmail, emailVerified := true, updatedAt := e.now))
      case None => (s1, Rejected(InvalidToken))
      case Some(users) =>
        var s2 := s1.(users := users);
        if f.Hits(SendNotice) then (s2, Raised)
        else
          var s3 := if e.delivered then s2.(notices := s2.notices + [user.email]) else s2;
          ConsumeEmailChange(s3, record, user.id, e)
  }

  function ConsumeEmailChange(s: State, record: Ticket<ChangeData>, userId: Id, e: Env): (State, Outcome) {
    var f := e.fault;
    if f.Hits(MarkConsumed) then (s, Rejected(CompletionError))
    else
      var s1 := s.(changes := s.changes.Spend(record.id));
      (s1.(changes := s1.changes.SpendAll(userId, f.Within(Invalidate))),
       if f.Hits(Invalidate) then Rejected(CompletionError) else Done)
  }

  /** One service call with its arguments. */
  datatype Call =
    | CallRegister(email: string, password: string, displayName: string, rememberMe: bool, consents: bool)
    | CallLogin(email: string, password: string, rememberMe: bool)
    | CallValidate(token: string)
    | CallLogout(token: string)
    | CallRequestReset(email: string)
    | CallConfirmReset(token: string, newPassword: string)
    | CallRequestVerification(userId: Id)
    | CallConfirmVerification(token: string)
    | CallRequestChange(token: string, newEmail: string, password: string)
    | CallConfirmChange(token: string)

  function Perform(c: Config, s: State, call: Call, e: Env): (State, Outcome) {
    match call
    case CallRegister(email, password, name, rememberMe, consents) =>
      Register(c, s, email, password, name, rememberMe, consents, e)
    case CallLogin(email, password, rememberMe) => Login(c, s, email, password, rememberMe, e)
    case CallValidate(token) => ValidateSession(c, s, token, e)
    case CallLogout(token) => Logout(c, s, token, e)
    case CallRequestReset(email) => RequestPasswordReset(c, s, email, e)
    case CallConfirmReset(token, newPassword) => ConfirmPasswordReset(c, s, token, newPassword, e)
    case CallRequestVerification(userId) => RequestEmailVerification(c, s, userId, e)
    case CallConfirmVerification(token) => ConfirmEmailVerification(c, s, token, e)
    case CallRequestChange(token, newEmail, password) => RequestEmailChange(c, s, token, newEmail, password, e)
    case CallConfirmChange(token) => ConfirmEmailChange(c, s, token, e)
  }

  /** The generators of identifiers and tokens do not repeat themselves. */
  predicate Fresh(c: Config, s: State, e: Env) {
    && e.userId != "" && e.userId !in s.users.byId
    && s.sessions.Fresh(e.sessionId, c.hashToken(e.sessionToken))
    && s.resets.Fresh(e.ticketId, c.hashToken(e.ticketToken))
    && s.verifications.Fresh(e.ticketId, c.hashToken(e.ticketToken))
    && s.changes.Fresh(e.ticketId, c.hashToken(e.ticketToken))
  }

  datatype Event = Event(call: Call, env: Env)

  /** The i-th call takes the i-th state to the next one. */
  ghost predicate StepAt(c: Config, states: seq<State>, events: seq<Event>, i: int) {
    0 <= i < |events| && |states| == |events| + 1 ==>
      && Fresh(c, states[i], events[i].env)
      && states[i + 1] == Perform(c, states[i], events[i].call, events[i].env).0
  }

  /** The states that a run of calls goes through. */
  ghost predicate IsRun(c: Config, states: seq<State>, events: seq<Event>) {
    |states| == |events| + 1 && forall i :: StepAt(c, states, events, i)
  }
}
