/** What holds of the event store over whole runs of analytics writes. */
module AnalyticsRuns {
  import opened Wrappers
  import opened AnalyticsSchema
  import opened AnalyticsRepository
  import opened AnalyticsService

  /** One call of the service. */
  datatype Write =
    | FromClient(payload: Payload, context: Context, env: Env)
    | FromServer(fields: Fields, context: Context, env: Env)

  function Apply(hash: string -> string, s: Store, w: Write): (Store, Written) {
    match w
    case FromClient(payload, context, env) => RecordClient(hash, s, payload, context, env)
    case FromServer(fields, context, env) => RecordServer(hash, s, context, fields, env)
  }

  ghost predicate StepAt(hash: string -> string, states: seq<Store>, writes: seq<Write>, i: int) {
    0 <= i < |writes| && i + 1 < |states| ==> states[i + 1] == Apply(hash, states[i], writes[i]).0
  }

  /** Any calls in any contexts, with storage failures anywhere, from the empty store on. */
  ghost predicate IsRun(hash: string -> string, states: seq<Store>, writes: seq<Write>) {
    && |states| == |writes| + 1
    && states[0] == EMPTY
    && forall i :: StepAt(hash, states, writes, i)
  }

  /** The properties of a write that passes its validator. */
  function AcceptedFields(w: Write): Option<Fields> {
    match w
    case FromClient(payload, _, _) => if ValidateClient(payload).None? then Some(ClientFields(payload)) else None
    case FromServer(fields, _, _) => if InVocabulary(fields) then Some(fields) else None
  }

  /** The event that a write asks the repository to keep, when validator, consent and subject let it. */
  function Candidate(hash: string -> string, w: Write): Option<Event> {
    if AcceptedFields(w).Some? && w.context.preference.analyticsAllowed && IsSubjectId(w.context.subjectId) then
      Some(EventOf(hash, w.context, AcceptedFields(w).value, w.env))
    else None
  }

  predicate IsRecorded(r: Written) {
    r.Ok? && r.value.status == Recorded
  }

  lemma ApplyCandidate(hash: string -> string, s: Store, w: Write)
    ensures var e := Candidate(hash, w);
            if e.Some? && StoredShape(e.value) then Apply(hash, s, w) == Persisted(s, e.value, w.env.up)
            else
              var (s', r) := Apply(hash, s, w);
              && s' == s && !IsRecorded(r)
              && (r == Err(ShapeMismatch) <==> e.Some?) && (r.Err? ==> r.error == ShapeMismatch)
  {
    hide ValidateClient, ValidateServer, InVocabulary, StoredShape, Persisted, HexOfLength, Compact;
    if w.FromServer? {
      ServerAcceptsExactly(w.fields);
    }
  }

  /**
   * A write is recorded exactly when it passes every gate, storage answers, and its id is
   * new; then its event is the new row, and in every other case the store stays as it is.
   */
  lemma RecordedExactlyWhenNew(hash: string -> string, s: Store, w: Write)
    requires s.Valid()
    ensures var (s', r) := Apply(hash, s, w);
            var e := Candidate(hash, w);
            && (IsRecorded(r) <==> e.Some? && StoredShape(e.value) && w.env.up && e.value.id !in s.rows)
            && (if IsRecorded(r) then s' == Store(s.rows[e.value.id := e.value], s.order + [e.value.id]) else s' == s)
            && s'.Valid() && Extends(s, s')
  {
    var e := Candidate(hash, w);
    ApplyCandidate(hash, s, w);
    hide Apply, Candidate, StoredShape;
    if e.Some? && StoredShape(e.value) {
      PersistOutcome(s, e.value, w.env.up);
    } else {
      assert Extends(s, s);
    }
  }

  /** The validator's reason against a write. */
  function Objection(w: Write): Option<string> {
    match w
    case FromClient(payload, _, _) => ValidateClient(payload)
    case FromServer(fields, _, _) => ValidateServer(Compact(fields))
  }

  predicate MayWrite(w: Write) {
    w.context.preference.analyticsAllowed && IsSubjectId(w.context.subjectId)
  }

  /**
   * Each answer has exactly its own cause: the validator's objection with its reason, missing
   * consent or subject, an event that leaves the allow-list, silent storage, the same contents
   * under that id, or others.
   */
  lemma AnswersExactlyWhen(hash: string -> string, s: Store, w: Write)
    ensures
      var r := Apply(hash, s, w).1;
      var e := Candidate(hash, w);
      var shaped := e.Some? && StoredShape(e.value);
      && (e.Some? <==> Objection(w).None? && MayWrite(w))
      && (forall reason :: r == Ok(WriteResult(SchemaRejected, None, Some(reason))) <==> Objection(w) == Some(reason))
      && (r.Ok? && r.value.status == SchemaRejected <==> Objection(w).Some?)
      && (r == Ok(WriteResult(SuppressedNoConsent, None, None)) <==> Objection(w).None? && !MayWrite(w))
      && (r == Err(ShapeMismatch) <==> e.Some? && !shaped)
      && (r == Err(StorageDown) <==> shaped && !w.env.up)
      && (r.Ok? && r.value.status == Duplicate <==>
            shaped && w.env.up && e.value.id in s.rows && s.rows[e.value.id].digest == e.value.digest)
      && (r.Ok? && r.value.status == IdentityConflict <==>
            shaped && w.env.up && e.value.id in s.rows && s.rows[e.value.id].digest != e.value.digest)
      && (r.Ok? && shaped ==> r.value.eventId == Some(e.value.id))
  {
    hide ValidateClient, ValidateServer, InVocabulary, StoredShape, HexOfLength, Compact, EventOf;
    if w.FromServer? {
      ServerAcceptsExactly(w.fields);
    }
  }

  lemma {:induction false} RunStatesAreValid(hash: string -> string, states: seq<Store>, writes: seq<Write>, n: nat)
    requires IsRun(hash, states, writes) && n <= |writes|
    ensures states[n].Valid()
  {
    hide Apply;
    if n > 0 {
      RunStatesAreValid(hash, states, writes, n - 1);
      assert StepAt(hash, states, writes, n - 1);
      RecordedExactlyWhenNew(hash, states[n - 1], writes[n - 1]);
    }
  }

  /** Over any run a stored row is never changed or removed, and rows keep their order. */
  lemma {:induction false} RowsNeverChange(
    hash: string -> string, states: seq<Store>, writes: seq<Write>, i: nat, j: nat)
    requires IsRun(hash, states, writes) && i <= j <= |writes|
    ensures states[j].Valid() && Extends(states[i], states[j])
    decreases j
  {
    hide Apply;
    RunStatesAreValid(hash, states, writes, j);
    if i < j {
      RowsNeverChange(hash, states, writes, i, j - 1);
      assert StepAt(hash, states, writes, j - 1);
      RecordedExactlyWhenNew(hash, states[j - 1], writes[j - 1]);
      ExtendsTransitive(states[i], states[j - 1], states[j]);
    }
  }

  /** The i-th write recorded this row. */
  ghost predicate RecordedBy(hash: string -> string, states: seq<Store>, writes: seq<Write>, i: int, e: Event) {
    && 0 <= i < |writes| && i < |states|
    && Candidate(hash, writes[i]) == Some(e)
    && StoredShape(e)
    && IsRecorded(Apply(hash, states[i], writes[i]).1)
  }

  /** Every row was recorded by a write of the run. */
  lemma {:induction false} RowsComeFromWrites(
    hash: string -> string, states: seq<Store>, writes: seq<Write>, n: nat, id: string)
      returns (i: nat)
    requires IsRun(hash, states, writes) && n <= |writes| && id in states[n].rows
    ensures i < n && RecordedBy(hash, states, writes, i, states[n].rows[id])
  {
    hide Apply, Candidate, StoredShape;
    assert n > 0;
    RunStatesAreValid(hash, states, writes, n - 1);
    assert StepAt(hash, states, writes, n - 1);
    RecordedExactlyWhenNew(hash, states[n - 1], writes[n - 1]);
    i := n - 1;
    if id in states[n - 1].rows {
      i := RowsComeFromWrites(hash, states, writes, n - 1, id);
    }
  }

  /** The digest of a subject is a digest. */
  ghost predicate Opaque(hash: string -> string) {
    forall s :: IsHash(hash(s))
  }

  lemma AllowedMeansChosen(p: TrackingPreference)
    requires ReadFromCookie(p)
    ensures p.analyticsAllowed <==> p.choice == "analytics_allowed"
    ensures ConsentState(p.choice) && !p.advertisingAllowed
  {
  }

  /** What a row that came from a browser says. */
  ghost predicate ClientRow(e: Event) {
    && ClientEventName(e.contents.name)
    && Follows(e.contents.name, e.contents.surface, e.contents.action, e.contents.outcome)
    && e.contents.consentState == "analytics_allowed"
    && StoredShape(e)
  }

  lemma AcceptedClientPayload(p: Payload)
    requires ValidateClient(p).None?
    ensures p.Object? && p.Get("event_name").Text?
    ensures ClientEventName(p.Get("event_name").s)
    ensures Follows(p.Get("event_name").s, AsText(p.Get("surface")), AsText(p.Get("action_type")),
      AsText(p.Get("outcome")))
  {
    hide ClientEventName, EventName, Follows, FirstReason, ValueReason, ExactFields, BadChoice;
  }

  /** In a well-formed context a client event is shaped for the store, and its row is a true client row. */
  lemma ClientCandidate(hash: string -> string, w: Write)
    requires Opaque(hash) && w.FromClient? && WellFormed(w.context)
    ensures Candidate(hash, w).Some? ==> ClientRow(Candidate(hash, w).value)
  {
    if Candidate(hash, w).None? {
      return;
    }
    hide ValidateClient, Follows, ClientEventName, IsHash, IsMarket, HexOfLength;
    AcceptedClientPayload(w.payload);
    AllowedMeansChosen(w.context.preference);
    assert IsHash(hash(w.context.subjectId.value));
  }

  /**
   * Over any run of client calls in well-formed contexts every stored row has a
   * client-owned name with the table's surface, action and outcome, says that analytics was
   * allowed, and has the stored shape; and no call fails on the shape.
   */
  lemma ClientRunsStoreTrueRows(hash: string -> string, states: seq<Store>, writes: seq<Write>, n: nat)
    requires Opaque(hash) && IsRun(hash, states, writes) && n <= |writes|
    requires forall i :: 0 <= i < |writes| ==> writes[i].FromClient? && WellFormed(writes[i].context)
    ensures forall id :: id in states[n].rows ==> ClientRow(states[n].rows[id])
    ensures n < |writes| ==> Apply(hash, states[n], writes[n]).1 != Err(ShapeMismatch)
  {
    hide Apply, Candidate, StoredShape, WellFormed, Opaque;
    forall id | id in states[n].rows
      ensures ClientRow(states[n].rows[id])
    {
      var i := RowsComeFromWrites(hash, states, writes, n, id);
      ClientCandidate(hash, writes[i]);
    }
    if n < |writes| {
      ApplyCandidate(hash, states[n], writes[n]);
      if Candidate(hash, writes[n]).Some? {
        ClientCandidate(hash, writes[n]);
      }
    }
  }

  /** The preference of each write was read from its claims. */
  ghost predicate ReadFromClaims(writes: seq<Write>, claims: seq<Option<Claims>>) {
    && |claims| == |writes|
    && forall i :: 0 <= i < |writes| ==> writes[i].context.preference == ReadTrackingPreference(claims[i])
  }

  /**
   * Whatever mixture of calls made it, every row goes back to a write whose cookie chose
   * "analytics_allowed", and says so.
   */
  lemma ConsentStandsBehindEveryRow(
    hash: string -> string, states: seq<Store>, writes: seq<Write>, claims: seq<Option<Claims>>, n: nat, id: string)
      returns (i: nat)
    requires IsRun(hash, states, writes) && ReadFromClaims(writes, claims)
    requires n <= |writes| && id in states[n].rows
    ensures i < n && RecordedBy(hash, states, writes, i, states[n].rows[id])
    ensures claims[i].Some? && claims[i].value.choice == "analytics_allowed"
    ensures states[n].rows[id].contents.consentState == "analytics_allowed" && StoredShape(states[n].rows[id])
  {
    hide Apply, StoredShape, AcceptedFields, HexOfLength;
    i := RowsComeFromWrites(hash, states, writes, n, id);
  }

  /** And who refuses or says nothing leaves no row: a run without that choice stores nothing. */
  lemma NoRowWithoutConsent(
    hash: string -> string, states: seq<Store>, writes: seq<Write>, claims: seq<Option<Claims>>, n: nat)
    requires IsRun(hash, states, writes) && ReadFromClaims(writes, claims) && n <= |writes|
    requires forall i :: 0 <= i < |claims| ==> claims[i].None? || claims[i].value.choice != "analytics_allowed"
    ensures states[n] == EMPTY
  {
    hide Apply, StoredShape, RecordedBy;
    RunStatesAreValid(hash, states, writes, n);
    if states[n].order != [] {
      var id := states[n].order[0];
      assert id in states[n].order;
      var i := ConsentStandsBehindEveryRow(hash, states, writes, claims, n, id);
    } else {
      assert forall id :: id !in states[n].rows;
    }
  }

  // What a row says.

  /** The payload that a write brings, or that its properties make. */
  function PayloadOf(w: Write): Payload {
    match w
    case FromClient(payload, _, _) => payload
    case FromServer(fields, _, _) => Compact(fields)
  }

  predicate RowSaysText(c: Contents, p: Payload)
    requires p.Object?
  {
    && p.Get("event_name") == Json.Text(c.name)
    && p.Get("surface") == OfText(c.surface)
    && p.Get("action_type") == OfText(c.action)
    && p.Get("latency_band") == OfText(c.latencyBand)
    && p.Get("freshness_band") == OfText(c.freshnessBand)
  }

  predicate RowSaysRest(c: Contents, p: Payload)
    requires p.Object?
  {
    && p.Get("outcome") == OfText(c.outcome)
    && p.Get("error_code") == OfText(c.errorCode)
    && p.Get("turn_number") == OfInt(c.turnNumber)
    && p.Get("evidence_count") == OfInt(c.evidenceCount)
  }

  /** The event goes under the id that the payload gives, or else a fresh one. */
  predicate Identifies(e: Event, p: Payload, freshId: string)
    requires p.Object?
  {
    && e.dedupKey == e.id
    && (if p.Get("event_id").Text? && p.Get("event_id").s != "" then e.id == p.Get("event_id").s else e.id == freshId)
  }

  /** What the server adds: the digest of the subject, the context, and the time. */
  predicate Surrounds(hash: string -> string, e: Event, c: Context, now: int) {
    && c.subjectId.Some? && e.contents.subjectHash == hash(c.subjectId.value)
    && e.contents.identityKind == c.identityKind && e.contents.decisionHash == c.decisionHash
    && e.contents.contextVersion == c.contextVersion && e.contents.market == c.market
    && e.contents.consentState == c.preference.choice
    && e.occurredAt == Aware(now)
  }

  /**
   * The row of a write says what its payload said and nothing else, under its id, in its
   * context and at its time, from the browser and from the server alike.
   */
  lemma RowSaysItsWrite(hash: string -> string, w: Write)
    requires Candidate(hash, w).Some?
    ensures var e, p := Candidate(hash, w).value, PayloadOf(w);
            && p.Object? && RowSaysText(e.contents, p) && RowSaysRest(e.contents, p)
            && Identifies(e, p, w.env.freshId) && Surrounds(hash, e, w.context, w.env.now)
  {
    hide ValidateClient, InVocabulary, HexOfLength, Compact, Payload.Get;
    match w
    case FromClient(payload, context, env) => AcceptedPayloadSaysItsFields(payload);
    case FromServer(fields, context, env) =>
      CompactSaysText(fields);
      CompactSaysRest(fields);
  }

  predicate NamesItsId(w: Write) {
    AcceptedFields(w).Some? && AcceptedFields(w).value.id.Some? && AcceptedFields(w).value.id.value != ""
  }

  /** The same call, at another time or after a failure. */
  predicate SameCall(a: Write, b: Write) {
    match a
    case FromClient(payload, context, _) => b == FromClient(payload, context, b.env)
    case FromServer(fields, context, _) => b == FromServer(fields, context, b.env)
  }

  lemma SameCallSameContents(hash: string -> string, a: Write, b: Write)
    requires SameCall(a, b) && NamesItsId(a)
    ensures Candidate(hash, b).Some? <==> Candidate(hash, a).Some?
    ensures Candidate(hash, a).Some? ==>
              && Candidate(hash, b).value.id == Candidate(hash, a).value.id
              && Candidate(hash, b).value.digest == Candidate(hash, a).value.digest
              && (StoredShape(Candidate(hash, b).value) <==> StoredShape(Candidate(hash, a).value))
  {
    hide ValidateClient, InVocabulary, HexOfLength, EventName, IsHash, IsMarket;
    assert AcceptedFields(a) == AcceptedFields(b);
  }

  /**
   * Repeating a recorded call that names its event id is reported as a duplicate and stores
   * nothing, however much later and whatever was stored between.
   */
  lemma RepeatIsDuplicate(hash: string -> string, states: seq<Store>, writes: seq<Write>, i: nat, j: nat)
    requires IsRun(hash, states, writes) && i < j < |writes|
    requires IsRecorded(Apply(hash, states[i], writes[i]).1) && NamesItsId(writes[i])
    requires SameCall(writes[i], writes[j]) && writes[j].env.up
    ensures var (s, r) := Apply(hash, states[j], writes[j]);
            s == states[j] && r.Ok? && r.value.status == Duplicate
  {
    hide Apply, StoredShape, SameCall, NamesItsId, Candidate;
    RunStatesAreValid(hash, states, writes, i);
    assert StepAt(hash, states, writes, i);
    RecordedExactlyWhenNew(hash, states[i], writes[i]);
    SameCallSameContents(hash, writes[i], writes[j]);
    RowsNeverChange(hash, states, writes, i + 1, j);
    assert SameRow(states[i + 1], states[j], Candidate(hash, writes[i]).value.id);
    ApplyCandidate(hash, states[j], writes[j]);
  }
}
