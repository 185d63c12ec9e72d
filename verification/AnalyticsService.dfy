/** Consent-gated analytics writes, from the browser and from the server. */
module AnalyticsService {
  import opened Wrappers
  import opened Text
  import opened AnalyticsSchema
  import opened AnalyticsRepository

  /** The signed claims of an intact preference cookie. */
  datatype Claims = Claims(choice: string, selectedAt: string)

  datatype TrackingPreference = TrackingPreference(
    choice: string,
    analyticsAllowed: bool,
    advertisingAllowed: bool,
    selectedAt: Option<string>,
    isExplicit: bool)

  const DEFAULT_PREFERENCE := TrackingPreference("essential_only", false, false, None, false)

  /**
   * `read_tracking_preference`, given the claims of the cookie if it is intact: analytics is
   * allowed by that very choice only, silence and unknown choices are essential-only, and
   * advertising stays off.
   */
  function ReadTrackingPreference(claims: Option<Claims>): (r: TrackingPreference)
    ensures r.analyticsAllowed <==> claims.Some? && claims.value.choice == "analytics_allowed"
    ensures r.isExplicit <==>
              claims.Some? && (claims.value.choice == "analytics_allowed" || claims.value.choice == "essential_only")
    ensures r.isExplicit ==> r.choice == claims.value.choice && r.selectedAt == Some(claims.value.selectedAt)
    ensures !r.isExplicit ==> r.choice == "essential_only" && r.selectedAt.None?
    ensures !r.advertisingAllowed
  {
    if claims.None? || !ConsentState(claims.value.choice) then DEFAULT_PREFERENCE
    else
      TrackingPreference(
        claims.value.choice, claims.value.choice == "analytics_allowed", false, Some(claims.value.selectedAt), true)
  }

  /** A preference that some cookie, or none, reads as. */
  ghost predicate ReadFromCookie(p: TrackingPreference) {
    exists claims :: p == ReadTrackingPreference(claims)
  }

  datatype Context = Context(
    preference: TrackingPreference,
    subjectId: Option<string>,
    identityKind: string,
    decisionHash: Option<string>,
    contextVersion: Option<int>,
    market: Option<string>)

  /** What the server derives for a request. */
  ghost predicate WellFormed(c: Context) {
    && ReadFromCookie(c.preference)
    && IdentityKind(c.identityKind)
    && (c.decisionHash.Some? ==> IsHash(c.decisionHash.value))
    && (c.market.Some? ==> IsMarket(c.market.value))
  }

  /** `is_analytics_subject_id`. */
  predicate IsSubjectId(s: Option<string>) {
    s.Some? && HexOfLength(s.value, 32)
  }

  /** The event properties a caller gives. */
  datatype Fields = Fields(
    name: string,
    id: Option<string>,
    surface: Option<string>,
    action: Option<string>,
    turnNumber: Option<int>,
    evidenceCount: Option<int>,
    latencyBand: Option<string>,
    freshnessBand: Option<string>,
    errorCode: Option<string>,
    outcome: Option<string>)

  /** What the surroundings give one write: a fresh id, the time, and whether storage answers. */
  datatype Env = Env(freshId: string, now: int, up: bool)

  const SUPPRESSED := WriteResult(SuppressedNoConsent, None, None)

  function ContentsOf(hash: string -> string, c: Context, f: Fields): Contents
    requires c.subjectId.Some?
  {
    Contents(
      EVENT_SCHEMA, f.name, hash(c.subjectId.value), c.identityKind, c.decisionHash, f.surface, f.action,
      f.turnNumber, f.evidenceCount, f.latencyBand, f.freshnessBand, f.errorCode,
      c.contextVersion, c.market, f.outcome, c.preference.choice)
  }

  /** `event_id or str(uuid4())`. */
  function ChosenId(f: Fields, env: Env): string {
    if f.id.Some? && f.id.value != "" then f.id.value else env.freshId
  }

  function EventOf(hash: string -> string, c: Context, f: Fields, env: Env): Event
    requires c.subjectId.Some?
  {
    var contents := ContentsOf(hash, c, f);
    Event(ChosenId(f, env), Aware(env.now), ChosenId(f, env), contents, contents)
  }

  /** `_record_fields`. */
  function RecordFields(hash: string -> string, s: Store, c: Context, f: Fields, env: Env): (Store, Written) {
    if !IsSubjectId(c.subjectId) then (s, Ok(SUPPRESSED))
    else
      var e := EventOf(hash, c, f, env);
      if !StoredShape(e) then (s, Err(ShapeMismatch)) else Persisted(s, e, env.up)
  }

  /** The properties of an accepted client payload. */
  function ClientFields(p: Payload): Fields
    requires p.Object? && p.Get("event_name").Text?
  {
    Fields(
      p.Get("event_name").s, AsText(p.Get("event_id")), AsText(p.Get("surface")), AsText(p.Get("action_type")),
      AsInt(p.Get("turn_number")), AsInt(p.Get("evidence_count")), AsText(p.Get("latency_band")),
      AsText(p.Get("freshness_band")), AsText(p.Get("error_code")), AsText(p.Get("outcome")))
  }

  /** `record_client_event`. */
  function RecordClient(hash: string -> string, s: Store, p: Payload, c: Context, env: Env): (Store, Written) {
    var reason := ValidateClient(p);
    if reason.Some? then (s, Ok(WriteResult(SchemaRejected, None, reason)))
    else if !c.preference.analyticsAllowed then (s, Ok(SUPPRESSED))
    else RecordFields(hash, s, c, ClientFields(p), env)
  }

  function OfText(t: Option<string>): Json { if t.Some? then Json.Text(t.value) else Null }

  function OfInt(n: Option<int>): Json { if n.Some? then Number(n.value) else Null }

  function FieldValue(f: Fields, key: string): Json {
    match key
    case "event_name" => Json.Text(f.name)
    case "surface" => OfText(f.surface)
    case "action_type" => OfText(f.action)
    case "turn_number" => OfInt(f.turnNumber)
    case "evidence_count" => OfInt(f.evidenceCount)
    case "latency_band" => OfText(f.latencyBand)
    case "freshness_band" => OfText(f.freshnessBand)
    case "error_code" => OfText(f.errorCode)
    case "outcome" => OfText(f.outcome)
    case "event_id" => OfText(f.id)
    case _ => Null
  }

  const INPUT_ORDER := [
    "event_name", "surface", "action_type", "turn_number", "evidence_count", "latency_band",
    "freshness_band", "error_code", "outcome", "event_id"]

  function Given(f: Fields, keys: seq<string>): (r: seq<string>)
    ensures forall k :: k in r <==> k in keys && FieldValue(f, k) != Null
  {
    if keys == [] then []
    else (if FieldValue(f, keys[0]) != Null then [keys[0]] else []) + Given(f, keys[1..])
  }

  /** The payload of a server emission, without the absent values. */
  function Compact(f: Fields): (p: Payload)
    ensures p.Object?
  {
    var keys := Given(f, INPUT_ORDER);
    Object(keys, map k | k in keys :: FieldValue(f, k))
  }

  /** `record_server_event`. */
  function RecordServer(hash: string -> string, s: Store, c: Context, f: Fields, env: Env): (Store, Written) {
    var reason := ValidateServer(Compact(f));
    if reason.Some? then (s, Ok(WriteResult(SchemaRejected, None, reason)))
    else if !c.preference.analyticsAllowed then (s, Ok(SUPPRESSED))
    else RecordFields(hash, s, c, f, env)
  }

  // What the server validator says about the emitted properties.

  /** The properties are in the vocabulary. */
  predicate InVocabulary(f: Fields) {
    && EventName(f.name)
    && (f.id.Some? ==> IsUuid(f.id.value))
    && (f.surface.Some? ==> Surface(f.surface.value))
    && (f.action.Some? ==> ActionType(f.action.value))
    && (f.latencyBand.Some? ==> LatencyBand(f.latencyBand.value))
    && (f.freshnessBand.Some? ==> FreshnessBand(f.freshnessBand.value))
    && (f.outcome.Some? ==> EventOutcome(f.outcome.value))
    && (f.errorCode.Some? ==> IsErrorCode(f.errorCode.value))
    && (f.turnNumber.Some? ==> 0 <= f.turnNumber.value <= 50)
    && (f.evidenceCount.Some? ==> 0 <= f.evidenceCount.value <= 10000)
  }

  lemma CompactGet(f: Fields, key: string)
    ensures Compact(f).Get(key) == FieldValue(f, key)
  {
  }

  lemma InputFieldIsFree(key: string)
    requires ServerInputField(key)
    ensures !ForbiddenField(key) && !ServerOwnedField(key) && key != "decision_id"
  {
  }

  /** Small letters and underscores only. */
  predicate PlainField(key: string) {
    key != "" && forall i :: 0 <= i < |key| ==> IsLower(key[i]) || key[i] == '_'
  }

  lemma PlainFieldStays(key: string)
    requires PlainField(key)
    ensures Trimmed(key) && Lower(key) == key
  {
  }

  lemma InputFieldIsPlain(key: string)
    requires ServerInputField(key)
    ensures PlainField(key)
  {
  }

  lemma InputKeysPass(key: string)
    requires key in INPUT_ORDER
    ensures ServerKeyReason(key).None?
  {
    assert ServerInputField(key);
    hide ServerInputField;
    InputFieldIsFree(key);
    InputFieldIsPlain(key);
    PlainFieldStays(key);
    StripTrims(key);
  }

  lemma CompactKeysPass(f: Fields)
    ensures FirstReason(Compact(f).keys, key => ServerKeyReason(key)).None?
  {
    hide ServerKeyReason, FieldValue;
    var keys := Compact(f).keys;
    forall i | 0 <= i < |keys|
      ensures ServerKeyReason(keys[i]).None?
    {
      assert keys[i] in keys;
      InputKeysPass(keys[i]);
    }
  }

  predicate SaysText(p: Payload, f: Fields)
    requires p.Object?
  {
    && p.Get("event_name") == Json.Text(f.name)
    && p.Get("surface") == OfText(f.surface)
    && p.Get("action_type") == OfText(f.action)
    && p.Get("latency_band") == OfText(f.latencyBand)
    && p.Get("freshness_band") == OfText(f.freshnessBand)
  }

  predicate SaysRest(p: Payload, f: Fields)
    requires p.Object?
  {
    && p.Get("outcome") == OfText(f.outcome)
    && p.Get("error_code") == OfText(f.errorCode)
    && p.Get("turn_number") == OfInt(f.turnNumber)
    && p.Get("evidence_count") == OfInt(f.evidenceCount)
    && p.Get("event_id") == OfText(f.id)
  }

  lemma CompactSaysText(f: Fields)
    ensures SaysText(Compact(f), f)
  {
    hide Compact, Payload.Get;
    CompactGet(f, "event_name");
    CompactGet(f, "surface");
    CompactGet(f, "action_type");
    CompactGet(f, "latency_band");
    CompactGet(f, "freshness_band");
  }

  lemma CompactSaysRest(f: Fields)
    ensures SaysRest(Compact(f), f)
  {
    hide Compact, Payload.Get;
    CompactGet(f, "outcome");
    CompactGet(f, "error_code");
    CompactGet(f, "turn_number");
    CompactGet(f, "evidence_count");
    CompactGet(f, "event_id");
  }

  /** Nothing of an accepted payload is lost or mixed up on the way to its fields. */
  lemma AcceptedPayloadSaysItsFields(p: Payload)
    requires ValidateClient(p).None?
    ensures p.Object? && p.Get("event_name").Text?
    ensures SaysText(p, ClientFields(p)) && SaysRest(p, ClientFields(p))
  {
    hide FirstReason, EventName, ClientEventName, Follows, ExactFields, Payload.Get;
    hide IsUuid, Surface, ActionType, LatencyBand, FreshnessBand, EventOutcome, IsErrorCode;
  }

  lemma ChoiceOfText(t: Option<string>, allowed: string -> bool)
    ensures BadChoice(OfText(t), allowed) <==> t.Some? && !allowed(t.value)
  {
  }

  lemma VocabularyDecides(p: Payload, f: Fields)
    requires p.Object? && SaysText(p, f) && SaysRest(p, f)
    ensures ValueReason(p).None? && EventName(f.name) && !BadChoice(p.Get("event_id"), s => IsUuid(s)) <==>
      InVocabulary(f)
  {
    hide EventName, IsUuid, Surface, ActionType, LatencyBand, FreshnessBand, EventOutcome, IsErrorCode, BadChoice,
      Payload.Get, OfText;
    ChoiceOfText(f.id, s => IsUuid(s));
    ChoiceOfText(f.surface, s => Surface(s));
    ChoiceOfText(f.action, s => ActionType(s));
    ChoiceOfText(f.latencyBand, s => LatencyBand(s));
    ChoiceOfText(f.freshnessBand, s => FreshnessBand(s));
    ChoiceOfText(f.outcome, s => EventOutcome(s));
    ChoiceOfText(f.errorCode, s => IsErrorCode(s));
  }

  /** A server emission is accepted exactly when its properties are in the vocabulary. */
  lemma ServerAcceptsExactly(f: Fields)
    ensures ValidateServer(Compact(f)).None? <==> InVocabulary(f)
  {
    hide EventName, InVocabulary, ServerKeyReason, BadChoice, Payload.Get, ValueReason, FirstReason, Compact;
    CompactKeysPass(f);
    CompactSaysText(f);
    CompactSaysRest(f);
    VocabularyDecides(Compact(f), f);
  }

  // The object.

  /** The service over a first-party repository; `hash` is the digest of a subject. */
  class ProductAnalyticsService {
    const repository: FirstPartyProductAnalyticsRepository
    const hash: string -> string

    constructor (hash: string -> string)
      ensures this.hash == hash && fresh(repository) && repository.State() == EMPTY
    {
      this.hash := hash;
      repository := new FirstPartyProductAnalyticsRepository();
    }

    method RecordClientEvent(payload: Payload, context: Context, env: Env) returns (r: Written)
      modifies repository
      ensures (repository.State(), r) == RecordClient(hash, old(repository.State()), payload, context, env)
    {
      hide ValidateClient, StoredShape, Persisted;
      var reason := ValidateClient(payload);
      if reason.Some? {
        return Ok(WriteResult(SchemaRejected, None, reason));
      }
      if !context.preference.analyticsAllowed {
        return Ok(SUPPRESSED);
      }
      ClientNameIsText(payload);
      r := WriteFields(context, ClientFields(payload), env);
    }

    method RecordServerEvent(context: Context, fields: Fields, env: Env) returns (r: Written)
      modifies repository
      ensures (repository.State(), r) == RecordServer(hash, old(repository.State()), context, fields, env)
    {
      hide ValidateServer, StoredShape, Persisted;
      var compact := Compact(fields);
      var reason := ValidateServer(compact);
      if reason.Some? {
        return Ok(WriteResult(SchemaRejected, None, reason));
      }
      if !context.preference.analyticsAllowed {
        return Ok(SUPPRESSED);
      }
      r := WriteFields(context, fields, env);
    }

    method WriteFields(context: Context, fields: Fields, env: Env) returns (r: Written)
      modifies repository
      ensures (repository.State(), r) == RecordFields(hash, old(repository.State()), context, fields, env)
    {
      hide StoredShape, Persisted;
      if !IsSubjectId(context.subjectId) {
        return Ok(SUPPRESSED);
      }
      var event := EventOf(hash, context, fields, env);
      if !StoredShape(event) {
        return Err(ShapeMismatch);
      }
      r := repository.Persist(event, env.up);
    }
  }

  lemma ClientNameIsText(p: Payload)
    requires ValidateClient(p).None?
    ensures p.Object? && p.Get("event_name").Text?
  {
  }
}
