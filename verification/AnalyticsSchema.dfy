/** The closed vocabulary of product analytics events, and the validators that guard it. */
module AnalyticsSchema {
  import opened Wrappers
  import opened Text

  // Vocabulary.

  const EVENT_SCHEMA := "piqsavi.product_analytics.v1"

  /** `CLIENT_EVENT_NAMES`: what the browser can truthfully observe. */
  predicate ClientEventName(s: string) {
    s in {"results_viewed", "compare_opened", "why_opened", "outbound_merchant_click", "ask_opened", "ask_closed"}
  }

  /** `EVENT_NAMES`. */
  predicate EventName(s: string) {
    || ClientEventName(s)
    || s in {
      "decision_started", "decision_completed",
      "ask_question_submitted", "ask_evidence_answered", "insufficient_evidence",
      "recommendation_refinement_attempted", "recommendation_refinement_applied",
      "research_proposed", "research_confirmed", "research_declined",
      "research_started", "research_partial", "research_completed", "research_failed",
      "updated_results_viewed", "recommendation_viewed", "piqscore_viewed",
      "recommendation_helpful", "recommendation_not_helpful",
      "incorrect_information_report", "bug_report", "support_contact",
      "return_visit", "repeat_decision",
      "registration_completed", "registration_verified", "login_success", "login_failure",
      "account_deleted", "authentication_transition"}
  }

  predicate ServerOwnedField(s: string) {
    s in {
      "event_schema", "occurred_at", "anonymous_subject_hash", "identity_kind", "decision_hash",
      "selected_market", "consent_state", "dedup_key", "content_digest", "context_version",
      "user_id", "principal_id", "owner_id", "subject_hash"}
  }

  predicate ForbiddenField(s: string) {
    s in {
      "question", "query", "raw_question", "product_query", "free_text", "answer", "raw_answer",
      "assistant_answer", "message", "feedback", "feedback_text", "comment", "email", "password",
      "access_token", "refresh_token", "session_token", "token", "bearer", "authorization",
      "cookie", "user_id", "principal_id", "session_id", "guest_session_id", "conversation_id",
      "ip", "ip_address", "client_ip", "claim", "probe", "shopify", "shopify_payload"}
  }

  /** `SERVER_EVENT_INPUT_FIELDS`. */
  predicate ServerInputField(s: string) {
    s in {
      "event_name", "event_id", "surface", "action_type", "turn_number", "evidence_count",
      "latency_band", "freshness_band", "error_code", "outcome"}
  }

  /** `CLIENT_EVENT_FIELDS`. */
  predicate ClientField(s: string) {
    ServerInputField(s) || s == "decision_id"
  }

  predicate Surface(s: string) {
    s in {"results", "compare", "why", "ask", "support", "account"}
  }

  predicate ActionType(s: string) {
    s in {"view", "open", "close", "submit", "click", "report", "start", "complete"}
  }

  predicate LatencyBand(s: string) {
    s in {"under_100ms", "under_300ms", "under_1s", "under_3s", "over_3s"}
  }

  predicate FreshnessBand(s: string) {
    s in {"fresh", "recent", "aging", "stale", "unknown"}
  }

  predicate EventOutcome(s: string) {
    s in {
      "viewed", "opened", "submitted", "clicked", "helpful", "not_helpful", "reported",
      "insufficient_evidence", "received", "incorrect_price", "incorrect_product_fact",
      "outdated_offer", "misleading_recommendation_evidence", "source_issue", "bug",
      "other_feedback", "closed", "started", "completed", "answered", "attempted", "applied",
      "proposed", "confirmed", "declined", "failed"}
  }

  predicate IdentityKind(s: string) {
    s == "guest" || s == "authenticated"
  }

  predicate ConsentState(s: string) {
    s == "essential_only" || s == "analytics_allowed"
  }

  // The regular expressions; `$` also stands before one final newline.

  function WithoutNewline(s: string): string {
    if s != "" && s[|s| - 1] == '\n' then s[..|s| - 1] else s
  }

  predicate IsHex(c: char) {
    IsDigit(c) || 'a' <= c <= 'f'
  }

  predicate UuidChar(c: char, i: int) {
    if i == 8 || i == 13 || i == 18 || i == 23 then c == '-' else IsHex(LowerChar(c))
  }

  predicate IsUuid(text: string) {
    var s := WithoutNewline(text);
    |s| == 36 && forall i :: 0 <= i < 36 ==> UuidChar(s[i], i)
  }

  predicate HexGroup(s: string, n: nat) {
    |s| == n && forall i :: 0 <= i < n ==> IsHex(LowerChar(s[i]))
  }

  predicate UuidParts(s: string, a: string, b: string, c: string, d: string, e: string) {
    && HexGroup(a, 8) && HexGroup(b, 4) && HexGroup(c, 4) && HexGroup(d, 4) && HexGroup(e, 12)
    && s == a + "-" + b + "-" + c + "-" + d + "-" + e
  }

  /** The fixed places of the pattern are five groups of hexadecimal digits (section 4 of RFC 9562). */
  lemma UuidExactlyWhen(text: string)
    ensures IsUuid(text) <==> exists a, b, c, d, e :: UuidParts(WithoutNewline(text), a, b, c, d, e)
  {
    var s := WithoutNewline(text);
    if IsUuid(text) {
      var a, b, c, d, e := s[..8], s[9..13], s[14..18], s[19..23], s[24..];
      assert forall i :: 0 <= i < 36 ==> UuidChar(s[i], i);
      assert UuidChar(s[8], 8) && UuidChar(s[13], 13) && UuidChar(s[18], 18) && UuidChar(s[23], 23);
      assert s == a + "-" + b + "-" + c + "-" + d + "-" + e;
      assert UuidParts(s, a, b, c, d, e);
    }
    if a, b, c, d, e :| UuidParts(s, a, b, c, d, e) {
      forall i | 0 <= i < 36
        ensures UuidChar(s[i], i)
      {
        UuidPlace(s, a, b, c, d, e, i);
      }
    }
  }

  lemma UuidPlace(s: string, a: string, b: string, c: string, d: string, e: string, i: nat)
    requires UuidParts(s, a, b, c, d, e) && i < 36
    ensures |s| == 36 && UuidChar(s[i], i)
  {
    assert s[i] ==
      if i < 8 then a[i] else if i == 8 then '-' else if i < 13 then b[i - 9] else if i == 13 then '-'
      else if i < 18 then c[i - 14] else if i == 18 then '-' else if i < 23 then d[i - 19] else if i == 23 then '-'
      else e[i - 24];
  }

  predicate IsErrorCode(text: string) {
    var s := WithoutNewline(text);
    1 <= |s| <= 64 && IsLower(s[0]) && forall i :: 1 <= i < |s| ==> IsLower(s[i]) || IsDigit(s[i]) || s[i] == '_'
  }

  predicate IsMarket(text: string) {
    var s := WithoutNewline(text);
    |s| == 2 && IsUpper(s[0]) && IsUpper(s[1])
  }

  predicate HexOfLength(text: string, n: nat) {
    var s := WithoutNewline(text);
    |s| == n && forall i :: 0 <= i < n ==> IsHex(s[i])
  }

  predicate IsHash(s: string) {
    HexOfLength(s, 64)
  }

  // Payloads.

  /** A decoded JSON value; `Other` is a float, an array or an object. */
  datatype Json = Null | Bool(b: bool) | Number(n: int) | Text(s: string) | Other

  /** A decoded body: an object with its keys in order, or something else. */
  datatype Payload = NotObject | Object(keys: seq<string>, values: map<string, Json>) {
    ghost predicate Valid() {
      Object? ==>
        && (forall k :: k in values <==> k in keys)
        && (forall i, j :: 0 <= i < j < |keys| ==> keys[i] != keys[j])
    }

    /** `payload.get(key)`. */
    function Get(key: string): Json
      requires Object?
    {
      if key in values then values[key] else Null
    }
  }

  /** `_choice`: true for a value that is not allowed. */
  predicate BadChoice(v: Json, allowed: string -> bool) {
    v != Null && !(v.Text? && allowed(v.s))
  }

  /** `_bounded_int`: true for a value that is not allowed. */
  predicate BadInt(v: Json, low: int, high: int) {
    v != Null && !(v.Number? && low <= v.n <= high)
  }

  /** The part of the chain that both validators share, from the surface on. */
  function ValueReason(p: Payload): Option<string>
    requires p.Object?
  {
    if BadChoice(p.Get("surface"), s => Surface(s)) then Some("invalid_surface")
    else if BadChoice(p.Get("action_type"), s => ActionType(s)) then Some("invalid_action_type")
    else if BadChoice(p.Get("latency_band"), s => LatencyBand(s)) then Some("invalid_latency_band")
    else if BadChoice(p.Get("freshness_band"), s => FreshnessBand(s)) then Some("invalid_freshness_band")
    else if BadChoice(p.Get("outcome"), s => EventOutcome(s)) then Some("invalid_outcome")
    else if BadChoice(p.Get("error_code"), s => IsErrorCode(s)) then Some("invalid_error_code")
    else if BadInt(p.Get("turn_number"), 0, 50) then Some("invalid_turn_number")
    else if BadInt(p.Get("evidence_count"), 0, 10000) then Some("invalid_evidence_count")
    else None
  }

  function ClientKeyReason(key: string): Option<string> {
    if ForbiddenField(Lower(Strip(key))) || ForbiddenField(key) then Some("forbidden_field")
    else if ServerOwnedField(key) then Some("server_owned_field")
    else if !ClientField(key) then Some("unknown_property")
    else None
  }

  function ServerKeyReason(key: string): Option<string> {
    if ForbiddenField(Lower(Strip(key))) || ForbiddenField(key) then Some("forbidden_field")
    else if key == "decision_id" || ServerOwnedField(key) then Some("server_owned_field")
    else if !ServerInputField(key) then Some("unknown_property")
    else None
  }

  /** The key loops return at the first objection. */
  function FirstReason(keys: seq<string>, reason: string -> Option<string>): (r: Option<string>)
    ensures r.None? <==> forall i :: 0 <= i < |keys| ==> reason(keys[i]).None?
  {
    if keys == [] then None
    else if reason(keys[0]).Some? then reason(keys[0])
    else FirstReason(keys[1..], reason)
  }

  /** `CLIENT_EVENT_SEMANTICS`: what an event of that name must say. */
  datatype Semantics = Semantics(surfaces: set<string>, action: string, outcome: string)

  function Rule(name: string): Option<Semantics> {
    match name
    case "results_viewed" => Some(Semantics({"results"}, "view", "viewed"))
    case "compare_opened" => Some(Semantics({"compare"}, "open", "opened"))
    case "why_opened" => Some(Semantics({"why"}, "open", "opened"))
    case "outbound_merchant_click" => Some(Semantics({"results", "compare", "why"}, "click", "clicked"))
    case "ask_opened" => Some(Semantics({"ask"}, "open", "opened"))
    case "ask_closed" => Some(Semantics({"ask"}, "close", "closed"))
    case _ => None
  }

  /** The three values are the table's. */
  predicate Follows(name: string, surface: Option<string>, action: Option<string>, outcome: Option<string>) {
    && Rule(name).Some?
    && surface.Some? && surface.value in Rule(name).value.surfaces
    && action == Some(Rule(name).value.action)
    && outcome == Some(Rule(name).value.outcome)
  }

  function AsText(v: Json): Option<string> { if v.Text? then Some(v.s) else None }

  function AsInt(v: Json): Option<int> { if v.Number? then Some(v.n) else None }

  /** Where the ask events allow no further property. */
  predicate ExactFields(name: string, keys: seq<string>) {
    name == "ask_opened" || name == "ask_closed" ==>
      forall i :: 0 <= i < |keys| ==>
        keys[i] in {"event_name", "event_id", "decision_id", "surface", "action_type", "outcome"}
  }

  /** `validate_client_event_payload`: the reason of a rejection. */
  function ValidateClient(p: Payload): Option<string> {
    if p.NotObject? then Some("payload_not_object")
    else if FirstReason(p.keys, key => ClientKeyReason(key)).Some? then FirstReason(p.keys, key => ClientKeyReason(key))
    else
      var name := p.Get("event_name");
      if !name.Text? || !EventName(name.s) then Some("unknown_event")
      else if !ClientEventName(name.s) then Some("server_owned_event")
      else if BadChoice(p.Get("event_id"), s => IsUuid(s)) then Some("invalid_event_id")
      else if BadChoice(p.Get("decision_id"), s => IsUuid(s)) then Some("invalid_decision_reference")
      else if ValueReason(p).Some? then ValueReason(p)
      else if !Follows(name.s, AsText(p.Get("surface")), AsText(p.Get("action_type")), AsText(p.Get("outcome"))) then
        Some("contradictory_event")
      else if !ExactFields(name.s, p.keys) then Some("contradictory_event")
      else None
  }

  /** `validate_server_event_payload`. */
  function ValidateServer(p: Payload): Option<string> {
    if p.NotObject? then Some("payload_not_object")
    else if FirstReason(p.keys, key => ServerKeyReason(key)).Some? then FirstReason(p.keys, key => ServerKeyReason(key))
    else
      var name := p.Get("event_name");
      if !name.Text? || !EventName(name.s) then Some("unknown_event")
      else if BadChoice(p.Get("event_id"), s => IsUuid(s)) then Some("invalid_event_id")
      else ValueReason(p)
  }

  // The client validator is the server validator and the client's own conditions.

  function DropKey(keys: seq<string>, key: string): (r: seq<string>)
    ensures forall k :: k in r <==> k in keys && k != key
  {
    if keys == [] then []
    else if keys[0] == key then DropKey(keys[1..], key)
    else [keys[0]] + DropKey(keys[1..], key)
  }

  /** The payload once `decision_id` is taken out. */
  function Authorized(p: Payload): Payload {
    if p.NotObject? then p else Object(DropKey(p.keys, "decision_id"), p.values - {"decision_id"})
  }

  lemma DecisionIdIsAField()
    ensures ClientKeyReason("decision_id").None?
  {
    StripTrims("decision_id");
    assert Lower("decision_id") == "decision_id";
  }

  lemma KeysAgree(key: string)
    ensures ClientKeyReason(key).None? <==> key == "decision_id" || ServerKeyReason(key).None?
  {
    hide ForbiddenField, ServerOwnedField, ServerInputField;
    if key == "decision_id" {
      DecisionIdIsAField();
    }
  }

  lemma KeyLoopsAgree(keys: seq<string>)
    ensures FirstReason(keys, key => ClientKeyReason(key)).None? <==>
            FirstReason(DropKey(keys, "decision_id"), key => ServerKeyReason(key)).None?
  {
    hide ClientKeyReason, ServerKeyReason;
    var rest := DropKey(keys, "decision_id");
    if forall i :: 0 <= i < |keys| ==> ClientKeyReason(keys[i]).None? {
      forall i | 0 <= i < |rest|
        ensures ServerKeyReason(rest[i]).None?
      {
        assert rest[i] in rest;
        KeysAgree(rest[i]);
      }
    }
    if forall i :: 0 <= i < |rest| ==> ServerKeyReason(rest[i]).None? {
      forall i | 0 <= i < |keys|
        ensures ClientKeyReason(keys[i]).None?
      {
        KeysAgree(keys[i]);
        assert keys[i] in keys;
        assert keys[i] == "decision_id" || keys[i] in rest;
      }
    }
  }

  lemma OtherValuesStay(p: Payload)
    requires p.Object?
    ensures Authorized(p).Object? && ValueReason(Authorized(p)) == ValueReason(p)
    ensures Authorized(p).Get("event_name") == p.Get("event_name") && Authorized(p).Get("event_id") == p.Get("event_id")
  {
    hide Authorized, Payload.Get, BadChoice, BadInt;
    OtherValueStays(p, "event_name");
    OtherValueStays(p, "event_id");
    OtherValueStays(p, "surface");
    OtherValueStays(p, "action_type");
    OtherValueStays(p, "latency_band");
    OtherValueStays(p, "freshness_band");
    OtherValueStays(p, "outcome");
    OtherValueStays(p, "error_code");
    OtherValueStays(p, "turn_number");
    OtherValueStays(p, "evidence_count");
  }

  lemma OtherValueStays(p: Payload, key: string)
    requires p.Object? && key != "decision_id"
    ensures Authorized(p).Object? && Authorized(p).Get(key) == p.Get(key)
  {
  }

  /**
   * The client validator accepts exactly the payloads whose authorized form the server
   * validator accepts and which besides name a client event, carry no malformed decision
   * reference, say what the table says, and keep to the exact fields of an ask event.
   */
  lemma ClientAcceptsExactly(p: Payload)
    ensures ValidateClient(p).None? <==>
            && p.Object?
            && ValidateServer(Authorized(p)).None?
            && ClientEventName(p.Get("event_name").s)
            && !BadChoice(p.Get("decision_id"), s => IsUuid(s))
            && Follows(p.Get("event_name").s, AsText(p.Get("surface")), AsText(p.Get("action_type")),
              AsText(p.Get("outcome")))
            && ExactFields(p.Get("event_name").s, p.keys)
  {
    if p.Object? {
      KeyLoopsAgree(p.keys);
      OtherValuesStay(p);
      hide ClientKeyReason, ServerKeyReason, EventName, ClientEventName, ValueReason, BadChoice, Follows,
        ExactFields, IsUuid;
    }
  }

  // Reasons.

  lemma {:induction false} FirstReasonIsOne(keys: seq<string>, reason: string -> Option<string>)
    ensures FirstReason(keys, reason).Some? ==> exists k :: k in keys && reason(k) == FirstReason(keys, reason)
  {
    if keys != [] && reason(keys[0]).None? {
      FirstReasonIsOne(keys[1..], reason);
    } else if keys != [] {
      assert keys[0] in keys;
    }
  }

  /** What a value of the payload must be wrong about for this reason. */
  predicate ValueDefect(p: Payload, reason: string)
    requires p.Object?
  {
    match reason
    case "invalid_surface" => BadChoice(p.Get("surface"), s => Surface(s))
    case "invalid_action_type" => BadChoice(p.Get("action_type"), s => ActionType(s))
    case "invalid_latency_band" => BadChoice(p.Get("latency_band"), s => LatencyBand(s))
    case "invalid_freshness_band" => BadChoice(p.Get("freshness_band"), s => FreshnessBand(s))
    case "invalid_outcome" => BadChoice(p.Get("outcome"), s => EventOutcome(s))
    case "invalid_error_code" => BadChoice(p.Get("error_code"), s => IsErrorCode(s))
    case "invalid_turn_number" => BadInt(p.Get("turn_number"), 0, 50)
    case "invalid_evidence_count" => BadInt(p.Get("evidence_count"), 0, 10000)
    case "invalid_event_id" => BadChoice(p.Get("event_id"), s => IsUuid(s))
    case "invalid_decision_reference" => BadChoice(p.Get("decision_id"), s => IsUuid(s))
    case "unknown_event" => !p.Get("event_name").Text? || !EventName(p.Get("event_name").s)
    case "server_owned_event" =>
      && p.Get("event_name").Text? && EventName(p.Get("event_name").s) && !ClientEventName(p.Get("event_name").s)
    case "contradictory_event" =>
      p.Get("event_name").Text? &&
        !(Follows(p.Get("event_name").s, AsText(p.Get("surface")), AsText(p.Get("action_type")),
                  AsText(p.Get("outcome"))) &&
          ExactFields(p.Get("event_name").s, p.keys))
    case _ => false
  }

  /** What a key must be for this reason. */
  predicate KeyDefect(key: string, reason: string, client: bool) {
    match reason
    case "forbidden_field" => ForbiddenField(Lower(Strip(key))) || ForbiddenField(key)
    case "server_owned_field" => ServerOwnedField(key) || (!client && key == "decision_id")
    case "unknown_property" => if client then !ClientField(key) else !ServerInputField(key)
    case _ => false
  }

  /** The payload has the defect that the reason names. */
  predicate HasDefect(p: Payload, reason: string, client: bool) {
    if p.NotObject? then reason == "payload_not_object"
    else ValueDefect(p, reason) || exists k :: k in p.keys && KeyDefect(k, reason, client)
  }

  lemma KeyReasonsAreTrue(key: string)
    ensures ClientKeyReason(key).Some? ==> KeyDefect(key, ClientKeyReason(key).value, true)
    ensures ServerKeyReason(key).Some? ==> KeyDefect(key, ServerKeyReason(key).value, false)
  {
    hide ForbiddenField, ServerOwnedField, ServerInputField, Strip, Lower;
  }

  lemma ValueReasonsAreTrue(p: Payload)
    requires p.Object?
    ensures ValueReason(p).Some? ==> ValueDefect(p, ValueReason(p).value)
  {
    hide BadChoice, BadInt, Payload.Get;
  }

  /** Whatever reason a validator gives, the payload has the defect that it names. */
  lemma ReasonsAreTrue(p: Payload)
    ensures ValidateClient(p).Some? ==> HasDefect(p, ValidateClient(p).value, true)
    ensures ValidateServer(p).Some? ==> HasDefect(p, ValidateServer(p).value, false)
  {
    hide KeyDefect, ClientKeyReason, ServerKeyReason, ValueReason, BadChoice, Payload.Get, Follows, ExactFields,
      EventName, ClientEventName, IsUuid;
    if p.Object? {
      FirstReasonIsOne(p.keys, key => ClientKeyReason(key));
      FirstReasonIsOne(p.keys, key => ServerKeyReason(key));
      forall k
        ensures ClientKeyReason(k).Some? ==> KeyDefect(k, ClientKeyReason(k).value, true)
        ensures ServerKeyReason(k).Some? ==> KeyDefect(k, ServerKeyReason(k).value, false)
      {
        KeyReasonsAreTrue(k);
      }
      ValueReasonsAreTrue(p);
    }
  }

  // Stored events.

  /** What `semantic_digest` hashes. */
  datatype Contents = Contents(
    schema: string,
    name: string,
    subjectHash: string,
    identityKind: string,
    decisionHash: Option<string>,
    surface: Option<string>,
    action: Option<string>,
    turnNumber: Option<int>,
    evidenceCount: Option<int>,
    latencyBand: Option<string>,
    freshnessBand: Option<string>,
    errorCode: Option<string>,
    contextVersion: Option<int>,
    market: Option<string>,
    outcome: Option<string>,
    consentState: string)

  /** A timestamp in ticks, or one without a time zone. */
  datatype Moment = Aware(instant: int) | Naive

  /** One stored event; the digest stands for the contents it was made of. */
  datatype Event = Event(id: string, occurredAt: Moment, dedupKey: string, contents: Contents, digest: Contents)

  /** `assert_stored_event_shape` returns. */
  predicate StoredShape(e: Event) {
    && e.contents.schema == EVENT_SCHEMA
    && EventName(e.contents.name)
    && IdentityKind(e.contents.identityKind)
    && ConsentState(e.contents.consentState)
    && IsHash(e.contents.subjectHash)
    && (e.contents.decisionHash.Some? ==> IsHash(e.contents.decisionHash.value))
    && (e.contents.market.Some? ==> IsMarket(e.contents.market.value))
    && e.digest == e.contents
  }
}
