/**
 * The signed cookie that keeps a shopper's analytics choice. The encoding of the claims and
 * the signature (HMAC, section 2 of RFC 2104) are unknown functions.
 */
module TrackingCookie {
  import opened Wrappers
  import opened Text
  import opened AnalyticsSchema
  import opened AnalyticsRepository
  import opened AnalyticsService
  import opened AnalyticsRuns

  const CONSENT_SCHEMA := "piqsavi.tracking_preference.v1"
  const CONSENT_VERSION := "1"
  const COOKIE_PREFIX := "p1"

  /** Text of the claims and back, and the signature when a secret is configured; None is a decoding error. */
  datatype Codec = Codec(encode: Payload -> string, decode: string -> Option<Payload>, sign: Option<string -> string>)

  const CLAIM_KEYS := {"choice", "schema", "version", "selected_at"}

  function ClaimsPayload(choice: string, selectedAt: string): Payload {
    Object(
      ["choice", "schema", "selected_at", "version"],
      map["choice" := Json.Text(choice), "schema" := Json.Text(CONSENT_SCHEMA),
          "selected_at" := Json.Text(selectedAt), "version" := Json.Text(CONSENT_VERSION)])
  }

  /** The claims of a decoded payload. */
  function ClaimsOf(p: Payload): Option<Claims> {
    if p.NotObject? || p.values.Keys != CLAIM_KEYS then None
    else if p.Get("schema") != Json.Text(CONSENT_SCHEMA) || p.Get("version") != Json.Text(CONSENT_VERSION) then None
    else if !p.Get("choice").Text? || !ConsentState(p.Get("choice").s) || !p.Get("selected_at").Text? then None
    else Some(Claims(p.Get("choice").s, p.Get("selected_at").s))
  }

  /** `preference_cookie_claims`. */
  function CookieClaims(codec: Codec, raw: Option<string>): Option<Claims> {
    if raw.None? || raw.value == "" then None
    else
      var parts := Split(raw.value, '.');
      if |parts| != 3 || parts[0] != COOKIE_PREFIX || codec.sign.None? then None
      else if parts[2] != codec.sign.value(parts[0] + "." + parts[1]) || codec.decode(parts[1]).None? then None
      else ClaimsOf(codec.decode(parts[1]).value)
  }

  /** `read_tracking_preference`. */
  function ReadCookie(codec: Codec, raw: Option<string>): TrackingPreference {
    ReadTrackingPreference(CookieClaims(codec, raw))
  }

  function SignedCookie(encoded: string, sign: string -> string): string {
    COOKIE_PREFIX + "." + encoded + "." + sign(COOKIE_PREFIX + "." + encoded)
  }

  /** The two cookies that a choice leaves, the subject's cleared when it is None. */
  datatype Applied = Applied(cookie: string, preference: TrackingPreference, subject: Option<string>)

  /** `apply_tracking_choice`; None is a refused choice or a missing secret. */
  function ApplyTrackingChoice(
    codec: Codec, choice: string, existing: Option<string>, selectedAt: string, freshSubject: string): Option<Applied>
  {
    if !ConsentState(choice) || codec.sign.None? then None
    else
      Some(Applied(
        SignedCookie(codec.encode(ClaimsPayload(choice, selectedAt)), codec.sign.value),
        TrackingPreference(choice, choice == "analytics_allowed", false, Some(selectedAt), true),
        if choice != "analytics_allowed" then None
        else if IsSubjectId(existing) then existing else Some(freshSubject)))
  }

  /** Decoding undoes encoding, and neither the encoding nor a signature has a dot. */
  ghost predicate Faithful(codec: Codec) {
    && (forall p: Payload :: codec.decode(codec.encode(p)) == Some(p) && '.' !in codec.encode(p))
    && (codec.sign.Some? ==> forall s :: '.' !in codec.sign.value(s))
  }

  lemma SplitSigned(encoded: string, signature: string)
    requires '.' !in encoded && '.' !in signature
    ensures Split(COOKIE_PREFIX + "." + encoded + "." + signature, '.') == [COOKIE_PREFIX, encoded, signature]
  {
    hide Split;
    SplitHead(COOKIE_PREFIX, encoded + ['.'] + signature, '.');
    SplitHead(encoded, signature, '.');
    SplitHead(signature, "", '.');
    assert COOKIE_PREFIX + "." + encoded + "." + signature == COOKIE_PREFIX + ['.'] + (encoded + ['.'] + signature);
  }

  lemma ClaimsReadBack(choice: string, selectedAt: string)
    requires ConsentState(choice)
    ensures ClaimsOf(ClaimsPayload(choice, selectedAt)) == Some(Claims(choice, selectedAt))
  {
    assert ClaimsPayload(choice, selectedAt).values.Keys == CLAIM_KEYS;
  }

  /**
   * The cookie that a choice leaves reads back as the preference that was answered; a subject
   * is kept or made exactly for the choice that allows analytics.
   */
  lemma ChoiceReadsBack(
    codec: Codec, choice: string, existing: Option<string>, selectedAt: string, freshSubject: string)
    requires Faithful(codec)
    ensures var applied := ApplyTrackingChoice(codec, choice, existing, selectedAt, freshSubject);
            && (applied.Some? <==>
                  codec.sign.Some? && (choice == "analytics_allowed" || choice == "essential_only"))
            && (applied.Some? ==>
                  && ReadCookie(codec, Some(applied.value.cookie)) == applied.value.preference
                  && applied.value.preference.choice == choice
                  && (applied.value.subject.Some? <==> applied.value.preference.analyticsAllowed)
                  && (applied.value.subject.Some? && IsSubjectId(existing) ==> applied.value.subject == existing)
                  && (IsSubjectId(Some(freshSubject)) && applied.value.subject.Some? ==>
                        IsSubjectId(applied.value.subject)))
  {
    hide Split, HexOfLength, ClaimsOf, ClaimsPayload;
    if ConsentState(choice) && codec.sign.Some? {
      var encoded := codec.encode(ClaimsPayload(choice, selectedAt));
      SplitSigned(encoded, codec.sign.value(COOKIE_PREFIX + "." + encoded));
      ClaimsReadBack(choice, selectedAt);
    }
  }

  /** The payload is the one that the writer makes of these claims, but for the order of its keys. */
  predicate Says(p: Payload, claims: Claims) {
    && p.Object? && p.values == ClaimsPayload(claims.choice, claims.selectedAt).values
    && (claims.choice == "analytics_allowed" || claims.choice == "essential_only")
  }

  lemma ClaimsOfExactly(p: Payload, claims: Claims)
    ensures ClaimsOf(p) == Some(claims) <==> Says(p, claims)
  {
    var made := ClaimsPayload(claims.choice, claims.selectedAt);
    assert made.values.Keys == CLAIM_KEYS;
    if ClaimsOf(p) == Some(claims) {
      assert p.values == made.values;
    }
    if Says(p, claims) {
      assert p.Get("schema") == Json.Text(CONSENT_SCHEMA) && p.Get("version") == Json.Text(CONSENT_VERSION);
      assert p.Get("choice") == Json.Text(claims.choice) && p.Get("selected_at") == Json.Text(claims.selectedAt);
    }
  }

  /** The text is the signed form of these claims. */
  ghost predicate Carries(codec: Codec, raw: string, encoded: string, claims: Claims) {
    && codec.sign.Some? && '.' !in encoded && '.' !in codec.sign.value(COOKIE_PREFIX + "." + encoded)
    && raw == SignedCookie(encoded, codec.sign.value)
    && codec.decode(encoded).Some? && Says(codec.decode(encoded).value, claims)
  }

  /** A text of three parts is those parts with dots between. */
  lemma ThreeParts(raw: string)
    requires |Split(raw, '.')| == 3
    ensures var parts := Split(raw, '.'); raw == parts[0] + "." + parts[1] + "." + parts[2]
  {
    JoinSplit(raw, '.');
    var parts := Split(raw, '.');
    assert parts == [parts[0], parts[1], parts[2]];
    JoinThree(parts[0], parts[1], parts[2]);
  }

  lemma JoinThree(a: string, b: string, c: string)
    ensures Join([a, b, c], '.') == a + "." + b + "." + c
  {
    assert [a, b, c][1..] == [b, c] && [b, c][1..] == [c];
    assert Join([b, c], '.') == b + ['.'] + c;
  }

  /**
   * A cookie has claims exactly when it is the signed form of a payload with the four claims,
   * the current schema and version, and a known choice. Any other text, an altered signature
   * or an altered payload, reads as silence.
   */
  lemma ClaimsExactlyWhen(codec: Codec, raw: Option<string>, claims: Claims)
    ensures CookieClaims(codec, raw) == Some(claims) <==>
            raw.Some? && exists encoded :: Carries(codec, raw.value, encoded, claims)
  {
    hide ClaimsOf, Says, Split;
    forall p: Payload
      ensures ClaimsOf(p) == Some(claims) <==> Says(p, claims)
    {
      ClaimsOfExactly(p, claims);
    }
    if CookieClaims(codec, raw) == Some(claims) {
      var parts := Split(raw.value, '.');
      ThreeParts(raw.value);
      assert Carries(codec, raw.value, parts[1], claims);
    }
    if raw.Some? {
      if encoded :| Carries(codec, raw.value, encoded, claims) {
        SplitSigned(encoded, codec.sign.value(COOKIE_PREFIX + "." + encoded));
      }
    }
  }

  /** The preference of each write was read from its cookie. */
  ghost predicate ReadFromCookies(codec: Codec, writes: seq<Write>, cookies: seq<Option<string>>) {
    && |cookies| == |writes|
    && forall i :: 0 <= i < |writes| ==> writes[i].context.preference == ReadCookie(codec, cookies[i])
  }

  /** Every row of a run goes back to a write behind a signed cookie that says "analytics_allowed". */
  lemma SignedChoiceStandsBehindEveryRow(
    codec: Codec, hash: string -> string, states: seq<Store>, writes: seq<Write>, cookies: seq<Option<string>>,
    n: nat, id: string) returns (i: nat, encoded: string, selectedAt: string)
    requires IsRun(hash, states, writes) && ReadFromCookies(codec, writes, cookies)
    requires n <= |writes| && id in states[n].rows
    ensures i < n && RecordedBy(hash, states, writes, i, states[n].rows[id]) && cookies[i].Some?
    ensures Carries(codec, cookies[i].value, encoded, Claims("analytics_allowed", selectedAt))
  {
    hide RecordedBy, Carries, CookieClaims;
    var claims := seq(|cookies|, k requires 0 <= k < |cookies| => CookieClaims(codec, cookies[k]));
    i := ConsentStandsBehindEveryRow(hash, states, writes, claims, n, id);
    selectedAt := claims[i].value.selectedAt;
    ClaimsExactlyWhen(codec, cookies[i], claims[i].value);
    encoded :| Carries(codec, cookies[i].value, encoded, claims[i].value);
  }
}
