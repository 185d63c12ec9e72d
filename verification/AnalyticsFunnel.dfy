/** Research and refinement observations, and the event ids that make them safe to replay. */
module AnalyticsFunnel {
  import opened Wrappers
  import opened Text
  import opened Numerals
  import opened AnalyticsSchema
  import opened AnalyticsRepository
  import opened AnalyticsService
  import opened AnalyticsRuns

  // Event ids.

  const PREFIX := "piqsavi.product_analytics.event_id.v1"

  function Material(parts: seq<string>): string {
    PREFIX + ['\n'] + Join(parts, '\n')
  }

  /** `deterministic_event_id`, over the name-based UUID of the material. */
  function DeterministicEventId(uuid: string -> string, parts: seq<string>): Option<string> {
    if parts == [] || "" in parts then None else Some(uuid(Material(parts)))
  }

  /** The lines that the parts make together. */
  function LinesOf(parts: seq<string>): seq<string> {
    if parts == [] then [] else Split(parts[0], '\n') + LinesOf(parts[1..])
  }

  lemma SplitCons(first: char, rest: string, c: char)
    ensures Split([first] + rest, c) ==
              if first == c then [""] + Split(rest, c) else [[first] + Split(rest, c)[0]] + Split(rest, c)[1..]
  {
    assert ([first] + rest)[1..] == rest;
  }

  lemma PutFirst(first: char, a: seq<string>, b: seq<string>)
    requires a != []
    ensures [[first] + (a + b)[0]] + (a + b)[1..] == [[first] + a[0]] + a[1..] + b
  {
    assert (a + b)[1..] == a[1..] + b;
  }

  lemma AcrossCons(first: char, x: string, y: string, c: char)
    requires Split(x + [c] + y, c) == Split(x, c) + Split(y, c)
    ensures Split([first] + (x + [c] + y), c) == Split([first] + x, c) + Split(y, c)
  {
    hide Split;
    SplitCons(first, x, c);
    SplitCons(first, x + [c] + y, c);
    if first == c {
      Regroup([""], Split(x, c), Split(y, c));
    } else {
      PutFirst(first, Split(x, c), Split(y, c));
    }
  }

  lemma {:induction false} SplitAcross(x: string, y: string, c: char)
    ensures Split(x + [c] + y, c) == Split(x, c) + Split(y, c)
  {
    hide Split;
    if x == "" {
      assert x + [c] + y == [c] + y;
      SplitCons(c, y, c);
      SplitHead("", "", c);
    } else {
      SplitAcross(x[1..], y, c);
      AcrossCons(x[0], x[1..], y, c);
      assert x == [x[0]] + x[1..];
      assert x + [c] + y == [x[0]] + (x[1..] + [c] + y);
    }
  }

  lemma {:induction false} SplitOfJoin(parts: seq<string>)
    requires parts != []
    ensures Split(Join(parts, '\n'), '\n') == LinesOf(parts)
  {
    if |parts| > 1 {
      SplitAcross(parts[0], Join(parts[1..], '\n'), '\n');
      SplitOfJoin(parts[1..]);
    } else {
      assert LinesOf(parts[1..]) == [];
    }
  }

  /** Two lists of parts make the same material exactly when they make the same lines. */
  lemma SameMaterialExactlyWhen(a: seq<string>, b: seq<string>)
    requires a != [] && b != []
    ensures Material(a) == Material(b) <==> LinesOf(a) == LinesOf(b)
  {
    SplitOfJoin(a);
    SplitOfJoin(b);
    JoinSplit(Join(a, '\n'), '\n');
    JoinSplit(Join(b, '\n'), '\n');
    var head := PREFIX + ['\n'];
    assert Material(a)[|head|..] == Join(a, '\n') && Material(b)[|head|..] == Join(b, '\n');
  }

  predicate OneLiners(parts: seq<string>) {
    forall i :: 0 <= i < |parts| ==> '\n' !in parts[i]
  }

  lemma {:induction false} OneLinersAreTheirLines(parts: seq<string>)
    requires OneLiners(parts)
    ensures LinesOf(parts) == parts
  {
    if parts != [] {
      SplitHead(parts[0], "", '\n');
      OneLinersAreTheirLines(parts[1..]);
      assert [parts[0]] + parts[1..] == parts;
    }
  }

  /** The material is injective on parts without newlines, and not beyond. */
  lemma MaterialIsInjective(a: seq<string>, b: seq<string>)
    requires a != [] && b != [] && OneLiners(a) && OneLiners(b)
    ensures Material(a) == Material(b) <==> a == b
    ensures Material(["a\nb"]) == Material(["a", "b"])
  {
    SameMaterialExactlyWhen(a, b);
    OneLinersAreTheirLines(a);
    OneLinersAreTheirLines(b);
    assert Join(["a\nb"], '\n') == "a\nb" == "a" + ['\n'] + "b";
    assert Join(["a", "b"], '\n') == "a" + ['\n'] + Join(["b"], '\n');
  }

  // What the research and refinement services set.

  datatype Continuation = Continuation(
    executionId: Option<string>,
    attempted: bool,
    executed: bool,
    completed: bool,
    blockReason: Option<string>)

  datatype Processing = Processing(
    lifecycle: Option<string>,
    proposalId: Option<string>,
    proposalStatus: Option<string>,
    authorizationCreated: bool,
    authorizationId: Option<string>,
    answerStatus: Option<string>,
    confirmed: Option<Continuation>,
    action: Option<string>,
    version: Option<int>,
    surface: Option<string>,
    applied: bool)

  /** One guarded emission: the properties without an id, and the identity parts if all are there. */
  datatype Emission = Emission(fields: Fields, parts: Option<seq<string>>)

  function EmissionOf(
    name: string, surface: string, action: string, outcome: string, errorCode: Option<string>,
    parts: Option<seq<string>>
  ): Emission {
    Emission(
      Fields(name, None, Some(surface), Some(action), None, None, None, None, errorCode, Some(outcome)), parts)
  }

  /** `_text`. */
  function Stripped(t: Option<string>): Option<string> {
    if t.Some? && Strip(t.value) != "" then Some(Strip(t.value)) else None
  }

  /** `_parts`. */
  function PartsOf(values: seq<Option<string>>): Option<seq<string>> {
    if values == [] then Some([])
    else if values[0] == None || values[0] == Some("") || PartsOf(values[1..]).None? then None
    else Some([values[0].value] + PartsOf(values[1..]).value)
  }

  function BoundedErrorCode(t: Option<string>): string {
    if t.Some? && IsErrorCode(t.value) then t.value else "research_unsuccessful"
  }

  function SurfaceOf(t: Option<string>): string {
    if t.Some? && t.value in {"results", "compare", "why", "ask"} then t.value else "results"
  }

  function LifecycleEmissions(p: Processing): seq<Emission> {
    (if (p.lifecycle == Some("propose") || p.lifecycle == Some("replace")) &&
      p.proposalStatus == Some("pending_confirmation") then
       [EmissionOf("research_proposed", "ask", "submit", "proposed", None, PartsOf([Stripped(p.proposalId)]))]
     else []) +
    (if (p.lifecycle == Some("confirm") || p.lifecycle == Some("reconfirm")) && p.authorizationCreated then
       [EmissionOf("research_confirmed", "ask", "submit", "confirmed", None, PartsOf([Stripped(p.authorizationId)]))]
     else []) +
    (if p.lifecycle == Some("cancel") && p.answerStatus == Some("cancelled") then
       [EmissionOf("research_declined", "ask", "submit", "declined", None, PartsOf([Stripped(p.proposalId)]))]
     else [])
  }

  function ExecutionEmissions(c: Continuation): seq<Emission> {
    var execution := Stripped(c.executionId);
    if !(c.attempted || c.executed) || execution.None? then []
    else
      [EmissionOf("research_started", "ask", "start", "started", None, Some([execution.value])),
       if c.completed then
         EmissionOf("research_completed", "ask", "complete", "completed", None, Some([execution.value]))
       else
         EmissionOf("research_failed", "ask", "submit", "failed", Some(BoundedErrorCode(c.blockReason)),
                    Some([execution.value, "failed"]))]
  }

  /** `emit_research_observations`. */
  function ResearchEmissions(p: Processing): seq<Emission> {
    LifecycleEmissions(p) + if p.confirmed.None? then [] else ExecutionEmissions(p.confirmed.value)
  }

  function IntText(n: int): string {
    if n < 0 then "-" + Decimal(-n) else Decimal(n)
  }

  function OptionText(n: Option<int>): Option<string> {
    if n.Some? then Some(IntText(n.value)) else None
  }

  /** `emit_refinement_observations`. */
  function RefinementEmissions(c: Context, p: Processing): seq<Emission> {
    if p.action != Some("refine_session_recommendation") then []
    else
      var status := if Stripped(p.answerStatus).Some? then Stripped(p.answerStatus) else Some("unknown");
      var identity := [c.decisionHash, OptionText(c.contextVersion), OptionText(p.version)];
      [EmissionOf("recommendation_refinement_attempted", SurfaceOf(p.surface), "submit", "attempted", None,
                  PartsOf(identity + [status, Some("attempted")]))] +
      if p.applied then
        [EmissionOf("recommendation_refinement_applied", SurfaceOf(p.surface), "submit", "applied", None,
                    PartsOf(identity + [Some("applied")]))]
      else []
  }

  // What is told, by name.

  /** The research service set out on an execution that has an id. */
  predicate Ran(p: Processing) {
    && p.confirmed.Some? && (p.confirmed.value.attempted || p.confirmed.value.executed)
    && p.confirmed.value.executionId.Some? && Strip(p.confirmed.value.executionId.value) != ""
  }

  /** What must have happened for an event of that name. */
  predicate Happened(p: Processing, name: string) {
    match name
    case "research_proposed" =>
      p.lifecycle in {Some("propose"), Some("replace")} && p.proposalStatus == Some("pending_confirmation")
    case "research_confirmed" => p.lifecycle in {Some("confirm"), Some("reconfirm")} && p.authorizationCreated
    case "research_declined" => p.lifecycle == Some("cancel") && p.answerStatus == Some("cancelled")
    case "research_started" => Ran(p)
    case "research_completed" => Ran(p) && p.confirmed.value.completed
    case "research_failed" => Ran(p) && !p.confirmed.value.completed
    case "recommendation_refinement_attempted" => p.action == Some("refine_session_recommendation")
    case "recommendation_refinement_applied" => p.action == Some("refine_session_recommendation") && p.applied
    case _ => false
  }

  /** The action and outcome that an event of that name says. */
  function Wording(name: string): (string, string) {
    match name
    case "research_proposed" => ("submit", "proposed")
    case "research_confirmed" => ("submit", "confirmed")
    case "research_declined" => ("submit", "declined")
    case "research_started" => ("start", "started")
    case "research_completed" => ("complete", "completed")
    case "research_failed" => ("submit", "failed")
    case "recommendation_refinement_attempted" => ("submit", "attempted")
    case _ => ("submit", "applied")
  }

  /** The identity parts: one id, or none when it is blank. */
  predicate OnePart(id: Option<string>, parts: Option<seq<string>>) {
    if id.Some? && Strip(id.value) != "" then parts == Some([Strip(id.value)]) else parts == None
  }

  /** An emission of the research service, checked against what it was made of. */
  predicate TrueResearch(p: Processing, e: Emission) {
    var name := e.fields.name;
    && Happened(p, name)
    && e.fields.surface == Some("ask") && e.fields.action == Some(Wording(name).0)
    && e.fields.outcome == Some(Wording(name).1)
    && (name == "research_proposed" || name == "research_declined" ==> OnePart(p.proposalId, e.parts))
    && (name == "research_confirmed" ==> OnePart(p.authorizationId, e.parts))
    && (name == "research_started" || name == "research_completed" ==>
          p.confirmed.Some? && OnePart(p.confirmed.value.executionId, e.parts))
    && (name == "research_failed" ==>
          && p.confirmed.Some? && p.confirmed.value.executionId.Some?
          && e.parts == Some([Strip(p.confirmed.value.executionId.value), "failed"])
          && var reason := p.confirmed.value.blockReason;
             e.fields.errorCode ==
             Some(if reason.Some? && IsErrorCode(reason.value) then reason.value else "research_unsuccessful"))
    && (name != "research_failed" ==> e.fields.errorCode == None)
  }

  function Named(emissions: seq<Emission>, name: string): nat {
    if emissions == [] then 0 else (if emissions[0].fields.name == name then 1 else 0) + Named(emissions[1..], name)
  }

  lemma {:induction false} NamedAppend(a: seq<Emission>, b: seq<Emission>, name: string)
    ensures Named(a + b, name) == Named(a, name) + Named(b, name)
  {
    if a == [] {
      assert a + b == b;
    } else {
      NamedAppend(a[1..], b, name);
      assert (a + b)[1..] == a[1..] + b;
    }
  }

  lemma OnePartIs(id: Option<string>)
    ensures OnePart(id, PartsOf([Stripped(id)]))
    ensures Stripped(id).Some? <==> id.Some? && Strip(id.value) != ""
    ensures Stripped(id).Some? ==> OnePart(id, Some([Stripped(id).value])) && Stripped(id).value == Strip(id.value)
  {
    PartsArePresent([Stripped(id)]);
    if Stripped(id).Some? {
      assert PartsOf([Stripped(id)]).value == [PartsOf([Stripped(id)]).value[0]];
    }
  }

  lemma LifecycleIsTrue(p: Processing, name: string)
    ensures forall i :: 0 <= i < |LifecycleEmissions(p)| ==> TrueResearch(p, LifecycleEmissions(p)[i])
    ensures Named(LifecycleEmissions(p), name) ==
            if name in {"research_proposed", "research_confirmed", "research_declined"} && Happened(p, name)
            then 1 else 0
  {
    OnePartIs(p.proposalId);
    OnePartIs(p.authorizationId);
    hide PartsOf, Stripped, OnePart, Strip, IsErrorCode;
  }

  lemma ExecutionIsTrue(p: Processing, name: string)
    requires p.confirmed.Some?
    ensures var es := ExecutionEmissions(p.confirmed.value);
            && (forall i :: 0 <= i < |es| ==> TrueResearch(p, es[i]))
            && Named(es, name) ==
               (if name in {"research_started", "research_completed", "research_failed"} && Happened(p, name)
                then 1 else 0)
            && (es != [] ==> es[0].fields.name == "research_started")
  {
    OnePartIs(p.confirmed.value.executionId);
    hide PartsOf, Stripped, OnePart, Strip, IsErrorCode;
    var es := ExecutionEmissions(p.confirmed.value);
    if es != [] {
      assert es == [es[0]] + [es[1]];
      NamedAppend([es[0]], [es[1]], name);
      assert [es[0]][1..] == [] && [es[1]][1..] == [];
    }
  }

  /**
   * The research emitter tells what happened: each event at most once, exactly when its
   * transition took place, in the wording of its name, under the id of that transition, and
   * the start of an execution before its end.
   */
  lemma ResearchIsToldTruly(p: Processing, name: string)
    ensures forall i :: 0 <= i < |ResearchEmissions(p)| ==> TrueResearch(p, ResearchEmissions(p)[i])
    ensures Named(ResearchEmissions(p), name) == if StartsWith(name, "research_") && Happened(p, name) then 1 else 0
    ensures Ran(p) ==>
              && |ResearchEmissions(p)| >= 2
              && ResearchEmissions(p)[|ResearchEmissions(p)| - 2].fields.name == "research_started"
  {
    hide LifecycleEmissions, ExecutionEmissions, TrueResearch;
    LifecycleIsTrue(p, name);
    ResearchNames(name);
    if p.confirmed.Some? {
      var a, b := LifecycleEmissions(p), ExecutionEmissions(p.confirmed.value);
      ExecutionIsTrue(p, name);
      NamedAppend(a, b, name);
      if Ran(p) {
        RanTells(p);
        assert (a + b)[|a|] == b[0];
      }
    } else {
      NamedAppend(LifecycleEmissions(p), [], name);
    }
  }

  lemma RanTells(p: Processing)
    requires Ran(p)
    ensures |ExecutionEmissions(p.confirmed.value)| == 2
  {
    OnePartIs(p.confirmed.value.executionId);
    hide Stripped, Strip, IsErrorCode;
  }

  const RESEARCH_EVENTS := {
    "research_proposed", "research_confirmed", "research_declined", "research_started", "research_completed",
    "research_failed"}

  lemma ResearchNames(name: string)
    ensures forall p :: StartsWith(name, "research_") && Happened(p, name) ==> name in RESEARCH_EVENTS
    ensures name in RESEARCH_EVENTS ==> StartsWith(name, "research_")
  {
    assert "recommendation_refinement_attempted"[..9] == "recommend";
    assert "recommendation_refinement_applied"[..9] == "recommend";
    assert "research_proposed"[..9] == "research_" && "research_confirmed"[..9] == "research_";
    assert "research_declined"[..9] == "research_" && "research_started"[..9] == "research_";
    assert "research_completed"[..9] == "research_" && "research_failed"[..9] == "research_";
  }

  /** The text of a part of a refinement's identity. */
  predicate RefinementParts(c: Context, p: Processing, name: string, parts: Option<seq<string>>) {
    var known := c.decisionHash.Some? && c.decisionHash.value != "" && c.contextVersion.Some? && p.version.Some?;
    && (parts.Some? <==> known)
    && (known ==>
          && |parts.value| == (if name == "recommendation_refinement_attempted" then 5 else 4)
          && parts.value[0] == c.decisionHash.value
          && parts.value[1] == IntText(c.contextVersion.value) && parts.value[2] == IntText(p.version.value)
          && (name == "recommendation_refinement_attempted" ==>
                && (p.answerStatus.Some? && Strip(p.answerStatus.value) != "" ==>
                      parts.value[3] == Strip(p.answerStatus.value))
                && (p.answerStatus.None? || Strip(p.answerStatus.value) == "" ==> parts.value[3] == "unknown")
                && parts.value[4] == "attempted")
          && (name != "recommendation_refinement_attempted" ==> parts.value[3] == "applied"))
  }

  predicate TrueRefinement(c: Context, p: Processing, e: Emission) {
    var name := e.fields.name;
    && Happened(p, name) && e.fields.errorCode == None
    && e.fields.action == Some(Wording(name).0) && e.fields.outcome == Some(Wording(name).1)
    && e.fields.surface ==
       (if p.surface in {Some("results"), Some("compare"), Some("why"), Some("ask")} then p.surface
        else Some("results"))
    && RefinementParts(c, p, name, e.parts)
  }

  lemma IntTextIsText(n: int)
    ensures IntText(n) != ""
  {
  }

  lemma RefinementIdentity(c: Context, p: Processing)
    requires Happened(p, "recommendation_refinement_attempted")
    ensures |RefinementEmissions(c, p)| >= 1
    ensures RefinementParts(c, p, "recommendation_refinement_attempted", RefinementEmissions(c, p)[0].parts)
    ensures p.applied ==>
              && |RefinementEmissions(c, p)| == 2
              && RefinementParts(c, p, "recommendation_refinement_applied", RefinementEmissions(c, p)[1].parts)
  {
    var status := if Stripped(p.answerStatus).Some? then Stripped(p.answerStatus) else Some("unknown");
    var identity := [c.decisionHash, OptionText(c.contextVersion), OptionText(p.version)];
    OnePartIs(p.answerStatus);
    if c.contextVersion.Some? {
      IntTextIsText(c.contextVersion.value);
    }
    if p.version.Some? {
      IntTextIsText(p.version.value);
    }
    var a, b := identity + [status, Some("attempted")], identity + [Some("applied")];
    PartsArePresent(a);
    PartsArePresent(b);
    assert a[0] == c.decisionHash && a[1] == OptionText(c.contextVersion) && a[2] == OptionText(p.version);
    assert a[3] == status && a[4] == Some("attempted");
    assert b[0] == c.decisionHash && b[1] == OptionText(c.contextVersion) && b[2] == OptionText(p.version);
    assert b[3] == Some("applied");
    hide PartsOf, Stripped, IntText, SurfaceOf, Strip;
  }

  /** The refinement emitter tells an attempt exactly when one was made, then a success exactly when it was applied. */
  lemma RefinementIsToldTruly(c: Context, p: Processing)
    ensures var es := RefinementEmissions(c, p);
            && (forall i :: 0 <= i < |es| ==> TrueRefinement(c, p, es[i]))
            && |es| == (if !Happened(p, "recommendation_refinement_attempted") then 0 else if p.applied then 2 else 1)
            && (es != [] ==> es[0].fields.name == "recommendation_refinement_attempted")
            && (|es| == 2 ==> es[1].fields.name == "recommendation_refinement_applied")
  {
    if Happened(p, "recommendation_refinement_attempted") {
      RefinementIdentity(c, p);
    }
    hide PartsOf, Stripped, RefinementParts, OptionText, Strip;
  }

  // Emitting.

  /** One emission in its context. */
  datatype Step = Step(context: Context, emission: Emission)

  /** The id of `_safe_server_event`: from the name, the subject and the parts, or none. */
  function StepId(uuid: string -> string, step: Step): Option<string> {
    var subject := if step.context.subjectId.Some? then step.context.subjectId.value else "";
    if step.emission.parts.None? || step.emission.parts.value == [] then None
    else DeterministicEventId(uuid, [step.emission.fields.name, subject] + step.emission.parts.value)
  }

  function WriteOf(uuid: string -> string, step: Step, env: Env): Write {
    FromServer(step.emission.fields.(id := StepId(uuid, step)), step.context, env)
  }

  /** `_safe_server_event`, which swallows every failure. */
  function Emitted(uuid: string -> string, hash: string -> string, s: Store, step: Step, env: Env): Store {
    Apply(hash, s, WriteOf(uuid, step, env)).0
  }

  function EmittedAll(uuid: string -> string, hash: string -> string, s: Store, steps: seq<Step>, envs: seq<Env>): Store
    requires |steps| <= |envs|
  {
    if steps == [] then s
    else
      var n := |steps| - 1;
      Emitted(uuid, hash, EmittedAll(uuid, hash, s, steps[..n], envs), steps[n], envs[n])
  }

  /** The step passes validator, consent, subject and shape. */
  predicate Keeps(uuid: string -> string, hash: string -> string, step: Step) {
    var e := Candidate(hash, WriteOf(uuid, step, Env("", 0, true)));
    e.Some? && StoredShape(e.value)
  }

  /** What is kept carries an id from its parts. */
  predicate Identified(uuid: string -> string, step: Step) {
    StepId(uuid, step).Some? && StepId(uuid, step).value != ""
  }

  lemma EmittedOutcome(uuid: string -> string, hash: string -> string, s: Store, step: Step, env: Env)
    requires s.Valid()
    ensures var id := if Identified(uuid, step) then StepId(uuid, step).value else env.freshId;
            var s' := Emitted(uuid, hash, s, step, env);
            && s'.Valid() && Extends(s, s')
            && (Keeps(uuid, hash, step) && env.up && id !in s.rows ==>
                  id in s'.rows && |s'.order| == |s.order| + 1 && forall x :: x in s'.rows ==> x in s.rows || x == id)
            && (!(Keeps(uuid, hash, step) && env.up && id !in s.rows) ==> s' == s)
  {
    hide InVocabulary, HexOfLength, StoredShape, StepId, Apply, Store.Valid, Extends;
    RecordedExactlyWhenNew(hash, s, WriteOf(uuid, step, env));
    KeepsIsCandidate(uuid, hash, step, env);
  }

  /** What a step asks to keep does not depend on the surroundings but for a fresh id and the time. */
  lemma KeepsIsCandidate(uuid: string -> string, hash: string -> string, step: Step, env: Env)
    ensures var e := Candidate(hash, WriteOf(uuid, step, env));
            && (e.Some? && StoredShape(e.value) <==> Keeps(uuid, hash, step))
            && (e.Some? ==>
                  e.value.id == if Identified(uuid, step) then StepId(uuid, step).value else env.freshId)
  {
    hide InVocabulary, HexOfLength, StepId, EventName, IsHash, IsMarket;
  }

  ghost predicate AllUp(envs: seq<Env>) {
    forall i :: 0 <= i < |envs| ==> envs[i].up
  }

  lemma {:induction false} EmittingExtends(
    uuid: string -> string, hash: string -> string, s: Store, steps: seq<Step>, envs: seq<Env>)
    requires s.Valid() && |steps| <= |envs|
    ensures EmittedAll(uuid, hash, s, steps, envs).Valid() && Extends(s, EmittedAll(uuid, hash, s, steps, envs))
  {
    hide Emitted, Store.Valid;
    if steps == [] {
      assert Extends(s, s);
    } else {
      hide Extends;
      var n := |steps| - 1;
      var t := EmittedAll(uuid, hash, s, steps[..n], envs);
      EmittingExtends(uuid, hash, s, steps[..n], envs);
      EmittedOutcome(uuid, hash, t, steps[n], envs[n]);
      ExtendsTransitive(s, t, Emitted(uuid, hash, t, steps[n], envs[n]));
    }
  }

  /** What the step would keep is there already. */
  ghost predicate Settled(uuid: string -> string, hash: string -> string, s: Store, step: Step) {
    Keeps(uuid, hash, step) && Identified(uuid, step) ==> StepId(uuid, step).value in s.rows
  }

  lemma {:induction false} FirstPassSettles(
    uuid: string -> string, hash: string -> string, s: Store, steps: seq<Step>, envs: seq<Env>, i: nat)
    requires s.Valid() && |steps| <= |envs| && AllUp(envs) && i < |steps|
    ensures Settled(uuid, hash, EmittedAll(uuid, hash, s, steps, envs), steps[i])
  {
    hide Emitted, Keeps, StepId;
    var n := |steps| - 1;
    var t := EmittedAll(uuid, hash, s, steps[..n], envs);
    EmittingExtends(uuid, hash, s, steps[..n], envs);
    EmittedOutcome(uuid, hash, t, steps[n], envs[n]);
    if i < n {
      FirstPassSettles(uuid, hash, s, steps[..n], envs, i);
      if Identified(uuid, steps[i]) {
        assert SameRow(t, Emitted(uuid, hash, t, steps[n], envs[n]), StepId(uuid, steps[i]).value);
      }
    }
  }

  /** How many of the steps are kept under a fresh id. */
  function Unidentified(uuid: string -> string, hash: string -> string, steps: seq<Step>): nat {
    if steps == [] then 0
    else
      var n := |steps| - 1;
      Unidentified(uuid, hash, steps[..n]) + if Keeps(uuid, hash, steps[n]) && !Identified(uuid, steps[n]) then 1 else 0
  }

  /** The i-th id is in no row and no other one. */
  ghost predicate FreshAt(s: Store, envs: seq<Env>, i: int) {
    0 <= i < |envs| ==>
      envs[i].freshId !in s.rows && forall j :: 0 <= j < i ==> envs[j].freshId != envs[i].freshId
  }

  /** Through settled steps a store grows by one row under a fresh id for each unidentified one. */
  lemma {:induction false} SettledGrowth(
    uuid: string -> string, hash: string -> string, s: Store, steps: seq<Step>, envs: seq<Env>)
    requires s.Valid() && |steps| <= |envs| && AllUp(envs)
    requires forall i :: 0 <= i < |steps| ==> Settled(uuid, hash, s, steps[i])
    requires forall i :: FreshAt(s, envs, i)
    ensures |EmittedAll(uuid, hash, s, steps, envs).order| == |s.order| + Unidentified(uuid, hash, steps)
    ensures forall id :: id in EmittedAll(uuid, hash, s, steps, envs).rows ==>
              id in s.rows || exists k :: 0 <= k < |steps| && envs[k].freshId == id
  {
    hide Emitted, Keeps, StepId;
    if steps != [] {
      var n := |steps| - 1;
      var t := EmittedAll(uuid, hash, s, steps[..n], envs);
      SettledGrowth(uuid, hash, s, steps[..n], envs);
      EmittingExtends(uuid, hash, s, steps[..n], envs);
      EmittedOutcome(uuid, hash, t, steps[n], envs[n]);
      assert FreshAt(s, envs, n) && Settled(uuid, hash, s, steps[n]);
      if Keeps(uuid, hash, steps[n]) && Identified(uuid, steps[n]) {
        assert SameRow(s, t, StepId(uuid, steps[n]).value);
      }
    }
  }

  /**
   * Emitting again in the same contexts, when storage answered the first time, adds one row
   * for each kept emission without identity parts and no other row. So the store is left
   * exactly as it was exactly when every kept emission has its identity parts.
   */
  lemma ReplayAddsOnlyUnidentified(
    uuid: string -> string, hash: string -> string, s: Store, steps: seq<Step>, first: seq<Env>, second: seq<Env>)
    requires s.Valid() && |steps| <= |first| && |steps| <= |second| && AllUp(first) && AllUp(second)
    requires forall i :: FreshAt(EmittedAll(uuid, hash, s, steps, first), second, i)
    ensures var once := EmittedAll(uuid, hash, s, steps, first);
            var twice := EmittedAll(uuid, hash, once, steps, second);
            && |twice.order| == |once.order| + Unidentified(uuid, hash, steps)
            && (twice == once <==>
              forall i :: 0 <= i < |steps| && Keeps(uuid, hash, steps[i]) ==> Identified(uuid, steps[i]))
  {
    hide Emitted, Keeps, Identified, FreshAt, AllUp;
    var once := EmittedAll(uuid, hash, s, steps, first);
    EmittingExtends(uuid, hash, s, steps, first);
    forall i | 0 <= i < |steps|
      ensures Settled(uuid, hash, once, steps[i])
    {
      FirstPassSettles(uuid, hash, s, steps, first, i);
    }
    SettledGrowth(uuid, hash, once, steps, second);
    NoneUnidentified(uuid, hash, steps);
    if Unidentified(uuid, hash, steps) == 0 {
      SettledStays(uuid, hash, once, steps, second);
    }
  }

  lemma {:induction false} NoneUnidentified(uuid: string -> string, hash: string -> string, steps: seq<Step>)
    ensures Unidentified(uuid, hash, steps) == 0 <==>
            forall i :: 0 <= i < |steps| && Keeps(uuid, hash, steps[i]) ==> Identified(uuid, steps[i])
  {
    hide Keeps, Identified;
    if steps != [] {
      NoneUnidentified(uuid, hash, steps[..|steps| - 1]);
    }
  }

  /** Settled and identified steps change nothing, whatever fails and whenever they come. */
  lemma {:induction false} SettledStays(
    uuid: string -> string, hash: string -> string, s: Store, steps: seq<Step>, envs: seq<Env>)
    requires s.Valid() && |steps| <= |envs|
    requires forall i :: 0 <= i < |steps| ==> Settled(uuid, hash, s, steps[i])
    requires forall i :: 0 <= i < |steps| && Keeps(uuid, hash, steps[i]) ==> Identified(uuid, steps[i])
    ensures EmittedAll(uuid, hash, s, steps, envs) == s
  {
    hide Emitted, Keeps, Identified, StepId;
    if steps != [] {
      var n := |steps| - 1;
      SettledStays(uuid, hash, s, steps[..n], envs);
      assert Settled(uuid, hash, s, steps[n]);
      EmittedOutcome(uuid, hash, s, steps[n], envs[n]);
    }
  }

  /** With all identity parts present a replay changes nothing even when storage fails on it. */
  lemma ReplayChangesNothing(
    uuid: string -> string, hash: string -> string, s: Store, steps: seq<Step>, first: seq<Env>, second: seq<Env>)
    requires s.Valid() && |steps| <= |first| && |steps| <= |second| && AllUp(first)
    requires forall i :: 0 <= i < |steps| && Keeps(uuid, hash, steps[i]) ==> Identified(uuid, steps[i])
    ensures var once := EmittedAll(uuid, hash, s, steps, first);
            EmittedAll(uuid, hash, once, steps, second) == once
  {
    hide Emitted, Keeps, Identified, AllUp;
    EmittingExtends(uuid, hash, s, steps, first);
    forall i | 0 <= i < |steps|
      ensures Settled(uuid, hash, EmittedAll(uuid, hash, s, steps, first), steps[i])
    {
      FirstPassSettles(uuid, hash, s, steps, first, i);
    }
    SettledStays(uuid, hash, EmittedAll(uuid, hash, s, steps, first), steps, second);
  }

  // The emissions of the two services.

  /** Properties in the vocabulary, and identity parts that are there. */
  ghost predicate GoodEmission(e: Emission) {
    && e.fields.name != "" && e.fields.id.None?
    && InVocabulary(e.fields)
    && (e.parts.Some? ==> e.parts.value != [] && "" !in e.parts.value)
  }

  lemma {:induction false} PartsArePresent(values: seq<Option<string>>)
    ensures PartsOf(values).Some? <==> forall i :: 0 <= i < |values| ==> values[i].Some? && values[i].value != ""
    ensures PartsOf(values).Some? ==>
              && |PartsOf(values).value| == |values| && "" !in PartsOf(values).value
              && forall i :: 0 <= i < |values| ==> values[i] == Some(PartsOf(values).value[i])
  {
    if values != [] {
      PartsArePresent(values[1..]);
    }
  }

  lemma BoundedCodeIsErrorCode(t: Option<string>)
    ensures IsErrorCode(BoundedErrorCode(t))
  {
    assert WithoutNewline("research_unsuccessful") == "research_unsuccessful";
  }

  lemma SurfaceIsSurface(t: Option<string>)
    ensures Surface(SurfaceOf(t))
  {
  }

  lemma AskEmissionIsGood(
    name: string, action: string, outcome: string, errorCode: Option<string>, parts: Option<seq<string>>)
    requires name != "" && EventName(name) && ActionType(action) && EventOutcome(outcome)
    requires errorCode.Some? ==> IsErrorCode(errorCode.value)
    requires parts.Some? ==> parts.value != [] && "" !in parts.value
    ensures GoodEmission(EmissionOf(name, "ask", action, outcome, errorCode, parts))
  {
    hide EventName, ActionType, EventOutcome, IsErrorCode;
  }

  lemma LifecycleIsGood(p: Processing)
    ensures forall i :: 0 <= i < |LifecycleEmissions(p)| ==> GoodEmission(LifecycleEmissions(p)[i])
  {
    hide PartsOf, Stripped, GoodEmission, EmissionOf;
    PartsArePresent([Stripped(p.proposalId)]);
    PartsArePresent([Stripped(p.authorizationId)]);
    AskEmissionIsGood("research_proposed", "submit", "proposed", None, PartsOf([Stripped(p.proposalId)]));
    AskEmissionIsGood("research_confirmed", "submit", "confirmed", None, PartsOf([Stripped(p.authorizationId)]));
    AskEmissionIsGood("research_declined", "submit", "declined", None, PartsOf([Stripped(p.proposalId)]));
  }

  lemma ExecutionIsGood(c: Continuation)
    ensures forall i :: 0 <= i < |ExecutionEmissions(c)| ==> GoodEmission(ExecutionEmissions(c)[i])
  {
    BoundedCodeIsErrorCode(c.blockReason);
    hide IsErrorCode, BoundedErrorCode;
  }

  lemma ResearchIsGood(p: Processing)
    ensures forall i :: 0 <= i < |ResearchEmissions(p)| ==> GoodEmission(ResearchEmissions(p)[i])
  {
    hide GoodEmission, LifecycleEmissions, ExecutionEmissions;
    LifecycleIsGood(p);
    if p.confirmed.Some? {
      ExecutionIsGood(p.confirmed.value);
    }
  }

  lemma RefinementIsGood(c: Context, p: Processing)
    ensures forall i :: 0 <= i < |RefinementEmissions(c, p)| ==> GoodEmission(RefinementEmissions(c, p)[i])
  {
    var status := if Stripped(p.answerStatus).Some? then Stripped(p.answerStatus) else Some("unknown");
    var identity := [c.decisionHash, OptionText(c.contextVersion), OptionText(p.version)];
    PartsArePresent(identity + [status, Some("attempted")]);
    PartsArePresent(identity + [Some("applied")]);
    SurfaceIsSurface(p.surface);
    hide PartsOf, Stripped, Surface, SurfaceOf, OptionText;
  }

  ghost predicate Uuids(uuid: string -> string) {
    forall m :: IsUuid(uuid(m))
  }

  lemma GoodStepHasGoodId(uuid: string -> string, step: Step)
    requires Uuids(uuid) && GoodEmission(step.emission)
    ensures StepId(uuid, step).Some? ==> IsUuid(StepId(uuid, step).value) && Identified(uuid, step)
    ensures step.emission.parts.Some? && step.context.subjectId.Some? && step.context.subjectId.value != "" ==>
              StepId(uuid, step).Some?
    ensures InVocabulary(step.emission.fields.(id := StepId(uuid, step)))
  {
    hide EventName, Surface, ActionType, LatencyBand, FreshnessBand, EventOutcome, IsErrorCode, Material;
    if StepId(uuid, step).Some? {
      var subject := if step.context.subjectId.Some? then step.context.subjectId.value else "";
      assert IsUuid(uuid(Material([step.emission.fields.name, subject] + step.emission.parts.value)));
      assert !IsUuid("");
    }
  }

  /** One observation of the processing of a request. */
  datatype Observation =
    | Research(context: Context, processing: Processing)
    | Refinement(context: Context, processing: Processing)

  function EmissionsOf(o: Observation): seq<Emission> {
    match o
    case Research(_, processing) => ResearchEmissions(processing)
    case Refinement(context, processing) => RefinementEmissions(context, processing)
  }

  function Within(context: Context, emissions: seq<Emission>): (steps: seq<Step>)
    ensures |steps| == |emissions|
  {
    seq(|emissions|, i requires 0 <= i < |emissions| => Step(context, emissions[i]))
  }

  function StepsOf(observations: seq<Observation>): seq<Step> {
    if observations == [] then []
    else Within(observations[0].context, EmissionsOf(observations[0])) + StepsOf(observations[1..])
  }

  lemma {:induction false} ObservedStepsAreGood(observations: seq<Observation>)
    ensures forall i :: 0 <= i < |StepsOf(observations)| ==> GoodEmission(StepsOf(observations)[i].emission)
  {
    hide GoodEmission, ResearchEmissions, RefinementEmissions;
    if observations != [] {
      var o := observations[0];
      match o {
        case Research(_, processing) => ResearchIsGood(processing);
        case Refinement(context, processing) => RefinementIsGood(context, processing);
      }
      ObservedStepsAreGood(observations[1..]);
    }
  }

  /** What the two emitters send, for any observations, is never rejected by the validator. */
  lemma EmissionsAreNeverRejected(
    uuid: string -> string, hash: string -> string, s: Store, observations: seq<Observation>, i: nat, env: Env)
    requires Uuids(uuid) && i < |StepsOf(observations)|
    ensures var r := Apply(hash, s, WriteOf(uuid, StepsOf(observations)[i], env)).1;
            r.Ok? ==> r.value.status != SchemaRejected
  {
    hide InVocabulary, ValidateServer, StoredShape, HexOfLength, StepId, Compact, StepsOf, GoodEmission, Uuids;
    ObservedStepsAreGood(observations);
    var step := StepsOf(observations)[i];
    GoodStepHasGoodId(uuid, step);
    GoodEmissionFields(step.emission);
    ServerAcceptsExactly(step.emission.fields.(id := StepId(uuid, step)));
  }

  lemma GoodEmissionFields(e: Emission)
    requires GoodEmission(e)
    ensures e.fields.name != "" && InVocabulary(e.fields)
  {
    hide InVocabulary;
  }

  /** The step tells this of that research execution. */
  predicate Tells(step: Step, name: string, execution: string) {
    && step.emission.fields.name == name
    && step.emission.parts.Some? && step.emission.parts.value != [] && step.emission.parts.value[0] == execution
  }

  function Told(steps: seq<Step>, name: string, execution: string): nat {
    if steps == [] then 0 else (if Tells(steps[0], name, execution) then 1 else 0) + Told(steps[1..], name, execution)
  }

  lemma {:induction false} ToldAppend(a: seq<Step>, b: seq<Step>, name: string, execution: string)
    ensures Told(a + b, name, execution) == Told(a, name, execution) + Told(b, name, execution)
  {
    hide Tells;
    if a == [] {
      assert a + b == b;
    } else {
      assert (a + b)[1..] == a[1..] + b;
      ToldAppend(a[1..], b, name, execution);
    }
  }

  lemma {:induction false} NothingTold(steps: seq<Step>, name: string, execution: string)
    requires forall i :: 0 <= i < |steps| ==> steps[i].emission.fields.name != name
    ensures Told(steps, name, execution) == 0
  {
    if steps != [] {
      NothingTold(steps[1..], name, execution);
    }
  }

  /** Starts less outcomes. */
  function Pending(steps: seq<Step>, execution: string): int {
    Told(steps, "research_started", execution) -
    (Told(steps, "research_completed", execution) + Told(steps, "research_failed", execution))
  }

  lemma PendingAppend(a: seq<Step>, b: seq<Step>, execution: string)
    ensures Pending(a + b, execution) == Pending(a, execution) + Pending(b, execution)
  {
    ToldAppend(a, b, "research_started", execution);
    ToldAppend(a, b, "research_completed", execution);
    ToldAppend(a, b, "research_failed", execution);
  }

  predicate ResearchResult(name: string) {
    name == "research_started" || name == "research_completed" || name == "research_failed"
  }

  lemma NothingPending(steps: seq<Step>, execution: string)
    requires forall i :: 0 <= i < |steps| ==> !ResearchResult(steps[i].emission.fields.name)
    ensures Pending(steps, execution) == 0
  {
    NothingTold(steps, "research_started", execution);
    NothingTold(steps, "research_completed", execution);
    NothingTold(steps, "research_failed", execution);
  }

  lemma OtherEmissions(context: Context, p: Processing)
    ensures forall i :: 0 <= i < |LifecycleEmissions(p)| ==> !ResearchResult(LifecycleEmissions(p)[i].fields.name)
    ensures forall i :: 0 <= i < |RefinementEmissions(context, p)| ==>
              !ResearchResult(RefinementEmissions(context, p)[i].fields.name)
  {
    hide PartsOf, Stripped, SurfaceOf, OptionText;
  }

  lemma ExecutionIsPaired(context: Context, c: Continuation, execution: string)
    ensures Pending(Within(context, ExecutionEmissions(c)), execution) == 0
  {
    hide Stripped, BoundedErrorCode;
    var es := ExecutionEmissions(c);
    var steps := Within(context, es);
    if es != [] {
      assert steps == [steps[0]] + [steps[1]];
      PendingAppend([steps[0]], [steps[1]], execution);
      assert [steps[0]][1..] == [] && [steps[1]][1..] == [];
    }
  }

  lemma WithinAppend(context: Context, a: seq<Emission>, b: seq<Emission>)
    ensures Within(context, a + b) == Within(context, a) + Within(context, b)
  {
  }

  lemma ObservationIsPaired(o: Observation, execution: string)
    ensures Pending(Within(o.context, EmissionsOf(o)), execution) == 0
  {
    hide Pending, LifecycleEmissions, ExecutionEmissions, RefinementEmissions, ResearchResult;
    OtherEmissions(o.context, o.processing);
    if o.Refinement? {
      NothingPending(Within(o.context, EmissionsOf(o)), execution);
    } else {
      var first := LifecycleEmissions(o.processing);
      NothingPending(Within(o.context, first), execution);
      if o.processing.confirmed.Some? {
        var second := ExecutionEmissions(o.processing.confirmed.value);
        WithinAppend(o.context, first, second);
        PendingAppend(Within(o.context, first), Within(o.context, second), execution);
        ExecutionIsPaired(o.context, o.processing.confirmed.value, execution);
      } else {
        assert first + [] == first;
      }
    }
  }

  /** Over any observations, every research execution is told to have started as often as it is told to have ended. */
  lemma {:induction false} StartsMatchOutcomes(observations: seq<Observation>, execution: string)
    ensures Told(StepsOf(observations), "research_started", execution) ==
            Told(StepsOf(observations), "research_completed", execution) +
            Told(StepsOf(observations), "research_failed", execution)
  {
    hide Within, EmissionsOf, Told;
    if observations == [] {
      NothingPending([], execution);
    } else {
      var o := observations[0];
      ObservationIsPaired(o, execution);
      PendingAppend(Within(o.context, EmissionsOf(o)), StepsOf(observations[1..]), execution);
      StartsMatchOutcomes(observations[1..], execution);
    }
  }

  lemma KeptHasSubject(uuid: string -> string, hash: string -> string, step: Step)
    requires Keeps(uuid, hash, step)
    ensures step.context.subjectId.Some? && step.context.subjectId.value != ""
  {
    hide InVocabulary, StoredShape, StepId;
  }

  /**
   * Replaying any list of research and refinement observations, in the same contexts and
   * with all identity parts present, leaves the store exactly as the first pass did.
   */
  lemma ReplayedObservationsChangeNothing(
    uuid: string -> string, hash: string -> string, s: Store, observations: seq<Observation>, first: seq<Env>,
    second: seq<Env>)
    requires Uuids(uuid) && s.Valid() && AllUp(first)
    requires |StepsOf(observations)| <= |first| && |StepsOf(observations)| <= |second|
    requires forall i :: 0 <= i < |StepsOf(observations)| ==> StepsOf(observations)[i].emission.parts.Some?
    ensures var once := EmittedAll(uuid, hash, s, StepsOf(observations), first);
            EmittedAll(uuid, hash, once, StepsOf(observations), second) == once
  {
    hide Keeps, Identified, GoodEmission, StepId, StepsOf, EmittedAll, AllUp, Uuids;
    var steps := StepsOf(observations);
    ObservedStepsAreGood(observations);
    forall i | 0 <= i < |steps| && Keeps(uuid, hash, steps[i])
      ensures Identified(uuid, steps[i])
    {
      KeptHasSubject(uuid, hash, steps[i]);
      GoodStepHasGoodId(uuid, steps[i]);
    }
    ReplayChangesNothing(uuid, hash, s, steps, first, second);
  }

  /** With an injective UUID, two steps share an id exactly when name, subject and parts make the same lines. */
  lemma SameIdExactlyWhen(uuid: string -> string, a: Step, b: Step)
    requires forall m, n :: uuid(m) == uuid(n) ==> m == n
    requires StepId(uuid, a).Some? && StepId(uuid, b).Some?
    ensures StepId(uuid, a) == StepId(uuid, b) <==>
              LinesOf([a.emission.fields.name, a.context.subjectId.value] + a.emission.parts.value) ==
              LinesOf([b.emission.fields.name, b.context.subjectId.value] + b.emission.parts.value)
  {
    hide Material, LinesOf;
    SameMaterialExactlyWhen([a.emission.fields.name, a.context.subjectId.value] + a.emission.parts.value,
                            [b.emission.fields.name, b.context.subjectId.value] + b.emission.parts.value);
  }

  // The calls.

  lemma EmittedNext(
    uuid: string -> string, hash: string -> string, s: Store, c: Context, sent: seq<Emission>, e: Emission,
    envs: seq<Env>)
    requires |sent| < |envs|
    ensures EmittedAll(uuid, hash, s, Within(c, sent + [e]), envs) ==
            Emitted(uuid, hash, EmittedAll(uuid, hash, s, Within(c, sent), envs), Step(c, e), envs[|sent|])
  {
    hide Emitted;
    assert Within(c, sent + [e])[..|sent|] == Within(c, sent);
  }

  lemma AtMostThree(p: Processing)
    ensures |ResearchEmissions(p)| <= 3
  {
    hide EmissionOf, PartsOf, Stripped, BoundedErrorCode;
  }

  /** The guarded call; the result of the write and its failures are dropped. */
  method SafeServerEvent(
    uuid: string -> string, analytics: ProductAnalyticsService, context: Context, emission: Emission, env: Env)
    modifies analytics.repository
    ensures analytics.repository.State() ==
            Emitted(uuid, analytics.hash, old(analytics.repository.State()), Step(context, emission), env)
  {
    hide RecordServer, StepId;
    var id := StepId(uuid, Step(context, emission));
    var r := analytics.RecordServerEvent(context, emission.fields.(id := id), env);
  }

  /** The next guarded call: it carries on a sequence that began at `start` and has sent `sent`. */
  method SendNext(
    uuid: string -> string, analytics: ProductAnalyticsService, context: Context, emission: Emission, envs: seq<Env>,
    ghost start: Store, sent: seq<Emission>)
    returns (more: seq<Emission>)
    requires |sent| < |envs|
    modifies analytics.repository
    ensures more == sent + [emission]
    ensures old(analytics.repository.State()) ==
              EmittedAll(uuid, analytics.hash, start, Within(context, sent), envs) ==>
              analytics.repository.State() == EmittedAll(uuid, analytics.hash, start, Within(context, more), envs)
  {
    hide Emitted, EmittedAll;
    EmittedNext(uuid, analytics.hash, start, context, sent, emission, envs);
    SafeServerEvent(uuid, analytics, context, emission, envs[|sent|]);
    more := sent + [emission];
  }

  method EmitResearchObservations(
    uuid: string -> string, analytics: ProductAnalyticsService, context: Context, p: Processing, envs: seq<Env>)
    requires 3 <= |envs|
    modifies analytics.repository
    ensures |ResearchEmissions(p)| <= |envs|
    ensures analytics.repository.State() ==
            EmittedAll(uuid, analytics.hash, old(analytics.repository.State()),
              Within(context, ResearchEmissions(p)), envs)
  {
    hide Emitted, EmissionOf, PartsOf, Stripped, BoundedErrorCode, Within;
    ghost var start := analytics.repository.State();
    AtMostThree(p);
    var sent: seq<Emission> := [];
    if (p.lifecycle == Some("propose") || p.lifecycle == Some("replace")) &&
      p.proposalStatus == Some("pending_confirmation") {
      var e := EmissionOf("research_proposed", "ask", "submit", "proposed", None, PartsOf([Stripped(p.proposalId)]));
      sent := SendNext(uuid, analytics, context, e, envs, start, sent);
    }
    if (p.lifecycle == Some("confirm") || p.lifecycle == Some("reconfirm")) && p.authorizationCreated {
      var e := EmissionOf("research_confirmed", "ask", "submit", "confirmed", None,
                          PartsOf([Stripped(p.authorizationId)]));
      sent := SendNext(uuid, analytics, context, e, envs, start, sent);
    }
    if p.lifecycle == Some("cancel") && p.answerStatus == Some("cancelled") {
      var e := EmissionOf("research_declined", "ask", "submit", "declined", None, PartsOf([Stripped(p.proposalId)]));
      sent := SendNext(uuid, analytics, context, e, envs, start, sent);
    }
    assert sent == LifecycleEmissions(p);
    if p.confirmed.None? {
      assert sent + [] == sent;
      return;
    }
    var continuation := p.confirmed.value;
    var execution := Stripped(continuation.executionId);
    if !(continuation.attempted || continuation.executed) || execution.None? {
      assert sent + [] == sent;
      return;
    }
    ghost var before := sent;
    var e := EmissionOf("research_started", "ask", "start", "started", None, Some([execution.value]));
    sent := SendNext(uuid, analytics, context, e, envs, start, sent);
    if continuation.completed {
      e := EmissionOf("research_completed", "ask", "complete", "completed", None, Some([execution.value]));
      sent := SendNext(uuid, analytics, context, e, envs, start, sent);
      assert sent == before + ExecutionEmissions(continuation);
      return;
    }
    e := EmissionOf("research_failed", "ask", "submit", "failed", Some(BoundedErrorCode(continuation.blockReason)),
                    Some([execution.value, "failed"]));
    sent := SendNext(uuid, analytics, context, e, envs, start, sent);
    assert sent == before + ExecutionEmissions(continuation);
  }

  method EmitRefinementObservations(
    uuid: string -> string, analytics: ProductAnalyticsService, context: Context, p: Processing, envs: seq<Env>)
    requires 2 <= |envs|
    modifies analytics.repository
    ensures analytics.repository.State() ==
            EmittedAll(uuid, analytics.hash, old(analytics.repository.State()),
                       Within(context, RefinementEmissions(context, p)), envs)
  {
    hide Emitted, EmissionOf, PartsOf, Stripped, SurfaceOf, OptionText, Within;
    ghost var start := analytics.repository.State();
    if p.action != Some("refine_session_recommendation") {
      return;
    }
    var status := if Stripped(p.answerStatus).Some? then Stripped(p.answerStatus) else Some("unknown");
    var identity := [context.decisionHash, OptionText(context.contextVersion), OptionText(p.version)];
    var e := EmissionOf("recommendation_refinement_attempted", SurfaceOf(p.surface), "submit", "attempted", None,
                        PartsOf(identity + [status, Some("attempted")]));
    var sent := SendNext(uuid, analytics, context, e, envs, start, []);
    if p.applied {
      e := EmissionOf("recommendation_refinement_applied", SurfaceOf(p.surface), "submit", "applied", None,
                      PartsOf(identity + [Some("applied")]));
      sent := SendNext(uuid, analytics, context, e, envs, start, sent);
    }
    assert sent == RefinementEmissions(context, p);
  }
}
