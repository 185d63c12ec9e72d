/** The paced catalog transport: cadence and counters over whole runs of calls. */
module RequestPacer {
  import opened Wrappers
  import opened Text
  import opened Numerals

  const SEARCH_TOOL := "search_catalog"
  const GET_PRODUCT_TOOL := "get_product"
  const FORBIDDEN_LOOKUP_TOOL := "lookup_catalog"

  /** In seconds. */
  const MIN_NETWORK_REQUEST_INTERVAL := 1.25

  datatype Pacer = Pacer(interval: real, previous: Option<real>, sleeps: int, slept: real)

  /** What is left to sleep at a clock reading. */
  function Wait(p: Pacer, at: real): (w: real)
    ensures w >= 0.0
    ensures p.previous.Some? ==> at + w >= p.previous.value + p.interval
    ensures w > 0.0 ==> p.previous.Some? && at + w == p.previous.value + p.interval
  {
    if p.previous.None? || p.interval <= at - p.previous.value then 0.0
    else p.interval - (at - p.previous.value)
  }

  /**
   * The readings before and after the sleep: the clock never goes back, and the sleeper
   * takes at least as long as it is asked to.
   */
  predicate Elapses(p: Pacer, before: real, after: real) {
    (p.previous.Some? ==> p.previous.value <= before) && before + Wait(p, before) <= after
  }

  /** The pacer after one HTTP attempt, stamped with the second reading. */
  function Paced(p: Pacer, before: real, after: real): Pacer {
    var w := Wait(p, before);
    Pacer(p.interval, Some(after), if w > 0.0 then p.sleeps + 1 else p.sleeps, p.slept + w)
  }

  /** What the HTTP layer does with a request; the first one before anything is sent. */
  datatype Reply =
    | ContractBroken
    | Status(code: int, retryAfter: Option<string>)
    | TransportFailed
    | NotJson
    | NotObject
    | Payload(text: string)

  datatype Transport = Transport(
    pacer: Pacer,
    nextId: int,
    searchAttempted: int,
    searchCompleted: int,
    getAttempted: int,
    getCompleted: int,
    http: int)

  datatype Outcome =
    | Prohibited
    | Unsupported
    | ContractError
    | RateLimited(retryAfter: string, tool: string, requestId: int, counters: Transport)
    | HttpFailed(code: int)
    | RequestFailed
    | JsonFailed
    | NonObject
    | Returned(payload: string)

  /** One call: the tool, what the network does, and the readings if a request is paced. */
  datatype Call = Call(tool: string, reply: Reply, before: real, after: real)

  predicate Known(tool: string) {
    tool == SEARCH_TOOL || tool == GET_PRODUCT_TOOL
  }

  /** The call gets as far as one HTTP attempt. */
  predicate Sends(c: Call) {
    Known(c.tool) && !c.reply.ContractBroken?
  }

  predicate Completes(c: Call) {
    Known(c.tool) && c.reply.Payload?
  }

  function Attempted(t: Transport, tool: string): Transport {
    if tool == SEARCH_TOOL then t.(nextId := t.nextId + 1, searchAttempted := t.searchAttempted + 1)
    else t.(nextId := t.nextId + 1, getAttempted := t.getAttempted + 1)
  }

  function Sent(t: Transport, c: Call): Transport {
    t.(pacer := Paced(t.pacer, c.before, c.after), http := t.http + 1)
  }

  function Completed(t: Transport, tool: string): Transport {
    if tool == SEARCH_TOOL then t.(searchCompleted := t.searchCompleted + 1)
    else t.(getCompleted := t.getCompleted + 1)
  }

  /** The transport after `call_tool`. */
  function Called(t: Transport, c: Call): Transport {
    if !Known(c.tool) then t
    else
      var attempted := Attempted(t, c.tool);
      var sent := if Sends(c) then Sent(attempted, c) else attempted;
      if Completes(c) then Completed(sent, c.tool) else sent
  }

  /** What `call_tool` returns or raises. */
  function Answer(t: Transport, c: Call): Outcome {
    if c.tool == FORBIDDEN_LOOKUP_TOOL then Prohibited
    else if !Known(c.tool) then Unsupported
    else
      match c.reply
      case ContractBroken => ContractError
      case Status(code, retryAfter) =>
        if code == 429 then RateLimited(SanitizeRetryAfter(retryAfter), c.tool, t.nextId, Called(t, c))
        else HttpFailed(code)
      case TransportFailed => RequestFailed
      case NotJson => JsonFailed
      case NotObject => NonObject
      case Payload(text) => Returned(text)
  }

  function Fresh(interval: real): Transport {
    Transport(Pacer(interval, None, 0, 0.0), 1, 0, 0, 0, 0, 0)
  }

  // Runs.

  ghost predicate StepAt(states: seq<Transport>, calls: seq<Call>, i: int) {
    0 <= i < |calls| && i + 1 < |states| ==>
      && states[i + 1] == Called(states[i], calls[i])
      && (Sends(calls[i]) ==> Elapses(states[i].pacer, calls[i].before, calls[i].after))
  }

  /** Calls mixing both tools, refused names and failing replies, from a new transport on. */
  ghost predicate IsRun(interval: real, states: seq<Transport>, calls: seq<Call>) {
    && |states| == |calls| + 1
    && states[0] == Fresh(interval)
    && forall i :: StepAt(states, calls, i)
  }

  function Tally(calls: seq<Call>, counts: Call -> bool): (n: nat)
    ensures n <= |calls|
  {
    if calls == [] then 0
    else Tally(calls[..|calls| - 1], counts) + if counts(calls[|calls| - 1]) then 1 else 0
  }

  /** The sleeps of the first n calls, added up. */
  function TotalWait(states: seq<Transport>, calls: seq<Call>, n: nat): real
    requires n <= |calls| < |states|
  {
    if n == 0 then 0.0
    else TotalWait(states, calls, n - 1) +
         if Sends(calls[n - 1]) then Wait(states[n - 1].pacer, calls[n - 1].before) else 0.0
  }

  function WaitCount(states: seq<Transport>, calls: seq<Call>, n: nat): int
    requires n <= |calls| < |states|
  {
    if n == 0 then 0
    else WaitCount(states, calls, n - 1) +
         if Sends(calls[n - 1]) && Wait(states[n - 1].pacer, calls[n - 1].before) > 0.0 then 1 else 0
  }

  /** The counters count exactly what their names say, whatever fails. */
  lemma {:induction false} CountersAreExact(interval: real, states: seq<Transport>, calls: seq<Call>, n: nat)
    requires IsRun(interval, states, calls) && n <= |calls|
    ensures states[n].searchAttempted == Tally(calls[..n], (c: Call) => c.tool == SEARCH_TOOL)
    ensures states[n].getAttempted == Tally(calls[..n], (c: Call) => c.tool == GET_PRODUCT_TOOL)
    ensures states[n].searchCompleted == Tally(calls[..n], (c: Call) => c.tool == SEARCH_TOOL && c.reply.Payload?)
    ensures states[n].getCompleted == Tally(calls[..n], (c: Call) => c.tool == GET_PRODUCT_TOOL && c.reply.Payload?)
    ensures states[n].http == Tally(calls[..n], (c: Call) => Sends(c))
  {
    if n > 0 {
      CountersAreExact(interval, states, calls, n - 1);
      assert StepAt(states, calls, n - 1);
      assert calls[..n][..n - 1] == calls[..n - 1];
    }
  }

  /**
   * Completed never exceeds attempted, HTTP attempts never exceed logical ones, and every logical
   * attempt takes one id.
   */
  ghost predicate Balanced(t: Transport) {
    && 0 <= t.searchCompleted <= t.searchAttempted
    && 0 <= t.getCompleted <= t.getAttempted
    && t.searchCompleted + t.getCompleted <= t.http <= t.searchAttempted + t.getAttempted
    && t.nextId - 1 == t.searchAttempted + t.getAttempted
  }

  lemma {:induction false} RunStaysBalanced(interval: real, states: seq<Transport>, calls: seq<Call>, n: nat)
    requires IsRun(interval, states, calls) && n <= |calls|
    ensures Balanced(states[n])
  {
    if n > 0 {
      RunStaysBalanced(interval, states, calls, n - 1);
      assert StepAt(states, calls, n - 1);
    }
  }

  /** The sleep totals are the individual sleeps. */
  lemma {:induction false} SleepsAddUp(interval: real, states: seq<Transport>, calls: seq<Call>, n: nat)
    requires IsRun(interval, states, calls) && n <= |calls|
    ensures states[n].pacer.slept == TotalWait(states, calls, n)
    ensures states[n].pacer.sleeps == WaitCount(states, calls, n)
  {
    if n > 0 {
      SleepsAddUp(interval, states, calls, n - 1);
      assert StepAt(states, calls, n - 1);
    }
  }

  lemma OneMore(n: int, x: real)
    ensures (n + 1) as real * x == n as real * x + x
  {
  }

  lemma {:induction false} PacerFacts(interval: real, states: seq<Transport>, calls: seq<Call>, n: nat)
    requires IsRun(interval, states, calls) && n <= |calls|
    ensures states[n].pacer.interval == interval && 0 <= states[n].http
    ensures states[n].pacer.previous.None? <==> states[n].http == 0
    ensures states[n].http == 0 ==> states[n].pacer.slept == 0.0
  {
    if n > 0 {
      PacerFacts(interval, states, calls, n - 1);
      assert StepAt(states, calls, n - 1);
    }
  }

  /** Behind a request, the last stamp is at least one interval per later request away. */
  lemma {:induction false} LastStampIsSpaced(interval: real, states: seq<Transport>, calls: seq<Call>, i: nat, n: nat)
    requires IsRun(interval, states, calls) && i < n <= |calls| && Sends(calls[i])
    ensures states[n].http >= states[i + 1].http
    ensures states[n].pacer.previous.Some?
    ensures states[n].pacer.previous.value - calls[i].after >= (states[n].http - states[i + 1].http) as real * interval
    decreases n
  {
    assert StepAt(states, calls, n - 1);
    PacerFacts(interval, states, calls, n - 1);
    if n == i + 1 {
      assert 0 as real * interval == 0.0;
    } else {
      LastStampIsSpaced(interval, states, calls, i, n - 1);
      OneMore(states[n - 1].http - states[i + 1].http, interval);
    }
  }

  /**
   * Cadence across both tools: from one HTTP attempt to a later one at least one interval
   * passes for every attempt in between and the later one itself. Consecutive attempts are
   * an interval apart, and no stretch of time holds more attempts than its length allows.
   */
  lemma AttemptsAreSpaced(interval: real, states: seq<Transport>, calls: seq<Call>, i: nat, j: nat)
    requires IsRun(interval, states, calls) && i < j < |calls| && Sends(calls[i]) && Sends(calls[j])
    ensures calls[j].after - calls[i].after >= (states[j + 1].http - states[i + 1].http) as real * interval
    ensures states[j + 1].http - states[i + 1].http == Tally(calls[i + 1..j + 1], (c: Call) => Sends(c)) >= 1
  {
    LastStampIsSpaced(interval, states, calls, i, j + 1);
    assert StepAt(states, calls, j);
    SendsBetween(interval, states, calls, i + 1, j + 1);
    assert calls[i + 1..j + 1][..j - i - 1] == calls[i + 1..j];
  }

  lemma {:induction false} SendsBetween(interval: real, states: seq<Transport>, calls: seq<Call>, m: nat, n: nat)
    requires IsRun(interval, states, calls) && m <= n <= |calls|
    ensures states[n].http - states[m].http == Tally(calls[m..n], (c: Call) => Sends(c))
    decreases n
  {
    if m < n {
      SendsBetween(interval, states, calls, m, n - 1);
      assert StepAt(states, calls, n - 1);
      assert calls[m..n][..n - m - 1] == calls[m..n - 1];
    }
  }

  function NonNegative(x: real): real { if x > 0.0 then x else 0.0 }

  /** The whole sleep of a run is at most one interval per request but the first. */
  lemma {:induction false} SleepIsBounded(interval: real, states: seq<Transport>, calls: seq<Call>, n: nat)
    requires IsRun(interval, states, calls) && n <= |calls|
    ensures states[n].http == 0 ==> states[n].pacer.slept == 0.0
    ensures states[n].http > 0 ==>
              states[n].pacer.slept <= (states[n].http - 1) as real * NonNegative(interval)
  {
    PacerFacts(interval, states, calls, n);
    if n > 0 {
      SleepIsBounded(interval, states, calls, n - 1);
      PacerFacts(interval, states, calls, n - 1);
      assert StepAt(states, calls, n - 1);
      OneMore(states[n - 1].http - 1, NonNegative(interval));
      assert 0 as real * NonNegative(interval) == 0.0;
    }
  }

  /** The pacer only sleeps through time that passes: the sleeps fit between the first stamp and the last. */
  lemma {:induction false} SleepFitsTheRun(interval: real, states: seq<Transport>, calls: seq<Call>, i: nat, n: nat)
    requires IsRun(interval, states, calls) && i < n <= |calls|
    requires Sends(calls[i]) && states[i].http == 0
    ensures states[n].pacer.previous.Some?
    ensures 0.0 <= states[n].pacer.slept <= states[n].pacer.previous.value - calls[i].after
    decreases n
  {
    assert StepAt(states, calls, n - 1);
    PacerFacts(interval, states, calls, n - 1);
    if n > i + 1 {
      SleepFitsTheRun(interval, states, calls, i, n - 1);
    }
  }

  // The rate-limit report.

  const DAYS := ["Mon", "Tue", "Wed", "Thu", "Fri", "Sat", "Sun"]
  const MONTHS := ["Jan", "Feb", "Mar", "Apr", "May", "Jun", "Jul", "Aug", "Sep", "Oct", "Nov", "Dec"]

  predicate IsHttpDate(s: string) {
    && |s| == 29
    && s[..3] in DAYS && s[3..5] == ", "
    && AllDigits(s[5..7]) && s[7] == ' '
    && s[8..11] in MONTHS && s[11] == ' '
    && AllDigits(s[12..16]) && s[16] == ' '
    && AllDigits(s[17..19]) && s[19] == ':' && AllDigits(s[20..22]) && s[22] == ':' && AllDigits(s[23..25])
    && s[25..] == " GMT"
  }

  predicate TimeOfDay(s: string, h: string, m: string, sec: string) {
    |h| == 2 && |m| == 2 && |sec| == 2 && AllDigits(h) && AllDigits(m) && AllDigits(sec) && s == h + ":" + m + ":" + sec
  }

  predicate Date(s: string, day: string, d: string, month: string, y: string) {
    && day in DAYS && month in MONTHS && |d| == 2 && |y| == 4 && AllDigits(d) && AllDigits(y)
    && s == day + ", " + d + " " + month + " " + y
  }

  /** A date, a time of day and "GMT" (section 5.6.7 of RFC 9110). */
  predicate HttpDate(s: string, date: string, time: string) {
    s == date + " " + time + " GMT"
  }

  ghost predicate IsDate(s: string) {
    exists day, d, month, y :: Date(s, day, d, month, y)
  }

  ghost predicate IsTimeOfDay(s: string) {
    exists h, m, sec :: TimeOfDay(s, h, m, sec)
  }

  lemma DateExactlyWhen(s: string)
    ensures IsDate(s) <==>
            && |s| == 16 && s[..3] in DAYS && s[3..5] == ", " && AllDigits(s[5..7]) && s[7] == ' '
            && s[8..11] in MONTHS && s[11] == ' ' && AllDigits(s[12..16])
  {
    if day, d, month, y :| Date(s, day, d, month, y) {
      assert |day| == 3 && |month| == 3;
      assert s[..3] == day && s[3..5] == ", " && s[5..7] == d && s[8..11] == month && s[12..16] == y;
    }
    if |s| == 16 && s[..3] in DAYS && s[3..5] == ", " && AllDigits(s[5..7]) && s[7] == ' '
      && s[8..11] in MONTHS && s[11] == ' ' && AllDigits(s[12..16]) {
      assert s == s[..3] + s[3..5] + s[5..7] + [s[7]] + s[8..11] + [s[11]] + s[12..16];
      assert Date(s, s[..3], s[5..7], s[8..11], s[12..16]);
    }
  }

  lemma TimeExactlyWhen(s: string)
    ensures IsTimeOfDay(s) <==>
            |s| == 8 && AllDigits(s[..2]) && s[2] == ':' && AllDigits(s[3..5]) && s[5] == ':' && AllDigits(s[6..])
  {
    if h, m, sec :| TimeOfDay(s, h, m, sec) {
      assert s[..2] == h && s[3..5] == m && s[6..] == sec;
    }
    if |s| == 8 && AllDigits(s[..2]) && s[2] == ':' && AllDigits(s[3..5]) && s[5] == ':' && AllDigits(s[6..]) {
      assert s == s[..2] + [s[2]] + s[3..5] + [s[5]] + s[6..];
      assert TimeOfDay(s, s[..2], s[3..5], s[6..]);
    }
  }

  /** The pattern's fixed places are those of a date, a time of day and "GMT". */
  lemma HttpDateExactlyWhen(s: string)
    ensures IsHttpDate(s) <==> exists date, time :: HttpDate(s, date, time) && IsDate(date) && IsTimeOfDay(time)
  {
    hide IsDate, IsTimeOfDay;
    if date, time :| HttpDate(s, date, time) && IsDate(date) && IsTimeOfDay(time) {
      DateExactlyWhen(date);
      TimeExactlyWhen(time);
      assert s[..16] == date && s[17..25] == time && s[25..] == " GMT" && s[16] == ' ';
      DatePlaces(s);
    }
    if IsHttpDate(s) {
      var date, time := s[..16], s[17..25];
      DatePlaces(s);
      DateExactlyWhen(date);
      TimeExactlyWhen(time);
      assert s == date + [s[16]] + time + s[25..];
      assert HttpDate(s, date, time);
    }
  }

  lemma DatePlaces(s: string)
    requires |s| == 29
    ensures var date, time := s[..16], s[17..25];
            && date[..3] == s[..3] && date[3..5] == s[3..5] && date[5..7] == s[5..7] && date[8..11] == s[8..11]
            && date[12..16] == s[12..16] && date[7] == s[7] && date[11] == s[11]
            && time[..2] == s[17..19] && time[3..5] == s[20..22] && time[6..] == s[23..25]
            && time[2] == s[19] && time[5] == s[22]
  {
  }

  /** `_retry_after_is_reportable`. */
  predicate Reportable(s: string) {
    (1 <= |s| <= 8 && AllDigits(s)) || IsHttpDate(s)
  }

  function SanitizeRetryAfter(value: Option<string>): string {
    if value.None? then "unknown"
    else
      var text := Strip(value.value);
      if Reportable(text) then text else "unknown"
  }

  /** The delay that a report names: the stripped header when it is a count of seconds or a date. */
  predicate Delay(header: Option<string>, shown: string) {
    if header.Some? && Reportable(Strip(header.value)) then shown == Strip(header.value) else shown == "unknown"
  }

  /** What kind of answer each reply to a known tool gives, and which reply each answer tells of. */
  predicate Tells(tool: string, reply: Reply, outcome: Outcome) {
    && (outcome.Prohibited? <==> tool == "lookup_catalog")
    && (outcome.Unsupported? <==> tool !in {"search_catalog", "get_product", "lookup_catalog"})
    && (Known(tool) ==>
          && (outcome.ContractError? <==> reply.ContractBroken?)
          && (outcome.RateLimited? <==> reply.Status? && reply.code == 429)
          && (outcome.HttpFailed? <==> reply.Status? && reply.code != 429)
          && (outcome.RequestFailed? <==> reply.TransportFailed?)
          && (outcome.JsonFailed? <==> reply.NotJson?)
          && (outcome.NonObject? <==> reply.NotObject?)
          && (outcome.Returned? <==> reply.Payload?)
          && (outcome.RateLimited? ==> outcome.tool == tool && Delay(reply.retryAfter, outcome.retryAfter))
          && (outcome.HttpFailed? ==> outcome.code == reply.code)
          && (outcome.Returned? ==> outcome.payload == reply.text))
  }

  /** Every call answers for its own reply. */
  lemma AnswersTellReplies(t: Transport, c: Call)
    ensures Tells(c.tool, c.reply, Answer(t, c))
  {
    hide IsHttpDate, Strip, AllDigits;
  }

  lemma AllAnswersTell(t: Transport)
    ensures forall c: Call {:trigger Answer(t, c)} :: Tells(c.tool, c.reply, Answer(t, c))
  {
    forall c: Call
      ensures Tells(c.tool, c.reply, Answer(t, c))
    {
      AnswersTellReplies(t, c);
    }
  }

  /**
   * A 429, and no other reply, raises a report that the error type accepts and that adds up:
   * it names this call's tool and id and the delay of this reply, counts one request more than
   * the completed ones at least, and its sleep total obeys the cadence.
   */
  lemma RateLimitReportAddsUp(interval: real, states: seq<Transport>, calls: seq<Call>, i: nat)
    requires IsRun(interval, states, calls) && i < |calls|
    ensures Answer(states[i], calls[i]).RateLimited? <==>
            Known(calls[i].tool) && calls[i].reply.Status? && calls[i].reply.code == 429
    ensures Answer(states[i], calls[i]).RateLimited? ==>
            var report := Answer(states[i], calls[i]);
            && report.tool == calls[i].tool && Delay(calls[i].reply.retryAfter, report.retryAfter)
            && report.counters == states[i + 1]
            && report.requestId == states[i].nextId
            && report.requestId == report.counters.searchAttempted + report.counters.getAttempted
            && report.counters.searchCompleted + report.counters.getCompleted < report.counters.http <= report.requestId
            && report.counters.pacer.slept <= (report.counters.http - 1) as real * NonNegative(interval)
  {
    assert StepAt(states, calls, i);
    RunStaysBalanced(interval, states, calls, i);
    RunStaysBalanced(interval, states, calls, i + 1);
    SleepIsBounded(interval, states, calls, i + 1);
  }

  /** No retry, no second request: each call sends at most one request and takes at most one id. */
  lemma OneRequestPerCall(interval: real, states: seq<Transport>, calls: seq<Call>, i: nat)
    requires IsRun(interval, states, calls) && i < |calls|
    ensures states[i + 1].http - states[i].http == (if Sends(calls[i]) then 1 else 0)
    ensures states[i + 1].nextId - states[i].nextId == (if Known(calls[i].tool) then 1 else 0)
    ensures !Sends(calls[i]) ==> states[i + 1].pacer == states[i].pacer
    ensures Answer(states[i], calls[i]).Returned? <==>
              states[i + 1].searchCompleted + states[i + 1].getCompleted ==
              states[i].searchCompleted + states[i].getCompleted + 1
  {
    assert StepAt(states, calls, i);
  }

  // The objects.

  /** A monotonic clock with its sleeper; how much time passes is not determined. */
  class Clock {
    var now: real

    constructor () {
      now := 0.0;
    }

    method Read() returns (t: real)
      modifies this
      ensures old(now) <= t == now
    {
      t := *;
      t := if t < now then now else t;
      now := t;
    }

    method Sleep(seconds: real)
      modifies this
      ensures old(now) + seconds <= now
    {
      var t := Read();
      now := t + seconds;
      t := Read();
    }
  }

  class ShopifyNetworkRequestPacer {
    const interval: real
    const clock: Clock
    var previousAttemptAt: Option<real>
    var pacingSleepCount: int
    var totalPacingSleep: real

    function State(): Pacer
      reads this
    {
      Pacer(interval, previousAttemptAt, pacingSleepCount, totalPacingSleep)
    }

    /** The previous stamp is not in the clock's future. */
    ghost predicate Valid()
      reads this, clock
    {
      previousAttemptAt.Some? ==> previousAttemptAt.value <= clock.now
    }

    constructor (clock: Clock, interval: real)
      ensures Valid() && this.clock == clock
      ensures State() == Pacer(interval, None, 0, 0.0)
    {
      this.interval, this.clock := interval, clock;
      previousAttemptAt, pacingSleepCount, totalPacingSleep := None, 0, 0.0;
    }

    method BeforeHttpRequest() returns (slept: real, ghost before: real)
      requires Valid()
      modifies this, clock
      ensures Valid() && previousAttemptAt == Some(clock.now)
      ensures old(clock.now) <= before && Elapses(old(State()), before, clock.now)
      ensures State() == Paced(old(State()), before, clock.now)
      ensures slept == Wait(old(State()), before)
    {
      slept := 0.0;
      before := clock.now;
      if previousAttemptAt.Some? {
        var reading := clock.Read();
        before := reading;
        var remaining := interval - (reading - previousAttemptAt.value);
        if remaining > 0.0 {
          clock.Sleep(remaining);
          slept := remaining;
          pacingSleepCount := pacingSleepCount + 1;
          totalPacingSleep := totalPacingSleep + remaining;
        }
      }
      var stamp := clock.Read();
      previousAttemptAt := Some(stamp);
    }
  }

  class LiveStagingCatalogTransport {
    const pacer: ShopifyNetworkRequestPacer
    var nextId: int
    var searchAttempted: int
    var searchCompleted: int
    var getAttempted: int
    var getCompleted: int
    var httpAttempted: int

    function State(): Transport
      reads this, pacer
    {
      Transport(pacer.State(), nextId, searchAttempted, searchCompleted, getAttempted, getCompleted, httpAttempted)
    }

    ghost predicate Valid()
      reads this, pacer, pacer.clock
    {
      pacer.Valid()
    }

    constructor (clock: Clock)
      ensures Valid() && fresh(pacer) && pacer.clock == clock
      ensures State() == Fresh(MIN_NETWORK_REQUEST_INTERVAL)
    {
      pacer := new ShopifyNetworkRequestPacer(clock, MIN_NETWORK_REQUEST_INTERVAL);
      nextId, searchAttempted, searchCompleted := 1, 0, 0;
      getAttempted, getCompleted, httpAttempted := 0, 0, 0;
    }

    /** Returns the call as the run records it, with the two readings of the pacer. */
    method CallTool(name: string, reply: Reply) returns (outcome: Outcome, ghost call: Call)
      requires Valid()
      modifies this, pacer, pacer.clock
      ensures Valid() && call.tool == name && call.reply == reply
      ensures Sends(call) ==> Elapses(old(State()).pacer, call.before, call.after)
      ensures State() == Called(old(State()), call)
      ensures outcome == Answer(old(State()), call) && Tells(name, reply, outcome)
      ensures !Sends(call) ==> pacer.clock.now == old(pacer.clock.now)
    {
      hide SanitizeRetryAfter, Elapses, Paced, Wait, Delay, Tells;
      AllAnswersTell(old(State()));
      call := Call(name, reply, 0.0, 0.0);
      if name == FORBIDDEN_LOOKUP_TOOL {
        return Prohibited, call;
      }
      if name != SEARCH_TOOL && name != GET_PRODUCT_TOOL {
        return Unsupported, call;
      }
      var requestId := nextId;
      nextId := nextId + 1;
      RecordAttempt(name);
      if reply.ContractBroken? {
        return ContractError, call;
      }
      var slept;
      ghost var before;
      slept, before := pacer.BeforeHttpRequest();
      call := Call(name, reply, before, pacer.clock.now);
      httpAttempted := httpAttempted + 1;
      match reply {
        case Status(code, retryAfter) =>
          if code == 429 {
            return RateLimited(SanitizeRetryAfter(retryAfter), name, requestId, State()), call;
          }
          return HttpFailed(code), call;
        case TransportFailed => return RequestFailed, call;
        case NotJson => return JsonFailed, call;
        case NotObject => return NonObject, call;
        case Payload(text) =>
          RecordCompleted(name);
          return Returned(text), call;
      }
    }

    method RecordAttempt(name: string)
      requires Known(name)
      modifies this`searchAttempted, this`getAttempted
      ensures State() == Attempted(old(State()), name).(nextId := nextId)
    {
      if name == SEARCH_TOOL {
        searchAttempted := searchAttempted + 1;
      } else if name == GET_PRODUCT_TOOL {
        getAttempted := getAttempted + 1;
      }
    }

    method RecordCompleted(name: string)
      requires Known(name)
      modifies this`searchCompleted, this`getCompleted
      ensures State() == Completed(old(State()), name)
    {
      if name == SEARCH_TOOL {
        searchCompleted := searchCompleted + 1;
      } else if name == GET_PRODUCT_TOOL {
        getCompleted := getCompleted + 1;
      }
    }
  }
}
