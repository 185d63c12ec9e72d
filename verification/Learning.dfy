/** The read-only learning aggregates over the stored events. */
module Learning {
  import opened Wrappers
  import opened AnalyticsSchema
  import opened AnalyticsRepository

  // The scan.

  function RowAt(s: Store, i: int): Event
    requires s.Valid() && 0 <= i < |s.order|
  {
    assert s.order[i] in s.order;
    s.rows[s.order[i]]
  }

  function NewestFirst(s: Store, n: nat): (events: seq<Event>)
    requires s.Valid() && n <= |s.order|
  {
    seq(n, k requires 0 <= k < n => RowAt(s, |s.order| - 1 - k))
  }

  function ScanSize(s: Store, limit: int): nat {
    if limit <= 0 then 0 else if limit < |s.order| then limit else |s.order|
  }

  /** `_load_events`: the newest rows up to the bound, and whether there are more. */
  function LoadEvents(s: Store, limit: int): (seq<Event>, bool)
    requires s.Valid()
  {
    (NewestFirst(s, ScanSize(s, limit)), |s.order| > limit)
  }

  /**
   * The scan holds every stored row exactly when it is not flagged as truncated; a bound below zero
   * is as good as zero.
   */
  lemma ScanIsWholeExactlyWhen(s: Store, limit: nat)
    requires s.Valid()
    ensures var (events, truncated) := LoadEvents(s, limit);
            !truncated <==> forall id :: id in s.rows ==> s.rows[id] in events
  {
    var (events, truncated) := LoadEvents(s, limit);
    var n := |s.order|;
    if truncated {
      var id := s.order[0];
      assert id in s.order && id in s.rows;
      forall k | 0 <= k < |events|
        ensures events[k] != s.rows[id]
      {
        assert s.order[n - 1 - k] in s.order && RowAt(s, n - 1 - k).id == s.order[n - 1 - k] != id;
      }
    } else {
      forall id | id in s.rows
        ensures s.rows[id] in events
      {
        var i :| 0 <= i < n && s.order[i] == id;
        assert RowAt(s, i) == s.rows[id];
        assert events[n - 1 - i] == RowAt(s, i);
      }
    }
  }

  /** The i-th inserted row is in the scan exactly when no more than the scan's size was inserted from it on. */
  ghost predicate ScannedFrom(s: Store, events: seq<Event>, i: int) {
    0 <= i < |s.order| ==>
      s.order[i] in s.rows && (s.rows[s.order[i]] in events <==> |s.order| - i <= |events|)
  }

  /** The k-th scanned row has k rows inserted after it. */
  ghost predicate NewestAt(s: Store, events: seq<Event>, k: int) {
    0 <= k < |events| && k < |s.order| ==>
      s.order[|s.order| - 1 - k] in s.rows && events[k] == s.rows[s.order[|s.order| - 1 - k]]
  }

  lemma NewestPlaces(s: Store, n: nat, i: int)
    requires s.Valid() && n <= |s.order|
    ensures NewestAt(s, NewestFirst(s, n), i) && ScannedFrom(s, NewestFirst(s, n), i)
  {
    var events, size := NewestFirst(s, n), |s.order|;
    if 0 <= i < size {
      assert s.order[i] in s.order && s.order[size - 1 - i] in s.order;
      if size - i <= n {
        assert events[size - 1 - i] == RowAt(s, i);
      } else {
        forall k | 0 <= k < n
          ensures events[k] != s.rows[s.order[i]]
        {
          assert s.order[size - 1 - k] in s.order && events[k] == RowAt(s, size - 1 - k);
        }
      }
    }
  }

  /**
   * The scan is of the newest rows, newest first: it holds as many as the bound and the store
   * allow, and a row exactly when fewer than that many were inserted after it.
   */
  lemma ScanIsNewest(s: Store, limit: int)
    requires s.Valid()
    ensures var (events, truncated) := LoadEvents(s, limit);
            && |events| == (if limit <= 0 then 0 else if truncated then limit else |s.order|)
            && (truncated <==> limit < |s.order|)
            && (forall k :: NewestAt(s, events, k))
            && (forall i :: ScannedFrom(s, events, i))
  {
    hide NewestFirst, Store.Valid, NewestAt, ScannedFrom;
    var n := ScanSize(s, limit);
    ScanLength(s, n);
    forall i
      ensures NewestAt(s, NewestFirst(s, n), i) && ScannedFrom(s, NewestFirst(s, n), i)
    {
      NewestPlaces(s, n, i);
    }
  }

  lemma ScanLength(s: Store, n: nat)
    requires s.Valid() && n <= |s.order|
    ensures |NewestFirst(s, n)| == n
  {
  }

  // Windows. Instants are microseconds, so days are whole numbers of them.

  const DAY := 86400000000

  /** The UTC calendar day of an instant. */
  function DayOf(instant: int): int {
    instant / DAY
  }

  datatype Window = OneDay | SevenDays | ThirtyDays {
    function Days(): int {
      match this
      case OneDay => 1
      case SevenDays => 7
      case ThirtyDays => 30
    }
  }

  /** `window_bounds`: from the start of the first day to the end of today. */
  function WindowBounds(w: Window, now: int): (int, int) {
    var end := DayOf(now) * DAY + DAY;
    (end - w.Days() * DAY, end)
  }

  predicate InBounds(m: Moment, bounds: (int, int)) {
    m.Aware? && bounds.0 <= m.instant < bounds.1
  }

  predicate InWindow(e: Event, w: Window, now: int) {
    InBounds(e.occurredAt, WindowBounds(w, now))
  }

  lemma DayBounds(instant: int, d: int)
    ensures instant >= d * DAY <==> DayOf(instant) >= d
  {
  }

  /** A window is one, seven or thirty whole UTC days, today the last. */
  lemma WindowIsWholeDays(e: Event, w: Window, now: int)
    ensures w.Days() == if w.OneDay? then 1 else if w.SevenDays? then 7 else 30
    ensures InWindow(e, w, now) <==>
            e.occurredAt.Aware? && DayOf(now) - w.Days() < DayOf(e.occurredAt.instant) <= DayOf(now)
  {
    if e.occurredAt.Aware? {
      DayBounds(e.occurredAt.instant, DayOf(now) + 1);
      DayBounds(e.occurredAt.instant, DayOf(now) + 1 - w.Days());
    }
  }

  function Subjects(events: seq<Event>): set<string> {
    set e | e in events :: e.contents.subjectHash
  }

  function Selected(events: seq<Event>, w: Window, now: int): (r: seq<Event>)
    ensures forall e :: e in r <==> e in events && InWindow(e, w, now)
  {
    if events == [] then []
    else (if InWindow(events[0], w, now) then [events[0]] else []) + Selected(events[1..], w, now)
  }

  /** `_active_subjects`. */
  function ActiveSubjects(events: seq<Event>, w: Window, now: int): nat {
    |Subjects(Selected(events, w, now))|
  }

  /** The subject has an event in the window. */
  ghost predicate SeenIn(events: seq<Event>, w: Window, now: int, subject: string) {
    exists e :: e in events && InWindow(e, w, now) && e.contents.subjectHash == subject
  }

  /** Active subjects are counted once each, by the events of the window. */
  lemma ActiveSubjectsCount(events: seq<Event>, w: Window, now: int)
    ensures ActiveSubjects(events, w, now) == |set s | s in Subjects(events) && SeenIn(events, w, now, s)|
    ensures ActiveSubjects(events, w, now) > 0 <==> exists e :: e in events && InWindow(e, w, now)
  {
    hide InWindow;
    var active := Subjects(Selected(events, w, now));
    assert active == set s | s in Subjects(events) && SeenIn(events, w, now, s);
    if active != {} {
      var s :| s in active;
      assert SeenIn(events, w, now, s);
    }
    if e :| e in events && InWindow(e, w, now) {
      assert e.contents.subjectHash in active;
    }
  }

  lemma SubsetSize<T>(a: set<T>, b: set<T>)
    requires a <= b
    ensures |a| <= |b|
    decreases a
  {
    if a != {} {
      var x :| x in a;
      SubsetSize(a - {x}, b - {x});
    }
  }

  lemma SelectionGrows(events: seq<Event>, a: Window, b: Window, now: int)
    requires a.Days() <= b.Days()
    ensures Subjects(Selected(events, a, now)) <= Subjects(Selected(events, b, now))
    ensures ActiveSubjects(events, a, now) <= ActiveSubjects(events, b, now)
  {
    var narrow, wide := Selected(events, a, now), Selected(events, b, now);
    forall s | s in Subjects(narrow)
      ensures s in Subjects(wide)
    {
      var e :| e in narrow && e.contents.subjectHash == s;
      WindowIsWholeDays(e, a, now);
      WindowIsWholeDays(e, b, now);
      assert e in wide;
    }
    SubsetSize(Subjects(narrow), Subjects(wide));
  }

  /** For every list of events and clock the windows nest, and with them the subject counts. */
  lemma WindowsNest(events: seq<Event>, now: int)
    ensures forall e :: InWindow(e, OneDay, now) ==> InWindow(e, SevenDays, now)
    ensures forall e :: InWindow(e, SevenDays, now) ==> InWindow(e, ThirtyDays, now)
    ensures ActiveSubjects(events, OneDay, now) <= ActiveSubjects(events, SevenDays, now) <=
            ActiveSubjects(events, ThirtyDays, now)
  {
    SelectionGrows(events, OneDay, SevenDays, now);
    SelectionGrows(events, SevenDays, ThirtyDays, now);
  }

  // The funnel.

  const TRACKED := {
    "decision_started", "decision_completed", "results_viewed", "compare_opened", "why_opened",
    "outbound_merchant_click", "ask_question_submitted", "ask_evidence_answered", "insufficient_evidence",
    "research_proposed", "research_confirmed", "research_declined", "research_started",
    "research_completed", "research_failed"}

  function CountOf(events: seq<Event>, name: string): nat {
    if events == [] then 0
    else CountOf(events[..|events| - 1], name) + if events[|events| - 1].contents.name == name then 1 else 0
  }

  /** The places where a name stands. */
  ghost function Places(events: seq<Event>, name: string): set<int> {
    set i | 0 <= i < |events| && events[i].contents.name == name
  }

  lemma PlacesNext(events: seq<Event>, name: string)
    requires events != []
    ensures var n := |events| - 1;
            && n !in Places(events[..n], name)
            && Places(events, name) ==
               Places(events[..n], name) + (if events[n].contents.name == name then {n} else {})
  {
    var n := |events| - 1;
    forall i
      ensures i in Places(events, name) <==>
              i in Places(events[..n], name) || (i == n && events[n].contents.name == name)
    {
    }
  }

  /** The count of a name is the number of places where it stands. */
  lemma {:induction false} CountIsPlaces(events: seq<Event>, name: string)
    ensures CountOf(events, name) == |Places(events, name)|
  {
    if events != [] {
      PlacesNext(events, name);
      hide Places;
      CountIsPlaces(events[..|events| - 1], name);
    } else {
      assert Places(events, name) == {};
    }
  }

  /** `_counts`: how many events of each tracked name there are. */
  method Counts(events: seq<Event>) returns (totals: map<string, nat>)
    ensures totals.Keys == TRACKED
    ensures forall name :: name in TRACKED ==> totals[name] == CountOf(events, name)
  {
    totals := map name | name in TRACKED :: 0;
    for i := 0 to |events|
      invariant totals.Keys == TRACKED
      invariant forall name :: name in TRACKED ==> totals[name] == CountOf(events[..i], name)
    {
      var name := events[i].contents.name;
      assert events[..i + 1][..i] == events[..i];
      if name in totals {
        totals := totals[name := totals[name] + 1];
      }
    }
    assert events[..|events|] == events;
  }

  /** The decision hashes that events of a name carry. */
  function HashesOf(events: seq<Event>, name: string): set<string> {
    set e | e in events && e.contents.name == name && e.contents.decisionHash.Some? &&
      e.contents.decisionHash.value != "" ::
      e.contents.decisionHash.value
  }

  /** `_rate`: unavailable on an empty denominator. */
  datatype Rate = Rate(value: Option<real>, numerator: nat, denominator: nat)

  function RateOf(numerator: nat, denominator: nat): Rate {
    Rate(if denominator == 0 then None else Some(numerator as real / denominator as real), numerator, denominator)
  }

  datatype Funnel = Funnel(startedDistinct: nat, matched: nat, withoutStart: nat, completionRate: Rate)

  /** The decision part of `_funnel`. */
  function FunnelOf(events: seq<Event>): Funnel {
    var started, completed := HashesOf(events, "decision_started"), HashesOf(events, "decision_completed");
    Funnel(|started|, |started * completed|, |completed - started|, RateOf(|started * completed|, |started|))
  }

  /** Some event of that name carries the hash. */
  ghost predicate Carries(events: seq<Event>, name: string, hash: string) {
    exists e :: e in events && e.contents.name == name && e.contents.decisionHash == Some(hash) && hash != ""
  }

  /** Every hash that any event carries. */
  function Carried(events: seq<Event>): set<string> {
    set e | e in events && e.contents.decisionHash.Some? :: e.contents.decisionHash.value
  }

  lemma HashesExactlyWhen(events: seq<Event>, name: string, hash: string)
    ensures hash in HashesOf(events, name) <==> Carries(events, name, hash)
    ensures Carries(events, name, hash) ==> hash in Carried(events)
  {
  }

  /**
   * The funnel counts hashes, not events: those seen started, those seen started and completed,
   * and those seen completed alone; its rate is the second over the first.
   */
  lemma FunnelCounts(events: seq<Event>)
    ensures var f := FunnelOf(events);
            && f.startedDistinct == |set h | h in Carried(events) && Carries(events, "decision_started", h)|
            && f.matched == |set h | h in Carried(events) && Carries(events, "decision_started", h) &&
                               Carries(events, "decision_completed", h)|
            && f.withoutStart == |set h | h in Carried(events) && !Carries(events, "decision_started", h) &&
                                    Carries(events, "decision_completed", h)|
            && f.completionRate.numerator == f.matched && f.completionRate.denominator == f.startedDistinct
            && (f.completionRate.value.Some? ==>
                  f.completionRate.value.value * (f.startedDistinct as real) == f.matched as real)
  {
    hide HashesOf, Carries, Carried;
    forall name, h
      ensures h in HashesOf(events, name) <==> Carries(events, name, h)
      ensures Carries(events, name, h) ==> h in Carried(events)
    {
      HashesExactlyWhen(events, name, h);
    }
    var started, completed := HashesOf(events, "decision_started"), HashesOf(events, "decision_completed");
    assert started == set h | h in Carried(events) && Carries(events, "decision_started", h);
    assert started * completed ==
      set h | h in Carried(events) && Carries(events, "decision_started", h) &&
        Carries(events, "decision_completed", h);
    assert completed - started ==
      set h | h in Carried(events) && !Carries(events, "decision_started", h) &&
        Carries(events, "decision_completed", h);
  }

  lemma RateWithinOne(numerator: nat, denominator: nat)
    requires 0 < denominator
    ensures RateOf(numerator, denominator).value.Some?
    ensures 0.0 <= RateOf(numerator, denominator).value.value
    ensures RateOf(numerator, denominator).value.value <= 1.0 <==> numerator <= denominator
  {
    var n, d := numerator as real, denominator as real;
    var q := n / d;
    assert q * d == n && q >= 0.0;
    if q > 1.0 {
      assert q * d > d;
    } else {
      assert q * d <= d;
    }
  }

  lemma RateIsOne(numerator: nat, denominator: nat)
    requires 0 < denominator
    ensures RateOf(numerator, denominator).value == Some(1.0) <==> numerator == denominator
  {
    var n, d := numerator as real, denominator as real;
    var q := n / d;
    assert q * d == n;
    if q > 1.0 {
      assert q * d > d;
    } else if q < 1.0 {
      assert q * d < d;
    }
  }

  /**
   * Every distinct completed decision either matches a start or is counted without one, and
   * the completion rate is available exactly when a start was seen, and then lies in [0, 1].
   */
  lemma FunnelAddsUp(events: seq<Event>)
    ensures var f := FunnelOf(events);
            && f.matched + f.withoutStart == |HashesOf(events, "decision_completed")|
            && f.matched <= f.startedDistinct
            && (f.completionRate.value.Some? <==> HashesOf(events, "decision_started") != {})
            && (f.completionRate.value.Some? ==> 0.0 <= f.completionRate.value.value <= 1.0)
            && (f.completionRate.value == Some(1.0) <==>
                  HashesOf(events, "decision_started") != {} &&
                  HashesOf(events, "decision_started") <= HashesOf(events, "decision_completed"))
  {
    var started, completed := HashesOf(events, "decision_started"), HashesOf(events, "decision_completed");
    hide HashesOf;
    PartsOfASet(completed, started);
    PartsOfASet(started, completed);
    assert started * completed == completed * started;
    if started != {} {
      RateWithinOne(|started * completed|, |started|);
      RateIsOne(|started * completed|, |started|);
    }
  }

  lemma PartsOfASet(a: set<string>, b: set<string>)
    ensures |a| == |a * b| + |a - b|
    ensures |a| == |a * b| <==> a <= b
  {
    assert a == a * b + (a - b);
    assert a <= b <==> a - b == {};
  }

  // Retention.

  datatype Retention = Unavailable | Available(returning: nat, repeating: nat)

  ghost predicate AllAware(events: seq<Event>) {
    forall i :: 0 <= i < |events| ==> events[i].occurredAt.Aware?
  }

  function DaysOf(events: seq<Event>, subject: string): set<int>
    requires AllAware(events)
  {
    set e | e in events && e.contents.subjectHash == subject :: DayOf(e.occurredAt.instant)
  }

  predicate CompletedBy(e: Event, subject: string) {
    && e.contents.subjectHash == subject
    && e.contents.name == "decision_completed"
    && e.contents.decisionHash.Some? && e.contents.decisionHash.value != ""
  }

  function DecisionsOf(events: seq<Event>, subject: string): set<string> {
    set e | e in events && CompletedBy(e, subject) :: e.contents.decisionHash.value
  }

  /** The subjects seen on two days or more. */
  function Returning(events: seq<Event>): set<string>
    requires AllAware(events)
  {
    set s | s in Subjects(events) && |DaysOf(events, s)| >= 2
  }

  /** The subjects with two distinct completed decisions or more. */
  function Repeating(events: seq<Event>): set<string> {
    set s | s in Subjects(events) && |DecisionsOf(events, s)| >= 2
  }

  lemma DaysNext(events: seq<Event>, e: Event, subject: string)
    requires AllAware(events) && e.occurredAt.Aware?
    ensures AllAware(events + [e])
    ensures DaysOf(events + [e], subject) ==
            DaysOf(events, subject) + if e.contents.subjectHash == subject then {DayOf(e.occurredAt.instant)} else {}
  {
    assert forall x :: x in events + [e] <==> x in events || x == e;
  }

  lemma DecisionsNext(events: seq<Event>, e: Event, subject: string)
    ensures DecisionsOf(events + [e], subject) ==
            DecisionsOf(events, subject) + if CompletedBy(e, subject) then {e.contents.decisionHash.value} else {}
  {
    assert forall x :: x in events + [e] <==> x in events || x == e;
  }

  lemma SubjectsNext(events: seq<Event>, e: Event)
    ensures Subjects(events + [e]) == Subjects(events) + {e.contents.subjectHash}
  {
    assert forall x :: x in events + [e] <==> x in events || x == e;
  }

  /** How many values have two elements or more. */
  method CountPairs<T>(sets: map<string, set<T>>) returns (n: nat)
    ensures n == |set s | s in sets && |sets[s]| >= 2|
  {
    n := 0;
    var left := sets.Keys;
    ghost var counted: set<string> := {};
    while left != {}
      invariant left <= sets.Keys
      invariant counted == set s | s in sets && s !in left && |sets[s]| >= 2
      invariant n == |counted|
      decreases left
    {
      var s :| s in left;
      left := left - {s};
      if |sets[s]| >= 2 {
        n := n + 1;
        counted := counted + {s};
      }
    }
    assert counted == set s | s in sets && |sets[s]| >= 2;
  }

  /** The dictionary holds the days of every subject. */
  ghost predicate TracksDays(dates: map<string, set<int>>, events: seq<Event>)
    requires AllAware(events)
  {
    dates.Keys == Subjects(events) && forall s :: s in dates ==> dates[s] == DaysOf(events, s)
  }

  /** The dictionary holds the decisions of every subject that completed one. */
  ghost predicate TracksDecisions(decisions: map<string, set<string>>, events: seq<Event>) {
    && decisions.Keys <= Subjects(events)
    && forall s :: DecisionsOf(events, s) == if s in decisions then decisions[s] else {}
  }

  lemma DaysTracked(dates: map<string, set<int>>, events: seq<Event>, e: Event)
    requires AllAware(events) && e.occurredAt.Aware? && TracksDays(dates, events)
    ensures AllAware(events + [e])
    ensures var s := e.contents.subjectHash;
            TracksDays(dates[s := (if s in dates then dates[s] else {}) + {DayOf(e.occurredAt.instant)}], events + [e])
  {
    SubjectsNext(events, e);
    NoDaysBefore(events, e.contents.subjectHash);
    hide DaysOf, Subjects, DayOf;
    assert AllAware(events + [e]);
    forall s
      ensures DaysOf(events + [e], s) ==
              DaysOf(events, s) + if e.contents.subjectHash == s then {DayOf(e.occurredAt.instant)} else {}
    {
      DaysNext(events, e, s);
    }
  }

  lemma DecisionsTracked(decisions: map<string, set<string>>, events: seq<Event>, e: Event)
    requires TracksDecisions(decisions, events)
    ensures var s := e.contents.subjectHash;
            TracksDecisions(
              if CompletedBy(e, s) then
                decisions[s := (if s in decisions then decisions[s] else {}) + {e.contents.decisionHash.value}]
              else decisions,
              events + [e])
  {
    SubjectsNext(events, e);
    hide DecisionsOf, Subjects;
    forall s
      ensures DecisionsOf(events + [e], s) ==
              DecisionsOf(events, s) + if CompletedBy(e, s) then {e.contents.decisionHash.value} else {}
    {
      DecisionsNext(events, e, s);
    }
  }

  lemma NoDaysBefore(events: seq<Event>, subject: string)
    requires AllAware(events)
    ensures subject !in Subjects(events) ==> DaysOf(events, subject) == {}
  {
  }

  /** `_retention`: nothing on a truncated scan, else how many subjects return and how many decide again. */
  method RetentionOf(events: seq<Event>, partial: bool) returns (r: Retention)
    requires AllAware(events)
    ensures r == if partial then Unavailable else Available(|Returning(events)|, |Repeating(events)|)
  {
    if partial {
      return Unavailable;
    }
    var dates: map<string, set<int>> := map[];
    var decisions: map<string, set<string>> := map[];
    for i := 0 to |events|
      invariant AllAware(events[..i])
      invariant TracksDays(dates, events[..i]) && TracksDecisions(decisions, events[..i])
    {
      hide DayOf;
      var e := events[i];
      var s := e.contents.subjectHash;
      assert events[..i + 1] == events[..i] + [e];
      assert AllAware(events[..i + 1]);
      DaysTracked(dates, events[..i], e);
      DecisionsTracked(decisions, events[..i], e);
      hide TracksDays, TracksDecisions;
      dates := dates[s := (if s in dates then dates[s] else {}) + {DayOf(e.occurredAt.instant)}];
      if e.contents.name == "decision_completed" && e.contents.decisionHash.Some? &&
        e.contents.decisionHash.value != "" {
        decisions := decisions[s := (if s in decisions then decisions[s] else {}) + {e.contents.decisionHash.value}];
      }
    }
    assert events[..|events|] == events;
    var returning := CountPairs(dates);
    var repeating := CountPairs(decisions);
    assert Returning(events) == set s | s in dates && |dates[s]| >= 2;
    assert Repeating(events) == set s | s in decisions && |decisions[s]| >= 2;
    return Available(returning, repeating);
  }

  ghost predicate SeenOn(events: seq<Event>, subject: string, day: int) {
    exists e :: e in events && e.contents.subjectHash == subject && e.occurredAt.Aware? &&
      DayOf(e.occurredAt.instant) == day
  }

  ghost predicate Decided(events: seq<Event>, subject: string, hash: string) {
    exists e :: e in events && CompletedBy(e, subject) && e.contents.decisionHash.value == hash
  }

  lemma AtLeastTwo<T>(s: set<T>)
    ensures |s| >= 2 <==> exists a, b :: a in s && b in s && a != b
  {
    if s != {} {
      var a :| a in s;
      if s - {a} != {} {
        var b :| b in s - {a};
        assert |s - {a}| >= 1;
      } else {
        assert s == {a};
      }
    }
  }

  /** A subject returns exactly when it is seen on two days, and repeats exactly when it completes two decisions. */
  lemma ReturningExactlyWhen(events: seq<Event>, subject: string)
    requires AllAware(events)
    ensures subject in Returning(events) <==>
            exists a, b :: SeenOn(events, subject, a) && SeenOn(events, subject, b) && a != b
    ensures subject in Repeating(events) <==>
            exists a, b :: Decided(events, subject, a) && Decided(events, subject, b) && a != b
  {
    AtLeastTwo(DaysOf(events, subject));
    AtLeastTwo(DecisionsOf(events, subject));
    forall d
      ensures d in DaysOf(events, subject) <==> SeenOn(events, subject, d)
    {
    }
    forall h
      ensures h in DecisionsOf(events, subject) <==> Decided(events, subject, h)
    {
    }
    SeenIsSubject(events, subject);
    hide DaysOf, DecisionsOf, SeenOn, Decided, Subjects;
  }

  lemma SeenIsSubject(events: seq<Event>, subject: string)
    ensures forall d :: SeenOn(events, subject, d) ==> subject in Subjects(events)
    ensures forall h :: Decided(events, subject, h) ==> subject in Subjects(events)
  {
  }

  /** Returning and repeating subjects never exceed the distinct ones, and who repeats has completed two decisions. */
  lemma RetentionIsBounded(events: seq<Event>)
    requires AllAware(events)
    ensures |Returning(events)| <= |Subjects(events)|
    ensures |Repeating(events)| <= |Subjects(events)|
    ensures Repeating(events) != {} ==> |HashesOf(events, "decision_completed")| >= 2
  {
    SubsetSize(Returning(events), Subjects(events));
    SubsetSize(Repeating(events), Subjects(events));
    if Repeating(events) != {} {
      var s :| s in Repeating(events);
      SubsetSize(DecisionsOf(events, s), HashesOf(events, "decision_completed"));
    }
  }

  lemma OneDaySet(days: set<int>, day: int)
    requires forall d :: d in days ==> d == day
    ensures |days| <= 1
  {
    forall d | d in days
      ensures d in {day}
    {
    }
    SubsetSize(days, {day});
  }

  /** Within the one-day window nobody returns. */
  lemma NobodyReturnsWithinADay(events: seq<Event>, now: int)
    ensures AllAware(Selected(events, OneDay, now))
    ensures Returning(Selected(events, OneDay, now)) == {}
  {
    var today := Selected(events, OneDay, now);
    forall e | e in today
      ensures e.occurredAt.Aware? && DayOf(e.occurredAt.instant) == DayOf(now)
    {
      WindowIsWholeDays(e, OneDay, now);
    }
    forall i | 0 <= i < |today|
      ensures today[i].occurredAt.Aware?
    {
      assert today[i] in today;
    }
    forall s | s in Subjects(today)
      ensures |DaysOf(today, s)| <= 1
    {
      OneDaySet(DaysOf(today, s), DayOf(now));
    }
  }
}
