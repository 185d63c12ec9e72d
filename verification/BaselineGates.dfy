/**
 * The four scanner gates that compare findings with a baseline of exceptions.
 *
 * A finding and an exception are represented by the fields that the gate compares (its
 * `exception_matches`, `_identity` or `key`), as one value of type `K`. Reports are lists of
 * lines; the wording of a line is its constructor.
 */
module BaselineGates {

  datatype Line<K> =
    | Unbaselined(key: K)
    | Blocking(key: K)
    | Stale(key: K)
    | Excess(key: K)
    | Overcounted(key: K, exceptions: nat, findings: nat)

  function Surplus(a: nat, b: nat): nat {
    if a > b then a - b else 0
  }

  /** How often a gate that itemizes every copy reports a line. */
  function Itemized<K>(found: multiset<K>, allowed: multiset<K>, line: Line<K>): nat {
    match line
    case Unbaselined(k) => Surplus(found[k], allowed[k])
    case Blocking(_) => 0
    case Stale(k) => if found[k] == 0 then allowed[k] else 0
    case Excess(k) => if found[k] == 0 then 0 else Surplus(allowed[k], found[k])
    case Overcounted(_, _, _) => 0
  }

  /** The same, in a gate that calls every unused exception stale. */
  function StaleOnly<K>(found: multiset<K>, allowed: multiset<K>, line: Line<K>): nat {
    match line
    case Unbaselined(k) => Surplus(found[k], allowed[k])
    case Stale(k) => Surplus(allowed[k], found[k])
    case _ => 0
  }

  function Reported<K>(found: multiset<K>, allowed: multiset<K>, oneWording: bool, line: Line<K>): nat {
    if oneWording then StaleOnly(found, allowed, line) else Itemized(found, allowed, line)
  }

  /** The same, in a gate that reports each key once, and then says both numbers. */
  function PerKey<K>(found: multiset<K>, allowed: multiset<K>, blocking: K -> bool, line: Line<K>): nat {
    match line
    case Unbaselined(k) => if found[k] > allowed[k] then 1 else 0
    case Blocking(k) => if found[k] > allowed[k] && blocking(k) then 1 else 0
    case Stale(k) => if found[k] == 0 && allowed[k] > 0 then 1 else 0
    case Excess(_) => 0
    case Overcounted(k, exceptions, findings) =>
      if 0 < found[k] < allowed[k] && exceptions == allowed[k] && findings == found[k] then 1 else 0
  }

  ghost predicate ItemizedReport<K(!new)>(lines: seq<Line<K>>, found: multiset<K>, allowed: multiset<K>) {
    && (forall l :: multiset(lines)[l] == Itemized(found, allowed, l))
    && |lines| == |found - allowed| + |allowed - found|
  }

  ghost predicate StaleOnlyReport<K(!new)>(lines: seq<Line<K>>, found: multiset<K>, allowed: multiset<K>) {
    && (forall l :: multiset(lines)[l] == StaleOnly(found, allowed, l))
    && |lines| == |found - allowed| + |allowed - found|
  }

  ghost predicate PerKeyReport<K(!new)>(
    lines: seq<Line<K>>, found: multiset<K>, allowed: multiset<K>, blocking: K -> bool)
  {
    forall l :: multiset(lines)[l] == PerKey(found, allowed, blocking, l)
  }

  /**
   * The four gates decide one question. The greedy IaC gate and the counting secret gate
   * report the same lines equally often; the SAST gate reports as many; and all four stay
   * silent exactly when findings and exceptions agree as multisets.
   */
  lemma GatesAgree<K(!new)>(
    iac: seq<Line<K>>, secrets: seq<Line<K>>, sast: seq<Line<K>>, container: seq<Line<K>>,
    found: multiset<K>, allowed: multiset<K>, blocking: K -> bool)
    requires ItemizedReport(iac, found, allowed) && ItemizedReport(secrets, found, allowed)
    requires StaleOnlyReport(sast, found, allowed) && PerKeyReport(container, found, allowed, blocking)
    ensures multiset(iac) == multiset(secrets)
    ensures |sast| == |iac| == |secrets|
    ensures iac == [] <==> found == allowed
    ensures secrets == [] <==> found == allowed
    ensures sast == [] <==> found == allowed
    ensures container == [] <==> found == allowed
  {
    SilentMeansEqual(found, allowed);
    if container == [] {
      forall k
        ensures found[k] == allowed[k]
      {
        assert multiset(container)[Unbaselined(k)] == PerKey(found, allowed, blocking, Unbaselined(k));
        assert multiset(container)[Stale(k)] == PerKey(found, allowed, blocking, Stale(k));
        var over := Overcounted(k, allowed[k], found[k]);
        assert multiset(container)[over] == PerKey(found, allowed, blocking, over);
      }
      assert found == allowed;
    }
    if found == allowed {
      forall l
        ensures multiset(container)[l] == 0
      {
        assert multiset(container)[l] == PerKey(found, allowed, blocking, l);
      }
      assert multiset(container) == multiset{};
    }
  }

  lemma SilentMeansEqual<K>(found: multiset<K>, allowed: multiset<K>)
    ensures |found - allowed| + |allowed - found| == 0 <==> found == allowed
  {
    if |found - allowed| == 0 && |allowed - found| == 0 {
      assert found - allowed == multiset{} && allowed - found == multiset{};
      forall k
        ensures found[k] == allowed[k]
      {
        assert (found - allowed)[k] == 0 && (allowed - found)[k] == 0;
      }
    }
  }

  lemma RemoveAt<K>(s: seq<K>, at: nat)
    requires at < |s|
    ensures multiset(s[..at] + s[at + 1..]) == multiset(s) - multiset{s[at]}
  {
    assert s == s[..at] + [s[at]] + s[at + 1..];
  }

  lemma PrefixGrows<K>(s: seq<K>, i: nat)
    requires i < |s|
    ensures multiset(s[..i + 1]) == multiset(s[..i]) + multiset{s[i]}
  {
    assert s[..i + 1] == s[..i] + [s[i]];
  }

  /** `next(pos for ... if matches, None)`, with the length for None. */
  function FirstMatch<K(==)>(s: seq<K>, key: K): (at: nat)
    ensures at <= |s|
    ensures at < |s| ==> s[at] == key
    ensures at == |s| <==> key !in s
  {
    if s == [] then 0 else if s[0] == key then 0 else 1 + FirstMatch(s[1..], key)
  }

  /** Exceptions seen so far: what they leave of the findings, and what they have too many. */
  lemma Consume<K>(found: multiset<K>, before: multiset<K>, key: K)
    ensures found[key] > before[key] ==>
              && (before + multiset{key}) - found == before - found
              && found - (before + multiset{key}) == (found - before) - multiset{key}
    ensures found[key] <= before[key] ==>
              && (before + multiset{key}) - found == (before - found) + multiset{key}
              && found - (before + multiset{key}) == found - before
  {
  }

  /** The lines that the exceptions seen so far have produced. */
  ghost predicate ExceptionLines<K(!new)>(
    lines: seq<Line<K>>, found: multiset<K>, before: multiset<K>, oneWording: bool)
  {
    forall l :: multiset(lines)[l] == if l.Unbaselined? then 0 else Reported(found, before, oneWording, l)
  }

  lemma ExceptionUsed<K(!new)>(
    lines: seq<Line<K>>, found: multiset<K>, before: multiset<K>, key: K)
    requires found[key] > before[key]
    ensures ExceptionLines(lines, found, before, false) ==> ExceptionLines(lines, found, before + multiset{key}, false)
    ensures ExceptionLines(lines, found, before, true) ==> ExceptionLines(lines, found, before + multiset{key}, true)
  {
  }

  /** How a gate words an exception that matches no finding any more. */
  function Unused<K>(found: multiset<K>, oneWording: bool, key: K): Line<K> {
    if oneWording || found[key] == 0 then Stale(key) else Excess(key)
  }

  lemma ExceptionFlagged<K(!new)>(
    lines: seq<Line<K>>, found: multiset<K>, before: multiset<K>, key: K, oneWording: bool)
    requires found[key] <= before[key] && ExceptionLines(lines, found, before, oneWording)
    ensures ExceptionLines(lines + [Unused(found, oneWording, key)], found, before + multiset{key}, oneWording)
  {
    var line := Unused(found, oneWording, key);
    assert multiset(lines + [line]) == multiset(lines) + multiset{line};
    forall l
      ensures multiset(lines + [line])[l] ==
              if l.Unbaselined? then 0 else Reported(found, before + multiset{key}, oneWording, l)
    {
      assert multiset(lines)[l] == if l.Unbaselined? then 0 else Reported(found, before, oneWording, l);
    }
  }

  /** One line for every finding left over. */
  method Leftover<K(==, !new)>(unmatched: seq<K>) returns (lines: seq<Line<K>>)
    ensures |lines| == |unmatched|
    ensures forall j :: 0 <= j < |lines| ==> lines[j] == Unbaselined(unmatched[j])
    ensures forall l :: multiset(lines)[l] == if l.Unbaselined? then multiset(unmatched)[l.key] else 0
  {
    lines := [];
    for i := 0 to |unmatched|
      invariant |lines| == i
      invariant forall j :: 0 <= j < i ==> lines[j] == Unbaselined(unmatched[j])
      invariant forall l :: multiset(lines)[l] == if l.Unbaselined? then multiset(unmatched[..i])[l.key] else 0
    {
      PrefixGrows(unmatched, i);
      lines := lines + [Unbaselined(unmatched[i])];
    }
    assert unmatched[..|unmatched|] == unmatched;
  }

  lemma FirstMatchIn<K>(s: seq<K>, key: K)
    ensures FirstMatch(s, key) < |s| <==> multiset(s)[key] > 0
  {
  }

  /** What is left of the findings, and the lines produced, once some exceptions are seen. */
  ghost predicate Greedy<K(!new)>(
    unmatched: seq<K>, lines: seq<Line<K>>, found: multiset<K>, seen: multiset<K>, oneWording: bool)
  {
    && multiset(unmatched) == found - seen
    && |lines| == |seen - found|
    && ExceptionLines(lines, found, seen, oneWording)
  }

  /** A key is still there exactly when the findings have more copies than the exceptions seen. */
  lemma StillThere<K(!new)>(
    unmatched: seq<K>, lines: seq<Line<K>>, found: multiset<K>, seen: multiset<K>, key: K, oneWording: bool)
    requires Greedy(unmatched, lines, found, seen, oneWording)
    ensures FirstMatch(unmatched, key) < |unmatched| <==> found[key] > seen[key]
  {
    FirstMatchIn(unmatched, key);
  }

  lemma GreedyMatched<K(!new)>(unmatched: seq<K>, lines: seq<Line<K>>, found: multiset<K>, seen: multiset<K>, key: K,
                               oneWording: bool, at: nat)
    requires Greedy(unmatched, lines, found, seen, oneWording) && found[key] > seen[key]
    requires at < |unmatched| && unmatched[at] == key
    ensures Greedy(unmatched[..at] + unmatched[at + 1..], lines, found, seen + multiset{key}, oneWording)
  {
    hide ExceptionLines;
    var rest := unmatched[..at] + unmatched[at + 1..];
    assert multiset(rest) == found - (seen + multiset{key}) by {
      RemoveAt(unmatched, at);
      Consume(found, seen, key);
    }
    assert |(seen + multiset{key}) - found| == |seen - found| by {
      Consume(found, seen, key);
    }
    StillCounted(lines, found, seen, key, oneWording);
  }

  lemma StillCounted<K(!new)>(lines: seq<Line<K>>, found: multiset<K>, seen: multiset<K>, key: K, oneWording: bool)
    requires ExceptionLines(lines, found, seen, oneWording) && found[key] > seen[key]
    ensures ExceptionLines(lines, found, seen + multiset{key}, oneWording)
  {
    ExceptionUsed(lines, found, seen, key);
  }

  lemma GreedyFlagged<K(!new)>(
    unmatched: seq<K>, lines: seq<Line<K>>, found: multiset<K>, seen: multiset<K>, key: K, oneWording: bool)
    requires found[key] <= seen[key] && Greedy(unmatched, lines, found, seen, oneWording)
    ensures Greedy(unmatched, lines + [Unused(found, oneWording, key)], found, seen + multiset{key}, oneWording)
  {
    hide ExceptionLines;
    Consume(found, seen, key);
    ExceptionFlagged(lines, found, seen, key, oneWording);
  }

  lemma GreedyStart<K(!new)>(findings: seq<K>)
    ensures Greedy(findings, [], multiset(findings), multiset{}, false)
    ensures Greedy(findings, [], multiset(findings), multiset{}, true)
  {
  }

  /** Exception lines and leftovers make up a report. */
  lemma GreedyTotal<K(!new)>(
    unmatched: seq<K>, lines: seq<Line<K>>, rest: seq<Line<K>>, found: multiset<K>, allowed: multiset<K>)
    requires |rest| == |unmatched|
    requires forall l :: multiset(rest)[l] == if l.Unbaselined? then multiset(unmatched)[l.key] else 0
    ensures Greedy(unmatched, lines, found, allowed, false) ==> ItemizedReport(lines + rest, found, allowed)
    ensures Greedy(unmatched, lines, found, allowed, true) ==> StaleOnlyReport(lines + rest, found, allowed)
  {
    assert multiset(lines + rest) == multiset(lines) + multiset(rest);
    assert |multiset(unmatched)| == |unmatched|;
  }

  /** The exceptions before the i-th have used up every finding it could match. */
  predicate UsedUp<K(==)>(findings: seq<K>, exceptions: seq<K>, i: nat)
    requires i < |exceptions|
  {
    multiset(exceptions[..i])[exceptions[i]] >= multiset(findings)[exceptions[i]]
  }

  /** The flagged indices below n are those of the used-up exceptions, and the lines carry their keys. */
  ghost predicate Flagged<K(!new)>(
    findings: seq<K>, exceptions: seq<K>, lines: seq<Line<K>>, flagged: seq<nat>, n: nat)
  {
    && n <= |exceptions| && |lines| == |flagged|
    && (forall j :: 0 <= j < |flagged| ==>
          flagged[j] < n && !lines[j].Unbaselined? && lines[j].key == exceptions[flagged[j]])
    && (forall i :: 0 <= i < n ==> (i in flagged <==> UsedUp(findings, exceptions, i)))
  }

  lemma FlagNext<K(!new)>(
    findings: seq<K>, exceptions: seq<K>, lines: seq<Line<K>>, flagged: seq<nat>, n: nat, line: Line<K>)
    requires Flagged(findings, exceptions, lines, flagged, n) && n < |exceptions|
    ensures !UsedUp(findings, exceptions, n) ==> Flagged(findings, exceptions, lines, flagged, n + 1)
    ensures UsedUp(findings, exceptions, n) && !line.Unbaselined? && line.key == exceptions[n] ==>
              Flagged(findings, exceptions, lines + [line], flagged + [n], n + 1)
  {
    forall i | 0 <= i < n
      ensures i in flagged + [n] <==> i in flagged
    {
    }
  }

  /**
   * The IaC gate: each exception consumes the first finding left that it matches.
   * `flagged` lists the indices printed with the exception lines.
   */
  method CompareIac<K(==, !new)>(findings: seq<K>, exceptions: seq<K>)
    returns (lines: seq<Line<K>>, flagged: seq<nat>)
    ensures ItemizedReport(lines, multiset(findings), multiset(exceptions))
    ensures |flagged| <= |lines|
    ensures forall j :: 0 <= j < |flagged| ==>
              flagged[j] < |exceptions| && !lines[j].Unbaselined? && lines[j].key == exceptions[flagged[j]]
    ensures forall j :: |flagged| <= j < |lines| ==> lines[j].Unbaselined?
    ensures forall i :: 0 <= i < |exceptions| ==> (i in flagged <==> UsedUp(findings, exceptions, i))
  {
    hide Greedy, Flagged, ItemizedReport, Itemized, FirstMatch, UsedUp, Unused;
    var unmatched := findings;
    ghost var found, seen := multiset(findings), multiset{};
    lines, flagged := [], [];
    GreedyStart(findings);
    FlaggedStart(findings, exceptions);
    for index := 0 to |exceptions|
      invariant seen == multiset(exceptions[..index])
      invariant Greedy(unmatched, lines, found, seen, false)
      invariant Flagged(findings, exceptions, lines, flagged, index)
    {
      var exception := exceptions[index];
      StillThere(unmatched, lines, found, seen, exception, false);
      UsedUpBy(findings, exceptions, index);
      var at := FirstMatch(unmatched, exception);
      var line := if exception in findings then Excess(exception) else Stale(exception);
      FlagNext(findings, exceptions, lines, flagged, index, line);
      if at == |unmatched| {
        GreedyFlagged(unmatched, lines, found, seen, exception, false);
        IacWording(findings, exception);
        lines := lines + [line];
        flagged := flagged + [index];
      } else {
        GreedyMatched(unmatched, lines, found, seen, exception, false, at);
        unmatched := unmatched[..at] + unmatched[at + 1..];
      }
      PrefixGrows(exceptions, index);
      seen := seen + multiset{exception};
    }
    assert exceptions[..|exceptions|] == exceptions;
    var rest := Leftover(unmatched);
    GreedyTotal(unmatched, lines, rest, found, seen);
    FlaggedOrder(findings, exceptions, lines, flagged, rest);
    lines := lines + rest;
  }

  lemma IacWording<K(!new)>(findings: seq<K>, key: K)
    ensures Unused(multiset(findings), false, key) == if key in findings then Excess(key) else Stale(key)
  {
  }

  lemma FlaggedStart<K(!new)>(findings: seq<K>, exceptions: seq<K>)
    ensures Flagged(findings, exceptions, [], [], 0)
  {
  }

  lemma UsedUpBy<K(!new)>(findings: seq<K>, exceptions: seq<K>, i: nat)
    requires i < |exceptions|
    ensures UsedUp(findings, exceptions, i) <==>
      multiset(exceptions[..i])[exceptions[i]] >= multiset(findings)[exceptions[i]]
    ensures exceptions[i] in findings <==> multiset(findings)[exceptions[i]] > 0
  {
  }

  lemma FlaggedOrder<K(!new)>(
    findings: seq<K>, exceptions: seq<K>, lines: seq<Line<K>>, flagged: seq<nat>, rest: seq<Line<K>>)
    requires Flagged(findings, exceptions, lines, flagged, |exceptions|)
    requires forall j :: 0 <= j < |rest| ==> rest[j].Unbaselined?
    ensures |lines| == |flagged|
    ensures var all := lines + rest;
            && (forall j :: 0 <= j < |flagged| ==>
                  flagged[j] < |exceptions| && !all[j].Unbaselined? && all[j].key == exceptions[flagged[j]])
            && (forall j :: |flagged| <= j < |all| ==> all[j].Unbaselined?)
    ensures forall i :: 0 <= i < |exceptions| ==> (i in flagged <==> UsedUp(findings, exceptions, i))
  {
    hide UsedUp;
  }

  /** The SAST gate: the same greedy walk, with one wording for unused exceptions. */
  method CompareSast<K(==, !new)>(findings: seq<K>, exceptions: seq<K>) returns (lines: seq<Line<K>>)
    ensures StaleOnlyReport(lines, multiset(findings), multiset(exceptions))
  {
    hide Greedy, StaleOnlyReport, StaleOnly, FirstMatch;
    assert forall key :: Unused(multiset(findings), true, key) == Stale(key);
    var unmatched := findings;
    ghost var found, seen := multiset(findings), multiset{};
    lines := [];
    GreedyStart(findings);
    for index := 0 to |exceptions|
      invariant seen == multiset(exceptions[..index])
      invariant Greedy(unmatched, lines, found, seen, true)
    {
      var exception := exceptions[index];
      PrefixGrows(exceptions, index);
      StillThere(unmatched, lines, found, seen, exception, true);
      var at := FirstMatch(unmatched, exception);
      if at == |unmatched| {
        GreedyFlagged(unmatched, lines, found, seen, exception, true);
        lines := lines + [Stale(exception)];
      } else {
        GreedyMatched(unmatched, lines, found, seen, exception, true, at);
        unmatched := unmatched[..at] + unmatched[at + 1..];
      }
      seen := seen + multiset{exception};
    }
    assert exceptions[..|exceptions|] == exceptions;
    var rest := Leftover(unmatched);
    GreedyTotal(unmatched, lines, rest, found, seen);
    lines := lines + rest;
  }

  /** `extend(line for _ in range(n))`: a negative count adds nothing. */
  method Extend<T>(lines: seq<T>, line: T, n: int) returns (r: seq<T>)
    ensures |r| == |lines| + (if n > 0 then n else 0)
    ensures multiset(r) == multiset(lines)[line := multiset(lines)[line] + (if n > 0 then n else 0)]
  {
    r := lines;
    var i := 0;
    while i < n
      invariant 0 <= i && (i <= n || (i == 0 && n < 0))
      invariant |r| == |lines| + i
      invariant multiset(r) == multiset(lines)[line := multiset(lines)[line] + i]
    {
      r := r + [line];
      i := i + 1;
    }
  }

  /** The part of a multiset that lies on some keys. */
  ghost function On<K(!new)>(m: multiset<K>, keys: set<K>): (r: multiset<K>)
    ensures forall k :: r[k] == if k in keys then m[k] else 0
  {
    if keys == {} then multiset{}
    else
      var k :| k in keys;
      On(m, keys - {k})[k := m[k]]
  }

  lemma OnGrows<K(!new)>(m: multiset<K>, keys: set<K>, k: K)
    requires k !in keys
    ensures On(m, keys + {k}) == On(m, keys)[k := m[k]]
    ensures |On(m, keys + {k})| == |On(m, keys)| + m[k]
  {
    assert On(m, keys)[k] == 0;
    assert On(m, keys + {k}) == On(m, keys)[k := m[k]];
  }

  lemma OnAll<K(!new)>(m: multiset<K>, keys: set<K>)
    requires forall k :: k in m ==> k in keys
    ensures On(m, keys) == m
  {
    forall k
      ensures On(m, keys)[k] == m[k]
    {
      assert k in keys || m[k] == 0;
    }
  }

  /** The lines of the keys walked so far. */
  ghost predicate Walked<K(!new)>(lines: seq<Line<K>>, found: multiset<K>, allowed: multiset<K>, done: set<K>) {
    && (forall l :: multiset(lines)[l] == if l.key in done then Itemized(found, allowed, l) else 0)
    && |lines| == |On(found - allowed, done)| + |On(allowed - found, done)|
  }

  lemma WalkKey<K(!new)>(
    lines: seq<Line<K>>, lines': seq<Line<K>>, found: multiset<K>, allowed: multiset<K>, done: set<K>, key: K)
    requires Walked(lines, found, allowed, done) && key !in done
    requires forall l :: multiset(lines')[l] == multiset(lines)[l] + KeyLines(key, found[key], allowed[key], l)
    requires |lines'| == |lines| + Surplus(found[key], allowed[key]) + Surplus(allowed[key], found[key])
    ensures Walked(lines', found, allowed, done + {key})
  {
    OnGrows(found - allowed, done, key);
    OnGrows(allowed - found, done, key);
    forall l
      ensures multiset(lines')[l] == if l.key in done + {key} then Itemized(found, allowed, l) else 0
    {
      assert multiset(lines)[l] == if l.key in done then Itemized(found, allowed, l) else 0;
      assert KeyLines(key, found[key], allowed[key], l) == if l.key == key then Itemized(found, allowed, l) else 0;
    }
  }

  /** The lines that the secret gate adds for one key. */
  method AddKey<K(==, !new)>(lines: seq<Line<K>>, key: K, inFindings: nat, inExceptions: nat) returns (r: seq<Line<K>>)
    ensures forall l :: multiset(r)[l] == multiset(lines)[l] + KeyLines(key, inFindings, inExceptions, l)
    ensures |r| == |lines| + Surplus(inFindings, inExceptions) + Surplus(inExceptions, inFindings)
  {
    var extraFindings, extraExceptions := inFindings - inExceptions, inExceptions - inFindings;
    r := Extend(lines, Unbaselined(key), extraFindings);
    if extraExceptions != 0 && inFindings == 0 {
      r := Extend(r, Stale(key), extraExceptions);
    } else if extraExceptions != 0 {
      r := Extend(r, Excess(key), extraExceptions);
    }
  }

  /** How often a line of one key is reported. */
  function KeyLines<K(==)>(key: K, inFindings: nat, inExceptions: nat, line: Line<K>): nat {
    match line
    case Unbaselined(k) => if k == key then Surplus(inFindings, inExceptions) else 0
    case Stale(k) => if k == key && inFindings == 0 then inExceptions else 0
    case Excess(k) => if k == key && inFindings > 0 then Surplus(inExceptions, inFindings) else 0
    case _ => 0
  }

  /** The secret gate: two counters, walked over the union of their keys. */
  method CompareSecrets<K(==, !new)>(findings: seq<K>, exceptions: seq<K>) returns (lines: seq<Line<K>>)
    ensures ItemizedReport(lines, multiset(findings), multiset(exceptions))
  {
    hide Walked, Itemized, KeyLines, ItemizedReport;
    var found, allowed := multiset(findings), multiset(exceptions);
    var keys := (set k | k in findings) + (set k | k in exceptions);
    var todo := keys;
    lines := [];
    NothingWalked(found, allowed);
    assert keys - todo == {};
    while todo != {}
      invariant todo <= keys
      invariant Walked(lines, found, allowed, keys - todo)
      decreases todo
    {
      var key :| key in todo;
      ghost var before, done := lines, keys - todo;
      todo := todo - {key};
      assert keys - todo == done + {key};
      lines := AddKey(lines, key, found[key], allowed[key]);
      WalkKey(before, lines, found, allowed, done, key);
    }
    assert keys - {} == keys;
    AllWalked(lines, found, allowed, keys);
  }

  lemma NothingWalked<K(!new)>(found: multiset<K>, allowed: multiset<K>)
    ensures Walked<K>([], found, allowed, {})
  {
  }

  lemma AllWalked<K(!new)>(lines: seq<Line<K>>, found: multiset<K>, allowed: multiset<K>, keys: set<K>)
    requires Walked(lines, found, allowed, keys)
    requires forall k :: k in found || k in allowed ==> k in keys
    ensures ItemizedReport(lines, found, allowed)
  {
    OnAll(found - allowed, keys);
    OnAll(allowed - found, keys);
    forall l
      ensures multiset(lines)[l] == Itemized(found, allowed, l)
    {
      assert multiset(lines)[l] == if l.key in keys then Itemized(found, allowed, l) else 0;
      assert l.key in keys || (found[l.key] == 0 && allowed[l.key] == 0);
    }
  }

  /** The line tells of a finding, not of an exception. */
  predicate OfFinding<K>(line: Line<K>) {
    line.Unbaselined? || line.Blocking?
  }

  /** The lines of the exception walk, but for the keys still to do. */
  ghost predicate ExceptionWalk<K(!new)>(
    lines: seq<Line<K>>, found: multiset<K>, allowed: multiset<K>, blocking: K -> bool, todo: set<K>)
  {
    forall l :: multiset(lines)[l] ==
                if OfFinding(l) || l.key in todo then 0 else PerKey(found, allowed, blocking, l)
  }

  /** The lines of both walks, but for the findings whose keys are still to do. */
  ghost predicate FindingWalk<K(!new)>(
    lines: seq<Line<K>>, found: multiset<K>, allowed: multiset<K>, blocking: K -> bool, todo: set<K>)
  {
    forall l :: multiset(lines)[l] ==
                if OfFinding(l) && l.key in todo then 0 else PerKey(found, allowed, blocking, l)
  }

  lemma ExceptionWalkStarts<K(!new)>(found: multiset<K>, allowed: multiset<K>, blocking: K -> bool, todo: set<K>)
    requires forall k :: k in allowed ==> k in todo
    ensures ExceptionWalk<K>([], found, allowed, blocking, todo)
  {
  }

  lemma ExceptionWalkStep<K(!new)>(
    lines: seq<Line<K>>, found: multiset<K>, allowed: multiset<K>, blocking: K -> bool, todo: set<K>, key: K)
    requires ExceptionWalk(lines, found, allowed, blocking, todo) && key in todo && key in allowed
    ensures found[key] == 0 ==> ExceptionWalk(lines + [Stale(key)], found, allowed, blocking, todo - {key})
    ensures 0 < found[key] < allowed[key] ==>
              ExceptionWalk(lines + [Overcounted(key, allowed[key], found[key])], found, allowed, blocking,
                todo - {key})
    ensures 0 < found[key] && allowed[key] <= found[key] ==>
              ExceptionWalk(lines, found, allowed, blocking, todo - {key})
  {
    var over := Overcounted(key, allowed[key], found[key]);
    assert multiset(lines + [Stale(key)]) == multiset(lines) + multiset{Stale(key)};
    assert multiset(lines + [over]) == multiset(lines) + multiset{over};
  }

  lemma WalksMeet<K(!new)>(
    lines: seq<Line<K>>, found: multiset<K>, allowed: multiset<K>, blocking: K -> bool, todo: set<K>)
    requires ExceptionWalk(lines, found, allowed, blocking, {}) && forall k :: k in found ==> k in todo
    ensures FindingWalk(lines, found, allowed, blocking, todo)
  {
  }

  lemma FindingWalkStep<K(!new)>(
    lines: seq<Line<K>>, found: multiset<K>, allowed: multiset<K>, blocking: K -> bool, todo: set<K>, key: K)
    requires FindingWalk(lines, found, allowed, blocking, todo) && key in todo
    ensures found[key] <= allowed[key] ==> FindingWalk(lines, found, allowed, blocking, todo - {key})
    ensures found[key] > allowed[key] && !blocking(key) ==>
              FindingWalk(lines + [Unbaselined(key)], found, allowed, blocking, todo - {key})
    ensures found[key] > allowed[key] && blocking(key) ==>
              FindingWalk(lines + [Blocking(key)] + [Unbaselined(key)], found, allowed, blocking, todo - {key})
  {
    var one, both := lines + [Unbaselined(key)], lines + [Blocking(key)] + [Unbaselined(key)];
    assert multiset(one) == multiset(lines) + multiset{Unbaselined(key)};
    assert multiset(both) == multiset(lines) + multiset{Blocking(key)} + multiset{Unbaselined(key)};
  }

  /** Lines of exceptions only, then of findings only, each blocking line right before its finding. */
  ghost predicate Arranged<K(!new)>(lines: seq<Line<K>>, n: nat) {
    && n <= |lines|
    && (forall i :: 0 <= i < |lines| ==> (OfFinding(lines[i]) <==> i >= n))
    && (forall i :: 0 <= i < |lines| && lines[i].Blocking? ==>
          i + 1 < |lines| && lines[i + 1] == Unbaselined(lines[i].key))
  }

  lemma ArrangedNext<K(!new)>(lines: seq<Line<K>>, n: nat, key: K)
    requires Arranged(lines, n)
    ensures Arranged(lines + [Unbaselined(key)], n)
    ensures Arranged(lines + [Blocking(key)] + [Unbaselined(key)], n)
    ensures n == |lines| ==>
              forall line :: !OfFinding(line) ==> Arranged(lines + [line], n + 1)
  {
  }

  lemma ArrangedOrder<K(!new)>(lines: seq<Line<K>>, n: nat)
    requires Arranged(lines, n)
    ensures forall i, j :: 0 <= i < j < |lines| && OfFinding(lines[i]) ==> OfFinding(lines[j])
    ensures forall i :: 0 <= i < |lines| && lines[i].Blocking? ==>
              i + 1 < |lines| && lines[i + 1] == Unbaselined(lines[i].key)
  {
  }

  lemma WalkEnds<K(!new)>(lines: seq<Line<K>>, found: multiset<K>, allowed: multiset<K>, blocking: K -> bool)
    requires FindingWalk(lines, found, allowed, blocking, {})
    ensures PerKeyReport(lines, found, allowed, blocking)
  {
  }

  /**
   * The container gate: one line per key on either side, and one more, right before it, for a
   * blocking severity. The lines of exceptions come first.
   */
  method CompareContainer<K(==, !new)>(findings: seq<K>, exceptions: seq<K>, blocking: K -> bool)
    returns (lines: seq<Line<K>>)
    ensures PerKeyReport(lines, multiset(findings), multiset(exceptions), blocking)
    ensures forall i, j :: 0 <= i < j < |lines| && OfFinding(lines[i]) ==> OfFinding(lines[j])
    ensures forall i :: 0 <= i < |lines| && lines[i].Blocking? ==>
              i + 1 < |lines| && lines[i + 1] == Unbaselined(lines[i].key)
  {
    hide ExceptionWalk, FindingWalk, PerKeyReport, Arranged;
    var found, allowed := multiset(findings), multiset(exceptions);
    lines := [];
    var todo := set k | k in exceptions;
    ExceptionWalkStarts(found, allowed, blocking, todo);
    assert Arranged<K>([], 0) by { NothingArranged<K>(); }
    while todo != {}
      invariant forall k :: k in todo ==> k in allowed
      invariant ExceptionWalk(lines, found, allowed, blocking, todo)
      invariant Arranged(lines, |lines|)
      decreases todo
    {
      var key :| key in todo;
      ExceptionWalkStep(lines, found, allowed, blocking, todo, key);
      ArrangedNext(lines, |lines|, key);
      todo := todo - {key};
      if found[key] == 0 {
        lines := lines + [Stale(key)];
      } else if allowed[key] > found[key] {
        lines := lines + [Overcounted(key, allowed[key], found[key])];
      }
    }
    todo := set k | k in findings;
    WalksMeet(lines, found, allowed, blocking, todo);
    ghost var n := |lines|;
    while todo != {}
      invariant FindingWalk(lines, found, allowed, blocking, todo)
      invariant Arranged(lines, n)
      decreases todo
    {
      var key :| key in todo;
      FindingWalkStep(lines, found, allowed, blocking, todo, key);
      ArrangedNext(lines, n, key);
      todo := todo - {key};
      if found[key] > allowed[key] {
        if blocking(key) {
          lines := lines + [Blocking(key)];
        }
        lines := lines + [Unbaselined(key)];
      }
    }
    WalkEnds(lines, found, allowed, blocking);
    ArrangedOrder(lines, n);
  }

  lemma NothingArranged<K(!new)>()
    ensures Arranged<K>([], 0)
  {
  }
}
