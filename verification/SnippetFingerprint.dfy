/**
 * The source fingerprint of the SAST gate: it reads a line-numbered snippet and must not
 * depend on the numbers.
 */
module SnippetFingerprint {
  import opened Wrappers
  import opened Text
  import opened Numerals
  import opened Gates

  /** The ASCII line boundaries of `str.splitlines`. */
  predicate IsBreak(c: char) {
    10 <= c as int <= 13 || 28 <= c as int <= 30
  }

  function LineEnd(s: string): (i: nat)
    ensures i <= |s|
    ensures forall j :: 0 <= j < i ==> !IsBreak(s[j])
    ensures i < |s| ==> IsBreak(s[i])
  {
    if s == "" || IsBreak(s[0]) then 0 else 1 + LineEnd(s[1..])
  }

  /** `str.splitlines()`. */
  function SplitLines(s: string): (lines: seq<string>)
    ensures forall i :: 0 <= i < |lines| ==> NoBreak(lines[i])
    decreases |s|
  {
    if s == "" then []
    else
      var i := LineEnd(s);
      if i == |s| then [s]
      else if s[i] == '\r' && i + 1 < |s| && s[i + 1] == '\n' then [s[..i]] + SplitLines(s[i + 2..])
      else [s[..i]] + SplitLines(s[i + 1..])
  }

  predicate NoBreak(line: string) {
    forall i :: 0 <= i < |line| ==> !IsBreak(line[i])
  }

  /** A line with a number, a blank and its source text. */
  predicate Numbered(line: string) {
    var at := IndexOf(line, ' ');
    0 < at < |line| && AllDigits(line[..at])
  }

  function NumberOf(line: string): nat
    requires Numbered(line)
  {
    DigitsValue(line[..IndexOf(line, ' ')])
  }

  function SourceOf(line: string): string
    requires Numbered(line)
  {
    StripRight(line[IndexOf(line, ' ') + 1..])
  }

  /** The loop of `parse_code_lines` from a dictionary on. */
  function ParseLines(lines: seq<string>, parsed: map<int, string>): Result<map<int, string>, GateError> {
    if lines == [] then Ok(parsed)
    else if !Numbered(lines[0]) || NumberOf(lines[0]) in parsed then Err(GateError)
    else ParseLines(lines[1..], parsed[NumberOf(lines[0]) := SourceOf(lines[0])])
  }

  function ParsedCode(code: string): Result<map<int, string>, GateError> {
    if Strip(code) == "" then Err(GateError) else ParseLines(SplitLines(code), map[])
  }

  /** `parse_code_lines`. */
  method ParseCodeLines(code: string) returns (r: Result<map<int, string>, GateError>)
    ensures r == ParsedCode(code)
  {
    if Strip(code) == "" {
      return Err(GateError);
    }
    var parsed: map<int, string> := map[];
    var lines := SplitLines(code);
    for i := 0 to |lines|
      invariant ParseLines(lines, map[]) == ParseLines(lines[i..], parsed)
    {
      assert lines[i..][1..] == lines[i + 1..];
      var line := lines[i];
      if !Numbered(line) {
        return Err(GateError);
      }
      var lineno := NumberOf(line);
      if lineno in parsed {
        return Err(GateError);
      }
      parsed := parsed[lineno := SourceOf(line)];
    }
    return Ok(parsed);
  }

  /** Every line of the range is in the snippet. */
  predicate Covers(parsed: map<int, string>, range: seq<int>) {
    forall i :: 0 <= i < |range| ==> range[i] in parsed
  }

  /** The texts of the lines in the range. */
  function TextsOf(parsed: map<int, string>, range: seq<int>): (r: seq<string>)
    requires Covers(parsed, range)
    ensures |r| == |range| && forall i :: 0 <= i < |range| ==> r[i] == parsed[range[i]]
  {
    seq(|range|, i requires 0 <= i < |range| => parsed[range[i]])
  }

  /** `normalized_source`. */
  function NormalizedSource(code: string, range: seq<int>): Result<string, GateError> {
    match ParsedCode(code)
    case Err(e) => Err(e)
    case Ok(parsed) =>
      if !Covers(parsed, range) then Err(GateError) else Ok(Join(TextsOf(parsed, range), '\n'))
  }

  /** `code_fingerprint`, for any digest. */
  function CodeFingerprint(digest: string -> string, code: string, range: seq<int>, issue: string)
    : Result<string, GateError>
  {
    if Strip(issue) == "" then Err(GateError)
    else
      match NormalizedSource(code, range)
      case Err(e) => Err(e)
      case Ok(source) => Ok(digest(source + "\n---\n" + Strip(issue)))
  }

  // What the dictionary holds.

  /** The i-th line is numbered n. */
  predicate HasNumber(lines: seq<string>, i: int, n: int) {
    0 <= i < |lines| && Numbered(lines[i]) && NumberOf(lines[i]) == n
  }

  /** The i-th line is numbered, with a number not seen. */
  ghost predicate NewNumber(lines: seq<string>, seen: map<int, string>, i: int) {
    0 <= i < |lines| ==> Numbered(lines[i]) && NumberOf(lines[i]) !in seen
  }

  ghost predicate Differ(lines: seq<string>, i: int, j: int) {
    0 <= i < j < |lines| && Numbered(lines[i]) && Numbered(lines[j]) ==> NumberOf(lines[i]) != NumberOf(lines[j])
  }

  /** All lines are numbered, differently, with numbers not seen. */
  ghost predicate NewNumbers(lines: seq<string>, seen: map<int, string>) {
    (forall i :: NewNumber(lines, seen, i)) && (forall i, j :: Differ(lines, i, j))
  }

  lemma RestIsNew(lines: seq<string>, seen: map<int, string>)
    requires lines != [] && NewNumbers(lines, seen)
    ensures Numbered(lines[0]) && NumberOf(lines[0]) !in seen
    ensures NewNumbers(lines[1..], seen[NumberOf(lines[0]) := SourceOf(lines[0])])
  {
    hide Numbered, NumberOf, SourceOf;
    assert NewNumber(lines, seen, 0);
    var rest, more := lines[1..], seen[NumberOf(lines[0]) := SourceOf(lines[0])];
    forall i
      ensures NewNumber(rest, more, i)
    {
      assert NewNumber(lines, seen, i + 1) && Differ(lines, 0, i + 1);
    }
    forall i, j
      ensures Differ(rest, i, j)
    {
      assert Differ(lines, i + 1, j + 1);
    }
  }

  lemma WholeIsNew(lines: seq<string>, seen: map<int, string>)
    requires lines != [] && Numbered(lines[0]) && NumberOf(lines[0]) !in seen
    requires NewNumbers(lines[1..], seen[NumberOf(lines[0]) := SourceOf(lines[0])])
    ensures NewNumbers(lines, seen)
  {
    hide Numbered, NumberOf, SourceOf;
    var rest, more := lines[1..], seen[NumberOf(lines[0]) := SourceOf(lines[0])];
    forall i
      ensures NewNumber(lines, seen, i)
    {
      assert NewNumber(rest, more, i - 1);
    }
    forall i, j
      ensures Differ(lines, i, j)
    {
      assert Differ(rest, i - 1, j - 1) && NewNumber(rest, more, j - 1);
    }
  }

  /** The entry of n comes from what was seen, or is the source of the line with that number. */
  ghost predicate EntryIs(lines: seq<string>, seen: map<int, string>, r: map<int, string>, n: int) {
    && (n in r <==> n in seen || exists i :: HasNumber(lines, i, n))
    && (n in seen ==> n in r && r[n] == seen[n])
    && (forall i :: HasNumber(lines, i, n) ==> n in r && r[n] == SourceOf(lines[i]))
  }

  lemma EntryNext(lines: seq<string>, seen: map<int, string>, r: map<int, string>, n: int)
    requires lines != [] && Numbered(lines[0]) && NumberOf(lines[0]) !in seen
    requires EntryIs(lines[1..], seen[NumberOf(lines[0]) := SourceOf(lines[0])], r, n)
    ensures EntryIs(lines, seen, r, n)
  {
    hide Numbered, NumberOf, SourceOf;
    var rest := lines[1..];
    forall i
      ensures HasNumber(lines, i, n) <==> (i == 0 && n == NumberOf(lines[0])) || HasNumber(rest, i - 1, n)
    {
    }
    if i :| HasNumber(rest, i, n) {
      assert HasNumber(lines, i + 1, n);
    }
    if n == NumberOf(lines[0]) {
      assert HasNumber(lines, 0, n);
    }
  }

  lemma {:induction false} ParseLinesIs(lines: seq<string>, seen: map<int, string>)
    ensures ParseLines(lines, seen).Ok? <==> NewNumbers(lines, seen)
    ensures ParseLines(lines, seen).Ok? ==> forall n :: EntryIs(lines, seen, ParseLines(lines, seen).value, n)
  {
    hide Numbered, NumberOf, SourceOf, NewNumbers, EntryIs;
    if lines == [] {
      NothingParsed(seen);
    } else {
      if NewNumbers(lines, seen) {
        RestIsNew(lines, seen);
      }
      if Numbered(lines[0]) && NumberOf(lines[0]) !in seen {
        var more := seen[NumberOf(lines[0]) := SourceOf(lines[0])];
        ParseLinesIs(lines[1..], more);
        if NewNumbers(lines[1..], more) {
          WholeIsNew(lines, seen);
        }
        if ParseLines(lines[1..], more).Ok? {
          var r := ParseLines(lines[1..], more).value;
          forall n
            ensures EntryIs(lines, seen, r, n)
          {
            EntryNext(lines, seen, r, n);
          }
        }
      }
    }
  }

  lemma NothingParsed(seen: map<int, string>)
    ensures NewNumbers([], seen) && forall n :: EntryIs([], seen, seen, n)
  {
  }

  /** One line at least, all numbered, no number twice. */
  ghost predicate WellNumbered(code: string) {
    SplitLines(code) != [] && NewNumbers(SplitLines(code), map[])
  }

  /**
   * A snippet is accepted exactly when it has a line and all lines carry different numbers; the
   * dictionary then holds, under each number, the source of that line and nothing else.
   */
  lemma ParsedCodeExactlyWhen(code: string)
    ensures ParsedCode(code).Ok? <==> WellNumbered(code)
    ensures ParsedCode(code).Ok? ==> forall n :: EntryIs(SplitLines(code), map[], ParsedCode(code).value, n)
  {
    hide SplitLines, ParseLines, ParsedCode, NewNumbers, EntryIs;
    ParsedCodeIs(code);
    ParseLinesIs(SplitLines(code), map[]);
  }

  // What the fingerprint covers.

  /** Some line of the snippet has this number. */
  ghost predicate HasLine(code: string, n: int) {
    exists i :: HasNumber(SplitLines(code), i, n)
  }

  lemma SourceHasNoBreak(line: string)
    requires Numbered(line) && NoBreak(line)
    ensures NoBreak(SourceOf(line)) && '\n' !in SourceOf(line)
  {
    var text := line[IndexOf(line, ' ') + 1..];
    assert NoBreak(text);
    StripRightIsFront(text);
  }

  /** Whether there is a source for the range. */
  lemma SourceExactlyWhen(code: string, range: seq<int>)
    ensures NormalizedSource(code, range).Ok? <==>
            WellNumbered(code) && forall k :: 0 <= k < |range| ==> HasLine(code, range[k])
  {
    hide SplitLines, ParsedCode, WellNumbered, Join, Numbered;
    ParsedCodeExactlyWhen(code);
    if WellNumbered(code) {
      var parsed := ParsedCode(code).value;
      forall k | 0 <= k < |range|
        ensures HasLine(code, range[k]) <==> range[k] in parsed
      {
        assert EntryIs(SplitLines(code), map[], parsed, range[k]);
      }
    }
  }

  /**
   * The normalized source of a range splits back at its line feeds into the lines of the
   * range, in order: for each number the text behind it, right-stripped.
   */
  lemma SourceSplitsBack(code: string, range: seq<int>)
    requires NormalizedSource(code, range).Ok?
    ensures var texts := Split(NormalizedSource(code, range).value, '\n');
            && (range == [] ==> NormalizedSource(code, range).value == "")
            && (range != [] ==>
                  && |texts| == |range|
                  && forall k, i :: 0 <= k < |range| && HasNumber(SplitLines(code), i, range[k]) ==>
                       texts[k] == SourceOf(SplitLines(code)[i]))
  {
    hide SplitLines, ParsedCode, Join, Split, Numbered, NumberOf, SourceOf, NoBreak;
    ParsedCodeExactlyWhen(code);
    var parsed, lines := ParsedCode(code).value, SplitLines(code);
    var texts := TextsOf(parsed, range);
    forall k | 0 <= k < |range|
      ensures '\n' !in texts[k]
      ensures forall i :: HasNumber(lines, i, range[k]) ==> texts[k] == SourceOf(lines[i])
    {
      assert EntryIs(lines, map[], parsed, range[k]);
      var i :| HasNumber(lines, i, range[k]);
      SourceHasNoBreak(lines[i]);
    }
    if range != [] {
      SplitJoin(texts, '\n');
    } else {
      NothingJoined();
    }
  }

  lemma NothingJoined()
    ensures Join([], '\n') == ""
  {
  }

  /** What the digest is taken of. */
  function Fingerprinted(source: string, issue: string): string {
    source + "\n---\n" + Strip(issue)
  }

  ghost predicate Injective(digest: string -> string) {
    forall a, b :: SameDigestSameText(digest, a, b)
  }

  ghost predicate SameDigestSameText(digest: string -> string, a: string, b: string) {
    digest(a) == digest(b) ==> a == b
  }

  /** There is a fingerprint exactly when there is an issue text and a source. */
  lemma FingerprintExactlyWhen(digest: string -> string, code: string, range: seq<int>, issue: string)
    ensures CodeFingerprint(digest, code, range, issue).Ok? <==>
            Strip(issue) != "" && NormalizedSource(code, range).Ok?
  {
    hide NormalizedSource;
  }

  /**
   * When the digest does not collide, two fingerprints are equal exactly when source and issue
   * make the same text; so under one issue changed code has another fingerprint.
   */
  lemma SameFingerprintExactlyWhen(
    digest: string -> string, code: string, range: seq<int>, issue: string,
    code': string, range': seq<int>, issue': string)
    requires Injective(digest)
    requires CodeFingerprint(digest, code, range, issue).Ok? && CodeFingerprint(digest, code', range', issue').Ok?
    ensures NormalizedSource(code, range).Ok? && NormalizedSource(code', range').Ok?
    ensures var source, source' := NormalizedSource(code, range).value, NormalizedSource(code', range').value;
            && (CodeFingerprint(digest, code, range, issue) == CodeFingerprint(digest, code', range', issue') <==>
                  Fingerprinted(source, issue) == Fingerprinted(source', issue'))
            && (Strip(issue) == Strip(issue') ==>
                  (CodeFingerprint(digest, code, range, issue) == CodeFingerprint(digest, code', range', issue') <==>
                     source == source'))
  {
    hide NormalizedSource, Strip;
    var source, source' := NormalizedSource(code, range).value, NormalizedSource(code', range').value;
    assert SameDigestSameText(digest, Fingerprinted(source, issue), Fingerprinted(source', issue'));
    if Strip(issue) == Strip(issue') {
      var tail := "\n---\n" + Strip(issue);
      assert Fingerprinted(source, issue) == source + tail && Fingerprinted(source', issue') == source' + tail;
      SameTail(source, source', tail);
    }
  }

  lemma SameTail(a: string, b: string, tail: string)
    ensures a + tail == b + tail <==> a == b
  {
    if a + tail == b + tail {
      assert a == (a + tail)[..|a|] && b == (b + tail)[..|b|];
    }
  }

  /**
   * With issues of one line the fingerprint tells source and issue apart; an issue of several
   * lines can take the place of source lines.
   */
  lemma OneLineIssuesAreTold(source: string, issue: string, source': string, issue': string)
    requires '\n' !in Strip(issue) && '\n' !in Strip(issue')
    ensures Fingerprinted(source, issue) == Fingerprinted(source', issue') <==>
            source == source' && Strip(issue) == Strip(issue')
    ensures Fingerprinted("a\n---\nb", "c") == Fingerprinted("a", "b\n---\nc")
  {
    StripTrims("c");
    StripTrims("b\n---\nc");
    assert "a\n---\nb" + "\n---\n" + "c" == "a" + "\n---\n" + "b\n---\nc";
    hide Strip;
    if Fingerprinted(source, issue) == Fingerprinted(source', issue') {
      var a, b := source + "\n---", source' + "\n---";
      assert Fingerprinted(source, issue) == a + ['\n'] + Strip(issue);
      assert Fingerprinted(source', issue') == b + ['\n'] + Strip(issue');
      LastLineFeed(a, Strip(issue), b, Strip(issue'));
      SameTail(source, source', "\n---");
    }
  }

  /** The last line feed cuts a text in one way. */
  lemma LastLineFeed(a: string, x: string, b: string, y: string)
    requires '\n' !in x && '\n' !in y && a + ['\n'] + x == b + ['\n'] + y
    ensures a == b && x == y
  {
    var s := a + ['\n'] + x;
    assert s[|a|] == '\n' && s[|b|] == '\n';
    assert forall i :: |a| < i < |s| ==> s[i] == x[i - |a| - 1];
    assert forall i :: |b| < i < |s| ==> s[i] == y[i - |b| - 1];
    assert |a| == |b|;
    assert a == s[..|a|] && b == s[..|b|] && x == s[|a| + 1..] && y == s[|b| + 1..];
  }

  // Renumbering.

  /** The offset keeps the number of the line printable. */
  predicate Shiftable(line: string, k: int) {
    Numbered(line) ==> NumberOf(line) + k >= 0
  }

  function RenumberLine(line: string, k: int): string
    requires Shiftable(line, k)
  {
    if Numbered(line) then Decimal(NumberOf(line) + k) + line[IndexOf(line, ' ')..] else line
  }

  /** Every line with its number moved by k, and a line feed behind it. */
  function RenumberLines(lines: seq<string>, k: int): string
    requires forall i :: 0 <= i < |lines| ==> Shiftable(lines[i], k)
  {
    if lines == [] then "" else RenumberLine(lines[0], k) + "\n" + RenumberLines(lines[1..], k)
  }

  function Renumber(code: string, k: int): string
    requires forall i :: 0 <= i < |SplitLines(code)| ==> Shiftable(SplitLines(code)[i], k)
  {
    RenumberLines(SplitLines(code), k)
  }

  function ShiftRange(range: seq<int>, k: int): (r: seq<int>)
    ensures |r| == |range| && forall i :: 0 <= i < |range| ==> r[i] == range[i] + k
  {
    seq(|range|, i requires 0 <= i < |range| => range[i] + k)
  }

  /** Digits, a blank and a text make a numbered line. */
  lemma NumberedIs(digits: string, text: string)
    requires digits != "" && AllDigits(digits)
    ensures var line := digits + [' '] + text;
            && IndexOf(line, ' ') == |digits| && line[|digits|..] == [' '] + text
            && Numbered(line) && NumberOf(line) == DigitsValue(digits) && SourceOf(line) == StripRight(text)
  {
    var line := digits + [' '] + text;
    assert ' ' !in digits;
    IndexOfAt(digits, ' ', text);
    assert line[..|digits|] == digits && line[|digits| + 1..] == text;
  }

  lemma NoBreakParts(digits: string, text: string)
    requires AllDigits(digits) && NoBreak(text)
    ensures NoBreak(digits + [' '] + text)
  {
  }

  lemma RenumberedParts(number: string, text: string, k: int)
    requires number != "" && AllDigits(number) && DigitsValue(number) + k >= 0
    ensures Shiftable(number + [' '] + text, k)
    ensures RenumberLine(number + [' '] + text, k) == Decimal(DigitsValue(number) + k) + [' '] + text
  {
    NumberedIs(number, text);
    hide Numbered, NumberOf, IndexOf, DigitsValue, Decimal;
  }

  lemma LineParts(line: string)
    requires Numbered(line)
    ensures var at := IndexOf(line, ' ');
            && line == line[..at] + [' '] + line[at + 1..] && line[..at] != "" && AllDigits(line[..at])
            && NumberOf(line) == DigitsValue(line[..at]) && SourceOf(line) == StripRight(line[at + 1..])
  {
  }

  lemma RenumberedLine(line: string, k: int)
    requires NoBreak(line) && Shiftable(line, k)
    ensures NoBreak(RenumberLine(line, k))
    ensures Numbered(RenumberLine(line, k)) <==> Numbered(line)
    ensures Numbered(line) ==>
              && NumberOf(RenumberLine(line, k)) == NumberOf(line) + k
              && SourceOf(RenumberLine(line, k)) == SourceOf(line)
  {
    if Numbered(line) {
      LineParts(line);
      var number, text := line[..IndexOf(line, ' ')], line[IndexOf(line, ' ') + 1..];
      var digits := Decimal(NumberOf(line) + k);
      assert NoBreak(text);
      hide Numbered, NumberOf, SourceOf, NoBreak, Decimal, IndexOf, RenumberLine, AllDigits;
      RenumberedParts(number, text, k);
      NumberedIs(digits, text);
      NoBreakParts(digits, text);
      DecimalValue(NumberOf(line) + k);
    }
  }

  lemma {:induction false} LineEndIs(line: string, rest: string)
    requires NoBreak(line) && rest != "" && IsBreak(rest[0])
    ensures LineEnd(line + rest) == |line|
  {
    if line != "" {
      assert (line + rest)[1..] == line[1..] + rest;
      LineEndIs(line[1..], rest);
    } else {
      assert line + rest == rest;
    }
  }

  /** What ends a line in front of `rest`: a carriage return takes a line feed behind it along. */
  predicate Break(text: string, rest: string) {
    || text == "\r\n"
    || (|text| == 1 && IsBreak(text[0]) && !(text == "\r" && StartsWith(rest, "\n")))
  }

  /** A line with its break is cut off; what follows is split on its own. */
  lemma SplitAtBreak(line: string, text: string, rest: string)
    requires NoBreak(line) && Break(text, rest)
    ensures SplitLines(line + text + rest) == [line] + SplitLines(rest)
  {
    var s := line + text + rest;
    LineEndIs(line, text + rest);
    assert s == line + (text + rest);
    assert s[|line|] == text[0] && s[..|line|] == line;
    if text == "\r\n" {
      assert s[|line| + 1] == '\n' && s[|line| + 2..] == rest;
    } else {
      assert s[|line| + 1..] == rest;
      assert rest != "" ==> rest[..1] == [rest[0]] && s[|line| + 1] == rest[0];
    }
  }

  /** The last line may have no break. */
  lemma LastLine(line: string)
    requires NoBreak(line)
    ensures SplitLines(line) == if line == "" then [] else [line]
  {
    assert line[..|line|] == line;
  }

  lemma SplitFirstLine(line: string, rest: string)
    requires NoBreak(line)
    ensures SplitLines(line + "\n" + rest) == [line] + SplitLines(rest)
  {
    SplitAtBreak(line, "\n", rest);
  }

  function RenumberAll(lines: seq<string>, k: int): seq<string>
    requires forall i :: 0 <= i < |lines| ==> Shiftable(lines[i], k)
  {
    if lines == [] then [] else [RenumberLine(lines[0], k)] + RenumberAll(lines[1..], k)
  }

  /** The renumbered text splits into the renumbered lines. */
  lemma {:induction false} RenumberedLines(lines: seq<string>, k: int)
    requires forall i :: 0 <= i < |lines| ==> NoBreak(lines[i]) && Shiftable(lines[i], k)
    ensures SplitLines(RenumberLines(lines, k)) == RenumberAll(lines, k)
  {
    if lines != [] {
      RenumberedLine(lines[0], k);
      RenumberedLines(lines[1..], k);
      SplitFirstLine(RenumberLine(lines[0], k), RenumberLines(lines[1..], k));
    }
  }

  lemma {:induction false} StripLeftBlank(s: string)
    ensures StripLeft(s) == "" <==> forall i :: 0 <= i < |s| ==> IsSpace(s[i])
  {
    if s != "" && IsSpace(s[0]) {
      StripLeftBlank(s[1..]);
      assert forall i :: 1 <= i < |s| ==> s[i] == s[1..][i - 1];
    }
  }

  lemma StripBlank(s: string)
    ensures Strip(s) == "" <==> forall i :: 0 <= i < |s| ==> IsSpace(s[i])
  {
    StripLeftBlank(s);
    StripLeftHead(s);
    if StripLeft(s) != "" {
      StripRightKeepsHead(StripLeft(s));
    }
  }

  lemma NumberedStartsWithDigit(line: string)
    ensures Numbered(line) ==> line != "" && IsDigit(line[0])
  {
    assert Numbered(line) ==> line[..IndexOf(line, ' ')][0] == line[0];
  }

  /** A blank snippet fails in its first line too, so only the missing line is a case of its own. */
  lemma ParsedCodeIs(code: string)
    ensures ParsedCode(code) == if SplitLines(code) == [] then Err(GateError) else ParseLines(SplitLines(code), map[])
  {
    StripBlank(code);
    if code != "" && Strip(code) == "" {
      var line := SplitLines(code)[0];
      assert line == code[..LineEnd(code)];
      assert line != "" ==> line[0] == code[0] && !IsDigit(line[0]);
      NumberedStartsWithDigit(line);
    }
  }

  /** The two dictionaries say the same of a line and of the line k further on. */
  ghost predicate Moved(a: map<int, string>, b: map<int, string>, k: int, n: int) {
    (n in a <==> n + k in b) && (n in a ==> b[n + k] == a[n])
  }

  /** The second dictionary is the first with its keys moved by k. */
  ghost predicate Shifted(a: map<int, string>, b: map<int, string>, k: int) {
    forall n :: Moved(a, b, k, n)
  }

  lemma ShiftedAt(a: map<int, string>, b: map<int, string>, k: int, n: int)
    requires Shifted(a, b, k)
    ensures Moved(a, b, k, n)
  {
  }

  lemma NothingShifted(k: int)
    ensures Shifted(map[], map[], k)
  {
    forall n
      ensures Moved(map[], map[], k, n)
    {
    }
  }

  lemma ShiftedInsert(a: map<int, string>, b: map<int, string>, k: int, n: int, text: string)
    requires Shifted(a, b, k)
    ensures Shifted(a[n := text], b[n + k := text], k)
  {
    var a', b' := a[n := text], b[n + k := text];
    forall m
      ensures Moved(a', b', k, m)
    {
      assert Moved(a, b, k, m);
    }
  }

  lemma ParseNext(line: string, rest: seq<string>, parsed: map<int, string>)
    ensures ParseLines([line] + rest, parsed) ==
              if !Numbered(line) || NumberOf(line) in parsed then Err(GateError)
              else ParseLines(rest, parsed[NumberOf(line) := SourceOf(line)])
  {
    hide Numbered, NumberOf, SourceOf;
    assert ([line] + rest)[1..] == rest;
  }

  /** Lines that can be renumbered. */
  predicate Movable(lines: seq<string>, k: int) {
    forall i :: 0 <= i < |lines| ==> NoBreak(lines[i]) && Shiftable(lines[i], k)
  }

  lemma MovableParts(lines: seq<string>, k: int)
    requires Movable(lines, k)
    ensures forall i :: 0 <= i < |lines| ==> Shiftable(lines[i], k)
    ensures lines != [] ==> NoBreak(lines[0]) && Shiftable(lines[0], k) && Movable(lines[1..], k)
    ensures lines != [] ==> RenumberAll(lines, k) == [RenumberLine(lines[0], k)] + RenumberAll(lines[1..], k)
  {
    hide NoBreak, Shiftable, RenumberLine;
  }

  /** One line of both parses. */
  lemma ShiftedLine(
    line: string, k: int, a: map<int, string>, b: map<int, string>, rest: seq<string>, rest': seq<string>)
    requires NoBreak(line) && Shiftable(line, k) && Shifted(a, b, k)
    ensures Numbered(line) && NumberOf(line) !in a ==>
              var n, text := NumberOf(line), SourceOf(line);
              && ParseLines([line] + rest, a) == ParseLines(rest, a[n := text])
              && ParseLines([RenumberLine(line, k)] + rest', b) == ParseLines(rest', b[n + k := text])
              && Shifted(a[n := text], b[n + k := text], k)
    ensures !(Numbered(line) && NumberOf(line) !in a) ==>
              ParseLines([line] + rest, a).Err? && ParseLines([RenumberLine(line, k)] + rest', b).Err?
  {
    hide Shifted, Numbered, NumberOf, SourceOf, RenumberLine, NoBreak, Shiftable, ParseLines;
    RenumberedLine(line, k);
    ParseNext(line, rest, a);
    ParseNext(RenumberLine(line, k), rest', b);
    if Numbered(line) {
      ShiftedAt(a, b, k, NumberOf(line));
      ShiftedInsert(a, b, k, NumberOf(line), SourceOf(line));
    }
  }

  lemma {:induction false} ShiftedParse(lines: seq<string>, k: int, a: map<int, string>, b: map<int, string>)
    requires Movable(lines, k) && Shifted(a, b, k)
    requires forall i :: 0 <= i < |lines| ==> Shiftable(lines[i], k)
    ensures var r, r' := ParseLines(lines, a), ParseLines(RenumberAll(lines, k), b);
            && (r.Ok? <==> r'.Ok?)
            && (r.Ok? ==> Shifted(r.value, r'.value, k))
  {
    if lines != [] {
      hide Shifted, Numbered, NumberOf, SourceOf, RenumberLine, NoBreak, Shiftable, ParseLines, RenumberAll, Movable;
      var line, rest := lines[0], lines[1..];
      MovableParts(lines, k);
      MovableParts(rest, k);
      assert lines == [line] + rest;
      ShiftedLine(line, k, a, b, rest, RenumberAll(rest, k));
      if Numbered(line) && NumberOf(line) !in a {
        var n, text := NumberOf(line), SourceOf(line);
        ShiftedParse(rest, k, a[n := text], b[n + k := text]);
      }
    }
  }

  /** The dictionaries of a snippet and of its renumbering differ by the offset. */
  lemma RenumberedCode(code: string, k: int)
    requires forall i :: 0 <= i < |SplitLines(code)| ==> Shiftable(SplitLines(code)[i], k)
    ensures var r, r' := ParsedCode(code), ParsedCode(Renumber(code, k));
            && (r.Ok? <==> r'.Ok?)
            && (r.Ok? ==> Shifted(r.value, r'.value, k))
  {
    hide SplitLines, RenumberLines, ParseLines, ParsedCode, Shiftable;
    var lines := SplitLines(code);
    RenumberedLines(lines, k);
    ParsedCodeIs(code);
    ParsedCodeIs(Renumber(code, k));
    NothingShifted(k);
    ShiftedParse(lines, k, map[], map[]);
    assert RenumberAll(lines, k) == [] <==> lines == [];
  }

  /** The same part of two shifted dictionaries, missing or there. */
  lemma ShiftedSource(a: map<int, string>, b: map<int, string>, k: int, range: seq<int>)
    requires Shifted(a, b, k)
    ensures Covers(a, range) <==> Covers(b, ShiftRange(range, k))
    ensures Covers(a, range) ==> TextsOf(b, ShiftRange(range, k)) == TextsOf(a, range)
  {
    hide Shifted;
    var shifted := ShiftRange(range, k);
    forall i | 0 <= i < |range|
      ensures (range[i] in a <==> shifted[i] in b) && (range[i] in a ==> b[shifted[i]] == a[range[i]])
    {
      ShiftedAt(a, b, k, range[i]);
    }
    if Covers(b, shifted) {
      forall i | 0 <= i < |range|
        ensures range[i] in a
      {
        assert shifted[i] in b;
      }
    }
  }

  /**
   * Moving a snippet and its line range by one offset changes neither the normalized source
   * nor the fingerprint; errors stay errors.
   */
  lemma RenumberingKeepsFingerprint(digest: string -> string, code: string, range: seq<int>, issue: string, k: int)
    requires forall i :: 0 <= i < |SplitLines(code)| ==> Shiftable(SplitLines(code)[i], k)
    ensures NormalizedSource(Renumber(code, k), ShiftRange(range, k)) == NormalizedSource(code, range)
    ensures CodeFingerprint(digest, Renumber(code, k), ShiftRange(range, k), issue) ==
              CodeFingerprint(digest, code, range, issue)
  {
    hide Shifted, ParsedCode, Renumber, Shiftable, SplitLines, TextsOf, Covers, ShiftRange, Join;
    RenumberedCode(code, k);
    if ParsedCode(code).Ok? {
      var a, b := ParsedCode(code).value, ParsedCode(Renumber(code, k)).value;
      ShiftedSource(a, b, k, range);
    } else {
      assert ParsedCode(code).error == GateError && ParsedCode(Renumber(code, k)).error == GateError;
    }
  }
}
