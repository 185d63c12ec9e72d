/** The dependency gate: pin lines, normalized names, and the closure checks. */
module PinFile {
  import opened Wrappers
  import opened Text
  import opened Gates
  import opened SnippetFingerprint

  type Pins = map<string, string>

  // Names (section "Normalized Names" of PEP 503).

  predicate IsSeparator(c: char) {
    c == '-' || c == '_' || c == '.'
  }

  /** `re.sub(r"[-_.]+", "-", s)`. */
  function Collapse(s: string): string {
    if s == "" then ""
    else if IsSeparator(s[0]) && |s| > 1 && IsSeparator(s[1]) then Collapse(s[1..])
    else [if IsSeparator(s[0]) then '-' else s[0]] + Collapse(s[1..])
  }

  function NormalizeName(name: string): string {
    Lower(Strip(Collapse(name)))
  }

  /** Only single dashes separate. */
  predicate Collapsed(s: string) {
    forall i :: 0 <= i < |s| ==> s[i] != '_' && s[i] != '.' && (s[i] == '-' && i + 1 < |s| ==> s[i + 1] != '-')
  }

  lemma {:induction false} CollapseCollapses(s: string)
    ensures Collapsed(Collapse(s))
    ensures s != "" ==> Collapse(s) != "" && (Collapse(s)[0] == '-' <==> IsSeparator(s[0]))
  {
    if s != "" {
      CollapseCollapses(s[1..]);
    }
  }

  lemma {:induction false} CollapsedStays(s: string)
    requires Collapsed(s)
    ensures Collapse(s) == s
  {
    if s != "" {
      assert s[0] == '-' && |s| > 1 ==> s[0 + 1] != '-';
      CollapsedStays(s[1..]);
      assert [s[0]] + s[1..] == s;
    }
  }

  lemma {:induction false} StripLeftCollapsed(s: string)
    requires Collapsed(s)
    ensures Collapsed(StripLeft(s))
  {
    if s != [] && IsSpace(s[0]) {
      StripLeftCollapsed(s[1..]);
    }
  }

  lemma {:induction false} StripRightCollapsed(s: string)
    requires Collapsed(s)
    ensures Collapsed(StripRight(s))
  {
    if s != [] && IsSpace(s[|s| - 1]) {
      StripRightCollapsed(s[..|s| - 1]);
    }
  }

  /** Normalizing twice is normalizing once. */
  lemma NormalizeIsIdempotent(name: string)
    ensures NormalizeName(NormalizeName(name)) == NormalizeName(name)
  {
    var c := Collapse(name);
    CollapseCollapses(name);
    StripLeftCollapsed(c);
    StripRightCollapsed(StripLeft(c));
    var t := Strip(c);
    StripTrims(c);
    forall i | 0 <= i < |Lower(t)|
      ensures Lower(t)[i] != '_' && Lower(t)[i] != '.' &&
              (Lower(t)[i] == '-' && i + 1 < |Lower(t)| ==> Lower(t)[i + 1] != '-')
    {
      assert t[i] != '_' && t[i] != '.';
    }
    CollapsedStays(Lower(t));
    LowerKeepsTrimmed(t);
    StripTrims(Lower(t));
    LowerTwice(t);
  }

  /** Some characters, all of them separators. */
  predicate Separators(s: string) {
    s != "" && forall i :: 0 <= i < |s| ==> IsSeparator(s[i])
  }

  lemma {:induction false} CollapseRun(run: string, y: string)
    requires Separators(run)
    ensures Collapse(run + y) == Collapse("-" + y)
  {
    if |run| > 1 {
      assert (run + y)[1..] == run[1..] + y;
      CollapseRun(run[1..], y);
    } else {
      assert (run + y)[1..] == y && ("-" + y)[1..] == y;
    }
  }

  lemma {:induction false} CollapseBehind(x: string, y: string, y': string)
    requires y != "" && y' != "" && IsSeparator(y[0]) && IsSeparator(y'[0]) && Collapse(y) == Collapse(y')
    ensures Collapse(x + y) == Collapse(x + y')
  {
    if x == "" {
      assert x + y == y && x + y' == y';
    } else {
      CollapseBehind(x[1..], y, y');
      assert (x + y)[1..] == x[1..] + y && (x + y')[1..] == x[1..] + y';
    }
  }

  lemma {:induction false} CollapseLowers(s: string)
    ensures Collapse(Lower(s)) == Lower(Collapse(s))
  {
    if s != "" {
      CollapseLowers(s[1..]);
      assert Lower(s)[1..] == Lower(s[1..]);
      LowerAppend([s[0]], s[1..]);
    }
  }

  lemma {:induction false} StripLeftLowers(s: string)
    ensures StripLeft(Lower(s)) == Lower(StripLeft(s))
  {
    if s != "" && IsSpace(s[0]) {
      assert Lower(s)[1..] == Lower(s[1..]);
      StripLeftLowers(s[1..]);
    }
  }

  lemma {:induction false} StripRightLowers(s: string)
    ensures StripRight(Lower(s)) == Lower(StripRight(s))
  {
    if s != "" && IsSpace(s[|s| - 1]) {
      assert Lower(s)[..|s| - 1] == Lower(s[..|s| - 1]);
      StripRightLowers(s[..|s| - 1]);
    }
  }

  /** Small letters, single dashes for separators, and no blank at either end. */
  predicate NormalName(s: string) {
    Lower(s) == s && Collapsed(s) && Trimmed(s)
  }

  lemma NormalizeIsNormal(name: string)
    ensures NormalName(NormalizeName(name))
    ensures NormalName(name) ==> NormalizeName(name) == name
  {
    NormalizeIsIdempotent(name);
    var r := NormalizeName(name);
    CollapseCollapses(r);
    CollapseCollapses(name);
    StripLeftCollapsed(Collapse(name));
    StripRightCollapsed(StripLeft(Collapse(name)));
    var t := Strip(Collapse(name));
    StripTrims(Collapse(name));
    LowerKeepsTrimmed(t);
    LowerTwice(t);
    LowerKeepsCollapsed(t);
    if NormalName(name) {
      CollapsedStays(name);
      StripTrims(name);
    }
  }

  lemma LowerKeepsCollapsed(t: string)
    requires Collapsed(t)
    ensures Collapsed(Lower(t))
  {
    forall i | 0 <= i < |Lower(t)|
      ensures Lower(t)[i] != '_' && Lower(t)[i] != '.' &&
              (Lower(t)[i] == '-' && i + 1 < |Lower(t)| ==> Lower(t)[i + 1] != '-')
    {
      assert t[i] != '_' && t[i] != '.';
    }
  }

  /** Normalizing forgets letter case, and which separators stand together and how many. */
  lemma NormalizeForgets(x: string, run: string, run': string, y: string, name: string)
    requires Separators(run) && Separators(run')
    ensures NormalizeName(x + (run + y)) == NormalizeName(x + (run' + y))
    ensures NormalizeName(Lower(name)) == NormalizeName(name)
  {
    CollapseRun(run, y);
    CollapseRun(run', y);
    CollapseBehind(x, run + y, run' + y);
    CollapseLowers(name);
    StripLeftLowers(Collapse(name));
    StripRightLowers(StripLeft(Collapse(name)));
    LowerTwice(Strip(Collapse(name)));
  }

  // Pin lines.

  predicate NameChar(c: char) {
    IsUpper(c) || IsLower(c) || IsDigit(c) || IsSeparator(c)
  }

  predicate VersionChar(c: char) {
    c != ';' && !IsSpace(c)
  }

  function NameRun(s: string): (n: nat)
    ensures n <= |s|
    ensures forall i :: 0 <= i < n ==> NameChar(s[i])
    ensures n < |s| ==> !NameChar(s[n])
  {
    if s == "" || !NameChar(s[0]) then 0 else 1 + NameRun(s[1..])
  }

  function VersionRun(s: string): (n: nat)
    ensures n <= |s|
    ensures forall i :: 0 <= i < n ==> VersionChar(s[i])
    ensures n < |s| ==> !VersionChar(s[n])
  {
    if s == "" || !VersionChar(s[0]) then 0 else 1 + VersionRun(s[1..])
  }

  /** `^([A-Za-z0-9_.-]+)==([^;\s]+)\s*(?:;.*)?$`: the two groups. */
  function MatchPin(line: string): Option<(string, string)> {
    var n := NameRun(line);
    if n == 0 || !StartsWith(line[n..], "==") then None
    else
      var rest := line[n + 2..];
      var v := VersionRun(rest);
      var tail := StripLeft(rest[v..]);
      if v == 0 || (tail != "" && tail[0] != ';') then None else Some((line[..n], rest[..v]))
  }

  /** What one line adds to the pins; an error, nothing, or a pin. */
  datatype LineResult = Skip | Bad | Pin(name: string, version: string)

  function ReadLine(raw: string): LineResult {
    var line := Strip(raw);
    if line == "" || line[0] == '#' then Skip
    else if line[0] == '-' then Bad
    else
      match MatchPin(line)
      case None => Bad
      case Some(groups) => Pin(NormalizeName(groups.0), groups.1)
  }

  /** The loop of `parse_export` from a dictionary on. */
  function ReadLines(lines: seq<string>, pins: Pins): Result<Pins, GateError> {
    if lines == [] then Ok(pins)
    else
      match ReadLine(lines[0])
      case Skip => ReadLines(lines[1..], pins)
      case Bad => Err(GateError)
      case Pin(name, version) =>
        if name in pins then Err(GateError) else ReadLines(lines[1..], pins[name := version])
  }

  function ParsedExport(text: string): Result<Pins, GateError> {
    match ReadLines(SplitLines(text), map[])
    case Err(e) => Err(e)
    case Ok(pins) => if pins == map[] then Err(GateError) else Ok(pins)
  }

  /** `parse_export`. */
  method ParseExport(text: string) returns (r: Result<Pins, GateError>)
    ensures r == ParsedExport(text)
  {
    var pins: Pins := map[];
    var lines := SplitLines(text);
    for i := 0 to |lines|
      invariant ReadLines(lines, map[]) == ReadLines(lines[i..], pins)
    {
      assert lines[i..][1..] == lines[i + 1..];
      match ReadLine(lines[i]) {
        case Skip =>
        case Bad => return Err(GateError);
        case Pin(name, version) =>
          if name in pins {
            return Err(GateError);
          }
          pins := pins[name := version];
      }
    }
    if pins == map[] {
      return Err(GateError);
    }
    return Ok(pins);
  }

  /** The pin printer: one line per name, in the given order. */
  function PrintPins(pins: Pins, names: seq<string>): string
    requires forall i :: 0 <= i < |names| ==> names[i] in pins
  {
    if names == [] then "" else names[0] + "==" + pins[names[0]] + "\n" + PrintPins(pins, names[1..])
  }

  // Round trip.

  /** A name that reads back as itself, apart from a leading dash. */
  predicate GoodName(name: string) {
    name != "" && NormalizeName(name) == name && forall i :: 0 <= i < |name| ==> NameChar(name[i])
  }

  predicate GoodVersion(version: string) {
    version != "" && forall i :: 0 <= i < |version| ==> VersionChar(version[i])
  }

  /** The entry survives printing and reading. */
  predicate Printable(name: string, version: string) {
    GoodName(name) && name[0] != '-' && GoodVersion(version)
  }

  lemma {:induction false} NameRunIs(name: string, rest: string)
    requires forall i :: 0 <= i < |name| ==> NameChar(name[i])
    requires rest != "" ==> !NameChar(rest[0])
    ensures NameRun(name + rest) == |name|
  {
    if name == "" {
      assert name + rest == rest;
    } else {
      assert (name + rest)[1..] == name[1..] + rest;
      NameRunIs(name[1..], rest);
    }
  }

  lemma {:induction false} VersionRunAll(v: string)
    requires forall i :: 0 <= i < |v| ==> VersionChar(v[i])
    ensures VersionRun(v) == |v|
  {
    if v != "" {
      VersionRunAll(v[1..]);
    }
  }

  lemma MatchPrinted(name: string, version: string)
    requires name != "" && (forall i :: 0 <= i < |name| ==> NameChar(name[i])) && GoodVersion(version)
    ensures MatchPin(name + "==" + version) == Some((name, version))
  {
    var line := name + ("==" + version);
    assert name + "==" + version == line;
    NameRunIs(name, "==" + version);
    assert line[|name|..] == "==" + version && ("==" + version)[..2] == "==";
    assert line[|name| + 2..] == version && line[..|name|] == name;
    VersionRunAll(version);
    assert version[|version|..] == "" && version[..|version|] == version;
  }

  lemma PrintedLine(name: string, version: string)
    requires GoodName(name) && GoodVersion(version)
    ensures NoBreak(name + "==" + version)
    ensures ReadLine(name + "==" + version) == if name[0] == '-' then Bad else Pin(name, version)
  {
    hide NormalizeName, MatchPin, Strip;
    var line := name + "==" + version;
    assert forall i :: 0 <= i < |name| ==> NameChar(name[i]);
    assert forall i :: 0 <= i < |version| ==> VersionChar(version[i]);
    assert line[0] == name[0] && line[|line| - 1] == version[|version| - 1];
    StripTrims(line);
    MatchPrinted(name, version);
  }

  // What a line is read as.

  predicate NameChars(s: string) {
    s != "" && forall i :: 0 <= i < |s| ==> NameChar(s[i])
  }

  /** The line is a name, two equals signs, a version, blanks, and nothing more or a marker. */
  predicate PinText(line: string, name: string, version: string, gap: string, marker: string) {
    && line == name + ("==" + (version + (gap + marker)))
    && NameChars(name) && GoodVersion(version) && Blanks(gap) && (marker == "" || marker[0] == ';')
  }

  lemma {:induction false} VersionRunIs(version: string, rest: string)
    requires forall i :: 0 <= i < |version| ==> VersionChar(version[i])
    requires rest != "" ==> !VersionChar(rest[0])
    ensures VersionRun(version + rest) == |version|
  {
    if version == "" {
      assert version + rest == rest;
    } else {
      assert (version + rest)[1..] == version[1..] + rest;
      VersionRunIs(version[1..], rest);
    }
  }

  lemma {:induction false} StripLeftIs(gap: string, rest: string)
    requires Blanks(gap) && (rest != "" ==> !IsSpace(rest[0]))
    ensures StripLeft(gap + rest) == rest
  {
    if gap == "" {
      assert gap + rest == rest;
    } else {
      assert (gap + rest)[1..] == gap[1..] + rest;
      StripLeftIs(gap[1..], rest);
    }
  }

  lemma MatchedPinText(line: string, name: string, version: string, gap: string, marker: string)
    requires PinText(line, name, version, gap, marker)
    ensures MatchPin(line) == Some((name, version))
  {
    var rest := version + (gap + marker);
    NameRunIs(name, "==" + rest);
    assert line[|name|..] == "==" + rest && ("==" + rest)[..2] == "==";
    assert line[|name| + 2..] == rest && line[..|name|] == name;
    VersionRunIs(version, gap + marker);
    assert rest[|version|..] == gap + marker && rest[..|version|] == version;
    StripLeftIs(gap, marker);
  }

  lemma CutPin(line: string, n: nat, v: nat, k: nat)
    requires n + 2 + v + k <= |line| && line[n..][..2] == "=="
    ensures line == line[..n] + ("==" + (line[n + 2..][..v] + (line[n + 2..][v..][..k] + line[n + 2..][v..][k..])))
  {
    var rest := line[n + 2..];
    assert rest[v..] == rest[v..][..k] + rest[v..][k..];
    assert rest == rest[..v] + rest[v..];
    assert line[n..] == "==" + rest;
    assert line == line[..n] + line[n..];
  }

  /** The parts of a match, as the runs cut them. */
  lemma MatchParts(line: string)
    requires MatchPin(line).Some?
    ensures var n := NameRun(line);
            && n > 0 && n + 2 <= |line| && line[n..][..2] == "=="
            && var rest := line[n + 2..];
               var v := VersionRun(rest);
               && v > 0 && MatchPin(line).value == (line[..n], rest[..v])
               && (StripLeft(rest[v..]) == "" || StripLeft(rest[v..])[0] == ';')
  {
    hide StripLeft, NameChar, VersionChar, IsSpace, NameRun, VersionRun;
  }

  lemma RunsAreGood(s: string)
    ensures NameRun(s) > 0 ==> NameChars(s[..NameRun(s)])
    ensures VersionRun(s) > 0 ==> GoodVersion(s[..VersionRun(s)])
  {
    hide NameChar, VersionChar;
  }

  lemma PinTextOf(line: string) returns (gap: string, marker: string)
    requires MatchPin(line).Some?
    ensures PinText(line, MatchPin(line).value.0, MatchPin(line).value.1, gap, marker)
  {
    hide MatchPin, StripLeft, NameRun, VersionRun, NameChars, GoodVersion, Blanks;
    MatchParts(line);
    var n := NameRun(line);
    var rest := line[n + 2..];
    var v := VersionRun(rest);
    RunsAreGood(line);
    RunsAreGood(rest);
    StripLeftCuts(rest[v..]);
    marker := StripLeft(rest[v..]);
    var k := |rest[v..]| - |marker|;
    gap := rest[v..][..k];
    CutPin(line, n, v, k);
    assert marker == rest[v..][k..];
  }

  /** The pattern matches exactly such lines, in one way. */
  lemma PinMatchesExactlyWhen(line: string, name: string, version: string)
    ensures MatchPin(line) == Some((name, version)) <==> exists gap, marker :: PinText(line, name, version, gap, marker)
  {
    hide MatchPin, PinText;
    if MatchPin(line) == Some((name, version)) {
      var gap, marker := PinTextOf(line);
    }
    if gap, marker :| PinText(line, name, version, gap, marker) {
      MatchedPinText(line, name, version, gap, marker);
    }
  }

  /** The line pins this normal name: some spelling of it, not behind a dash, with this version. */
  ghost predicate PinsName(raw: string, name: string, version: string) {
    !StartsWith(Strip(raw), "-") && exists spelled :: PinsAs(raw, spelled, version) && NormalizeName(spelled) == name
  }

  ghost predicate PinsAs(raw: string, spelled: string, version: string) {
    exists gap, marker :: PinText(Strip(raw), spelled, version, gap, marker)
  }

  /** A line is skipped when it is blank or a comment, pins what it spells, and is refused otherwise. */
  lemma LineIsReadExactly(raw: string, name: string, version: string)
    ensures ReadLine(raw) == Skip <==> Strip(raw) == "" || StartsWith(Strip(raw), "#")
    ensures ReadLine(raw) == Pin(name, version) <==> PinsName(raw, name, version)
  {
    hide Strip, MatchPin, NormalizeName, PinText;
    var line := Strip(raw);
    forall n, v
      ensures MatchPin(line) == Some((n, v)) <==> PinsAs(raw, n, v)
    {
      PinMatchesExactlyWhen(line, n, v);
    }
    FirstOfPin(line);
    assert line != "" ==> line[..1] == [line[0]];
    if ReadLine(raw) == Pin(name, version) {
      assert PinsAs(raw, MatchPin(line).value.0, version);
    }
  }

  lemma FirstOfPin(line: string)
    ensures forall n, v, gap, marker :: PinText(line, n, v, gap, marker) ==> line != "" && line[0] != '#'
  {
    forall n, v, gap, marker | PinText(line, n, v, gap, marker)
      ensures line != "" && line[0] != '#'
    {
      assert line[0] == n[0] && NameChar(n[0]);
    }
  }

  /** The i-th line pins the name at the version. */
  ghost predicate LinePins(lines: seq<string>, i: int, name: string, version: string) {
    0 <= i < |lines| && PinsName(lines[i], name, version)
  }

  /** Some line pins the name. */
  ghost predicate PinnedIn(lines: seq<string>, name: string) {
    exists i, version :: LinePins(lines, i, name, version)
  }

  /** What the loop finds on the i-th line. */
  predicate LineReads(lines: seq<string>, i: int, name: string, version: string) {
    0 <= i < |lines| && ReadLine(lines[i]) == Pin(name, version)
  }

  /** The i-th line is not bad and pins no name that was seen. */
  ghost predicate GoodLine(lines: seq<string>, seen: Pins, i: int) {
    0 <= i < |lines| ==> !ReadLine(lines[i]).Bad? && (ReadLine(lines[i]).Pin? ==> ReadLine(lines[i]).name !in seen)
  }

  ghost predicate NoTwice(lines: seq<string>, i: int, j: int) {
    0 <= i < j < |lines| && ReadLine(lines[i]).Pin? && ReadLine(lines[j]).Pin? ==>
      ReadLine(lines[i]).name != ReadLine(lines[j]).name
  }

  ghost predicate GoodLines(lines: seq<string>, seen: Pins) {
    (forall i :: GoodLine(lines, seen, i)) && (forall i, j :: NoTwice(lines, i, j))
  }

  /** The pins after one line that is good. */
  function Behind(line: string, seen: Pins): Pins {
    if ReadLine(line).Pin? then seen[ReadLine(line).name := ReadLine(line).version] else seen
  }

  lemma RestIsGood(lines: seq<string>, seen: Pins)
    requires lines != [] && GoodLines(lines, seen)
    ensures !ReadLine(lines[0]).Bad? && (ReadLine(lines[0]).Pin? ==> ReadLine(lines[0]).name !in seen)
    ensures GoodLines(lines[1..], Behind(lines[0], seen))
  {
    hide ReadLine;
    assert GoodLine(lines, seen, 0);
    var rest, more := lines[1..], Behind(lines[0], seen);
    forall i
      ensures GoodLine(rest, more, i)
    {
      assert GoodLine(lines, seen, i + 1) && NoTwice(lines, 0, i + 1);
    }
    forall i, j
      ensures NoTwice(rest, i, j)
    {
      assert NoTwice(lines, i + 1, j + 1);
    }
  }

  lemma WholeIsGood(lines: seq<string>, seen: Pins)
    requires lines != [] && !ReadLine(lines[0]).Bad?
    requires ReadLine(lines[0]).Pin? ==> ReadLine(lines[0]).name !in seen
    requires GoodLines(lines[1..], Behind(lines[0], seen))
    ensures GoodLines(lines, seen)
  {
    hide ReadLine;
    var rest, more := lines[1..], Behind(lines[0], seen);
    forall i
      ensures GoodLine(lines, seen, i)
    {
      assert GoodLine(rest, more, i - 1);
    }
    forall i, j
      ensures NoTwice(lines, i, j)
    {
      assert NoTwice(rest, i - 1, j - 1) && GoodLine(rest, more, j - 1);
    }
  }

  /** The pin of a name comes from what was seen, or from the line that pins it. */
  ghost predicate PinIs(lines: seq<string>, seen: Pins, r: Pins, name: string) {
    && (name in r <==> name in seen || exists i, version :: LineReads(lines, i, name, version))
    && (name in seen ==> name in r && r[name] == seen[name])
    && (forall i, version :: LineReads(lines, i, name, version) ==> name in r && r[name] == version)
  }

  lemma PinNext(lines: seq<string>, seen: Pins, r: Pins, name: string)
    requires lines != [] && !ReadLine(lines[0]).Bad?
    requires ReadLine(lines[0]).Pin? ==> ReadLine(lines[0]).name !in seen
    requires PinIs(lines[1..], Behind(lines[0], seen), r, name)
    ensures PinIs(lines, seen, r, name)
  {
    hide ReadLine;
    var rest := lines[1..];
    forall i, version
      ensures LineReads(lines, i, name, version) <==>
              (i == 0 && ReadLine(lines[0]) == Pin(name, version)) || LineReads(rest, i - 1, name, version)
    {
    }
    if i, version :| LineReads(rest, i, name, version) {
      assert LineReads(lines, i + 1, name, version);
    }
    if ReadLine(lines[0]).Pin? && ReadLine(lines[0]).name == name {
      assert LineReads(lines, 0, name, ReadLine(lines[0]).version);
    }
  }

  lemma {:induction false} ReadLinesIs(lines: seq<string>, seen: Pins)
    ensures ReadLines(lines, seen).Ok? <==> GoodLines(lines, seen)
    ensures ReadLines(lines, seen).Ok? ==> forall name :: PinIs(lines, seen, ReadLines(lines, seen).value, name)
  {
    hide ReadLine, GoodLines, PinIs;
    if lines == [] {
      NothingRead(seen);
    } else {
      if GoodLines(lines, seen) {
        RestIsGood(lines, seen);
      }
      if !ReadLine(lines[0]).Bad? && (ReadLine(lines[0]).Pin? ==> ReadLine(lines[0]).name !in seen) {
        var more := Behind(lines[0], seen);
        ReadLinesIs(lines[1..], more);
        if GoodLines(lines[1..], more) {
          WholeIsGood(lines, seen);
          forall name
            ensures PinIs(lines, seen, ReadLines(lines, seen).value, name)
          {
            PinNext(lines, seen, ReadLines(lines, seen).value, name);
          }
        }
      }
    }
  }

  lemma NothingRead(seen: Pins)
    ensures GoodLines([], seen) && forall name :: PinIs([], seen, seen, name)
  {
  }

  /** Every line is skipped or pins a name, no name is pinned twice, and some name is pinned. */
  ghost predicate WellPinned(text: string) {
    && GoodLines(SplitLines(text), map[])
    && exists name :: SomePin(SplitLines(text), name)
  }

  lemma LinesPin(lines: seq<string>, i: int, name: string, version: string)
    ensures LineReads(lines, i, name, version) <==> LinePins(lines, i, name, version)
  {
    hide ReadLine, PinsName;
    if 0 <= i < |lines| {
      LineIsReadExactly(lines[i], name, version);
    }
  }

  ghost predicate SomePin(lines: seq<string>, name: string) {
    exists i, version :: LineReads(lines, i, name, version)
  }

  lemma SomeIsPinned(lines: seq<string>, name: string)
    ensures SomePin(lines, name) <==> PinnedIn(lines, name)
  {
    hide LineReads, LinePins;
    forall i, version
      ensures LineReads(lines, i, name, version) <==> LinePins(lines, i, name, version)
    {
      LinesPin(lines, i, name, version);
    }
  }

  lemma PinsOfLines(lines: seq<string>)
    requires ReadLines(lines, map[]).Ok?
    ensures var pins := ReadLines(lines, map[]).value;
            && (forall name :: name in pins <==> SomePin(lines, name))
            && (forall name, i, version :: LineReads(lines, i, name, version) ==>
                  name in pins && pins[name] == version)
  {
    hide ReadLines, LineReads;
    ReadLinesIs(lines, map[]);
    var pins := ReadLines(lines, map[]).value;
    forall name
      ensures name in pins <==> SomePin(lines, name)
      ensures forall i, version :: LineReads(lines, i, name, version) ==> name in pins && pins[name] == version
    {
      assert PinIs(lines, map[], pins, name);
    }
  }

  /**
   * An export is accepted exactly when every line is blank, a comment or a pin, no name is
   * pinned twice and some name is; the pins are then those of its lines and no others.
   */
  lemma ExportExactlyWhen(text: string)
    ensures ParsedExport(text).Ok? <==> WellPinned(text)
    ensures ParsedExport(text).Ok? ==>
              forall name :: name in ParsedExport(text).value <==> PinnedIn(SplitLines(text), name)
    ensures ParsedExport(text).Ok? ==>
              forall name, i, version :: LinePins(SplitLines(text), i, name, version) ==>
                name in ParsedExport(text).value && ParsedExport(text).value[name] == version
  {
    hide SplitLines, ReadLines, GoodLines, LineReads, LinePins;
    var lines := SplitLines(text);
    ReadLinesIs(lines, map[]);
    forall name, i, version
      ensures LineReads(lines, i, name, version) <==> LinePins(lines, i, name, version)
    {
      LinesPin(lines, i, name, version);
    }
    if ReadLines(lines, map[]).Ok? {
      PinsOfLines(lines);
      var pins := ReadLines(lines, map[]).value;
      forall name
        ensures SomePin(lines, name) <==> PinnedIn(lines, name)
      {
        SomeIsPinned(lines, name);
      }
      if pins != map[] {
        var name :| name in pins;
        assert SomePin(lines, name);
      }
    }
  }

  /** The entries listed, as a map. */
  function Restrict(pins: Pins, names: seq<string>): Pins
    requires forall i :: 0 <= i < |names| ==> names[i] in pins
  {
    map n | n in names :: pins[n]
  }

  predicate NoRepeats(names: seq<string>) {
    forall i, j :: 0 <= i < j < |names| ==> names[i] != names[j]
  }

  lemma PrintedSplits(pins: Pins, names: seq<string>)
    requires names != [] && forall i :: 0 <= i < |names| ==> names[i] in pins
    requires GoodName(names[0]) && GoodVersion(pins[names[0]])
    ensures SplitLines(PrintPins(pins, names)) ==
              [names[0] + "==" + pins[names[0]]] + SplitLines(PrintPins(pins, names[1..]))
  {
    PrintedLine(names[0], pins[names[0]]);
    SplitFirstLine(names[0] + "==" + pins[names[0]], PrintPins(pins, names[1..]));
  }

  /** One of the names starts with a dash. */
  predicate Dashed(names: seq<string>) {
    exists i | 0 <= i < |names| :: StartsWith(names[i], "-")
  }

  lemma DashBehind(names: seq<string>)
    requires names != []
    ensures Dashed(names) <==> StartsWith(names[0], "-") || Dashed(names[1..])
  {
    if i :| 0 <= i < |names| && StartsWith(names[i], "-") {
      assert i > 0 ==> StartsWith(names[1..][i - 1], "-");
    }
    if i :| 0 <= i < |names[1..]| && StartsWith(names[1..][i], "-") {
      assert StartsWith(names[i + 1], "-");
    }
  }

  /** The i-th name has an entry that reads back, and it has not been seen. */
  ghost predicate EntryFresh(pins: Pins, names: seq<string>, seen: Pins, i: int) {
    0 <= i < |names| ==>
      names[i] in pins && names[i] !in seen && GoodName(names[i]) && GoodVersion(pins[names[i]])
  }

  ghost predicate FreshEntries(pins: Pins, names: seq<string>, seen: Pins) {
    forall i :: EntryFresh(pins, names, seen, i)
  }

  lemma NextEntry(pins: Pins, names: seq<string>, seen: Pins)
    requires NoRepeats(names) && FreshEntries(pins, names, seen) && names != []
    ensures names[0] in pins && names[0] !in seen && GoodName(names[0]) && GoodVersion(pins[names[0]])
    ensures NoRepeats(names[1..]) && FreshEntries(pins, names[1..], seen[names[0] := pins[names[0]]])
  {
    hide GoodName, GoodVersion;
    assert EntryFresh(pins, names, seen, 0);
    var rest, more := names[1..], seen[names[0] := pins[names[0]]];
    forall i
      ensures EntryFresh(pins, rest, more, i)
    {
      assert EntryFresh(pins, names, seen, i + 1);
    }
  }

  lemma RestrictNext(pins: Pins, names: seq<string>, seen: Pins)
    requires names != [] && forall i :: 0 <= i < |names| ==> names[i] in pins
    requires NoRepeats(names)
    ensures seen[names[0] := pins[names[0]]] + Restrict(pins, names[1..]) == seen + Restrict(pins, names)
  {
    assert forall n :: n in names <==> n == names[0] || n in names[1..];
  }

  lemma ReadNext(name: string, version: string, rest: seq<string>, seen: Pins)
    requires GoodName(name) && GoodVersion(version) && name !in seen
    ensures ReadLines([name + "==" + version] + rest, seen) ==
              if StartsWith(name, "-") then Err(GateError) else ReadLines(rest, seen[name := version])
  {
    PrintedLine(name, version);
    hide GoodName, GoodVersion, ReadLine;
    assert ([name + "==" + version] + rest)[1..] == rest;
    assert StartsWith(name, "-") <==> name[0] == '-' by {
      assert name[0] == '-' ==> name[..1] == "-";
    }
  }

  lemma EntriesInPins(pins: Pins, names: seq<string>, seen: Pins)
    requires FreshEntries(pins, names, seen)
    ensures forall i :: 0 <= i < |names| ==> names[i] in pins
  {
    hide GoodName, GoodVersion;
    forall i | 0 <= i < |names|
      ensures names[i] in pins
    {
      assert EntryFresh(pins, names, seen, i);
    }
  }

  /** Reading printed lines: every entry comes back, unless one name starts with a dash. */
  lemma {:induction false} ReadPrinted(pins: Pins, names: seq<string>, seen: Pins)
    requires NoRepeats(names) && FreshEntries(pins, names, seen)
    requires forall i :: 0 <= i < |names| ==> names[i] in pins
    ensures ReadLines(SplitLines(PrintPins(pins, names)), seen) ==
              if Dashed(names) then Err(GateError) else Ok(seen + Restrict(pins, names))
  {
    if names == [] {
      assert seen + Restrict(pins, []) == seen;
    } else {
      hide GoodName, GoodVersion, SplitLines, ReadLines, PrintPins, FreshEntries, NoRepeats, Dashed, Restrict,
        StartsWith;
      var name := names[0];
      NextEntry(pins, names, seen);
      EntriesInPins(pins, names[1..], seen[name := pins[name]]);
      PrintedSplits(pins, names);
      ReadNext(name, pins[name], SplitLines(PrintPins(pins, names[1..])), seen);
      ReadPrinted(pins, names[1..], seen[name := pins[name]]);
      DashBehind(names);
      RestrictNext(pins, names, seen);
    }
  }

  /** Collapsing, stripping and lower-casing keep name characters. */
  lemma {:induction false} CollapseKeepsNameChars(s: string)
    requires forall i :: 0 <= i < |s| ==> NameChar(s[i])
    ensures forall i :: 0 <= i < |Collapse(s)| ==> NameChar(Collapse(s)[i])
  {
    if s != "" {
      CollapseKeepsNameChars(s[1..]);
    }
  }

  lemma MatchedIsGood(line: string)
    requires MatchPin(line).Some?
    ensures GoodName(NormalizeName(MatchPin(line).value.0)) && GoodVersion(MatchPin(line).value.1)
  {
    var name := MatchPin(line).value.0;
    var c := Collapse(name);
    CollapseCollapses(name);
    CollapseKeepsNameChars(name);
    assert Trimmed(c) by {
      assert NameChar(c[0]) && NameChar(c[|c| - 1]);
    }
    StripTrims(c);
    assert NormalizeName(name) == Lower(c);
    forall i | 0 <= i < |c|
      ensures NameChar(Lower(c)[i])
    {
      assert NameChar(c[i]);
    }
    NormalizeIsIdempotent(name);
  }

  /** Whatever is read has good names and versions. */
  lemma {:induction false} ReadIsGood(lines: seq<string>, pins: Pins)
    requires forall n :: n in pins ==> GoodName(n) && GoodVersion(pins[n])
    requires ReadLines(lines, pins).Ok?
    ensures forall n :: n in ReadLines(lines, pins).value ==>
      GoodName(n) && GoodVersion(ReadLines(lines, pins).value[n])
  {
    if lines != [] {
      match ReadLine(lines[0])
      case Skip => ReadIsGood(lines[1..], pins);
      case Bad =>
      case Pin(name, version) =>
        MatchedIsGood(Strip(lines[0]));
        ReadIsGood(lines[1..], pins[name := version]);
    }
  }

  /** Every entry is good, apart from leading dashes. */
  ghost predicate GoodPins(pins: Pins) {
    forall n :: n in pins ==> GoodName(n) && GoodVersion(pins[n])
  }

  lemma ParsedIsGood(text: string)
    requires ParsedExport(text).Ok?
    ensures GoodPins(ParsedExport(text).value) && ParsedExport(text).value != map[]
  {
    ReadIsGood(SplitLines(text), map[]);
  }

  lemma AllFresh(pins: Pins, names: seq<string>)
    requires (forall n :: n in pins <==> n in names) && GoodPins(pins)
    ensures FreshEntries(pins, names, map[])
    ensures forall i :: 0 <= i < |names| ==> names[i] in pins
    ensures map[] + Restrict(pins, names) == pins
  {
    hide GoodName, GoodVersion;
    forall i
      ensures EntryFresh(pins, names, map[], i)
    {
      assert 0 <= i < |names| ==> names[i] in names;
    }
  }

  lemma ParsedGoodPins(pins: Pins, names: seq<string>)
    requires NoRepeats(names) && (forall n :: n in pins <==> n in names) && GoodPins(pins)
    ensures ParsedExport(PrintPins(pins, names)) == if pins == map[] || Dashed(names) then Err(GateError) else Ok(pins)
  {
    hide GoodPins, FreshEntries, Restrict, SplitLines, PrintPins, ReadLines, Dashed, NoRepeats;
    AllFresh(pins, names);
    ReadPrinted(pins, names, map[]);
  }

  lemma DashNames(pins: Pins, names: seq<string>)
    requires (forall n :: n in pins <==> n in names) && GoodPins(pins)
    ensures Dashed(names) <==> !(forall n :: n in pins ==> Printable(n, pins[n]))
  {
    forall n | n in pins
      ensures Printable(n, pins[n]) <==> !StartsWith(n, "-")
    {
      DashDecides(n, pins[n]);
    }
    hide Printable, StartsWith, GoodPins;
    if i :| 0 <= i < |names| && StartsWith(names[i], "-") {
      assert names[i] in pins;
    }
    if n :| n in pins && !Printable(n, pins[n]) {
      var i :| 0 <= i < |names| && names[i] == n;
      assert StartsWith(names[i], "-");
    }
  }

  lemma DashDecides(name: string, version: string)
    requires GoodName(name) && GoodVersion(version)
    ensures Printable(name, version) <==> !StartsWith(name, "-")
  {
    hide NormalizeName, GoodVersion;
    assert name[..1] == "-" <==> name[0] == '-';
  }

  /**
   * Parsing the printed pin file gives the pins back exactly when there is a pin and every
   * entry is printable, whatever the order of the lines.
   */
  lemma RoundTripExactlyWhen(pins: Pins, names: seq<string>)
    requires NoRepeats(names) && forall n :: n in pins <==> n in names
    ensures ParsedExport(PrintPins(pins, names)) == Ok(pins) <==>
              pins != map[] && forall n :: n in pins ==> Printable(n, pins[n])
  {
    hide GoodName, GoodVersion, ParsedExport, PrintPins;
    if ParsedExport(PrintPins(pins, names)) == Ok(pins) {
      ParsedIsGood(PrintPins(pins, names));
    }
    if GoodPins(pins) {
      ParsedGoodPins(pins, names);
      DashNames(pins, names);
    }
  }

  // A name that is read and cannot be read again.

  lemma UnderscoreFoo()
    ensures NormalizeName("_foo") == "-foo" && NormalizeName("-foo") == "-foo"
  {
    assert Collapsed("foo") && Collapsed("-foo");
    CollapsedStays("foo");
    CollapsedStays("-foo");
    assert "_foo"[1..] == "foo";
    assert Collapse("_foo") == "-foo";
    hide Collapse;
    StripTrims("-foo");
    assert Lower("-foo") == "-foo";
  }

  lemma OneLine(line: string)
    requires NoBreak(line) && line != ""
    ensures SplitLines(line) == [line]
  {
    assert LineEnd(line) == |line|;
  }

  lemma DashIsGood()
    ensures GoodName("-foo") && GoodVersion("1")
    ensures forall i :: 0 <= i < |"_foo"| ==> NameChar("_foo"[i])
  {
    UnderscoreFoo();
    hide NormalizeName;
  }

  lemma DashLine()
    ensures NoBreak("_foo==1")
    ensures ReadLine("_foo==1") == Pin("-foo", "1")
  {
    hide NormalizeName, MatchPin, Strip, GoodName, GoodVersion, NameChar;
    UnderscoreFoo();
    DashIsGood();
    assert "_foo" + "==" + "1" == "_foo==1";
    MatchPrinted("_foo", "1");
    StripTrims("_foo==1");
  }

  /** The pin of "_foo" is read as "-foo", and what is printed for it is refused. */
  lemma DashedPinIsRefused()
    ensures var pins := map["-foo" := "1"];
            ParsedExport("_foo==1") == Ok(pins) && ParsedExport(PrintPins(pins, ["-foo"])) == Err(GateError)
  {
    hide NormalizeName, GoodName, GoodVersion, ReadLine, SplitLines, PrintPins;
    var pins := map["-foo" := "1"];
    DashIsGood();
    DashLine();
    OneLine("_foo==1");
    assert ParsedExport("_foo==1") == Ok(pins) by {
      assert ["_foo==1"][1..] == [];
    }
    assert "-foo"[..1] == "-" && StartsWith(["-foo"][0], "-");
    ParsedGoodPins(pins, ["-foo"]);
  }

  // Closure.

  /** `ensure_same_closure`. */
  function EnsureSameClosure(exported: Pins, locked: Pins): Result<(), GateError> {
    var missing, extra := locked.Keys - exported.Keys, exported.Keys - locked.Keys;
    if missing != {} || extra != {} then Err(GateError)
    else if exists name | name in exported :: locked[name] != exported[name] then Err(GateError)
    else Ok(())
  }

  /** The closure check passes exactly on equal maps. */
  lemma SameClosureMeansEqual(exported: Pins, locked: Pins)
    ensures EnsureSameClosure(exported, locked).Ok? <==> exported == locked
  {
    var missing, extra := locked.Keys - exported.Keys, exported.Keys - locked.Keys;
    if missing == {} && extra == {} {
      forall n
        ensures n in exported <==> n in locked
      {
        assert n !in missing && n !in extra;
      }
      assert exported.Keys == locked.Keys;
    }
  }

  /** One vulnerability of an entry; no id when it is not text. */
  datatype Vulnerability = Vulnerability(id: Option<string>, aliases: seq<string>, fixes: seq<string>)

  /** One entry of the audit report; no version when it is not text. */
  datatype Dependency = Dependency(name: string, version: Option<string>, skipped: bool, vulns: seq<Vulnerability>)

  datatype Finding = Finding(package: string, version: string, id: string, aliases: seq<string>, fixes: seq<string>)

  predicate AllNamed(vulns: seq<Vulnerability>) {
    forall i :: 0 <= i < |vulns| ==> vulns[i].id.Some?
  }

  function FindingsOf(name: string, version: string, vulns: seq<Vulnerability>): (r: seq<Finding>)
    requires AllNamed(vulns)
    ensures |r| == |vulns|
    ensures forall i :: 0 <= i < |vulns| ==>
              r[i] == Finding(name, version, vulns[i].id.value, vulns[i].aliases, vulns[i].fixes)
  {
    seq(|vulns|, i requires 0 <= i < |vulns| =>
      Finding(name, version, vulns[i].id.value, vulns[i].aliases, vulns[i].fixes))
  }

  /** The findings of the first n entries, in order. */
  ghost function AllFindings(dependencies: seq<Dependency>, n: nat): seq<Finding>
    requires n <= |dependencies| && forall i :: 0 <= i < n ==> CleanEntry(dependencies[i])
  {
    if n == 0 then []
    else
      var d := dependencies[n - 1];
      assert CleanEntry(d);
      AllFindings(dependencies, n - 1) + FindingsOf(NormalizeName(d.name), d.version.value, d.vulns)
  }

  predicate CleanEntry(d: Dependency) {
    NormalizeName(d.name) != "" && d.version.Some? && !d.skipped && AllNamed(d.vulns)
  }

  ghost predicate Distinct(dependencies: seq<Dependency>, i: int, j: int) {
    0 <= i < j < |dependencies| ==> NormalizeName(dependencies[i].name) != NormalizeName(dependencies[j].name)
  }

  /** Every entry names a package, a version and its vulnerabilities, none is skipped, no package comes twice. */
  ghost predicate CleanReport(dependencies: seq<Dependency>) {
    && (forall i :: 0 <= i < |dependencies| ==> CleanEntry(dependencies[i]))
    && (forall i, j :: Distinct(dependencies, i, j))
  }

  ghost predicate Names(dependencies: seq<Dependency>, i: int, name: string) {
    0 <= i < |dependencies| && NormalizeName(dependencies[i].name) == name
  }

  /** The i-th entry is one of the pins. */
  ghost predicate Pinned(dependencies: seq<Dependency>, i: int, pins: Pins) {
    0 <= i < |dependencies| ==>
      && dependencies[i].version.Some?
      && NormalizeName(dependencies[i].name) in pins
      && pins[NormalizeName(dependencies[i].name)] == dependencies[i].version.value
  }

  /** The report says exactly these pins. */
  ghost predicate Reports(dependencies: seq<Dependency>, pins: Pins) {
    && (forall i :: Pinned(dependencies, i, pins))
    && (forall name :: name in pins ==> exists i :: Names(dependencies, i, name))
  }

  lemma ReportGrows(dependencies: seq<Dependency>, pins: Pins, d: Dependency)
    requires CleanReport(dependencies) && Reports(dependencies, pins)
    requires NormalizeName(d.name) != "" && d.version.Some? && !d.skipped
    ensures NormalizeName(d.name) !in pins && AllNamed(d.vulns) ==>
              && CleanReport(dependencies + [d])
              && Reports(dependencies + [d], pins[NormalizeName(d.name) := d.version.value])
    ensures NormalizeName(d.name) in pins ==>
      exists i :: 0 <= i < |dependencies| && !Distinct(dependencies + [d], i, |dependencies|)
  {
    var more, name := dependencies + [d], NormalizeName(d.name);
    if name in pins {
      var i :| Names(dependencies, i, name);
      assert !Distinct(more, i, |dependencies|);
    } else if AllNamed(d.vulns) {
      var pins' := pins[name := d.version.value];
      forall i, j
        ensures Distinct(more, i, j)
      {
        assert Distinct(dependencies, i, j) && Pinned(dependencies, i, pins);
      }
      forall i
        ensures Pinned(more, i, pins')
      {
        assert Pinned(dependencies, i, pins);
      }
      forall n | n in pins'
        ensures exists i :: Names(more, i, n)
      {
        if n == name {
          assert Names(more, |dependencies|, n);
        } else {
          var i :| Names(dependencies, i, n);
          assert Names(more, i, n);
        }
      }
    }
  }

  /**
   * `parse_audit_payload` returns the findings of all entries, in order, exactly when the
   * report is clean and reports exactly the exported pins.
   */
  method ParseAuditPayload(dependencies: seq<Dependency>, exported: Pins) returns (r: Result<seq<Finding>, GateError>)
    ensures r.Ok? <==> CleanReport(dependencies) && Reports(dependencies, exported)
    ensures r.Ok? ==> r.value == AllFindings(dependencies, |dependencies|)
  {
    hide Reports, FindingsOf, NormalizeName, EnsureSameClosure, CleanEntry, Distinct;
    var reported: Pins := map[];
    var findings: seq<Finding> := [];
    EmptyReport();
    for i := 0 to |dependencies|
      invariant CleanReport(dependencies[..i])
      invariant Reports(dependencies[..i], reported)
      invariant forall j :: 0 <= j < i ==> CleanEntry(dependencies[j])
      invariant findings == AllFindings(dependencies, i)
    {
      var dependency := dependencies[i];
      assert dependencies[..i + 1] == dependencies[..i] + [dependency];
      var name := NormalizeName(dependency.name);
      if name == "" || dependency.version.None? || dependency.skipped {
        UncleanEntry(dependencies, i);
        return Err(GateError);
      }
      ReportGrows(dependencies[..i], reported, dependency);
      if name in reported {
        RepeatedEntry(dependencies, i);
        return Err(GateError);
      }
      reported := reported[name := dependency.version.value];
      var vulns := dependency.vulns;
      var found: seq<Finding> := [];
      for k := 0 to |vulns|
        invariant AllNamed(vulns[..k]) && found == FindingsOf(name, dependency.version.value, vulns[..k])
      {
        if vulns[k].id.None? {
          UncleanEntry(dependencies, i);
          return Err(GateError);
        }
        FindingsNext(name, dependency.version.value, vulns[..k], vulns[k]);
        assert vulns[..k + 1] == vulns[..k] + [vulns[k]];
        found := found + [Finding(name, dependency.version.value, vulns[k].id.value, vulns[k].aliases, vulns[k].fixes)];
      }
      assert vulns[..|vulns|] == vulns;
      assert CleanEntry(dependency);
      findings := findings + found;
    }
    assert dependencies[..|dependencies|] == dependencies;
    SameClosureMeansEqual(reported, exported);
    if EnsureSameClosure(reported, exported).Err? {
      if Reports(dependencies, exported) {
        SameReport(dependencies, reported, exported);
      }
      return Err(GateError);
    }
    return Ok(findings);
  }

  lemma FindingsNext(name: string, version: string, vulns: seq<Vulnerability>, v: Vulnerability)
    requires AllNamed(vulns) && v.id.Some?
    ensures AllNamed(vulns + [v])
    ensures FindingsOf(name, version, vulns + [v]) ==
              FindingsOf(name, version, vulns) + [Finding(name, version, v.id.value, v.aliases, v.fixes)]
  {
  }

  lemma EmptyReport()
    ensures CleanReport([]) && Reports([], map[])
  {
  }

  lemma UncleanEntry(dependencies: seq<Dependency>, i: nat)
    requires i < |dependencies|
    requires var d := dependencies[i];
             NormalizeName(d.name) == "" || d.version.None? || d.skipped || !AllNamed(d.vulns)
    ensures !CleanReport(dependencies)
  {
  }

  lemma RepeatedEntry(dependencies: seq<Dependency>, n: nat)
    requires n < |dependencies|
    requires exists i :: 0 <= i < n && !Distinct(dependencies[..n] + [dependencies[n]], i, n)
    ensures !CleanReport(dependencies)
  {
    var i :| 0 <= i < n && !Distinct(dependencies[..n] + [dependencies[n]], i, n);
    assert !Distinct(dependencies, i, n);
  }

  lemma SameReport(dependencies: seq<Dependency>, a: Pins, b: Pins)
    requires Reports(dependencies, a) && Reports(dependencies, b)
    ensures a == b
  {
    forall n
      ensures (n in a <==> n in b) && (n in a && n in b ==> a[n] == b[n])
    {
      if n in a || n in b {
        var i :| Names(dependencies, i, n);
        assert Pinned(dependencies, i, a) && Pinned(dependencies, i, b);
      }
    }
    assert a.Keys == b.Keys;
  }

  /**
   * A scan that passes both closure checks has audited exactly the locked pins: reported, exported
   * and locked agree.
   */
  lemma AuditCoversTheLock(dependencies: seq<Dependency>, reported: Pins, exported: Pins, locked: Pins)
    requires Reports(dependencies, reported)
    requires EnsureSameClosure(exported, locked).Ok? && EnsureSameClosure(reported, exported).Ok?
    ensures reported == exported == locked
    ensures Reports(dependencies, locked)
  {
    SameClosureMeansEqual(exported, locked);
    SameClosureMeansEqual(reported, exported);
  }
}
