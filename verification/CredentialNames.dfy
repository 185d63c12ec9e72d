/** The identifier tokenizer of the secret scanner, on ASCII names. */
module CredentialNames {
  import opened Text

  // The pattern [A-Z]+(?=[A-Z][a-z])|[A-Z]?[a-z]+|[A-Z]+|[0-9]+ at the front of a text.

  function UpperRun(s: string): (n: nat)
    ensures n <= |s| && (n < |s| ==> !IsUpper(s[n]))
    ensures forall i :: 0 <= i < n ==> IsUpper(s[i])
  {
    if s == "" || !IsUpper(s[0]) then 0 else 1 + UpperRun(s[1..])
  }

  function LowerRun(s: string): (n: nat)
    ensures n <= |s| && (n < |s| ==> !IsLower(s[n]))
    ensures forall i :: 0 <= i < n ==> IsLower(s[i])
  {
    if s == "" || !IsLower(s[0]) then 0 else 1 + LowerRun(s[1..])
  }

  function DigitRun(s: string): (n: nat)
    ensures n <= |s|
    ensures n == 0 <==> s == "" || !IsDigit(s[0])
  {
    if s == "" || !IsDigit(s[0]) then 0 else 1 + DigitRun(s[1..])
  }

  /** `[A-Z]+(?=[A-Z][a-z])` with at most n capitals: the repetition gives back until the look-ahead holds. */
  function CapitalsBeforeWord(s: string, n: nat): (m: nat)
    requires n <= |s|
    ensures m <= n
  {
    if n == 0 then 0
    else if n + 1 < |s| && IsUpper(s[n]) && IsLower(s[n + 1]) then n
    else CapitalsBeforeWord(s, n - 1)
  }

  /** `[A-Z]?[a-z]+`: the capital first, then without it. */
  function Word(s: string): (m: nat)
    ensures m <= |s|
  {
    if s != "" && IsUpper(s[0]) && LowerRun(s[1..]) > 0 then 1 + LowerRun(s[1..]) else LowerRun(s)
  }

  /** The length that the pattern matches at the front, 0 when it does not. */
  function MatchLength(s: string): (m: nat)
    ensures m <= |s|
  {
    if CapitalsBeforeWord(s, UpperRun(s)) > 0 then CapitalsBeforeWord(s, UpperRun(s))
    else if Word(s) > 0 then Word(s)
    else if UpperRun(s) > 0 then UpperRun(s)
    else DigitRun(s)
  }

  /** `_CAMEL.findall`. */
  function FindAll(s: string): seq<string>
    decreases |s|
  {
    if s == "" then []
    else if MatchLength(s) == 0 then FindAll(s[1..])
    else [s[..MatchLength(s)]] + FindAll(s[MatchLength(s)..])
  }

  function LowerAll(pieces: seq<string>): seq<string> {
    if pieces == [] then [] else [Lower(pieces[0])] + LowerAll(pieces[1..])
  }

  /** The segments of one chunk between underscores. */
  function ChunkSegments(chunk: string): seq<string> {
    if chunk == "" then []
    else LowerAll(if FindAll(chunk) == [] then [chunk] else FindAll(chunk))
  }

  function SegmentsOf(chunks: seq<string>): seq<string> {
    if chunks == [] then [] else ChunkSegments(chunks[0]) + SegmentsOf(chunks[1..])
  }

  function Segments(name: string): seq<string> {
    SegmentsOf(Split(name, '_'))
  }

  lemma {:induction false} SegmentsOfAppend(a: seq<string>, b: seq<string>)
    ensures SegmentsOf(a + b) == SegmentsOf(a) + SegmentsOf(b)
  {
    if a == [] {
      assert a + b == b;
    } else {
      assert (a + b)[1..] == a[1..] + b;
      SegmentsOfAppend(a[1..], b);
    }
  }

  /** `_identifier_segments`. */
  method IdentifierSegments(name: string) returns (segments: seq<string>)
    ensures segments == Segments(name)
  {
    hide FindAll, LowerAll, Split;
    segments := [];
    var chunks := Split(name, '_');
    for i := 0 to |chunks|
      invariant segments == SegmentsOf(chunks[..i])
    {
      var chunk := chunks[i];
      assert chunks[..i + 1] == chunks[..i] + [chunk];
      SegmentsOfAppend(chunks[..i], [chunk]);
      assert SegmentsOf([chunk]) == ChunkSegments(chunk);
      if chunk == "" {
        continue;
      }
      var pieces := FindAll(chunk);
      segments := segments + LowerAll(if pieces == [] then [chunk] else pieces);
    }
    assert chunks[..|chunks|] == chunks;
  }

  const SENSITIVE_SEGMENTS: set<string> := {"password", "passwd", "token", "secret", "credential", "credentials"}
  const SENSITIVE_COMPACT: set<string> := {"apikey", "privatekey", "accesskey"}
  const SENSITIVE_PAIRS: set<(string, string)> := {("api", "key"), ("private", "key"), ("access", "key")}

  predicate SensitiveWord(w: string) {
    w in SENSITIVE_SEGMENTS || w in SENSITIVE_COMPACT
  }

  predicate SensitivePair(a: string, b: string) {
    (a, b) in SENSITIVE_PAIRS
  }

  predicate SensitiveSegments(segments: seq<string>) {
    || (exists i | 0 <= i < |segments| :: SensitiveWord(segments[i]))
    || (exists i | 0 <= i < |segments| - 1 :: SensitivePair(segments[i], segments[i + 1]))
  }

  predicate IsCredentialName(name: string) {
    SensitiveSegments(Segments(name))
  }

  // Nothing is lost.

  predicate Alphanumeric(s: string) {
    forall i :: 0 <= i < |s| ==> IsUpper(s[i]) || IsLower(s[i]) || IsDigit(s[i])
  }

  predicate Identifier(s: string) {
    forall i :: 0 <= i < |s| ==> IsUpper(s[i]) || IsLower(s[i]) || IsDigit(s[i]) || s[i] == '_'
  }

  function Without(s: string, c: char): string {
    if s == "" then "" else if s[0] == c then Without(s[1..], c) else [s[0]] + Without(s[1..], c)
  }

  lemma {:induction false} ConcatAppend(a: seq<string>, b: seq<string>)
    ensures Concat(a + b) == Concat(a) + Concat(b)
  {
    if a == [] {
      assert a + b == b;
    } else {
      assert (a + b)[1..] == a[1..] + b;
      ConcatAppend(a[1..], b);
    }
  }

  /** Every letter and digit is matched by one alternative. */
  lemma AlwaysMatches(s: string)
    requires s != "" && Alphanumeric(s)
    ensures MatchLength(s) > 0
  {
  }

  /** The matches of an alphanumeric text tile it. */
  lemma {:induction false} FindAllTiles(s: string)
    requires Alphanumeric(s)
    ensures Concat(FindAll(s)) == s
    ensures s != "" ==> FindAll(s) != []
    decreases |s|
  {
    if s != "" {
      AlwaysMatches(s);
      var m := MatchLength(s);
      FindAllTiles(s[m..]);
      assert s == s[..m] + s[m..];
      assert FindAll(s)[1..] == FindAll(s[m..]);
    }
  }

  lemma {:induction false} LowerConcat(parts: seq<string>)
    ensures Concat(LowerAll(parts)) == Lower(Concat(parts))
  {
    if parts != [] {
      LowerConcat(parts[1..]);
      LowerAppend(parts[0], Concat(parts[1..]));
      assert LowerAll(parts)[1..] == LowerAll(parts[1..]);
    }
  }

  lemma ChunkSpelling(chunk: string)
    requires Alphanumeric(chunk)
    ensures Concat(ChunkSegments(chunk)) == Lower(chunk)
  {
    if chunk != "" {
      FindAllTiles(chunk);
      LowerConcat(FindAll(chunk));
    }
  }

  lemma {:induction false} ChunksSpelling(chunks: seq<string>)
    requires forall i :: 0 <= i < |chunks| ==> Alphanumeric(chunks[i])
    ensures Concat(SegmentsOf(chunks)) == Lower(Concat(chunks))
  {
    if chunks != [] {
      ChunkSpelling(chunks[0]);
      ChunksSpelling(chunks[1..]);
      ConcatAppend(ChunkSegments(chunks[0]), SegmentsOf(chunks[1..]));
      LowerAppend(chunks[0], Concat(chunks[1..]));
    }
  }

  lemma {:induction false} SplitPieces(s: string, c: char)
    requires c == '_' && Identifier(s)
    ensures Concat(Split(s, c)) == Without(s, c)
    ensures forall i :: 0 <= i < |Split(s, c)| ==> Alphanumeric(Split(s, c)[i])
  {
    if s != "" {
      SplitPieces(s[1..], c);
      var rest := Split(s[1..], c);
      if s[0] == c {
        assert Split(s, c)[1..] == rest;
      } else {
        assert Split(s, c)[1..] == rest[1..];
        assert Alphanumeric(rest[0]);
      }
    }
  }

  /** The segments of an identifier spell it out in lower case, without the underscores. */
  lemma SegmentsSpellTheName(name: string)
    requires Identifier(name)
    ensures Concat(Segments(name)) == Lower(Without(name, '_'))
  {
    SplitPieces(name, '_');
    ChunksSpelling(Split(name, '_'));
  }

  // snake_case and camelCase.

  /** A lower-case word of at least one letter. */
  predicate LowerWord(w: string) {
    w != "" && forall i :: 0 <= i < |w| ==> IsLower(w[i])
  }

  predicate LowerWords(ws: seq<string>) {
    forall i :: 0 <= i < |ws| ==> LowerWord(ws[i])
  }

  function Snake(ws: seq<string>): string {
    Join(ws, '_')
  }

  function Capitalized(w: string): string
    requires w != ""
  {
    [UpperChar(w[0])] + w[1..]
  }

  /** The words one after another, each with a capital. */
  function Humps(ws: seq<string>): string
    requires forall i :: 0 <= i < |ws| ==> ws[i] != ""
  {
    if ws == [] then "" else Capitalized(ws[0]) + Humps(ws[1..])
  }

  function Camel(ws: seq<string>): string
    requires ws != [] && forall i :: 0 <= i < |ws| ==> ws[i] != ""
  {
    ws[0] + Humps(ws[1..])
  }

  /** How many one-letter words lead. */
  function Singles(ws: seq<string>): (k: nat)
    ensures k <= |ws|
    ensures forall i :: 0 <= i < k ==> |ws[i]| == 1
    ensures k < |ws| ==> |ws[k]| != 1
  {
    if ws == [] || |ws[0]| != 1 then 0 else 1 + Singles(ws[1..])
  }

  /** The words that make a name a credential name, alone and in pairs. */
  predicate NamesCredential(ws: seq<string>) {
    || (exists i | 0 <= i < |ws| ::
          ws[i] in {"password", "passwd", "token", "secret", "credential", "credentials", "apikey", "privatekey",
                    "accesskey"})
    || (exists i | 0 <= i < |ws| - 1 :: ws[i + 1] == "key" && ws[i] in {"api", "private", "access"})
  }

  /** Adjacent one-letter words run together. */
  function Merged(ws: seq<string>): seq<string>
    decreases |ws|
  {
    if ws == [] then []
    else if Singles(ws) == 0 then [ws[0]] + Merged(ws[1..])
    else [Concat(ws[..Singles(ws)])] + Merged(ws[Singles(ws)..])
  }

  /** Two one-letter words stand next to each other. */
  predicate AdjacentSingles(ws: seq<string>) {
    exists i | 0 <= i < |ws| - 1 :: |ws[i]| == 1 && |ws[i + 1]| == 1
  }

  /** The look-ahead alternative takes a run of capitals but its last, when a small letter follows. */
  lemma CapitalsClosed(s: string, n: nat)
    requires n <= UpperRun(s)
    ensures CapitalsBeforeWord(s, n) ==
              if UpperRun(s) >= 2 && n >= UpperRun(s) - 1 && UpperRun(s) < |s| && IsLower(s[UpperRun(s)])
              then UpperRun(s) - 1 else 0
  {
    if n > 0 {
      CapitalsClosed(s, n - 1);
    }
  }

  lemma {:induction false} LowerRunIs(w: string, rest: string)
    requires forall i :: 0 <= i < |w| ==> IsLower(w[i])
    requires rest != "" ==> !IsLower(rest[0])
    ensures LowerRun(w + rest) == |w|
  {
    if w == "" {
      assert w + rest == rest;
    } else {
      assert (w + rest)[1..] == w[1..] + rest;
      LowerRunIs(w[1..], rest);
    }
  }

  lemma {:induction false} UpperRunIs(w: string, rest: string)
    requires forall i :: 0 <= i < |w| ==> IsUpper(w[i])
    requires rest != "" ==> !IsUpper(rest[0])
    ensures UpperRun(w + rest) == |w|
  {
    if w == "" {
      assert w + rest == rest;
    } else {
      assert (w + rest)[1..] == w[1..] + rest;
      UpperRunIs(w[1..], rest);
    }
  }

  // The five ways to start a text.

  predicate AllUpper(s: string) {
    forall i :: 0 <= i < |s| ==> IsUpper(s[i])
  }

  predicate AllLower(s: string) {
    forall i :: 0 <= i < |s| ==> IsLower(s[i])
  }

  lemma {:induction false} DigitRunIs(d: string, rest: string)
    requires AllDigits(d) && (rest != "" ==> !IsDigit(rest[0]))
    ensures DigitRun(d + rest) == |d|
  {
    if d == "" {
      assert d + rest == rest;
    } else {
      assert (d + rest)[1..] == d[1..] + rest;
      DigitRunIs(d[1..], rest);
    }
  }

  lemma CutMatch(piece: string, rest: string)
    requires piece != "" && MatchLength(piece + rest) == |piece|
    ensures FindAll(piece + rest) == [piece] + FindAll(rest)
  {
    assert (piece + rest)[..|piece|] == piece && (piece + rest)[|piece|..] == rest;
  }

  /** A whole run of digits is one match. */
  lemma DigitsAreCut(d: string, rest: string)
    requires d != "" && AllDigits(d) && (rest != "" ==> !IsDigit(rest[0]))
    ensures FindAll(d + rest) == [d] + FindAll(rest)
  {
    DigitRunIs(d, rest);
    assert (d + rest)[0] == d[0];
    CutMatch(d, rest);
  }

  lemma SmallWordMatches(w: string, rest: string)
    requires w != "" && AllLower(w) && (rest != "" ==> !IsLower(rest[0]))
    ensures MatchLength(w + rest) == |w|
  {
    LowerRunIs(w, rest);
    assert (w + rest)[0] == w[0];
    hide LowerRun, DigitRun;
  }

  lemma CapitalWordMatches(c: char, w: string, rest: string)
    requires w != "" && AllLower(w) && (rest != "" ==> !IsLower(rest[0])) && IsUpper(c)
    ensures MatchLength([c] + (w + rest)) == 1 + |w|
  {
    var s := [c] + (w + rest);
    LowerRunIs(w, rest);
    UpperRunIs([c], w + rest);
    CapitalsClosed(s, UpperRun(s));
    assert s[1..] == w + rest;
    hide LowerRun, UpperRun, DigitRun, CapitalsBeforeWord;
  }

  /** A whole run of small letters is one match, and so is one with a capital in front. */
  lemma WordIsCut(capital: string, w: string, rest: string)
    requires w != "" && AllLower(w) && (rest != "" ==> !IsLower(rest[0])) && |capital| <= 1 && AllUpper(capital)
    ensures FindAll((capital + w) + rest) == [capital + w] + FindAll(rest)
  {
    hide MatchLength, FindAll, AllLower;
    if capital == "" {
      assert capital + w == w;
      SmallWordMatches(w, rest);
    } else {
      assert capital == [capital[0]];
      CapitalWordMatches(capital[0], w, rest);
      assert (capital + w) + rest == [capital[0]] + (w + rest);
    }
    CutMatch(capital + w, rest);
  }

  /** Capitals in front of a capitalized word are one match without that word's capital. */
  lemma CapitalsBeforeWordAreCut(a: string, word: string, rest: string)
    requires a != "" && AllUpper(a) && |word| >= 2 && IsUpper(word[0]) && IsLower(word[1])
    ensures FindAll(a + (word + rest)) == [a] + FindAll(word + rest)
  {
    var s := a + (word + rest);
    assert s == (a + [word[0]]) + (word[1..] + rest);
    UpperRunIs(a + [word[0]], word[1..] + rest);
    CapitalsClosed(s, UpperRun(s));
    assert s[|a| + 1] == word[1];
    CutMatch(a, word + rest);
  }

  /** Capitals with no letter behind them are one match. */
  lemma CapitalsAreCut(a: string, rest: string)
    requires a != "" && AllUpper(a) && (rest != "" ==> !IsUpper(rest[0]) && !IsLower(rest[0]))
    ensures FindAll(a + rest) == [a] + FindAll(rest)
  {
    var s := a + rest;
    UpperRunIs(a, rest);
    CapitalsClosed(s, UpperRun(s));
    assert s[0] == a[0];
    assert |a| > 1 ==> s[1..][0] == a[1];
    assert |a| == 1 ==> s[1..] == rest;
    CutMatch(a, rest);
  }

  /** Any other character is passed over. */
  lemma OthersArePassed(c: char, rest: string)
    requires !IsUpper(c) && !IsLower(c) && !IsDigit(c)
    ensures FindAll([c] + rest) == FindAll(rest)
  {
    assert ([c] + rest)[1..] == rest;
  }

  lemma HumpsStart(ws: seq<string>)
    requires LowerWords(ws)
    ensures ws == [] <==> Humps(ws) == ""
    ensures ws != [] ==> IsUpper(Humps(ws)[0])
  {
  }

  /** A first word in small letters is one match. */
  lemma MatchFirstWord(w: string, rest: seq<string>)
    requires LowerWord(w) && LowerWords(rest)
    ensures MatchLength(w + Humps(rest)) == |w|
  {
    HumpsStart(rest);
    LowerRunIs(w, Humps(rest));
    assert (w + Humps(rest))[0] == w[0];
  }

  /** A capitalized word of two letters or more is one match. */
  lemma MatchHump(ws: seq<string>)
    requires LowerWords(ws) && ws != [] && |ws[0]| >= 2
    ensures MatchLength(Humps(ws)) == |ws[0]|
  {
    var s := Humps(ws);
    HumpsStart(ws[1..]);
    assert s[1..] == ws[0][1..] + Humps(ws[1..]);
    LowerRunIs(ws[0][1..], Humps(ws[1..]));
    assert s[1] == ws[0][1];
    assert s == [s[0]] + s[1..];
    UpperRunIs([s[0]], s[1..]);
    CapitalsClosed(s, 1);
  }

  lemma {:induction false} SingleLetters(ws: seq<string>)
    requires LowerWords(ws) && forall i :: 0 <= i < |ws| ==> |ws[i]| == 1
    ensures |Concat(ws)| == |ws|
    ensures forall i :: 0 <= i < |ws| ==> IsLower(Concat(ws)[i])
  {
    if ws != [] {
      assert LowerWord(ws[0]);
      SingleLetters(ws[1..]);
    }
  }

  lemma {:induction false} HumpsAppend(a: seq<string>, b: seq<string>)
    requires LowerWords(a) && LowerWords(b)
    ensures Humps(a + b) == Humps(a) + Humps(b)
  {
    if a == [] {
      assert a + b == b;
    } else {
      assert (a + b)[1..] == a[1..] + b;
      HumpsAppend(a[1..], b);
    }
  }

  lemma {:induction false} SingleHumps(ws: seq<string>)
    requires LowerWords(ws) && forall i :: 0 <= i < |ws| ==> |ws[i]| == 1
    ensures Humps(ws) == Upper(Concat(ws))
  {
    if ws != [] {
      SingleHumps(ws[1..]);
      assert Upper(ws[0] + Concat(ws[1..])) == Upper(ws[0]) + Upper(Concat(ws[1..]));
      assert Capitalized(ws[0]) == Upper(ws[0]);
    }
  }

  /** Leading one-letter words become so many capitals. */
  lemma SinglesAreCapitals(ws: seq<string>, k: nat)
    requires LowerWords(ws) && k <= Singles(ws)
    ensures |Concat(ws[..k])| == k
    ensures Humps(ws) == Upper(Concat(ws[..k])) + Humps(ws[k..])
    ensures forall i :: 0 <= i < k ==> IsLower(Concat(ws[..k])[i])
  {
    assert ws == ws[..k] + ws[k..];
    HumpsAppend(ws[..k], ws[k..]);
    SingleHumps(ws[..k]);
    SingleLetters(ws[..k]);
  }

  lemma MatchAllCapitals(capitals: string)
    requires capitals != "" && forall i :: 0 <= i < |capitals| ==> IsUpper(capitals[i])
    ensures MatchLength(capitals) == |capitals|
  {
    assert capitals + "" == capitals;
    UpperRunIs(capitals, "");
    CapitalsClosed(capitals, |capitals|);
    assert Word(capitals) == 0;
  }

  lemma MatchCapitalsBeforeHump(capitals: string, hump: char, tail: string)
    requires capitals != "" && forall i :: 0 <= i < |capitals| ==> IsUpper(capitals[i])
    requires IsUpper(hump) && tail != "" && IsLower(tail[0])
    ensures MatchLength(capitals + [hump] + tail) == |capitals|
  {
    UpperRunIs(capitals + [hump], tail);
    CapitalsClosed(capitals + [hump] + tail, |capitals| + 1);
  }

  /** They are one match together, up to the capital of the next longer word. */
  lemma MatchSingles(ws: seq<string>)
    requires LowerWords(ws) && Singles(ws) > 0
    ensures MatchLength(Humps(ws)) == Singles(ws)
  {
    hide MatchLength, Concat;
    var k := Singles(ws);
    var capitals := Upper(Concat(ws[..k]));
    SinglesAreCapitals(ws, k);
    if ws[k..] == [] {
      assert Humps(ws) == capitals;
      MatchAllCapitals(capitals);
    } else {
      var next := ws[k];
      assert LowerWord(next) && ws[k..][0] == next && |next| >= 2;
      var tail := next[1..] + Humps(ws[k..][1..]);
      assert tail[0] == next[1];
      assert Humps(ws) == capitals + [UpperChar(next[0])] + tail;
      MatchCapitalsBeforeHump(capitals, UpperChar(next[0]), tail);
    }
  }

  lemma LowerUpper(w: string)
    requires forall i :: 0 <= i < |w| ==> IsLower(w[i])
    ensures Lower(w) == w && Lower(Upper(w)) == w
  {
  }

  lemma FirstMatch(s: string, n: nat)
    requires s != "" && MatchLength(s) == n > 0
    ensures FindAll(s) != []
    ensures LowerAll(FindAll(s)) == [Lower(s[..n])] + LowerAll(FindAll(s[n..]))
  {
    hide MatchLength, Lower;
    assert FindAll(s) == [s[..n]] + FindAll(s[n..]);
    assert FindAll(s)[1..] == FindAll(s[n..]);
  }

  lemma FirstHump(ws: seq<string>)
    requires LowerWords(ws) && ws != [] && Singles(ws) == 0
    ensures FindAll(Humps(ws)) != []
    ensures LowerAll(FindAll(Humps(ws))) == [ws[0]] + LowerAll(FindAll(Humps(ws[1..])))
  {
    var s := Humps(ws);
    assert LowerWord(ws[0]);
    HumpsStart(ws);
    MatchHump(ws);
    assert s[..|ws[0]|] == Capitalized(ws[0]) && s[|ws[0]|..] == Humps(ws[1..]);
    LowerUpper(ws[0]);
    assert Lower(Capitalized(ws[0])) == ws[0];
    hide FindAll, LowerAll, Humps, MatchLength;
    FirstMatch(s, |ws[0]|);
  }

  lemma FirstSingles(ws: seq<string>)
    requires LowerWords(ws) && Singles(ws) > 0
    ensures FindAll(Humps(ws)) != []
    ensures LowerAll(FindAll(Humps(ws))) == [Concat(ws[..Singles(ws)])] + LowerAll(FindAll(Humps(ws[Singles(ws)..])))
  {
    hide FindAll, LowerAll, MatchLength, Concat, Humps;
    var s, k := Humps(ws), Singles(ws);
    HumpsStart(ws);
    MatchSingles(ws);
    SinglesAreCapitals(ws, k);
    assert s[..k] == Upper(Concat(ws[..k])) && s[k..] == Humps(ws[k..]);
    LowerUpper(Concat(ws[..k]));
    FirstMatch(s, k);
  }

  /** The matches of a run of humps are its words, with adjacent one-letter words run together. */
  lemma {:induction false} HumpMatches(ws: seq<string>)
    requires LowerWords(ws)
    ensures LowerAll(FindAll(Humps(ws))) == Merged(ws)
    ensures ws != [] ==> FindAll(Humps(ws)) != []
    decreases |ws|
  {
    if ws != [] {
      hide FindAll, LowerAll, Humps, Concat;
      if Singles(ws) == 0 {
        FirstHump(ws);
        HumpMatches(ws[1..]);
      } else {
        FirstSingles(ws);
        HumpMatches(ws[Singles(ws)..]);
      }
    }
  }

  lemma {:induction false} HumpsHaveNoUnderscore(ws: seq<string>)
    requires LowerWords(ws)
    ensures '_' !in Humps(ws)
  {
    if ws != [] {
      assert LowerWord(ws[0]);
      HumpsHaveNoUnderscore(ws[1..]);
    }
  }

  /** The camelCase spelling of a list of words has these segments. */
  lemma CamelSegments(ws: seq<string>)
    requires ws != [] && LowerWords(ws)
    ensures Segments(Camel(ws)) == [ws[0]] + Merged(ws[1..])
  {
    var s := Camel(ws);
    var w, rest := ws[0], ws[1..];
    assert LowerWord(w);
    HumpsHaveNoUnderscore(rest);
    SplitHead(s, "", '_');
    MatchFirstWord(w, rest);
    HumpMatches(rest);
    assert s[..|w|] == w && s[|w|..] == Humps(rest);
    LowerUpper(w);
    assert FindAll(s) == [w] + FindAll(Humps(rest));
    assert LowerAll(FindAll(s)) == [w] + Merged(rest);
    assert SegmentsOf([s]) == ChunkSegments(s) + SegmentsOf([]);
  }

  lemma {:induction false} WordChunks(ws: seq<string>)
    requires LowerWords(ws)
    ensures SegmentsOf(ws) == ws
  {
    if ws != [] {
      var w := ws[0];
      assert LowerWord(w);
      MatchFirstWord(w, []);
      assert w + Humps([]) == w;
      LowerUpper(w);
      assert w[..|w|] == w && w[|w|..] == "";
      assert FindAll(w) == [w];
      assert LowerAll([w]) == [w];
      WordChunks(ws[1..]);
    }
  }

  /** The snake_case spelling has the words themselves as segments. */
  lemma SnakeSegments(ws: seq<string>)
    requires ws != [] && LowerWords(ws)
    ensures Segments(Snake(ws)) == ws
  {
    forall i | 0 <= i < |ws|
      ensures '_' !in ws[i]
    {
      assert LowerWord(ws[i]);
    }
    SplitJoin(ws, '_');
    WordChunks(ws);
  }

  /** A name is a credential name exactly for its segments: so in snake_case for its words. */
  lemma CredentialExactlyWhen(name: string, ws: seq<string>)
    requires ws != [] && LowerWords(ws)
    ensures IsCredentialName(name) <==> NamesCredential(Segments(name))
    ensures IsCredentialName(Snake(ws)) <==> NamesCredential(ws)
  {
    hide Segments, Snake;
    SnakeSegments(ws);
    CredentialSegments(Segments(name));
    CredentialSegments(ws);
  }

  lemma CredentialSegments(segments: seq<string>)
    ensures SensitiveSegments(segments) <==> NamesCredential(segments)
  {
    forall w
      ensures SensitiveWord(w) <==>
              w in {"password", "passwd", "token", "secret", "credential", "credentials", "apikey", "privatekey",
                    "accesskey"}
    {
    }
    forall a, b
      ensures SensitivePair(a, b) <==> b == "key" && a in {"api", "private", "access"}
    {
    }
    hide SensitiveWord, SensitivePair;
  }

  lemma AdjacentTail(ws: seq<string>)
    requires ws != []
    ensures AdjacentSingles(ws) <==> (|ws| >= 2 && |ws[0]| == 1 && |ws[1]| == 1) || AdjacentSingles(ws[1..])
  {
    if AdjacentSingles(ws) {
      var i :| 0 <= i < |ws| - 1 && |ws[i]| == 1 && |ws[i + 1]| == 1;
      assert i > 0 ==> |ws[1..][i - 1]| == 1 && |ws[1..][i - 1 + 1]| == 1;
    }
    if AdjacentSingles(ws[1..]) {
      var i :| 0 <= i < |ws[1..]| - 1 && |ws[1..][i]| == 1 && |ws[1..][i + 1]| == 1;
      assert |ws[i + 1]| == 1 && |ws[i + 1 + 1]| == 1;
    }
  }

  /** Merging changes a list exactly when it has adjacent one-letter words. */
  lemma {:induction false} MergedIsSameWhen(ws: seq<string>)
    ensures |Merged(ws)| <= |ws|
    ensures Merged(ws) == ws <==> !AdjacentSingles(ws)
    decreases |ws|
  {
    if ws != [] {
      var k := Singles(ws);
      if k == 0 {
        MergedIsSameWhen(ws[1..]);
        assert Merged(ws) == ws <==> Merged(ws[1..]) == ws[1..];
        AdjacentTail(ws);
      } else if k == 1 {
        MergedIsSameWhen(ws[1..]);
        assert ws[..1] == [ws[0]];
        assert Concat([ws[0]]) == ws[0];
        assert Merged(ws) == ws <==> Merged(ws[1..]) == ws[1..];
        AdjacentTail(ws);
      } else {
        MergedIsSameWhen(ws[k..]);
        assert |Merged(ws)| < |ws|;
        assert |ws[0]| == 1 && |ws[0 + 1]| == 1;
      }
    }
  }

  /**
   * The two spellings of a list of words have the same segments exactly when no two
   * one-letter words are adjacent behind the first word.
   */
  lemma SpellingsAgreeExactlyWhen(ws: seq<string>)
    requires ws != [] && LowerWords(ws)
    ensures Segments(Snake(ws)) == Segments(Camel(ws)) <==> !AdjacentSingles(ws[1..])
    ensures !AdjacentSingles(ws[1..]) ==> (IsCredentialName(Snake(ws)) <==> IsCredentialName(Camel(ws)))
  {
    SnakeSegments(ws);
    CamelSegments(ws);
    MergedIsSameWhen(ws[1..]);
    assert ws == [ws[0]] + ws[1..];
    if Merged(ws[1..]) != ws[1..] {
      assert ([ws[0]] + Merged(ws[1..]))[1..] == Merged(ws[1..]);
    }
  }

  /** With two letters or more in every word the spelling does not matter. */
  lemma LongWordsSpellAlike(ws: seq<string>)
    requires ws != [] && LowerWords(ws) && forall i :: 0 <= i < |ws| ==> |ws[i]| >= 2
    ensures Segments(Snake(ws)) == ws == Segments(Camel(ws))
    ensures IsCredentialName(Snake(ws)) <==> IsCredentialName(Camel(ws))
  {
    SpellingsAgreeExactlyWhen(ws);
    SnakeSegments(ws);
  }
}
