/** When the spelling of a list of words decides whether it names a credential. */
module CredentialVerdicts {
  import opened Text
  import opened CredentialNames

  /** A walk over segments behind a previous one. */
  predicate Scan(previous: string, segments: seq<string>)
    decreases |segments|
  {
    segments != [] &&
    (SensitiveWord(segments[0]) || SensitivePair(previous, segments[0]) || Scan(segments[0], segments[1..]))
  }

  lemma {:induction false} ScanDecides(previous: string, segments: seq<string>)
    ensures Scan(previous, segments) <==>
            SensitiveSegments(segments) || (segments != [] && SensitivePair(previous, segments[0]))
    decreases |segments|
  {
    hide SensitiveWord, SensitivePair;
    if segments != [] {
      ScanDecides(segments[0], segments[1..]);
      SensitiveTail(segments);
    }
  }

  lemma SensitiveTail(segments: seq<string>)
    requires segments != []
    ensures SensitiveSegments(segments) <==>
            || SensitiveWord(segments[0])
            || (|segments| > 1 && SensitivePair(segments[0], segments[1]))
            || SensitiveSegments(segments[1..])
  {
    hide SensitiveWord, SensitivePair;
    var rest := segments[1..];
    if i :| 0 <= i < |rest| && SensitiveWord(rest[i]) {
      assert SensitiveWord(segments[i + 1]);
    }
    if i :| 0 <= i < |rest| - 1 && SensitivePair(rest[i], rest[i + 1]) {
      assert SensitivePair(segments[i + 1], segments[i + 1 + 1]);
    }
    if i :| 0 < i < |segments| && SensitiveWord(segments[i]) {
      assert SensitiveWord(rest[i - 1]);
    }
    if i :| 0 < i < |segments| - 1 && SensitivePair(segments[i], segments[i + 1]) {
      assert SensitivePair(rest[i - 1], rest[i - 1 + 1]);
    }
  }

  /** A letter alone is no part of a sensitive name. */
  lemma LettersAreHarmless(letter: string, other: string)
    requires |letter| == 1
    ensures !SensitiveWord(letter) && !SensitivePair(letter, other) && !SensitivePair(other, letter)
  {
  }

  /** A longest run of two or more one-letter words. */
  predicate Run(words: seq<string>, i: int, j: int) {
    && 0 <= i && i + 2 <= j <= |words|
    && (forall k :: i <= k < j ==> |words[k]| == 1)
    && (i > 0 ==> |words[i - 1]| != 1) && (j < |words| ==> |words[j]| != 1)
  }

  /** The letters of the run spell a sensitive word, or one half of a sensitive pair with a neighbour. */
  predicate Spells(previous: string, words: seq<string>, i: int, j: int) {
    && Run(words, i, j)
    && var word := Concat(words[i..j]);
       || SensitiveWord(word)
       || SensitivePair(if i == 0 then previous else words[i - 1], word)
       || (j < |words| && SensitivePair(word, words[j]))
  }

  ghost predicate SpelledOut(previous: string, words: seq<string>) {
    exists i, j :: Spells(previous, words, i, j)
  }

  /** Leading letters say nothing. */
  lemma {:induction false} ScanBehindLetters(previous: string, words: seq<string>, k: nat)
    requires k <= |words| && forall i :: 0 <= i < k ==> |words[i]| == 1
    ensures Scan(previous, words) <==> Scan(if k == 0 then previous else words[k - 1], words[k..])
    decreases k
  {
    hide SensitiveWord, SensitivePair;
    if k == 0 {
      assert words[0..] == words;
    } else {
      LettersAreHarmless(words[0], previous);
      ScanBehindLetters(words[0], words[1..], k - 1);
      assert words[1..][k - 1..] == words[k..];
    }
  }

  /** A run behind the first n words, seen from there. */
  lemma RunBehind(previous: string, words: seq<string>, n: nat, i: int, j: int)
    requires 0 < n <= i <= |words|
    requires n < |words| ==> |words[n]| != 1 || |words[n - 1]| != 1
    requires i == n ==> previous == words[n - 1] && |words[n - 1]| != 1
    ensures Spells(previous, words[n..], i - n, j - n) <==> Spells("", words, i, j)
  {
    hide SensitiveWord, SensitivePair, Concat;
    var rest := words[n..];
    if i <= j <= |words| {
      assert rest[i - n..j - n] == words[i..j];
    }
    if Run(rest, i - n, j - n) {
      forall k | i <= k < j
        ensures |words[k]| == 1
      {
        assert rest[k - n] == words[k];
      }
      assert i > n ==> rest[i - n - 1] == words[i - 1];
      assert j < |words| ==> rest[j - n] == words[j];
    }
    if Run(words, i, j) {
      forall k | i - n <= k < j - n
        ensures |rest[k]| == 1
      {
        assert rest[k] == words[k + n];
      }
      assert i > n ==> rest[i - n - 1] == words[i - 1];
      assert j < |words| ==> rest[j - n] == words[j];
    }
  }

  lemma FirstDoesNotMatter(p: string, q: string, words: seq<string>, i: int, j: int)
    requires i > 0
    ensures Spells(p, words, i, j) <==> Spells(q, words, i, j)
  {
  }

  /** A longer word in front does not take part in a run. */
  lemma SpelledBehindWord(previous: string, words: seq<string>)
    requires words != [] && |words[0]| != 1
    ensures SpelledOut(previous, words) <==> SpelledOut(words[0], words[1..])
  {
    hide Spells;
    if i, j :| Spells(previous, words, i, j) {
      SpellsRun(previous, words, i, j);
      FirstDoesNotMatter(previous, "", words, i, j);
      RunBehind(words[0], words, 1, i, j);
      assert Spells(words[0], words[1..], i - 1, j - 1);
    }
    if i, j :| Spells(words[0], words[1..], i, j) {
      SpellsRun(words[0], words[1..], i, j);
      RunBehind(words[0], words, 1, i + 1, j + 1);
      FirstDoesNotMatter(previous, "", words, i + 1, j + 1);
      assert Spells(previous, words, i + 1, j + 1);
    }
  }

  lemma SpellsRun(previous: string, words: seq<string>, i: int, j: int)
    requires Spells(previous, words, i, j)
    ensures Run(words, i, j)
  {
  }

  /** Leading letters take part in the first run only. */
  lemma SpelledBehindLetters(previous: string, words: seq<string>, k: nat, any: string)
    requires 0 < k == Singles(words)
    ensures SpelledOut(previous, words) <==> Spells(previous, words, 0, k) || SpelledOut(any, words[k..])
  {
    hide Spells;
    var rest := words[k..];
    if i, j :| Spells(previous, words, i, j) {
      SpellsRun(previous, words, i, j);
      RunStartsBehind(words, k, i, j);
      if i > 0 {
        FirstDoesNotMatter(previous, "", words, i, j);
        RunBehind(any, words, k, i, j);
        assert Spells(any, rest, i - k, j - k);
      }
    }
    if i, j :| Spells(any, rest, i, j) {
      SpellsRun(any, rest, i, j);
      assert k < |words| ==> |rest[0]| != 1;
      RunBehind(any, words, k, i + k, j + k);
      FirstDoesNotMatter(previous, "", words, i + k, j + k);
      assert Spells(previous, words, i + k, j + k);
    }
  }

  lemma RunStartsBehind(words: seq<string>, k: nat, i: int, j: int)
    requires 0 < k == Singles(words) && Run(words, i, j)
    ensures if i == 0 then j == k else i > k
  {
    assert forall m :: 0 <= m < |words| && |words[m]| != 1 ==> m >= k;
    assert k < |words| ==> |words[k]| != 1;
    assert forall m :: i <= m < j ==> |words[m]| == 1;
  }

  /** Running one-letter words together adds to a scan exactly what their runs spell out. */
  lemma {:induction false} MergedScan(previous: string, words: seq<string>)
    ensures Scan(previous, Merged(words)) <==> Scan(previous, words) || SpelledOut(previous, words)
    decreases |words|
  {
    hide SensitiveWord, SensitivePair, SpelledOut, Spells, Concat, Singles;
    if words == [] {
      NothingSpelled(previous);
    } else if Singles(words) == 0 {
      assert Merged(words)[1..] == Merged(words[1..]);
      FirstIsLonger(words);
      SpelledBehindWord(previous, words);
      MergedScan(words[0], words[1..]);
    } else {
      MergedScan(Concat(words[..Singles(words)]), words[Singles(words)..]);
      LettersMerged(previous, words);
    }
  }

  lemma NothingSpelled(previous: string)
    ensures !SpelledOut(previous, [])
  {
  }

  lemma FirstIsLonger(words: seq<string>)
    requires words != []
    ensures Singles(words) == 0 <==> |words[0]| != 1
  {
  }

  lemma LettersMerged(previous: string, words: seq<string>)
    requires Singles(words) > 0
    requires var word, rest := Concat(words[..Singles(words)]), words[Singles(words)..];
             Scan(word, Merged(rest)) <==> Scan(word, rest) || SpelledOut(word, rest)
    ensures Scan(previous, Merged(words)) <==> Scan(previous, words) || SpelledOut(previous, words)
  {
    var k := Singles(words);
    var word, rest := Concat(words[..k]), words[k..];
    assert Merged(words) == [word] + Merged(rest);
    assert ([word] + Merged(rest))[1..] == Merged(rest);
    SpelledBehindLetters(previous, words, k, word);
    ScanBehindLetters(previous, words, k);
    LettersAreHarmless(words[k - 1], if rest == [] then "" else rest[0]);
    hide Merged, SpelledOut, SensitiveWord, SensitivePair, Concat, Singles;
    assert Scan(previous, [word] + Merged(rest)) <==>
      SensitiveWord(word) || SensitivePair(previous, word) || Scan(word, Merged(rest));
    if k == 1 {
      assert words[..1] == [words[0]];
      OneLetter(words[0], previous, if rest == [] then "" else rest[0]);
    } else {
      assert Run(words, 0, k) by {
        assert rest != [] ==> rest[0] == words[k];
      }
      assert words[0..k] == words[..k];
    }
  }

  lemma OneLetter(letter: string, previous: string, next: string)
    requires |letter| == 1
    ensures Concat([letter]) == letter
    ensures !SensitiveWord(letter) && !SensitivePair(letter, next) && !SensitivePair(previous, letter)
  {
    LettersAreHarmless(letter, next);
    LettersAreHarmless(letter, previous);
  }

  /**
   * Only camelCase can hide letters in a credential: a snake_case credential name is one in
   * camelCase too, and the verdicts differ exactly when the words themselves are harmless and
   * a run of one-letter words behind the first spells a sensitive word, or one half of a
   * sensitive pair with the word before or behind it.
   */
  lemma VerdictsDifferExactlyWhen(words: seq<string>)
    requires words != [] && LowerWords(words)
    ensures IsCredentialName(Snake(words)) ==> IsCredentialName(Camel(words))
    ensures IsCredentialName(Snake(words)) != IsCredentialName(Camel(words)) <==>
            !SensitiveSegments(words) && SpelledOut(words[0], words[1..])
  {
    hide Segments, SensitiveWord, SensitivePair, SensitiveSegments, SpelledOut, Merged, Snake, Camel, LowerWords;
    SnakeSegments(words);
    CamelSegments(words);
    var merged := [words[0]] + Merged(words[1..]);
    ScanDecides("", words);
    ScanDecides("", merged);
    assert merged[1..] == Merged(words[1..]);
    MergedScan(words[0], words[1..]);
    NoPairWithNothing(words[0]);
  }

  lemma NoPairWithNothing(word: string)
    ensures !SensitivePair("", word)
  {
  }

  /** A list whose camelCase spelling is a credential name and whose snake_case one is not. */
  lemma SpellingsCanDiffer()
    ensures var words := ["x", "t", "o", "k", "e", "n"];
            !IsCredentialName(Snake(words)) && IsCredentialName(Camel(words))
  {
    hide Segments, IsCredentialName, Snake, Camel, SensitiveSegments;
    var words := ["x", "t", "o", "k", "e", "n"];
    assert LowerWords(words);
    LettersOnly(words);
    TokenSpelled();
    assert words[1..] == ["t", "o", "k", "e", "n"];
    VerdictsDifferExactlyWhen(words);
  }

  lemma LettersOnly(words: seq<string>)
    requires forall i :: 0 <= i < |words| ==> |words[i]| == 1
    ensures !SensitiveSegments(words)
  {
    forall i | 0 <= i < |words|
      ensures !SensitiveWord(words[i])
    {
      LettersAreHarmless(words[i], "");
    }
    forall i | 0 <= i < |words| - 1
      ensures !SensitivePair(words[i], words[i + 1])
    {
      LettersAreHarmless(words[i], words[i + 1]);
    }
    hide SensitiveWord, SensitivePair;
  }

  lemma TokenSpelled()
    ensures SpelledOut("x", ["t", "o", "k", "e", "n"])
  {
    var letters := ["t", "o", "k", "e", "n"];
    assert letters[0..5] == letters;
    assert letters[1..] == ["o", "k", "e", "n"] && letters[1..][1..] == ["k", "e", "n"];
    assert ["k", "e", "n"][1..] == ["e", "n"] && ["e", "n"][1..] == ["n"] && ["n"][1..] == [];
    assert Concat(["e", "n"]) == "en" && Concat(["k", "e", "n"]) == "ken";
    assert Concat(["o", "k", "e", "n"]) == "oken" && Concat(letters) == "token";
    assert Spells("x", letters, 0, 5);
  }
}
