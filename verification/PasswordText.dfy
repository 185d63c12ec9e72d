/**
 * The stored form of a password: algorithm, iterations, salt and digest joined by `$`.
 * The key derivation (PBKDF2, section 5.2 of RFC 8018) is an unknown function.
 */
module PasswordText {
  import opened Wrappers
  import opened Text
  import opened Numerals

  const ALGORITHM := "pbkdf2_sha256"
  const MIN_ITERATIONS := 100000
  const HASH_BYTES := 32

  /** Password, salt, iterations and key length to the derived key. */
  type Kdf = (string, seq<Byte>, nat, nat) -> seq<Byte>

  /** The answer of `verify`, or the error that the key derivation raises. */
  datatype Verdict = Answer(ok: bool) | KdfError

  datatype Stored = Stored(iterations: int, salt: seq<Byte>, digest: seq<Byte>)

  function Format(iterations: nat, salt: seq<Byte>, digest: seq<Byte>): string {
    ALGORITHM + "$" + Decimal(iterations) + "$" + Hex(salt) + "$" + Hex(digest)
  }

  /** `PasswordHasher(iterations).hash(password)` with the given salt; None is a ValueError. */
  function Hash(kdf: Kdf, iterations: nat, password: string, salt: seq<Byte>): Option<string> {
    if iterations < MIN_ITERATIONS || password == "" then None
    else Some(Format(iterations, salt, kdf(password, salt, iterations, HASH_BYTES)))
  }

  /** `s.split(c, n)`: at most n cuts. */
  function SplitMax(s: string, c: char, n: nat): (r: seq<string>)
    ensures |r| >= 1
  {
    if n == 0 || c !in s then [s]
    else if s[0] == c then [""] + SplitMax(s[1..], c, n - 1)
    else
      var rest := SplitMax(s[1..], c, n);
      [[s[0]] + rest[0]] + rest[1..]
  }

  /** The part of `verify` before the key derivation; None answers False. */
  function ParseStored(text: string): Option<Stored> {
    var parts := SplitMax(text, '$', 3);
    if |parts| != 4 || parts[0] != ALGORITHM then None
    else
      var iterations, salt, digest := ParseInt(parts[1]), FromHex(parts[2]), FromHex(parts[3]);
      if iterations.None? || salt.None? || digest.None? then None
      else Some(Stored(iterations.value, salt.value, digest.value))
  }

  function Verify(kdf: Kdf, password: string, text: string): Verdict {
    if password == "" || text == "" then Answer(false)
    else
      match ParseStored(text)
      case None => Answer(false)
      case Some(stored) =>
        if stored.iterations < 1 || stored.digest == [] then KdfError
        else Answer(kdf(password, stored.salt, stored.iterations, |stored.digest|) == stored.digest)
  }

  lemma {:induction false} SplitMaxHead(piece: string, rest: string, c: char, n: nat)
    requires c !in piece && n > 0
    ensures SplitMax(piece + [c] + rest, c, n) == [piece] + SplitMax(rest, c, n - 1)
  {
    var s := piece + [c] + rest;
    assert s[|piece|] == c;
    if piece == "" {
      assert s[1..] == rest;
    } else {
      SplitMaxHead(piece[1..], rest, c, n);
      assert s[1..] == piece[1..] + [c] + rest;
      assert [piece[0]] + piece[1..] == piece;
    }
  }

  /** The text names its parameters: parsing gives back exactly what was formatted. */
  lemma ParseFormat(iterations: nat, salt: seq<Byte>, digest: seq<Byte>)
    ensures ParseStored(Format(iterations, salt, digest)) == Some(Stored(iterations, salt, digest))
  {
    hide Decimal, Hex, FromHex, ParseInt, SplitMax;
    var a, b, c, d := ALGORITHM, Decimal(iterations), Hex(salt), Hex(digest);
    assert '$' !in a && '$' !in b;
    assert Format(iterations, salt, digest) == a + ['$'] + (b + ['$'] + (c + ['$'] + d));
    SplitFour(a, b, c, d);
    ParseDecimal(iterations);
    FromHexHex(salt);
    FromHexHex(digest);
  }

  lemma SplitFour(a: string, b: string, c: string, d: string)
    requires '$' !in a && '$' !in b && '$' !in c
    ensures SplitMax(a + ['$'] + (b + ['$'] + (c + ['$'] + d)), '$', 3) == [a, b, c, d]
  {
    hide SplitMax;
    var last, end := c + ['$'] + d, b + ['$'] + (c + ['$'] + d);
    SplitMaxHead(a, end, '$', 3);
    SplitMaxHead(b, last, '$', 2);
    SplitMaxHead(c, d, '$', 1);
    SplitNone(d, '$');
    assert [a] + ([b] + ([c] + [d])) == [a, b, c, d];
  }

  lemma SplitNone(s: string, c: char)
    ensures SplitMax(s, c, 0) == [s]
  {
  }

  lemma JoinBehind(rest: seq<string>, c: char)
    requires rest != []
    ensures Join([""] + rest, c) == [c] + Join(rest, c)
  {
    assert ([""] + rest)[1..] == rest;
  }

  lemma JoinLonger(first: char, rest: seq<string>, c: char)
    requires rest != []
    ensures Join([[first] + rest[0]] + rest[1..], c) == [first] + Join(rest, c)
  {
    assert ([[first] + rest[0]] + rest[1..])[1..] == rest[1..];
    if |rest| > 1 {
      var tail := Join(rest[1..], c);
      assert [first] + rest[0] + [c] + tail == [first] + (rest[0] + [c] + tail);
    }
  }

  /** All pieces but the last are without the separator. */
  predicate CutClean(parts: seq<string>, c: char) {
    forall i :: 0 <= i < |parts| - 1 ==> c !in parts[i]
  }

  lemma CutCleanBehind(rest: seq<string>, c: char)
    requires rest != [] && CutClean(rest, c)
    ensures CutClean([""] + rest, c)
    ensures forall first :: first != c ==> CutClean([[first] + rest[0]] + rest[1..], c)
  {
  }

  /** The cut pieces make the text, and only the last one may hold the separator. */
  lemma {:induction false} SplitMaxJoins(s: string, c: char, n: nat)
    ensures Join(SplitMax(s, c, n), c) == s
    ensures CutClean(SplitMax(s, c, n), c)
  {
    hide Join, CutClean;
    if n == 0 || c !in s {
      OnePiece(s, c);
    } else {
      var cut := s[0] == c;
      var rest := SplitMax(s[1..], c, if cut then n - 1 else n);
      SplitMaxJoins(s[1..], c, if cut then n - 1 else n);
      CutCleanBehind(rest, c);
      assert s == [s[0]] + s[1..];
      if cut {
        JoinBehind(rest, c);
      } else {
        JoinLonger(s[0], rest, c);
      }
    }
  }

  lemma OnePiece(s: string, c: char)
    ensures Join([s], c) == s && CutClean([s], c)
  {
  }

  /** The text is the algorithm and three fields, read as these parameters. */
  predicate Spells(text: string, a: string, b: string, c: string, stored: Stored) {
    && text == ALGORITHM + ['$'] + (a + ['$'] + (b + ['$'] + c)) && '$' !in a && '$' !in b
    && ParseInt(a) == Some(stored.iterations) && FromHex(b) == Some(stored.salt) && FromHex(c) == Some(stored.digest)
  }

  lemma JoinFour(a: string, b: string, c: string, d: string)
    ensures Join([a, b, c, d], '$') == a + ['$'] + (b + ['$'] + (c + ['$'] + d))
  {
    assert [a, b, c, d][1..] == [b, c, d] && [b, c, d][1..] == [c, d] && [c, d][1..] == [d];
    assert Join([c, d], '$') == c + ['$'] + d;
    assert Join([b, c, d], '$') == b + ['$'] + (c + ['$'] + d);
  }

  /** A text is read as stored parameters exactly when it spells them. */
  lemma StoredExactlyWhen(text: string, stored: Stored)
    ensures ParseStored(text) == Some(stored) <==> exists a, b, c :: Spells(text, a, b, c, stored)
  {
    hide ParseInt, FromHex, SplitMax, Join;
    if ParseStored(text) == Some(stored) {
      var parts := SplitMax(text, '$', 3);
      SplitMaxJoins(text, '$', 3);
      assert parts == [parts[0], parts[1], parts[2], parts[3]];
      JoinFour(parts[0], parts[1], parts[2], parts[3]);
      assert Spells(text, parts[1], parts[2], parts[3], stored);
    }
    if a, b, c :| Spells(text, a, b, c, stored) {
      assert '$' !in ALGORITHM;
      SplitFour(ALGORITHM, a, b, c);
    }
  }

  /**
   * For any text, `verify` accepts exactly the non-empty passwords that derive the key that the
   * text spells, and raises exactly where the parameters are no use to the key derivation.
   */
  lemma VerifyExactlyWhen(kdf: Kdf, password: string, text: string)
    ensures Verify(kdf, password, text) == Answer(true) <==>
            && password != ""
            && exists a, b, c, st :: Spells(text, a, b, c, st) && st.iterations >= 1 && st.digest != [] &&
                 kdf(password, st.salt, st.iterations, |st.digest|) == st.digest
    ensures Verify(kdf, password, text) == KdfError <==>
            && password != ""
            && exists a, b, c, st :: Spells(text, a, b, c, st) && (st.iterations < 1 || st.digest == [])
  {
    hide ParseStored, Spells;
    if ParseStored(text).Some? {
      var st := ParseStored(text).value;
      StoredExactlyWhen(text, st);
      var a, b, c :| Spells(text, a, b, c, st);
    }
    forall a, b, c, st | Spells(text, a, b, c, st)
      ensures ParseStored(text) == Some(st)
    {
      StoredExactlyWhen(text, st);
    }
    NothingIsSpelled();
  }

  lemma NothingIsSpelled()
    ensures forall a, b, c, st :: !Spells("", a, b, c, st)
  {
  }

  /** A password is hashed exactly when it is not empty and the work factor is at least the minimum. */
  lemma HashExactlyWhen(kdf: Kdf, iterations: nat, password: string, salt: seq<Byte>)
    ensures Hash(kdf, iterations, password, salt).Some? <==> iterations >= 100000 && password != ""
    ensures Hash(kdf, iterations, password, salt).Some? ==>
              ParseStored(Hash(kdf, iterations, password, salt).value) ==
              Some(Stored(iterations, salt, kdf(password, salt, iterations, 32)))
  {
    ParseFormat(iterations, salt, kdf(password, salt, iterations, HASH_BYTES));
  }

  /**
   * Against the stored form of p, `verify` never raises, and accepts p' exactly when p' is
   * not empty and derives the same key from the same salt and iterations.
   */
  lemma VerifyAcceptsExactly(kdf: Kdf, iterations: nat, salt: seq<Byte>, p: string, p': string)
    requires Hash(kdf, iterations, p, salt).Some?
    requires |kdf(p, salt, iterations, HASH_BYTES)| == HASH_BYTES
    ensures Verify(kdf, p', Hash(kdf, iterations, p, salt).value) ==
              Answer(p' != "" && kdf(p', salt, iterations, HASH_BYTES) == kdf(p, salt, iterations, HASH_BYTES))
  {
    var digest := kdf(p, salt, iterations, HASH_BYTES);
    ParseFormat(iterations, salt, digest);
    assert Format(iterations, salt, digest)[0] == 'p';
  }

  /** A password verifies against its own hash. */
  lemma VerifyHash(kdf: Kdf, iterations: nat, salt: seq<Byte>, p: string)
    requires iterations >= MIN_ITERATIONS && p != ""
    requires |kdf(p, salt, iterations, HASH_BYTES)| == HASH_BYTES
    ensures Hash(kdf, iterations, p, salt).Some?
    ensures Verify(kdf, p, Hash(kdf, iterations, p, salt).value) == Answer(true)
  {
    VerifyAcceptsExactly(kdf, iterations, salt, p, p);
  }
}
