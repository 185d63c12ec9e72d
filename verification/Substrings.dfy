/** `in` and `str.replace` on strings, and how replacements can and cannot touch other words. */
module Substrings {
  import Text

  /** `p` stands in `s` at `i`. */
  predicate At(s: string, i: int, p: string) {
    0 <= i && i + |p| <= |s| && s[i..i + |p|] == p
  }

  /** `p in s`. */
  predicate Contains(s: string, p: string) {
    exists i | 0 <= i <= |s| :: At(s, i, p)
  }

  /** `s.replace(p, r)`: leftmost, non-overlapping. */
  function Replace(s: string, p: string, r: string): string
    requires p != ""
  {
    if |s| < |p| then s
    else if s[..|p|] == p then r + Replace(s[|p|..], p, r)
    else [s[0]] + Replace(s[1..], p, r)
  }

  lemma SliceOfSlice(s: string, a: nat, b: nat, i: nat, j: nat)
    requires a <= b <= |s| && i <= j <= b - a
    ensures s[a..b][i..j] == s[a + i..a + j]
  {
    forall k | 0 <= k < j - i
      ensures s[a..b][i..j][k] == s[a + i..a + j][k]
    {
    }
  }

  lemma ContainsIn(s: string, t: string, p: string, before: nat)
    requires At(s, before, t) && Contains(t, p)
    ensures Contains(s, p)
  {
    var i :| 0 <= i <= |t| && At(t, i, p);
    SliceOfSlice(s, before, before + |t|, i, i + |p|);
    assert At(s, before + i, p);
  }

  /** A word inside a contained word is contained. */
  lemma ContainsTrans(s: string, t: string, p: string)
    requires Contains(s, t) && Contains(t, p)
    ensures Contains(s, p)
  {
    var i :| 0 <= i <= |s| && At(s, i, t);
    ContainsIn(s, t, p, i);
  }

  lemma {:induction false} ReplaceAbsent(s: string, p: string, r: string)
    requires p != "" && !Contains(s, p)
    ensures Replace(s, p, r) == s
  {
    if |s| >= |p| {
      assert !At(s, 0, p);
      if Contains(s[1..], p) {
        ContainsIn(s, s[1..], p, 1);
      }
      ReplaceAbsent(s[1..], p, r);
    }
  }

  /** One step of the scan, also where fewer characters than `p` are left. */
  lemma ReplaceStep(s: string, p: string, r: string)
    requires p != "" && s != ""
    ensures Replace(s, p, r) == if At(s, 0, p) then r + Replace(s[|p|..], p, r) else [s[0]] + Replace(s[1..], p, r)
  {
  }

  /** An occurrence at `i` straddles the boundary between `x` and `y`. */
  predicate Straddles(x: string, y: string, p: string, i: int) {
    0 <= i < |x| < i + |p| && At(x + y, i, p)
  }

  ghost predicate NoneStraddles(x: string, y: string, p: string) {
    forall i :: !Straddles(x, y, p, i)
  }

  lemma NoneStraddlesRest(x: string, y: string, p: string, n: nat)
    requires n <= |x| && NoneStraddles(x, y, p)
    ensures (x + y)[n..] == x[n..] + y && NoneStraddles(x[n..], y, p)
  {
    var rest := x[n..] + y;
    assert (x + y)[n..] == rest;
    forall i
      ensures !Straddles(x[n..], y, p, i)
    {
      assert !Straddles(x, y, p, i + n);
      if 0 <= i && i + |p| <= |rest| {
        assert rest[i..i + |p|] == (x + y)[i + n..i + n + |p|];
      }
    }
  }

  /** The front of the whole is the front of the first part. */
  lemma FrontsAgree(x: string, y: string, p: string)
    requires x != "" && p != "" && NoneStraddles(x, y, p)
    ensures (x + y)[0] == x[0]
    ensures At(x + y, 0, p) <==> At(x, 0, p)
    ensures At(x, 0, p) ==> |p| <= |x|
  {
    assert !Straddles(x, y, p, 0);
    if |p| <= |x| {
      assert (x + y)[0..|p|] == x[0..|p|];
    }
  }

  lemma {:induction false} ReplaceApart(x: string, y: string, p: string, r: string)
    requires p != "" && NoneStraddles(x, y, p)
    ensures Replace(x + y, p, r) == Replace(x, p, r) + Replace(y, p, r)
    decreases |x|
  {
    hide NoneStraddles, At;
    if x == "" {
      assert x + y == y;
    } else {
      hide Replace;
      ReplaceStep(x, p, r);
      ReplaceStep(x + y, p, r);
      FrontsAgree(x, y, p);
      if At(x, 0, p) {
        NoneStraddlesRest(x, y, p, |p|);
        ReplaceApart(x[|p|..], y, p, r);
        Text.Regroup(r, Replace(x[|p|..], p, r), Replace(y, p, r));
      } else {
        NoneStraddlesRest(x, y, p, 1);
        ReplaceApart(x[1..], y, p, r);
        Text.Regroup([x[0]], Replace(x[1..], p, r), Replace(y, p, r));
      }
    }
  }

  /** A replacement does not look across a boundary that no occurrence straddles. */
  lemma ReplaceAppend(x: string, y: string, p: string, r: string)
    requires p != ""
    requires forall i :: 0 <= i < |x| < i + |p| ==> !At(x + y, i, p)
    ensures Replace(x + y, p, r) == Replace(x, p, r) + Replace(y, p, r)
  {
    forall i
      ensures !Straddles(x, y, p, i)
    {
    }
    ReplaceApart(x, y, p, r);
  }

  // How two words can overlap.

  /** With `r` laid at offset `d` of `q` the two overlap and agree wherever they do. */
  predicate Meets(q: string, r: string, d: int) {
    -|r| < d < |q| && forall k {:trigger q[k]} :: 0 <= k < |q| && d <= k < d + |r| ==> q[k] == r[k - d]
  }

  /** `r` can overlap `q` at no offset but `m`. */
  predicate OnlyMeets(q: string, r: string, m: int) {
    forall d {:trigger Meets(q, r, d)} :: d != m && -|r| < d < |q| ==> !Meets(q, r, d)
  }

  /** The words cannot overlap. */
  predicate Separate(q: string, r: string) {
    OnlyMeets(q, r, |q|)
  }

  /**
   * Decides `OnlyMeets` from the first characters: `d1` is the one other place of `r[0]` in
   * `q` and `j1` that of `q[0]` in `r`, each with a character that then differs.
   */
  lemma FirstCharacters(q: string, r: string, m: int, k0: nat, d1: nat, k1: nat, j1: nat, l1: nat)
    requires q != "" && r != ""
    requires k0 < |q| && k0 < |r| && q[k0] != r[k0]
    requires forall d :: 0 < d < |q| && d != d1 ==> q[d] != r[0]
    requires d1 == m || (k1 < |r| && d1 + k1 < |q| && q[d1 + k1] != r[k1])
    requires forall j :: 0 < j < |r| && j != j1 ==> r[j] != q[0]
    requires j1 >= |r| || (l1 < |q| && j1 + l1 < |r| && r[j1 + l1] != q[l1])
    ensures OnlyMeets(q, r, m)
  {
    forall d | d != m && -|r| < d < |q|
      ensures !Meets(q, r, d)
    {
      if d == 0 {
        assert q[k0] != r[k0];
      } else if d == d1 {
        assert q[d1 + k1] != r[d1 + k1 - d];
      } else if d > 0 {
        assert q[d] != r[d - d];
      } else if -d == j1 {
        assert q[l1] != r[l1 - d];
      } else {
        assert q[0] != r[0 - d];
      }
    }
  }

  /** Two occurrences that overlap meet. */
  lemma OverlapMeets(s: string, i: int, q: string, j: int, r: string)
    requires At(s, i, q) && At(s, j, r) && i < j + |r| && j < i + |q|
    ensures Meets(q, r, j - i)
  {
    forall k | 0 <= k < |q| && j - i <= k < j - i + |r|
      ensures q[k] == r[k - (j - i)]
    {
      assert s[i..i + |q|][k] == s[i + k];
      assert s[j..j + |r|][k - (j - i)] == s[i + k];
    }
  }

  /** A word at the front of a text that starts with `r` meets `r`. */
  lemma FrontMeets(out: string, r: string, q: string, k: nat)
    requires r != "" && k < |q| && At(out, 0, r) && At(out, 0, q[k..])
    ensures Meets(q, r, k)
  {
    forall j | 0 <= j < |q| && k <= j < k + |r|
      ensures q[j] == r[j - k]
    {
      assert q[k..][j - k] == out[..|q[k..]|][j - k] == out[j - k];
      assert out[..|r|][j - k] == out[j - k];
    }
  }

  lemma ConsAt(s: string, t: string)
    requires s != "" && t != "" && s[0] == t[0]
    ensures At(s, 0, t) <==> At(s[1..], 0, t[1..])
  {
    if At(s, 0, t) {
      assert s[1..][..|t[1..]|] == s[..|t|][1..];
    }
    if At(s[1..], 0, t[1..]) {
      assert s[..|t|] == [s[0]] + s[1..][..|t[1..]|];
      assert t == [t[0]] + t[1..];
    }
  }

  /**
   * Where the front of a replaced text comes from: `q[k..]` was there before, or its part
   * up to `m` was, with the replaced word behind it.
   */
  lemma {:induction false} FrontOrigin(s: string, p: string, r: string, q: string, m: nat, k: nat)
    requires p != "" && r != "" && OnlyMeets(q, r, m) && m <= |q| && k <= |q|
    requires At(Replace(s, p, r), 0, q[k..])
    ensures At(s, 0, q[k..]) || (k <= m && At(s, 0, q[k..m] + p))
    decreases |s|
  {
    var out := Replace(s, p, r);
    if k == |q| || |s| < |p| {
    } else if s[..|p|] == p {
      assert out[..|r|] == r;
      FrontMeets(out, r, q, k);
      assert k == m && q[k..m] + p == p;
    } else {
      assert out == [s[0]] + Replace(s[1..], p, r);
      assert q[k + 1..] == q[k..][1..];
      assert q[k..][0] == out[..|q[k..]|][0] == s[0];
      ConsAt(out, q[k..]);
      FrontOrigin(s[1..], p, r, q, m, k + 1);
      if At(s[1..], 0, q[k + 1..]) {
        ConsAt(s, q[k..]);
      } else {
        assert (q[k..m] + p)[1..] == q[k + 1..m] + p;
        ConsAt(s, q[k..m] + p);
      }
    }
  }

  lemma ShiftAt(head: string, t: string, i: int, q: string)
    requires i >= |head|
    ensures At(head + t, i, q) <==> At(t, i - |head|, q)
  {
    if i + |q| <= |head + t| {
      assert (head + t)[i..i + |q|] == t[i - |head|..i - |head| + |q|];
    }
  }

  lemma ContainsBehind(head: string, t: string, q: string)
    requires Contains(t, q)
    ensures Contains(head + t, q)
  {
    var i :| 0 <= i <= |t| && At(t, i, q);
    ShiftAt(head, t, i + |head|, q);
  }

  /** Where a word of a replaced text comes from, when it can overlap the replacement at `m` only. */
  lemma {:induction false} OriginAt(s: string, p: string, r: string, q: string, m: nat, i: nat)
    requires p != "" && r != "" && q != "" && OnlyMeets(q, r, m) && m <= |q|
    requires At(Replace(s, p, r), i, q)
    ensures Contains(s, q) || Contains(s, q[..m] + p)
    decreases |s|
  {
    var out := Replace(s, p, r);
    if |s| < |p| {
    } else if s[..|p|] == p {
      var rest := Replace(s[|p|..], p, r);
      assert s == p + s[|p|..];
      if i < |r| {
        assert At(out, 0, r);
        OverlapMeets(out, i, q, 0, r);
        assert m == 0 && q[..m] + p == p && At(s, 0, p);
      } else {
        ShiftAt(r, rest, i, q);
        OriginAt(s[|p|..], p, r, q, m, i - |r|);
        if Contains(s[|p|..], q) {
          ContainsBehind(p, s[|p|..], q);
        } else {
          ContainsBehind(p, s[|p|..], q[..m] + p);
        }
      }
    } else if i == 0 {
      assert q[0..] == q && q[0..m] == q[..m];
      FrontOrigin(s, p, r, q, m, 0);
    } else {
      assert s == [s[0]] + s[1..];
      ShiftAt([s[0]], Replace(s[1..], p, r), i, q);
      OriginAt(s[1..], p, r, q, m, i - 1);
      if Contains(s[1..], q) {
        ContainsBehind([s[0]], s[1..], q);
      } else {
        ContainsBehind([s[0]], s[1..], q[..m] + p);
      }
    }
  }

  /** The origin of a word in a replaced text. */
  lemma Origin(s: string, p: string, r: string, q: string, m: nat)
    requires p != "" && r != "" && q != "" && OnlyMeets(q, r, m) && m <= |q|
    requires Contains(Replace(s, p, r), q)
    ensures Contains(s, q) || (m < |q| && Contains(s, q[..m] + p))
  {
    var i :| 0 <= i <= |Replace(s, p, r)| && At(Replace(s, p, r), i, q);
    OriginAt(s, p, r, q, m, i);
    if m == |q| && Contains(s, q[..m] + p) {
      assert At(q[..m] + p, 0, q);
      ContainsTrans(s, q[..m] + p, q);
    }
  }

  lemma DoubleStart(s: string, p: string, q: string)
    ensures At(s, 0, p + q) ==> At(s, 0, p)
  {
    if At(s, 0, p + q) {
      SliceOfSlice(s, 0, |p + q|, 0, |p|);
    }
  }

  /** A word that cannot overlap its replacement is gone after the replacement. */
  lemma {:induction false} EliminatedAt(s: string, p: string, r: string, i: nat)
    requires p != "" && r != "" && Separate(p, r)
    ensures !At(Replace(s, p, r), i, p)
    decreases |s|
  {
    var out := Replace(s, p, r);
    if |s| < |p| {
    } else if s[..|p|] == p {
      if i < |r| {
        assert At(out, 0, r);
        if At(out, i, p) {
          OverlapMeets(out, i, p, 0, r);
        }
      } else {
        ShiftAt(r, Replace(s[|p|..], p, r), i, p);
        EliminatedAt(s[|p|..], p, r, i - |r|);
      }
    } else if i == 0 {
      if At(out, 0, p) {
        assert p[0..] == p;
        FrontOrigin(s, p, r, p, |p|, 0);
        DoubleStart(s, p[0..|p|], p);
      }
    } else {
      ShiftAt([s[0]], Replace(s[1..], p, r), i, p);
      EliminatedAt(s[1..], p, r, i - 1);
    }
  }

  lemma Eliminated(s: string, p: string, r: string)
    requires p != "" && r != "" && Separate(p, r)
    ensures !Contains(Replace(s, p, r), p)
  {
    forall i | 0 <= i <= |Replace(s, p, r)|
      ensures !At(Replace(s, p, r), i, p)
    {
      EliminatedAt(s, p, r, i);
    }
  }

  /** A front that no occurrence overlaps stays as it is. */
  lemma KeepsFront(q: string, b: string, p: string, r: string)
    requires p != "" && q != ""
    requires forall j :: 0 <= j < |q| ==> !At(q + b, j, p)
    ensures Replace(q + b, p, r) == q + Replace(b, p, r)
  {
    hide Replace;
    ReplaceAppend(q, b, p, r);
    forall j | 0 <= j <= |q|
      ensures !At(q, j, p)
    {
      StandsLonger(q, b, j, p);
    }
    hide At;
    ReplaceAbsent(q, p, r);
  }

  lemma StandsLonger(s: string, b: string, j: int, p: string)
    requires p != ""
    ensures At(s, j, p) ==> At(s + b, j, p) && j < |s|
  {
    if At(s, j, p) {
      assert (s + b)[j..j + |p|] == s[j..j + |p|];
    }
  }

  /** A stretch of text that no occurrence overlaps stays as it is. */
  lemma KeepsBetween(a: string, q: string, b: string, p: string, r: string)
    requires p != "" && q != ""
    requires forall j :: At(a + (q + b), j, p) ==> j + |p| <= |a| || j >= |a| + |q|
    ensures Replace(a + (q + b), p, r) == Replace(a, p, r) + (q + Replace(b, p, r))
  {
    forall j | 0 <= j < |q|
      ensures !At(q + b, j, p)
    {
      ShiftAt(a, q + b, j + |a|, p);
    }
    KeepsFront(q, b, p, r);
    ReplaceAppend(a, q + b, p, r);
  }

  lemma InTheMiddle(x: string, q: string, y: string)
    ensures At(x + (q + y), |x|, q) && Contains(x + (q + y), q)
  {
    assert (x + (q + y))[|x|..|x| + |q|] == q;
    assert At(x + (q + y), |x|, q);
  }

  lemma PlaceOf(s: string, p: string) returns (i: nat)
    requires Contains(s, p)
    ensures i <= |s| && At(s, i, p)
  {
    i :| 0 <= i <= |s| && At(s, i, p);
  }

  lemma StandsIn(s: string, i: int, p: string)
    requires At(s, i, p)
    ensures Contains(s, p)
  {
  }

  /** A word that the replaced word can overlap at `m` only survives, unless it is overlapped there. */
  lemma Survives(s: string, p: string, r: string, q: string, m: nat)
    requires p != "" && q != "" && OnlyMeets(q, p, m) && m <= |q| && Contains(s, q)
    ensures Contains(Replace(s, p, r), q) || (m < |q| && Contains(s, q[..m] + p))
  {
    hide Replace, Contains;
    var i := PlaceOf(s, q);
    if m < |q| && At(s, i + m, p) {
      SliceOfSlice(s, i, i + |q|, 0, m);
      assert s[i..i + m + |p|] == s[i..i + m] + s[i + m..i + m + |p|];
      StandsIn(s, i, q[..m] + p);
    } else {
      var a, b := s[..i], s[i + |q|..];
      assert s == a + (q + b);
      forall j | At(s, j, p)
        ensures j + |p| <= |a| || j >= |a| + |q|
      {
        if j + |p| > i && j < i + |q| {
          OverlapMeets(s, i, q, j, p);
        }
      }
      KeepsBetween(a, q, b, p, r);
      InTheMiddle(Replace(a, p, r), q, Replace(b, p, r));
    }
  }

  /** Behind a word that it cannot overlap, the replaced word turns into the replacement. */
  lemma TurnsInto(s: string, p: string, r: string, u: string)
    requires p != "" && u != "" && Separate(u, p) && Contains(s, u + p)
    ensures Contains(Replace(s, p, r), u + r)
  {
    var i :| 0 <= i <= |s| && At(s, i, u + p);
    var a, b := s[..i], s[i + |u + p|..];
    assert s == a + ((u + p) + b);
    assert (u + p) + b == u + (p + b);
    InTheMiddle(a, u, p + b);
    forall j | At(s, j, p)
      ensures j + |p| <= |a| || j >= |a| + |u|
    {
      if j + |p| > i && j < i + |u| {
        OverlapMeets(s, i, u, j, p);
      }
    }
    KeepsBetween(a, u, p + b, p, r);
    assert (p + b)[..|p|] == p && (p + b)[|p|..] == b;
    assert u + (r + Replace(b, p, r)) == (u + r) + Replace(b, p, r);
    InTheMiddle(Replace(a, p, r), u + r, Replace(b, p, r));
  }

  // Boundaries that no word straddles.

  /** A text that starts with `r` and whose end is `q[j..k]` has `q` meet `r` when the two overlap. */
  lemma EndMeets(out: string, r: string, q: string, j: nat, k: nat)
    requires r != "" && j < k <= |q| && At(out, 0, r) && |out| - |r| < k - j <= |out|
    requires j > 0 ==> k - j == |out|
    requires At(out, |out| - (k - j), q[j..k])
    ensures Meets(q, r, j - (|out| - (k - j)))
  {
    var i := |out| - (k - j);
    forall l | 0 <= l < |q| && j - i <= l < j - i + |r|
      ensures q[l] == r[l - (j - i)]
    {
      assert q[j..k][l - j] == out[i..i + (k - j)][l - j] == out[i + l - j];
      assert out[..|r|][i + l - j] == out[i + l - j];
    }
  }

  /** The last n characters are `w`. */
  predicate Ends(s: string, w: string) {
    |w| <= |s| && At(s, |s| - |w|, w)
  }

  lemma EndBehind(head: string, t: string, w: string)
    requires |w| <= |t|
    ensures Ends(head + t, w) <==> Ends(t, w)
  {
    ShiftAt(head, t, |head + t| - |w|, w);
  }

  lemma WholeEnd(s: string, w: string)
    requires |w| == |s|
    ensures Ends(s, w) <==> s == w
  {
  }

  /**
   * Where the end of a replaced text comes from: a part of a word that cannot overlap the
   * replacement was the end before, and the whole when it is the whole.
   */
  lemma {:induction false} EndOrigin(s: string, p: string, r: string, q: string, j: nat, k: nat)
    requires p != "" && r != "" && Separate(q, r) && j < k <= |q|
    requires Ends(Replace(s, p, r), q[j..k]) && (j > 0 ==> k - j == |Replace(s, p, r)|)
    ensures Ends(s, q[j..k]) && (k - j == |Replace(s, p, r)| ==> s == q[j..k])
    decreases |s|
  {
    hide At, Separate, OnlyMeets, Replace;
    var out, w := Replace(s, p, r), q[j..k];
    if s == "" {
      ReplaceShort(s, p, r);
      return;
    }
    ReplaceStep(s, p, r);
    if At(s, 0, p) {
      EndOriginBehindWord(s, p, r, q, j, k);
    } else {
      var rest := Replace(s[1..], p, r);
      assert out == [s[0]] + rest && s == [s[0]] + s[1..];
      if |w| <= |rest| {
        EndBehind([s[0]], rest, w);
        EndOrigin(s[1..], p, r, q, j, k);
        EndBehind([s[0]], s[1..], w);
      } else {
        WholeEnd(out, w);
        assert w == [s[0]] + rest;
        if j + 1 < k {
          WholeEnd(rest, q[j + 1..k]);
          assert q[j + 1..k] == w[1..] == rest;
          EndOrigin(s[1..], p, r, q, j + 1, k);
        } else {
          assert rest == "";
          NothingLeft(s[1..], p, r);
        }
        assert s == w;
        WholeEnd(s, w);
      }
    }
  }

  lemma ReplaceShort(s: string, p: string, r: string)
    requires |s| < |p|
    ensures Replace(s, p, r) == s
  {
  }

  lemma NothingLeft(s: string, p: string, r: string)
    requires p != "" && r != "" && Replace(s, p, r) == ""
    ensures s == ""
  {
  }

  lemma FrontIs(r: string, rest: string)
    ensures At(r + rest, 0, r)
  {
  }

  lemma EndOriginBehindWord(s: string, p: string, r: string, q: string, j: nat, k: nat)
    requires p != "" && r != "" && Separate(q, r) && j < k <= |q| && At(s, 0, p)
    requires Replace(s, p, r) == r + Replace(s[|p|..], p, r)
    requires Ends(Replace(s, p, r), q[j..k]) && (j > 0 ==> k - j == |Replace(s, p, r)|)
    ensures Ends(s, q[j..k]) && k - j < |Replace(s, p, r)|
    decreases |s|, 0
  {
    var out, w := Replace(s, p, r), q[j..k];
    var rest := Replace(s[|p|..], p, r);
    assert s == p + s[|p|..];
    hide Replace;
    if |w| > |rest| {
      FrontIs(r, rest);
      EndMeets(out, r, q, j, k);
    } else {
      hide At, OnlyMeets;
      EndBehind(r, rest, w);
      EndOrigin(s[|p|..], p, r, q, j, k);
      EndBehind(p, s[|p|..], w);
    }
  }

  /** A word that cannot overlap the replacement straddles no boundary that it did not straddle before. */
  lemma StaysApart(x: string, y: string, p: string, r: string, q: string)
    requires p != "" && r != "" && q != "" && Separate(q, r) && NoneStraddles(x, y, q)
    ensures NoneStraddles(Replace(x, p, r), Replace(y, p, r), q)
  {
    var x', y' := Replace(x, p, r), Replace(y, p, r);
    forall i
      ensures !Straddles(x', y', q, i)
    {
      if Straddles(x', y', q, i) {
        var k := |x'| - i;
        StraddleParts(x', y', q, i);
        assert q[0..k] == q[..k];
        EndOrigin(x, p, r, q, 0, k);
        FrontOrigin(y, p, r, q, |q|, k);
        DoubleStart(y, q[k..], p);
        assert q[k..|q|] == q[k..];
        PartsStraddle(x, y, q, k);
      }
    }
  }

  lemma StraddleParts(x: string, y: string, q: string, i: int)
    requires Straddles(x, y, q, i)
    ensures At(x, i, q[..|x| - i]) && At(y, 0, q[|x| - i..])
  {
    var k := |x| - i;
    assert (x + y)[i..i + |q|] == q;
    assert x[i..] == (x + y)[i..i + |q|][..k];
    assert y[..|q| - k] == (x + y)[i..i + |q|][k..];
  }

  lemma PartsStraddle(x: string, y: string, q: string, k: nat)
    requires 0 < k < |q| && k <= |x| && At(x, |x| - k, q[..k]) && At(y, 0, q[k..])
    ensures Straddles(x, y, q, |x| - k)
  {
    var i := |x| - k;
    assert (x + y)[i..i + |q|] == x[i..] + y[..|q| - k];
    assert q == q[..k] + q[k..];
  }

  /** A text that cannot overlap a word does not hold it. */
  lemma SeparateAbsent(q: string, r: string)
    requires q != "" && r != "" && Separate(q, r)
    ensures !Contains(r, q)
  {
    if i :| 0 <= i <= |r| && At(r, i, q) {
      assert At(r, 0, r);
      OverlapMeets(r, i, q, 0, r);
    }
  }
}
