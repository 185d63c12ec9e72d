/** Decimal and hexadecimal text, as Python prints and reads it. */
module Numerals {
  import opened Wrappers
  import opened Text

  type Byte = x: nat | x < 256

  // Decimal.

  function DigitChar(d: nat): (c: char)
    requires d < 10
    ensures IsDigit(c) && DigitValue(c) == d
  {
    ('0' as int + d) as char
  }

  function DigitValue(c: char): (d: nat)
    requires IsDigit(c)
    ensures d < 10
  {
    c as int - '0' as int
  }

  /** `str(n)`. */
  function Decimal(n: nat): (s: string)
    ensures s != "" && AllDigits(s)
  {
    if n < 10 then [DigitChar(n)] else Decimal(n / 10) + [DigitChar(n % 10)]
  }

  /** The number that a run of digits denotes; leading zeros are allowed. */
  function DigitsValue(s: string): nat
    requires AllDigits(s)
  {
    if s == "" then 0 else 10 * DigitsValue(s[..|s| - 1]) + DigitValue(s[|s| - 1])
  }

  lemma {:induction false} DecimalValue(n: nat)
    ensures DigitsValue(Decimal(n)) == n
  {
    if n < 10 {
      assert Decimal(n)[..0] == "";
    } else {
      DecimalValue(n / 10);
      assert Decimal(n)[..|Decimal(n)| - 1] == Decimal(n / 10);
    }
  }

  /** Leading zeros do not count. */
  lemma {:induction false} LeadingZero(s: string)
    requires AllDigits(s)
    ensures AllDigits(['0'] + s) && DigitsValue(['0'] + s) == DigitsValue(s)
  {
    if s == "" {
      assert ['0'][..0] == "";
    } else {
      LeadingZero(s[..|s| - 1]);
      assert (['0'] + s)[..|s|] == ['0'] + s[..|s| - 1];
    }
  }

  /** Printing undoes reading where there are none. */
  lemma {:induction false} ValueDecimal(s: string)
    requires s != "" && AllDigits(s) && (s[0] != '0' || |s| == 1)
    ensures Decimal(DigitsValue(s)) == s
    ensures s[0] != '0' ==> DigitsValue(s) > 0
  {
    if |s| == 1 {
      assert s[..0] == "" && s == [s[0]];
    } else {
      ValueDecimal(s[..|s| - 1]);
      assert s == s[..|s| - 1] + [s[|s| - 1]];
    }
  }

  /** An optional sign, then groups of digits with single underscores between them. */
  function ParseDigits(body: string): Option<nat> {
    var groups := Split(body, '_');
    if exists i | 0 <= i < |groups| :: groups[i] == "" || !AllDigits(groups[i]) then None
    else
      JoinedDigits(groups);
      Some(DigitsValue(Concat(groups)))
  }

  lemma {:induction false} JoinedDigits(groups: seq<string>)
    requires forall i :: 0 <= i < |groups| ==> AllDigits(groups[i])
    ensures AllDigits(Concat(groups))
  {
    if groups != [] {
      assert AllDigits(groups[0]);
      JoinedDigits(groups[1..]);
    }
  }

  /** `int(s)`; None is the raised ValueError. */
  function ParseInt(s: string): Option<int> {
    var t := Strip(s);
    if t != "" && t[0] == '-' then
      match ParseDigits(t[1..])
      case None => None
      case Some(n) => Some(-(n as int))
    else if t != "" && t[0] == '+' then
      match ParseDigits(t[1..])
      case None => None
      case Some(n) => Some(n)
    else
      match ParseDigits(t)
      case None => None
      case Some(n) => Some(n)
  }

  /** Reading undoes printing. */
  lemma ParseDecimal(n: nat)
    ensures ParseInt(Decimal(n)) == Some(n)
  {
    var s := Decimal(n);
    StripTrims(s);
    assert '_' !in s;
    SplitHead(s, "", '_');
    assert Concat([s]) == s + Concat([]) == s;
    DecimalValue(n);
  }

  /** A sign or none, then digits in groups. */
  predicate IntText(t: string, sign: string, groups: seq<string>, n: int) {
    && sign in {"", "+", "-"} && groups != []
    && (forall i :: 0 <= i < |groups| ==> groups[i] != "" && AllDigits(groups[i]))
    && t == sign + Join(groups, '_')
    && AllDigits(Concat(groups)) && (if sign == "-" then -n else n) == DigitsValue(Concat(groups))
  }

  lemma GroupsRead(groups: seq<string>)
    requires groups != [] && forall i :: 0 <= i < |groups| ==> groups[i] != "" && AllDigits(groups[i])
    ensures AllDigits(Concat(groups)) && ParseDigits(Join(groups, '_')) == Some(DigitsValue(Concat(groups)))
    ensures Join(groups, '_') != "" && IsDigit(Join(groups, '_')[0])
  {
    SplitJoin(groups, '_');
    JoinedDigits(groups);
  }

  lemma DigitsAreGroups(body: string)
    requires ParseDigits(body).Some?
    ensures var groups := Split(body, '_');
            && groups != [] && (forall i :: 0 <= i < |groups| ==> groups[i] != "" && AllDigits(groups[i]))
            && body == Join(groups, '_') && AllDigits(Concat(groups))
            && ParseDigits(body).value == DigitsValue(Concat(groups))
  {
    JoinSplit(body, '_');
    JoinedDigits(Split(body, '_'));
  }

  /** A text is read as an integer exactly when, without blanks around it, it is a sign or none and groups of digits. */
  lemma IntegerExactlyWhen(s: string, n: int)
    ensures ParseInt(s) == Some(n) <==> exists sign, groups :: IntText(Strip(s), sign, groups, n)
  {
    hide ParseDigits, Join, Split, Strip, DigitsValue;
    var t := Strip(s);
    if ParseInt(s) == Some(n) {
      var sign := if t != "" && (t[0] == '-' || t[0] == '+') then [t[0]] else "";
      var body := t[|sign|..];
      DigitsAreGroups(body);
      assert t == sign + body;
      assert IntText(t, sign, Split(body, '_'), n);
    }
    if sign, groups :| IntText(t, sign, groups, n) {
      GroupsRead(groups);
      assert t[|sign|..] == Join(groups, '_');
      assert t[0] == (if sign == "" then Join(groups, '_')[0] else sign[0]);
    }
  }

  // Hexadecimal.

  function HexChar(d: nat): (c: char)
    requires d < 16
    ensures HexValue(c) == Some(d) && c != '$' && !IsHexSpace(c)
  {
    if d < 10 then ('0' as int + d) as char else ('a' as int + d - 10) as char
  }

  /** A hexadecimal digit of either case. */
  function HexValue(c: char): (d: Option<nat>)
    ensures d.Some? ==> d.value < 16
  {
    if '0' <= c <= '9' then Some(c as int - '0' as int)
    else if 'a' <= c <= 'f' then Some(c as int - 'a' as int + 10)
    else if 'A' <= c <= 'F' then Some(c as int - 'A' as int + 10)
    else None
  }

  /** The blanks that `bytes.fromhex` skips between bytes. */
  predicate IsHexSpace(c: char) {
    c == ' ' || 9 <= c as int <= 13
  }

  /** `bytes.hex()`. */
  function Hex(b: seq<Byte>): (s: string)
    ensures '$' !in s
  {
    if b == [] then "" else [HexChar(b[0] / 16), HexChar(b[0] % 16)] + Hex(b[1..])
  }

  /** `bytes.fromhex(s)`; None is the raised ValueError. */
  function FromHex(s: string): Option<seq<Byte>> {
    if s == "" then Some([])
    else if IsHexSpace(s[0]) then FromHex(s[1..])
    else if |s| < 2 || HexValue(s[0]).None? || HexValue(s[1]).None? then None
    else
      match FromHex(s[2..])
      case None => None
      case Some(rest) => Some([16 * HexValue(s[0]).value + HexValue(s[1]).value] + rest)
  }

  lemma Nibbles(x: Byte)
    ensures x / 16 < 16
    ensures 16 * (x / 16) + x % 16 == x
  {
  }

  lemma ReadPair(h: nat, l: nat, rest: string)
    requires h < 16 && l < 16
    ensures FromHex([HexChar(h), HexChar(l)] + rest) ==
              match FromHex(rest)
              case None => None
              case Some(b) => Some([16 * h + l] + b)
  {
    var s := [HexChar(h), HexChar(l)] + rest;
    assert s[2..] == rest;
  }

  lemma HexCons(x: Byte, b: seq<Byte>)
    ensures Hex([x] + b) == [HexChar(x / 16), HexChar(x % 16)] + Hex(b)
  {
    assert ([x] + b)[1..] == b;
  }

  /** Reading undoes printing. */
  lemma {:induction false} FromHexHex(b: seq<Byte>)
    ensures FromHex(Hex(b)) == Some(b)
  {
    if b == [] {
      assert Hex([]) == "";
    } else {
      hide FromHex, Hex, HexChar, HexValue;
      var x, rest := b[0], b[1..];
      assert b == [x] + rest;
      FromHexHex(rest);
      HexCons(x, rest);
      ReadPair(x / 16, x % 16, Hex(rest));
      Nibbles(x);
    }
  }

  /** Letter case says nothing. */
  lemma {:induction false} HexForgetsCase(s: string)
    ensures FromHex(Lower(s)) == FromHex(s)
  {
    if s == "" {
    } else if IsHexSpace(s[0]) {
      HexForgetsCase(s[1..]);
      assert Lower(s)[1..] == Lower(s[1..]);
    } else if |s| >= 2 {
      HexForgetsCase(s[2..]);
      assert Lower(s)[2..] == Lower(s[2..]);
      assert HexValue(LowerChar(s[0])) == HexValue(s[0]) && HexValue(LowerChar(s[1])) == HexValue(s[1]);
      assert !IsHexSpace(LowerChar(s[0]));
    }
  }

  /** The text without its blanks. */
  function Squeezed(s: string): string {
    if s == "" then "" else (if IsHexSpace(s[0]) then "" else [s[0]]) + Squeezed(s[1..])
  }

  lemma HexCharOf(c: char)
    requires HexValue(c).Some?
    ensures HexChar(HexValue(c).value) == LowerChar(c) && !IsHexSpace(c)
  {
  }

  /** Printing undoes reading, but for letter case and the blanks between bytes. */
  lemma {:induction false} HexFromHex(s: string)
    requires FromHex(s).Some?
    ensures Hex(FromHex(s).value) == Lower(Squeezed(s))
  {
    if s == "" {
      assert Hex([]) == "";
    } else if IsHexSpace(s[0]) {
      HexFromHex(s[1..]);
      assert Squeezed(s) == Squeezed(s[1..]);
    } else {
      HexFromHex(s[2..]);
      HexCharOf(s[0]);
      HexCharOf(s[1]);
      PairPrints(s);
    }
  }

  lemma SqueezedPair(s: string)
    requires |s| >= 2 && !IsHexSpace(s[0]) && !IsHexSpace(s[1])
    ensures Lower(Squeezed(s)) == [LowerChar(s[0])] + ([LowerChar(s[1])] + Lower(Squeezed(s[2..])))
  {
    assert s[1..][1..] == s[2..];
    assert Squeezed(s) == [s[0]] + ([s[1]] + Squeezed(s[2..]));
    LowerAppend([s[0]], [s[1]] + Squeezed(s[2..]));
    LowerAppend([s[1]], Squeezed(s[2..]));
  }

  lemma PairReads(s: string)
    requires |s| >= 2 && HexValue(s[0]).Some? && HexValue(s[1]).Some? && FromHex(s[2..]).Some?
    requires !IsHexSpace(s[0])
    ensures 16 * HexValue(s[0]).value + HexValue(s[1]).value < 256
    ensures FromHex(s) == Some([16 * HexValue(s[0]).value + HexValue(s[1]).value] + FromHex(s[2..]).value)
  {
    hide HexValue;
  }

  lemma PairPrints(s: string)
    requires |s| >= 2 && HexValue(s[0]).Some? && HexValue(s[1]).Some? && FromHex(s[2..]).Some?
    requires Hex(FromHex(s[2..]).value) == Lower(Squeezed(s[2..]))
    requires HexChar(HexValue(s[0]).value) == LowerChar(s[0]) && !IsHexSpace(s[0])
    requires HexChar(HexValue(s[1]).value) == LowerChar(s[1]) && !IsHexSpace(s[1])
    ensures FromHex(s).Some? && Hex(FromHex(s).value) == Lower(Squeezed(s))
  {
    hide HexValue, HexChar, Squeezed, FromHex, Hex;
    var h, l, rest := HexValue(s[0]).value, HexValue(s[1]).value, FromHex(s[2..]).value;
    SqueezedPair(s);
    PairReads(s);
    HexCons(16 * h + l, rest);
    assert (16 * h + l) / 16 == h && (16 * h + l) % 16 == l;
    hide Lower;
    Regroup([LowerChar(s[0])], [LowerChar(s[1])], Lower(Squeezed(s[2..])));
  }
}
