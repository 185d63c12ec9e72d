/**
 * Origin policy of the owner cookie, on ASCII text: which configured origins are trusted and
 * how a request's Origin header is read. Serialization as in section 6.2 of RFC 6454.
 *
 * `literal` decides whether a bracketed host is accepted. `BracketedHost` is what the standard
 * library asks of one, for any reading of IPv6 addresses.
 */
module CookieOrigin {
  import opened Wrappers
  import opened Text
  import opened Numerals

  const MAX_ORIGIN_LENGTH := 200

  // The URL splitter.

  predicate EndsAuthority(c: char) {
    c == '/' || c == '?' || c == '#'
  }

  /** Where the authority ends. */
  function AuthorityEnd(s: string): (i: nat)
    ensures i <= |s|
    ensures forall j :: 0 <= j < i ==> !EndsAuthority(s[j])
    ensures i < |s| ==> EndsAuthority(s[i])
  {
    if s == "" || EndsAuthority(s[0]) then 0 else 1 + AuthorityEnd(s[1..])
  }

  predicate IsLetter(c: char) {
    IsUpper(c) || IsLower(c)
  }

  predicate SchemeChars(s: string) {
    forall i :: 0 <= i < |s| ==> IsLetter(s[i]) || IsDigit(s[i]) || s[i] == '+' || s[i] == '-' || s[i] == '.'
  }

  function DropControls(s: string): string {
    if s != "" && s[0] as int <= 32 then DropControls(s[1..]) else s
  }

  datatype Split = Split(scheme: string, netloc: string, path: string, query: string, fragment: string)

  /** `urlsplit` without its checks of the authority. */
  function SplitUrl(value: string): Split {
    var url := DropControls(value);
    var i := IndexOf(url, ':');
    if 0 < i < |url| && IsLetter(url[0]) && SchemeChars(url[..i]) then SplitRest(Lower(url[..i]), url[i + 1..])
    else SplitRest("", url)
  }

  function SplitRest(scheme: string, rest: string): Split {
    if StartsWith(rest, "//") then
      var end := AuthorityEnd(rest[2..]);
      SplitTail(scheme, rest[2..][..end], rest[2..][end..])
    else SplitTail(scheme, "", rest)
  }

  function SplitTail(scheme: string, netloc: string, tail: string): Split {
    var hash := IndexOf(tail, '#');
    var fragment := if hash < |tail| then tail[hash + 1..] else "";
    var beforeHash := tail[..hash];
    var mark := IndexOf(beforeHash, '?');
    var query := if mark < |beforeHash| then beforeHash[mark + 1..] else "";
    Split(scheme, netloc, beforeHash[..mark], query, fragment)
  }

  datatype HostPort = HostPort(host: string, port: Option<nat>)

  /** `.port`: None is the raised ValueError. */
  function ParsePort(text: string): Option<Option<nat>> {
    if text == "" then Some(None)
    else if AllDigits(text) && DigitsValue(text) <= 65535 then Some(Some(DigitsValue(text)))
    else None
  }

  /** A host with its port read; nothing when the port is no port. */
  function WithPort(host: string, digits: string): Option<HostPort> {
    match ParsePort(digits)
    case None => None
    case Some(port) => Some(HostPort(Lower(host), port))
  }

  /** `.hostname` and `.port` of an authority without user information; None is a ValueError. */
  function ParseAuthority(literal: string -> bool, netloc: string): Option<HostPort> {
    if '[' in netloc || ']' in netloc then
      var close := IndexOf(netloc, ']');
      if netloc[0] != '[' || close == |netloc| then None
      else
        var host, after := netloc[1..close], netloc[close + 1..];
        if !literal(host) || (after != "" && after[0] != ':') then None
        else WithPort(host, if after == "" then "" else after[1..])
    else
      var colon := IndexOf(netloc, ':');
      WithPort(netloc[..colon], if colon < |netloc| then netloc[colon + 1..] else "")
  }

  // The policy.

  function StripDots(s: string): string {
    if s != "" && s[|s| - 1] == '.' then StripDots(s[..|s| - 1]) else s
  }

  function DefaultPort(scheme: string): nat {
    if scheme == "https" then 443 else 80
  }

  /** `_format_origin`. */
  function FormatOrigin(scheme: string, hostname: string, port: Option<nat>): Option<string> {
    var bare := Lower(StripDots(hostname));
    if bare == "" then None
    else
      var host := if ':' in bare then "[" + bare + "]" else bare;
      if (scheme == "https" || scheme == "http") && (port == None || port == Some(DefaultPort(scheme))) then
        Some(scheme + "://" + host)
      else if port == None then None
      else Some(scheme + "://" + host + ":" + Decimal(port.value))
  }

  predicate HasSpace(s: string) {
    exists i | 0 <= i < |s| :: IsSpace(s[i])
  }

  predicate RejectedAuthority(netloc: string) {
    '\\' in netloc || '@' in netloc || '%' in netloc
  }

  predicate WebScheme(scheme: string) {
    scheme == "http" || scheme == "https"
  }

  /** `_configured_origin`. */
  function ConfiguredOrigin(literal: string -> bool, raw: string, requireHttps: bool): Option<string> {
    var value := Strip(raw);
    if value == "" || value == "*" || HasSpace(value) || |value| > MAX_ORIGIN_LENGTH * 4 then None
    else
      var parts := SplitUrl(value);
      match ParseAuthority(literal, parts.netloc)
      case None => None
      case Some(authority) =>
        if !WebScheme(parts.scheme) || authority.host == "" then None
        else if requireHttps && parts.scheme != "https" then None
        else if parts.query != "" || parts.fragment != "" || RejectedAuthority(parts.netloc) then None
        else FormatOrigin(parts.scheme, authority.host, authority.port)
  }

  datatype Reason = Missing | Malformed | NullOrigin | Foreign | Accepted

  datatype Parsed = Parsed(reason: Reason, origin: Option<string>)

  datatype Verdict = Verdict(allowed: bool, reason: Reason)

  /** `_request_origin`. */
  function RequestOrigin(literal: string -> bool, raw: Option<string>): Parsed {
    if raw.None? then Parsed(Missing, None)
    else if '\n' in raw.value || '\r' in raw.value || '\0' in raw.value then Parsed(Malformed, None)
    else
      var value := Strip(raw.value);
      if value == "" then Parsed(Malformed, None)
      else if value == "null" then Parsed(NullOrigin, None)
      else if |value| > MAX_ORIGIN_LENGTH || HasSpace(value) || Lower(value) == "null" then Parsed(Malformed, None)
      else ReadOrigin(literal, SplitUrl(value))
  }

  /** The part of `_request_origin` behind the splitter. */
  function ReadOrigin(literal: string -> bool, parts: Split): Parsed {
    match ParseAuthority(literal, parts.netloc)
    case None => Parsed(Malformed, None)
    case Some(authority) =>
      if !WebScheme(parts.scheme) || authority.host == "" then Parsed(Malformed, None)
      else if (parts.path != "" && parts.path != "/") || parts.query != "" || parts.fragment != "" then
        Parsed(Malformed, None)
      else if RejectedAuthority(parts.netloc) then Parsed(Malformed, None)
      else Parsed(Accepted, FormatOrigin(parts.scheme, authority.host, authority.port))
  }

  /** `evaluate_cookie_origin`. */
  function Evaluate(literal: string -> bool, raw: Option<string>, trusted: set<string>): Verdict {
    var parsed := RequestOrigin(literal, raw);
    if parsed.reason != Accepted || parsed.origin.None? then Verdict(false, parsed.reason)
    else if parsed.origin.value !in trusted then Verdict(false, Foreign)
    else Verdict(true, Accepted)
  }

  ghost predicate ConfiguredAs(literal: string -> bool, entries: seq<string>, requireHttps: bool, origin: string) {
    exists i :: 0 <= i < |entries| && ConfiguredOrigin(literal, entries[i], requireHttps) == Some(origin)
  }

  /** `trusted_cookie_origins` over the base URL and the CORS entries. */
  method TrustedOrigins(literal: string -> bool, baseUrl: string, cors: seq<string>, requireHttps: bool)
    returns (trusted: set<string>)
    ensures forall o :: o in trusted <==> ConfiguredAs(literal, [baseUrl] + cors, requireHttps, o)
  {
    hide ConfiguredOrigin;
    var entries := [baseUrl] + cors;
    trusted := {};
    for n := 0 to |entries|
      invariant forall o :: o in trusted <==>
        exists i :: 0 <= i < n && ConfiguredOrigin(literal, entries[i], requireHttps) == Some(o)
    {
      var origin := ConfiguredOrigin(literal, entries[n], requireHttps);
      if origin.Some? {
        trusted := trusted + {origin.value};
      }
    }
  }

  // What the parts of a formatted origin look like.

  /** Characters that can stand in a host between the slashes and the port. */
  predicate HostChar(c: char) {
    !EndsAuthority(c) && c != ']' && c != '@' && c != '\\' && c != '%' && !IsSpace(c)
  }

  predicate HostChars(s: string) {
    forall i :: 0 <= i < |s| ==> HostChar(s[i])
  }

  /** No character of an authority is blank or ends it. */
  predicate AuthorityText(netloc: string) {
    forall i :: 0 <= i < |netloc| ==> !IsSpace(netloc[i]) && !EndsAuthority(netloc[i])
  }

  /** A bracketed host with a colon stays one when it is lower-cased and loses trailing dots. */
  ghost predicate StableLiteral(literal: string -> bool, h: string) {
    literal(h) && ':' in h && '%' !in h ==> literal(Lower(StripDots(Lower(h))))
  }

  ghost predicate StableLiterals(literal: string -> bool) {
    forall h :: StableLiteral(literal, h)
  }

  lemma {:induction false} DotsGone(s: string)
    ensures StripDots(s) <= s
    ensures StripDots(s) != "" ==> StripDots(s)[|StripDots(s)| - 1] != '.'
    ensures Lower(StripDots(s)) == StripDots(Lower(s))
  {
    if s != "" && s[|s| - 1] == '.' {
      DotsGone(s[..|s| - 1]);
      assert Lower(s)[..|s| - 1] == Lower(s[..|s| - 1]);
    }
  }

  lemma NoDots(s: string)
    requires s != "" && s[|s| - 1] != '.'
    ensures StripDots(s) == s
  {
  }

  lemma {:induction false} AuthorityIs(a: string, b: string)
    requires forall i :: 0 <= i < |a| ==> !EndsAuthority(a[i])
    requires b == "" || EndsAuthority(b[0])
    ensures AuthorityEnd(a + b) == |a|
  {
    if a == "" {
      assert a + b == b;
    } else {
      assert (a + b)[1..] == a[1..] + b;
      AuthorityIs(a[1..], b);
    }
  }

  /** A spelling of "http" or "https" is a scheme. */
  lemma SchemeLetters(scheme: string)
    requires WebScheme(Lower(scheme))
    ensures scheme != "" && forall i :: 0 <= i < |scheme| ==> IsLetter(scheme[i])
  {
    forall i | 0 <= i < |scheme|
      ensures IsLetter(scheme[i])
    {
      assert IsLower(Lower(scheme)[i]);
    }
  }

  lemma SplitScheme(scheme: string, rest: string)
    requires WebScheme(Lower(scheme))
    ensures SplitUrl(scheme + [':'] + rest) == SplitRest(Lower(scheme), rest)
  {
    hide SplitRest;
    var url := scheme + [':'] + rest;
    SchemeLetters(scheme);
    assert url[0] == scheme[0] && DropControls(url) == url;
    IndexOfAt(scheme, ':', rest);
    assert url[..|scheme|] == scheme && url[|scheme| + 1..] == rest;
  }

  /** What may follow a path and still leave query and fragment empty. */
  predicate Marks(s: string) {
    s == "" || s == "?" || s == "#" || s == "?#"
  }

  /** A path as it stands between an authority and the marks. */
  predicate PathText(path: string) {
    (path != "" ==> path[0] == '/') && '?' !in path && '#' !in path
  }

  /** Cutting at a character that stands at the end, or not at all. */
  lemma CutAtEnd(text: string, c: char, marked: bool)
    requires c !in text
    ensures var whole := if marked then text + [c] else text;
            && IndexOf(whole, c) == |text| && whole[..|text|] == text && (|text| < |whole| <==> marked)
            && (marked ==> whole[|text| + 1..] == "")
  {
    IndexOfAt(text, c, "");
    assert text + [c] + "" == text + [c];
  }

  lemma SplitBehindPath(scheme: string, authority: string, path: string, marks: string)
    requires PathText(path) && Marks(marks)
    ensures SplitTail(scheme, authority, path + marks) == Split(scheme, authority, path, "", "")
  {
    hide IndexOf, SplitTail, PathText;
    var asked, hashed := marks == "?" || marks == "?#", marks == "#" || marks == "?#";
    var queried := if asked then path + ['?'] else path;
    MarkedPath(path, asked);
    CutAtEnd(path, '?', asked);
    CutAtEnd(queried, '#', hashed);
    assert path + marks == if hashed then queried + ['#'] else queried;
    TailIs(scheme, authority, path + marks, queried, path);
  }

  lemma MarkedPath(path: string, asked: bool)
    requires PathText(path)
    ensures '?' !in path && '#' !in if asked then path + ['?'] else path
  {
  }

  lemma TailIs(scheme: string, authority: string, tail: string, queried: string, path: string)
    requires IndexOf(tail, '#') == |queried| && tail[..|queried|] == queried
    requires IndexOf(queried, '?') == |path| && queried[..|path|] == path
    requires |queried| < |tail| ==> tail[|queried| + 1..] == ""
    requires |path| < |queried| ==> queried[|path| + 1..] == ""
    ensures SplitTail(scheme, authority, tail) == Split(scheme, authority, path, "", "")
  {
    hide IndexOf;
  }

  lemma SplitAuthority(scheme: string, authority: string, path: string, marks: string)
    requires PathText(path) && Marks(marks)
    requires forall i :: 0 <= i < |authority| ==> !EndsAuthority(authority[i])
    ensures SplitRest(scheme, "//" + (authority + (path + marks))) == Split(scheme, authority, path, "", "")
  {
    hide SplitTail, IndexOf;
    var rest := "//" + (authority + (path + marks));
    assert rest[..2] == "//" && rest[2..] == authority + (path + marks);
    AuthorityIs(authority, path + marks);
    assert rest[2..][..|authority|] == authority && rest[2..][|authority|..] == path + marks;
    SplitBehindPath(scheme, authority, path, marks);
  }

  /** Splitting `scheme://authority`, a path and its marks. */
  lemma SplitWebUrl(scheme: string, authority: string, path: string, marks: string)
    requires WebScheme(Lower(scheme)) && PathText(path) && Marks(marks)
    requires forall i :: 0 <= i < |authority| ==> !EndsAuthority(authority[i])
    ensures SplitUrl(scheme + "://" + authority + path + marks) == Split(Lower(scheme), authority, path, "", "")
  {
    hide WebScheme, SplitUrl, SplitRest, PathText, Marks;
    assert scheme + "://" + authority + path + marks == scheme + [':'] + ("//" + (authority + (path + marks)));
    SplitScheme(scheme, "//" + (authority + (path + marks)));
    SplitAuthority(Lower(scheme), authority, path, marks);
  }

  /** The split forgets leading control characters. */
  lemma {:induction false} ControlsForgotten(value: string)
    ensures SplitUrl(DropControls(value)) == SplitUrl(value)
    ensures DropControls(value) != "" ==> DropControls(value)[0] as int > 32
  {
    if value != "" && value[0] as int <= 32 {
      ControlsForgotten(value[1..]);
    }
  }

  lemma TailParts(scheme: string, netloc: string, tail: string) returns (path: string, marks: string)
    requires var parts := SplitTail(scheme, netloc, tail); parts.query == "" && parts.fragment == ""
    ensures Marks(marks) && tail == path + marks && path == SplitTail(scheme, netloc, tail).path
    ensures '?' !in path && '#' !in path
  {
    hide IndexOf;
    var hash := IndexOf(tail, '#');
    var before := tail[..hash];
    var mark := IndexOf(before, '?');
    path := before[..mark];
    marks := (if mark < |before| then "?" else "") + (if hash < |tail| then "#" else "");
    assert mark < |before| ==> before == path + "?";
    assert hash < |tail| ==> tail == before + "#";
  }

  lemma SchemeCut(value: string) returns (scheme: string, rest: string)
    requires SplitUrl(value).scheme != ""
    ensures DropControls(value) == scheme + ":" + rest && SplitUrl(value) == SplitRest(Lower(scheme), rest)
  {
    hide SplitRest, DropControls, IndexOf;
    var url := DropControls(value);
    var i := IndexOf(url, ':');
    RestKeepsScheme("", url);
    scheme, rest := url[..i], url[i + 1..];
    assert url == url[..i] + [url[i]] + url[i + 1..];
  }

  lemma RestParts(scheme: string, rest: string) returns (path: string, marks: string)
    requires SplitRest(scheme, rest).netloc != ""
    requires SplitRest(scheme, rest).query == "" && SplitRest(scheme, rest).fragment == ""
    ensures PathText(path) && Marks(marks) && path == SplitRest(scheme, rest).path
    ensures rest == "//" + SplitRest(scheme, rest).netloc + path + marks
  {
    NetlocIsBehindSlashes(scheme, rest);
    hide SplitTail, Marks;
    var after := rest[2..];
    var end := AuthorityEnd(after);
    TailKeepsAuthority(scheme, after[..end], after[end..]);
    path, marks := TailParts(scheme, after[..end], after[end..]);
    assert path != "" ==> path[0] == after[end];
    assert rest == "//" + after[..end] + after[end..];
    assert rest == "//" + after[..end] + path + marks;
  }

  /** Every text that splits into a web scheme, an authority and a path is written so. */
  lemma WebUrlParts(value: string) returns (scheme: string, path: string, marks: string)
    requires WebScheme(SplitUrl(value).scheme) && SplitUrl(value).netloc != ""
    requires SplitUrl(value).query == "" && SplitUrl(value).fragment == ""
    ensures Lower(scheme) == SplitUrl(value).scheme && path == SplitUrl(value).path
    ensures PathText(path) && Marks(marks)
    ensures DropControls(value) == scheme + "://" + SplitUrl(value).netloc + path + marks
  {
    hide SplitUrl, SplitRest, PathText, Marks, DropControls;
    var rest;
    scheme, rest := SchemeCut(value);
    RestKeepsScheme(Lower(scheme), rest);
    path, marks := RestParts(Lower(scheme), rest);
    var netloc := SplitUrl(value).netloc;
    assert scheme + ":" + ("//" + netloc + path + marks) == scheme + "://" + netloc + path + marks;
  }

  lemma NetlocIsBehindSlashes(scheme: string, rest: string)
    ensures SplitRest(scheme, rest).netloc != "" ==> StartsWith(rest, "//")
  {
  }

  lemma RestKeepsScheme(scheme: string, rest: string)
    ensures SplitRest(scheme, rest).scheme == scheme
  {
  }

  lemma TailKeepsAuthority(scheme: string, netloc: string, tail: string)
    ensures SplitTail(scheme, netloc, tail).scheme == scheme && SplitTail(scheme, netloc, tail).netloc == netloc
  {
  }

  // Reading one spelling of an origin.

  /** A port as written behind the host, with its value; an empty port counts as none. */
  datatype PortText = NoPort | PortText(digits: string) {
    predicate Valid() { PortText? ==> AllDigits(digits) && DigitsValue(digits) <= 65535 }

    function Text(): string { if NoPort? then "" else ":" + digits }

    function Value(): Option<nat>
      requires Valid()
    {
      if NoPort? || digits == "" then None else Some(DigitsValue(digits))
    }
  }

  /** A spelling of a web origin: the scheme, host, port and slash as written. */
  datatype Spelling = Spelling(scheme: string, host: string, bracketed: bool, port: PortText, slash: bool) {
    ghost predicate Formed(literal: string -> bool) {
      && WebScheme(Lower(scheme)) && host != "" && HostChars(host) && port.Valid()
      && (if bracketed then literal(host) else ':' !in host)
    }

    /** An opening bracket in the host has the closing one of a bracketed host behind it. */
    predicate Balanced() { bracketed || '[' !in host }

    ghost predicate Valid(literal: string -> bool) { Formed(literal) && Balanced() }

    function Authority(): string {
      (if bracketed then "[" + host + "]" else host) + port.Text()
    }

    function Text(): string {
      scheme + "://" + Authority() + (if slash then "/" else "")
    }
  }

  lemma ReadPort(literal: string -> bool, s: Spelling)
    requires s.Valid(literal)
    ensures ParsePort(if s.port.NoPort? then "" else s.port.digits) == Some(s.port.Value())
  {
  }

  lemma ReadBracketed(literal: string -> bool, host: string, after: string)
    requires literal(host) && ']' !in host && (after != "" ==> after[0] == ':')
    ensures ParseAuthority(literal, "[" + host + "]" + after) == WithPort(host, if after == "" then "" else after[1..])
  {
    hide WithPort;
    var netloc := ("[" + host) + [']'] + after;
    assert "[" + host + "]" + after == netloc;
    IndexOfAt("[" + host, ']', after);
    assert netloc[1..|host| + 1] == host && netloc[|host| + 2..] == after;
  }

  lemma ReadUnbracketed(literal: string -> bool, netloc: string)
    requires '[' !in netloc && ']' !in netloc
    ensures var colon := IndexOf(netloc, ':');
            ParseAuthority(literal, netloc) ==
            WithPort(netloc[..colon], if colon < |netloc| then netloc[colon + 1..] else "")
  {
    hide WithPort;
  }

  lemma PlainHasNoBracket(host: string, port: PortText)
    requires HostChars(host) && '[' !in host && port.Valid()
    ensures '[' !in host + port.Text() && ']' !in host + port.Text()
  {
  }

  lemma ReadHost(literal: string -> bool, host: string)
    requires '[' !in host && ']' !in host && ':' !in host
    ensures ParseAuthority(literal, host) == WithPort(host, "")
  {
    hide WithPort, IndexOf;
    ReadUnbracketed(literal, host);
    IndexOfAt(host, ':', "");
    assert host[..|host|] == host;
  }

  lemma ReadHostPort(literal: string -> bool, host: string, digits: string)
    requires '[' !in host + [':'] + digits && ']' !in host + [':'] + digits && ':' !in host
    ensures ParseAuthority(literal, host + [':'] + digits) == WithPort(host, digits)
  {
    hide WithPort, IndexOf, ParseAuthority;
    ReadUnbracketed(literal, host + [':'] + digits);
    SplitAtColon(host, digits);
  }

  lemma ReadPlain(literal: string -> bool, host: string, port: PortText)
    requires HostChars(host) && ':' !in host && '[' !in host && port.Valid()
    ensures ParseAuthority(literal, host + port.Text()) == WithPort(host, if port.NoPort? then "" else port.digits)
  {
    hide WithPort, ParseAuthority;
    PlainHasNoBracket(host, port);
    if port.NoPort? {
      assert host + port.Text() == host;
      ReadHost(literal, host);
    } else {
      assert host + port.Text() == host + [':'] + port.digits;
      ReadHostPort(literal, host, port.digits);
    }
  }

  lemma SplitAtColon(host: string, digits: string)
    requires ':' !in host
    ensures var netloc := host + [':'] + digits;
            IndexOf(netloc, ':') == |host| && netloc[..|host|] == host && netloc[|host| + 1..] == digits
  {
    hide IndexOf;
    IndexOfAt(host, ':', digits);
  }

  lemma ReadAuthority(literal: string -> bool, s: Spelling)
    requires s.Valid(literal)
    ensures ParseAuthority(literal, s.Authority()) == Some(HostPort(Lower(s.host), s.port.Value()))
  {
    hide ParseAuthority, ParsePort;
    ReadPort(literal, s);
    assert forall i :: 0 <= i < |s.host| ==> HostChar(s.host[i]);
    assert ']' !in s.host;
    if s.bracketed {
      ReadBracketed(literal, s.host, s.port.Text());
      assert s.port.PortText? ==> s.port.Text()[1..] == s.port.digits;
    } else {
      ReadPlain(literal, s.host, s.port);
    }
  }

  /** An opening bracket alone makes the authority unreadable. */
  lemma UnbalancedIsUnreadable(literal: string -> bool, s: Spelling)
    requires s.Formed(literal) && !s.Balanced()
    ensures ParseAuthority(literal, s.Authority()).None?
  {
    hide WithPort;
    assert ']' !in s.host by {
      assert forall i :: 0 <= i < |s.host| ==> HostChar(s.host[i]);
    }
    var netloc := s.Authority();
    assert netloc == s.host + s.port.Text();
    assert '[' in netloc && ']' !in netloc;
  }

  /** Every character of a spelling that ends nothing and blanks nothing. */
  lemma AuthorityChars(literal: string -> bool, s: Spelling)
    requires s.Formed(literal)
    ensures AuthorityText(s.Authority()) && !RejectedAuthority(s.Authority())
  {
  }

  lemma NoSpaceAppend(a: string, b: string)
    requires NoSpace(a) && NoSpace(b)
    ensures NoSpace(a + b)
  {
  }

  lemma TextChars(literal: string -> bool, s: Spelling)
    requires s.Formed(literal)
    ensures NoSpace(s.Text()) && ':' in s.Text()
  {
    AuthorityChars(literal, s);
    SchemeLetters(s.scheme);
    var authority, slash := s.Authority(), if s.slash then "/" else "";
    assert NoSpace(s.scheme) && NoSpace(authority);
    hide Spelling.Authority, Spelling.Formed, AuthorityText, RejectedAuthority;
    NoSpaceAppend(s.scheme, "://");
    NoSpaceAppend(s.scheme + "://", authority);
    NoSpaceAppend(s.scheme + "://" + authority, slash);
    assert s.Text()[|s.scheme|] == ':';
  }

  lemma LowerKeepsColon(t: string)
    requires ':' in t
    ensures ':' in Lower(t)
  {
    var i :| 0 <= i < |t| && t[i] == ':';
    assert Lower(t)[i] == ':';
  }

  /** A text with a colon and no blank passes the first checks. */
  lemma PassesGuards(t: string)
    requires NoSpace(t) && ':' in t
    ensures t != "" && t != "null" && Lower(t) != "null" && !HasSpace(t) && Strip(t) == t
    ensures '\n' !in t && '\r' !in t
  {
    StripTrims(t);
    LowerKeepsColon(t);
    assert ':' !in "null";
  }

  /** What the spelling stands for. */
  function OriginOf(s: Spelling): Option<string>
    requires s.port.Valid()
  {
    FormatOrigin(Lower(s.scheme), Lower(s.host), s.port.Value())
  }

  /** Behind control characters, the value is the spelling with a path and its marks. */
  ghost predicate Writes(value: string, s: Spelling, path: string, marks: string) {
    && !s.slash && PathText(path) && Marks(marks)
    && DropControls(value) == s.Text() + path + marks
  }

  /** How a written spelling splits. */
  lemma WrittenSplits(literal: string -> bool, value: string, s: Spelling, path: string, marks: string)
    requires s.Formed(literal) && Writes(value, s, path, marks)
    ensures SplitUrl(value) == Split(Lower(s.scheme), s.Authority(), path, "", "")
    ensures ':' in value
  {
    hide SplitUrl, Marks, PathText, Spelling.Authority, RejectedAuthority;
    AuthorityChars(literal, s);
    ControlsForgotten(value);
    DropControlsTail(value);
    var url := DropControls(value);
    assert url == s.scheme + "://" + s.Authority() + path + marks;
    assert url[|s.scheme|] == ':' && ':' in url;
    SplitWebUrl(s.scheme, s.Authority(), path, marks);
    DropControlsIdempotent(value);
    ControlsForgotten(url);
  }

  lemma {:induction false} DropControlsIdempotent(value: string)
    ensures DropControls(DropControls(value)) == DropControls(value)
  {
    if value != "" && value[0] as int <= 32 {
      DropControlsIdempotent(value[1..]);
    }
  }

  /** What is left of a header without a line break or NUL, once stripped: short and without a blank. */
  predicate PlainHeader(raw: string) {
    && '\n' !in raw && '\r' !in raw && '\0' !in raw
    && |Strip(raw)| <= MAX_ORIGIN_LENGTH && !HasSpace(Strip(raw))
  }

  /** The header spells the origin, with nothing behind it but a slash and empty marks. */
  ghost predicate Spells(literal: string -> bool, raw: string, s: Spelling, path: string, marks: string) {
    PlainHeader(raw) && s.Valid(literal) && Writes(Strip(raw), s, path, marks) && (path == "" || path == "/")
  }

  lemma ReadWritten(literal: string -> bool, s: Spelling, path: string)
    requires s.Formed(literal) && (path == "" || path == "/")
    ensures ReadOrigin(literal, Split(Lower(s.scheme), s.Authority(), path, "", "")) ==
              if s.Balanced() then Parsed(Accepted, OriginOf(s)) else Parsed(Malformed, None)
  {
    AuthorityChars(literal, s);
    if s.Balanced() {
      ReadAuthority(literal, s);
    } else {
      UnbalancedIsUnreadable(literal, s);
    }
    hide ParseAuthority, FormatOrigin, RejectedAuthority, Spelling.Authority, HostChars;
  }

  lemma SpelledSplits(literal: string -> bool, raw: string, s: Spelling, path: string, marks: string)
    requires Spells(literal, raw, s, path, marks)
    ensures PlainHeader(raw) && s.Valid(literal) && (path == "" || path == "/")
    ensures SplitUrl(Strip(raw)) == Split(Lower(s.scheme), s.Authority(), path, "", "") && ':' in Strip(raw)
  {
    hide Strip, Writes, SplitUrl, Spelling.Authority, Spelling.Formed;
    WrittenSplits(literal, Strip(raw), s, path, marks);
  }

  /** A header that spells an origin is read as it. */
  lemma SpelledIsRead(literal: string -> bool, raw: string, s: Spelling, path: string, marks: string)
    requires Spells(literal, raw, s, path, marks)
    ensures RequestOrigin(literal, Some(raw)) == Parsed(Accepted, OriginOf(s))
  {
    hide Spells, SplitUrl, ReadOrigin, Strip, HasSpace, Spelling.Formed, Spelling.Authority, OriginOf;
    SpelledSplits(literal, raw, s, path, marks);
    ReadWritten(literal, s, path);
    LowerKeepsColon(Strip(raw));
    hide Lower;
    assert ':' !in "null";
  }

  lemma CutBrackets(netloc: string, close: nat)
    requires netloc != "" && netloc[0] == '[' && 0 < close < |netloc| && netloc[close] == ']'
    requires ']' !in netloc[..close]
    ensures netloc == "[" + netloc[1..close] + "]" + netloc[close + 1..] && ']' !in netloc[1..close]
  {
    assert netloc[1..close] == netloc[..close][1..];
    assert netloc == netloc[..1] + netloc[1..close] + [netloc[close]] + netloc[close + 1..];
  }

  lemma ReadPortText(host: string, text: string, port: PortText)
    requires WithPort(host, text).Some?
    requires port == PortText(text) || (text == "" && port == NoPort)
    ensures port.Valid() && WithPort(host, text) == Some(HostPort(Lower(host), port.Value()))
  {
  }

  lemma BracketedParts(literal: string -> bool, netloc: string) returns (host: string, port: PortText)
    requires '[' in netloc || ']' in netloc
    requires ParseAuthority(literal, netloc).Some?
    ensures netloc == "[" + host + "]" + port.Text() && literal(host) && ']' !in host && port.Valid()
    ensures ParseAuthority(literal, netloc) == Some(HostPort(Lower(host), port.Value()))
  {
    hide WithPort, PortText.Valid, PortText.Value, Lower;
    var close := IndexOf(netloc, ']');
    hide IndexOf;
    host := netloc[1..close];
    var after := netloc[close + 1..];
    CutBrackets(netloc, close);
    port := if after == "" then NoPort else PortText(after[1..]);
    ReadPortText(host, if after == "" then "" else after[1..], port);
    assert after != "" ==> after == ":" + after[1..];
  }

  lemma PlainParts(literal: string -> bool, netloc: string) returns (host: string, port: PortText)
    requires '[' !in netloc && ']' !in netloc
    requires AuthorityText(netloc) && ParseAuthority(literal, netloc).Some?
    ensures netloc == host + port.Text() && ':' !in host && port.Valid()
    ensures ParseAuthority(literal, netloc) == Some(HostPort(Lower(host), port.Value()))
  {
    var colon := IndexOf(netloc, ':');
    host := netloc[..colon];
    port := if colon < |netloc| then PortText(netloc[colon + 1..]) else NoPort;
    assert colon < |netloc| ==> netloc == host + (":" + netloc[colon + 1..]);
    assert colon == |netloc| ==> netloc == host;
  }

  lemma PartOfAuthority(netloc: string, front: string, host: string, back: string)
    requires AuthorityText(netloc) && !RejectedAuthority(netloc) && netloc == front + host + back && ']' !in host
    ensures HostChars(host)
  {
    forall i | 0 <= i < |host|
      ensures HostChar(host[i])
    {
      assert netloc[|front| + i] == host[i];
    }
  }

  /** And nothing else is: an authority that parses is written as host and port. */
  lemma AuthorityParts(literal: string -> bool, scheme: string, netloc: string) returns (s: Spelling)
    requires WebScheme(Lower(scheme)) && AuthorityText(netloc) && !RejectedAuthority(netloc)
    requires ParseAuthority(literal, netloc).Some? && ParseAuthority(literal, netloc).value.host != ""
    ensures s.Valid(literal) && s.scheme == scheme && !s.slash && s.Authority() == netloc
    ensures ParseAuthority(literal, netloc) == Some(HostPort(Lower(s.host), s.port.Value()))
  {
    hide WebScheme, ParseAuthority, AuthorityText, RejectedAuthority, HostChars, PortText.Text;
    var bracketed := '[' in netloc || ']' in netloc;
    var host, port;
    if bracketed {
      host, port := BracketedParts(literal, netloc);
      assert netloc == "[" + host + ("]" + port.Text());
      PartOfAuthority(netloc, "[", host, "]" + port.Text());
    } else {
      host, port := PlainParts(literal, netloc);
      assert netloc == "" + host + port.Text();
      PartOfAuthority(netloc, "", host, port.Text());
      assert '[' !in host && ']' !in host;
    }
    s := Spelling(scheme, host, bracketed, port, false);
  }

  lemma NetlocHasHost(literal: string -> bool)
    ensures ParseAuthority(literal, "") == Some(HostPort("", None))
  {
  }

  lemma ReadIsSpelled(literal: string -> bool, raw: string) returns (s: Spelling, path: string, marks: string)
    requires RequestOrigin(literal, Some(raw)).reason == Accepted
    ensures Spells(literal, raw, s, path, marks)
  {
    hide SplitUrl, ParseAuthority, FormatOrigin, DropControls;
    var value := Strip(raw);
    var parts := SplitUrl(value);
    hide Strip;
    assert ReadOrigin(literal, parts).reason == Accepted;
    NetlocHasHost(literal);
    var scheme;
    scheme, path, marks := WebUrlParts(value);
    assert NoSpace(value);
    AuthorityInText(value);
    s := AuthorityParts(literal, scheme, parts.netloc);
    assert s.Text() == scheme + "://" + parts.netloc;
  }

  /**
   * A header is read as an origin exactly when it spells one: stripped, short, without line
   * breaks, NUL and blanks, and behind control characters a web scheme, a host, a port and a
   * slash, with no path, query, fragment or user information.
   */
  lemma HeaderIsReadExactlyWhen(literal: string -> bool, raw: string)
    ensures RequestOrigin(literal, Some(raw)).reason == Accepted <==>
            exists s, path, marks :: Spells(literal, raw, s, path, marks)
    ensures forall s, path, marks :: Spells(literal, raw, s, path, marks) ==>
              s.port.Valid() && RequestOrigin(literal, Some(raw)).origin == OriginOf(s)
  {
    hide RequestOrigin, Spells, OriginOf;
    if RequestOrigin(literal, Some(raw)).reason == Accepted {
      var s, path, marks := ReadIsSpelled(literal, raw);
    }
    forall s, path, marks | Spells(literal, raw, s, path, marks)
      ensures RequestOrigin(literal, Some(raw)).reason == Accepted
      ensures s.port.Valid() && RequestOrigin(literal, Some(raw)).origin == OriginOf(s)
    {
      SpelledHasPort(literal, raw, s, path, marks);
      SpelledIsRead(literal, raw, s, path, marks);
    }
  }

  lemma SpelledHasPort(literal: string -> bool, raw: string, s: Spelling, path: string, marks: string)
    requires Spells(literal, raw, s, path, marks)
    ensures s.port.Valid()
  {
  }

  /** A slash at the end of a spelling is its path. */
  lemma SlashIsPath(literal: string -> bool, s: Spelling)
    requires s.Formed(literal)
    ensures Writes(s.Text(), s.(slash := false), if s.slash then "/" else "", "")
  {
    assert s.(slash := false).Authority() == s.Authority();
    hide Spelling.Authority;
    SchemeLetters(s.scheme);
    assert s.Text()[0] == s.scheme[0];
    assert s.Text() == s.(slash := false).Text() + (if s.slash then "/" else "") + "";
  }

  /**
   * A spelling of a web origin is read as its serialization exactly when it is short, has no
   * NUL and its brackets are balanced.
   */
  lemma RequestReads(literal: string -> bool, s: Spelling)
    requires s.Formed(literal)
    ensures RequestOrigin(literal, Some(s.Text())) ==
              if |s.Text()| <= MAX_ORIGIN_LENGTH && '\0' !in s.Text() && s.Balanced()
              then Parsed(Accepted, OriginOf(s))
              else Parsed(Malformed, None)
  {
    var t, plain, path := s.Text(), s.(slash := false), if s.slash then "/" else "";
    TextChars(literal, s);
    PassesGuards(t);
    SlashIsPath(literal, s);
    WrittenSplits(literal, t, plain, path, "");
    ReadWritten(literal, plain, path);
    assert plain.Authority() == s.Authority();
    hide Spelling.Text, Spelling.Authority, SplitUrl, FormatOrigin, ReadOrigin, Strip, Lower, HasSpace;
  }

  // Reading a configured origin.

  /** A configured value without a blank, stripped, up to four times the length of a header. */
  predicate PlainEntry(raw: string) {
    Strip(raw) != "" && !HasSpace(Strip(raw)) && |Strip(raw)| <= MAX_ORIGIN_LENGTH * 4
  }

  /** The entry spells the origin, with any path behind it and empty marks. */
  ghost predicate Configures(
    literal: string -> bool, raw: string, requireHttps: bool, s: Spelling, path: string, marks: string)
  {
    && PlainEntry(raw) && s.Valid(literal) && Writes(Strip(raw), s, path, marks)
    && (requireHttps ==> Lower(s.scheme) == "https")
  }

  lemma ConfiguredIsRead(
    literal: string -> bool, raw: string, requireHttps: bool, s: Spelling, path: string, marks: string)
    requires Configures(literal, raw, requireHttps, s, path, marks)
    ensures ConfiguredOrigin(literal, raw, requireHttps) == OriginOf(s)
  {
    WrittenSplits(literal, Strip(raw), s, path, marks);
    AuthorityChars(literal, s);
    ReadAuthority(literal, s);
    hide SplitUrl, ParseAuthority, FormatOrigin, RejectedAuthority, Spelling.Authority, HostChars, HasSpace, Strip,
      Writes;
    assert ':' !in "*";
  }

  lemma ConfiguredIsWritten(literal: string -> bool, raw: string, requireHttps: bool)
      returns (s: Spelling, path: string, marks: string)
    requires ConfiguredOrigin(literal, raw, requireHttps).Some?
    ensures Configures(literal, raw, requireHttps, s, path, marks)
  {
    hide SplitUrl, ParseAuthority, FormatOrigin, DropControls;
    var value := Strip(raw);
    var parts := SplitUrl(value);
    hide Strip;
    NetlocHasHost(literal);
    var scheme;
    scheme, path, marks := WebUrlParts(value);
    assert NoSpace(value);
    AuthorityInText(value);
    s := AuthorityParts(literal, scheme, parts.netloc);
    assert s.Text() == scheme + "://" + parts.netloc;
  }

  /** The entry spells this origin. */
  ghost predicate ConfiguresOrigin(literal: string -> bool, raw: string, requireHttps: bool, origin: string) {
    exists s, path, marks :: Configures(literal, raw, requireHttps, s, path, marks) &&
      s.port.Valid() && OriginOf(s) == Some(origin)
  }

  /**
   * An entry is trusted exactly when it spells a web origin, under https where that is
   * required, with any path but neither query nor fragment nor user information behind it;
   * it is then trusted as its serialization.
   */
  lemma EntryIsTrustedExactlyWhen(literal: string -> bool, raw: string, requireHttps: bool, origin: string)
    ensures ConfiguredOrigin(literal, raw, requireHttps) == Some(origin) <==>
            ConfiguresOrigin(literal, raw, requireHttps, origin)
  {
    hide ConfiguredOrigin, Configures, OriginOf;
    if ConfiguredOrigin(literal, raw, requireHttps) == Some(origin) {
      var s, path, marks := ConfiguredIsWritten(literal, raw, requireHttps);
      ConfiguredHasPort(literal, raw, requireHttps, s, path, marks);
      ConfiguredIsRead(literal, raw, requireHttps, s, path, marks);
    }
    if s, path, marks :|
      && Configures(literal, raw, requireHttps, s, path, marks)
      && s.port.Valid() && OriginOf(s) == Some(origin)
    {
      ConfiguredIsRead(literal, raw, requireHttps, s, path, marks);
    }
  }

  lemma ConfiguredHasPort(
    literal: string -> bool, raw: string, requireHttps: bool, s: Spelling, path: string, marks: string)
    requires Configures(literal, raw, requireHttps, s, path, marks)
    ensures s.port.Valid()
  {
  }

  /** The configuration reads a spelling as the request parser does, up to four times the length. */
  lemma ConfigurationReads(literal: string -> bool, s: Spelling, requireHttps: bool)
    requires s.Valid(literal) && |s.Text()| <= MAX_ORIGIN_LENGTH * 4
    requires requireHttps ==> Lower(s.scheme) == "https"
    ensures ConfiguredOrigin(literal, s.Text(), requireHttps) == OriginOf(s)
  {
    hide ConfiguredOrigin, OriginOf, Writes, Strip, HasSpace, Spelling.Text;
    var plain, path := s.(slash := false), if s.slash then "/" else "";
    TextChars(literal, s);
    PassesGuards(s.Text());
    SlashIsPath(literal, s);
    ConfiguredIsRead(literal, s.Text(), requireHttps, plain, path, "");
    SameOrigin(s, plain);
  }

  lemma SameOrigin(s: Spelling, s': Spelling)
    requires s' == s.(slash := false) && s.port.Valid()
    ensures s'.port.Valid() && OriginOf(s') == OriginOf(s)
  {
  }

  // Different spellings of one origin.

  function EffectivePort(scheme: string, port: Option<nat>): nat {
    if port.None? then DefaultPort(scheme) else port.value
  }

  /** The serialization depends on the host without case and trailing dots, and on the effective port. */
  lemma FormatForgets(scheme: string, h1: string, h2: string, p1: Option<nat>, p2: Option<nat>)
    requires WebScheme(scheme) && Lower(StripDots(h1)) == Lower(StripDots(h2))
    requires EffectivePort(scheme, p1) == EffectivePort(scheme, p2)
    ensures FormatOrigin(scheme, h1, p1) == FormatOrigin(scheme, h2, p2)
  {
  }

  ghost predicate Readable(s: Spelling) {
    |s.Text()| <= MAX_ORIGIN_LENGTH && '\0' !in s.Text()
  }

  /**
   * Spellings that differ only in letter case, trailing dots of the host, an explicit default
   * port or a closing slash get one verdict.
   */
  lemma SpellingsGetOneVerdict(literal: string -> bool, s1: Spelling, s2: Spelling, trusted: set<string>)
    requires s1.Valid(literal) && s2.Valid(literal) && Readable(s1) && Readable(s2)
    requires Lower(s1.scheme) == Lower(s2.scheme)
    requires StripDots(Lower(s1.host)) == StripDots(Lower(s2.host))
    requires EffectivePort(Lower(s1.scheme), s1.port.Value()) == EffectivePort(Lower(s2.scheme), s2.port.Value())
    ensures Evaluate(literal, Some(s1.Text()), trusted) == Evaluate(literal, Some(s2.Text()), trusted)
  {
    hide RequestOrigin, Spelling.Text, FormatOrigin;
    RequestReads(literal, s1);
    RequestReads(literal, s2);
    assert Lower(StripDots(Lower(s1.host))) == Lower(StripDots(Lower(s2.host))) by {
      DotsGone(s1.host);
      DotsGone(s2.host);
      LowerTwice(StripDots(s1.host));
      LowerTwice(StripDots(s2.host));
    }
    FormatForgets(Lower(s1.scheme), Lower(s1.host), Lower(s2.host), s1.port.Value(), s2.port.Value());
  }

  // The verdict.

  /** The header spells this origin. */
  ghost predicate SpellsOrigin(literal: string -> bool, raw: string, origin: Option<string>) {
    exists s, path, marks :: Spells(literal, raw, s, path, marks) && s.port.Valid() && OriginOf(s) == origin
  }

  lemma ReadOriginIsSpelled(literal: string -> bool, raw: string, origin: Option<string>)
    ensures RequestOrigin(literal, Some(raw)) == Parsed(Accepted, origin) <==> SpellsOrigin(literal, raw, origin)
  {
    hide RequestOrigin, Spells, OriginOf;
    HeaderIsReadExactlyWhen(literal, raw);
    if RequestOrigin(literal, Some(raw)) == Parsed(Accepted, origin) {
      var s, path, marks :| Spells(literal, raw, s, path, marks);
      assert s.port.Valid() && OriginOf(s) == origin;
    }
  }

  /**
   * A request is let through exactly when its header spells an origin of the trusted set. A
   * header that spells another one is foreign; a missing header is never let through, nor is
   * the null origin, nor anything else.
   */
  lemma AllowedExactlyWhen(literal: string -> bool, raw: Option<string>, trusted: set<string>)
    ensures Evaluate(literal, raw, trusted).allowed <==>
              raw.Some? && exists o :: o in trusted && SpellsOrigin(literal, raw.value, Some(o))
    ensures Evaluate(literal, raw, trusted).reason == Foreign <==>
              raw.Some? && exists o :: o !in trusted && SpellsOrigin(literal, raw.value, Some(o))
    ensures Evaluate(literal, raw, trusted).allowed ==> Evaluate(literal, raw, trusted).reason == Accepted
    ensures Evaluate(literal, raw, trusted).reason == Missing <==> raw.None?
    ensures Evaluate(literal, raw, trusted).reason == NullOrigin <==>
              raw.Some? && Strip(raw.value) == "null" &&
              '\n' !in raw.value && '\r' !in raw.value && '\0' !in raw.value
  {
    hide SpellsOrigin, ReadOrigin, SplitUrl, Strip, HasSpace, Lower;
    if raw.Some? {
      ReadingKinds(literal, raw.value);
      forall origin
        ensures RequestOrigin(literal, raw) == Parsed(Accepted, origin) <==> SpellsOrigin(literal, raw.value, origin)
      {
        ReadOriginIsSpelled(literal, raw.value, origin);
      }
    }
    hide RequestOrigin;
  }

  /** Only the null check reports the null origin, and reading reports no verdict of its own. */
  lemma ReadingKinds(literal: string -> bool, raw: string)
    ensures RequestOrigin(literal, Some(raw)).reason == NullOrigin <==>
              Strip(raw) == "null" && '\n' !in raw && '\r' !in raw && '\0' !in raw
    ensures RequestOrigin(literal, Some(raw)).reason !in {Missing, Foreign}
    ensures RequestOrigin(literal, Some(raw)).reason != Accepted ==> RequestOrigin(literal, Some(raw)).origin == None
  {
    hide SplitUrl, Strip, HasSpace, Lower, ParseAuthority, FormatOrigin, RejectedAuthority, WebScheme;
  }

  /**
   * A short spelling of a web origin without NUL is allowed exactly when its serialization is
   * trusted, and is foreign otherwise; a host of dots has no serialization and is not allowed.
   */
  lemma SpellingIsAllowedExactlyWhen(literal: string -> bool, s: Spelling, trusted: set<string>)
    requires s.Valid(literal) && Readable(s)
    ensures Evaluate(literal, Some(s.Text()), trusted) ==
              if OriginOf(s).None? then Verdict(false, Accepted)
              else if OriginOf(s).value in trusted then Verdict(true, Accepted)
              else Verdict(false, Foreign)
    ensures OriginOf(s).None? <==> StripDots(Lower(s.host)) == ""
  {
    hide RequestOrigin, Spelling.Text, StripDots;
    RequestReads(literal, s);
  }

  // The middleware.

  const UNSAFE_METHODS := {"POST", "PUT", "PATCH", "DELETE"}

  const COOKIE_AUTHORIZED_MUTATION_PATHS := {
    "/api/v1/shopping-assistant/query", "/consumer/claim-decision", "/api/v1/feedback/reports",
    "/api/v1/analytics/events"}

  const COOKIE_SESSION_MUTATION_PATHS := {"/account/clear-device"}

  /** `cookie_origin_applies`. */
  predicate Applies(verb: string, path: string, cookie: bool) {
    && Upper(verb) in UNSAFE_METHODS
    && (path in COOKIE_SESSION_MUTATION_PATHS || (path in COOKIE_AUTHORIZED_MUTATION_PATHS && cookie))
  }

  /** `dispatch`: true when the request reaches its handler. */
  function Dispatch(
    literal: string -> bool, verb: string, path: string, cookie: bool, raw: Option<string>, trusted: set<string>)
    : bool
  {
    !Applies(verb, path, cookie) || Evaluate(literal, raw, trusted).allowed
  }

  /**
   * Where the policy applies, a request reaches its handler exactly when its header spells an
   * origin that some configured entry spells too, in whatever letters, dots, ports or paths.
   */
  lemma MutationPassesExactlyWhen(
    literal: string -> bool, entries: seq<string>, requireHttps: bool, trusted: set<string>,
    verb: string, path: string, cookie: bool, raw: Option<string>)
    requires forall o :: o in trusted <==> ConfiguredAs(literal, entries, requireHttps, o)
    ensures Dispatch(literal, verb, path, cookie, raw, trusted) <==>
            || !Applies(verb, path, cookie)
            || (raw.Some? && exists i, o ::
                  && 0 <= i < |entries| && SpellsOrigin(literal, raw.value, Some(o))
                  && ConfiguresOrigin(literal, entries[i], requireHttps, o))
  {
    hide Applies, Evaluate, SpellsOrigin, ConfiguresOrigin, ConfiguredOrigin;
    AllowedExactlyWhen(literal, raw, trusted);
    forall i, o | 0 <= i < |entries|
      ensures ConfiguredOrigin(literal, entries[i], requireHttps) == Some(o) <==>
              ConfiguresOrigin(literal, entries[i], requireHttps, o)
    {
      EntryIsTrustedExactlyWhen(literal, entries[i], requireHttps, o);
    }
  }

  // Trusted origins.

  lemma {:induction false} DropControlsTail(s: string)
    ensures |DropControls(s)| <= |s| && DropControls(s) == s[|s| - |DropControls(s)|..]
  {
    if s != "" && s[0] as int <= 32 {
      DropControlsTail(s[1..]);
    }
  }

  lemma RestAuthority(scheme: string, rest: string)
    requires NoSpace(rest)
    ensures AuthorityText(SplitRest(scheme, rest).netloc)
  {
    if StartsWith(rest, "//") {
      var after := rest[2..];
      assert NoSpace(after);
      assert AuthorityText(after[..AuthorityEnd(after)]);
    }
  }

  /** The authority is a stretch of the text. */
  lemma AuthorityInText(value: string)
    requires NoSpace(value)
    ensures AuthorityText(SplitUrl(value).netloc)
  {
    hide SplitRest;
    DropControlsTail(value);
    var url := DropControls(value);
    assert NoSpace(url);
    var i := IndexOf(url, ':');
    if 0 < i < |url| && IsLetter(url[0]) && SchemeChars(url[..i]) {
      assert NoSpace(url[i + 1..]);
      RestAuthority(Lower(url[..i]), url[i + 1..]);
    } else {
      RestAuthority("", url);
    }
  }

  lemma LowerHostChars(h: string)
    requires HostChars(h)
    ensures HostChars(Lower(h)) && (':' in Lower(h) <==> ':' in h) && ('[' !in h ==> '[' !in Lower(h))
  {
    forall i | 0 <= i < |h|
      ensures HostChar(Lower(h)[i]) && (Lower(h)[i] == ':' <==> h[i] == ':') && (Lower(h)[i] == '[' <==> h[i] == '[')
    {
      assert HostChar(h[i]);
    }
    if ':' in h {
      LowerKeepsColon(h);
    }
  }

  /** The host of an authority: its characters, and a colon only in an address literal. */
  lemma AuthorityHost(literal: string -> bool, netloc: string)
    requires StableLiterals(literal) && AuthorityText(netloc) && !RejectedAuthority(netloc)
    requires ParseAuthority(literal, netloc).Some?
    ensures var host := ParseAuthority(literal, netloc).value.host;
            && HostChars(host) && Lower(host) == host
            && (':' in host ==> literal(Lower(StripDots(host))))
    ensures var port := ParseAuthority(literal, netloc).value.port;
            port.Some? ==> port.value <= 65535
  {
    if '[' in netloc || ']' in netloc {
      var raw := netloc[1..IndexOf(netloc, ']')];
      assert StableLiteral(literal, raw);
      assert literal(raw) && '%' !in raw;
      assert ']' !in raw by {
        assert ']' !in netloc[..IndexOf(netloc, ']')];
        assert raw == netloc[..IndexOf(netloc, ']')][1..];
      }
      assert HostChars(raw);
      LowerHostChars(raw);
      LowerTwice(raw);
    } else {
      var raw := netloc[..IndexOf(netloc, ':')];
      assert HostChars(raw);
      LowerHostChars(raw);
      LowerTwice(raw);
    }
  }

  lemma FormatText(scheme: string, host: string, port: Option<nat>, text: PortText)
    requires WebScheme(scheme) && Lower(StripDots(host)) != ""
    requires text == if port.None? || port == Some(DefaultPort(scheme)) then NoPort else PortText(Decimal(port.value))
    ensures var bare := Lower(StripDots(host));
            FormatOrigin(scheme, host, port) == Some(Spelling(scheme, bare, ':' in bare, text, false).Text())
  {
    hide Lower, StripDots, Decimal;
    var bare := Lower(StripDots(host));
    var s := Spelling(scheme, bare, ':' in bare, text, false);
    var shown := if ':' in bare then "[" + bare + "]" else bare;
    if text.PortText? {
      assert s.Text() == scheme + "://" + shown + ":" + Decimal(port.value);
    } else {
      assert s.Text() == scheme + "://" + shown;
    }
  }

  lemma BareHost(host: string)
    requires HostChars(host) && Lower(host) == host && StripDots(host) != ""
    ensures var bare := Lower(StripDots(host));
            HostChars(bare) && Lower(bare) == bare && Lower(StripDots(bare)) == bare && (':' in bare ==> ':' in host)
  {
    var bare := Lower(StripDots(host));
    DotsGone(host);
    assert bare == StripDots(host) && HostChars(bare);
    LowerHostChars(bare);
    NoDots(bare);
  }

  /** The serialization of a host and port is itself a spelling, and is read as itself. */
  lemma FormatIsSpelling(literal: string -> bool, scheme: string, host: string, port: Option<nat>)
      returns (s: Spelling)
    requires WebScheme(scheme) && HostChars(host) && Lower(host) == host
    requires ':' in host ==> literal(Lower(StripDots(host)))
    requires port.Some? ==> port.value <= 65535
    requires FormatOrigin(scheme, host, port).Some?
    ensures s.Formed(literal) && s.scheme == scheme && !s.slash
    ensures Some(s.Text()) == FormatOrigin(scheme, host, port)
    ensures FormatOrigin(Lower(s.scheme), Lower(s.host), s.port.Value()) == FormatOrigin(scheme, host, port)
  {
    hide Decimal, StripDots, HostChars, Spelling.Text;
    assert Lower(scheme) == scheme;
    var bare := Lower(StripDots(host));
    BareHost(host);
    hide Lower;
    var portText := if port.None? || port == Some(DefaultPort(scheme)) then NoPort else PortText(Decimal(port.value));
    if portText.PortText? {
      DecimalValue(port.value);
    }
    s := Spelling(scheme, bare, ':' in bare, portText, false);
    FormatText(scheme, host, port, portText);
    FormatText(scheme, bare, s.port.Value(), portText);
  }

  /** A configured origin is the spelling of a web origin that serializes as itself. */
  lemma ConfiguredIsSpelling(literal: string -> bool, raw: string, requireHttps: bool) returns (s: Spelling)
    requires StableLiterals(literal) && ConfiguredOrigin(literal, raw, requireHttps).Some?
    ensures s.Formed(literal) && (requireHttps ==> s.scheme == "https")
    ensures Some(s.Text()) == ConfiguredOrigin(literal, raw, requireHttps)
    ensures FormatOrigin(Lower(s.scheme), Lower(s.host), s.port.Value()) == Some(s.Text())
  {
    var value := Strip(raw);
    var parts := SplitUrl(value);
    assert NoSpace(value);
    AuthorityInText(value);
    AuthorityHost(literal, parts.netloc);
    var authority := ParseAuthority(literal, parts.netloc).value;
    s := FormatIsSpelling(literal, parts.scheme, authority.host, authority.port);
  }

  /** The brackets of a spelling are balanced exactly when its text does not open one without closing one. */
  lemma BalancedText(literal: string -> bool, s: Spelling)
    requires s.Formed(literal)
    ensures s.Balanced() <==> ('[' in s.Text() ==> ']' in s.Text())
  {
    SchemeLetters(s.scheme);
    var rest, slash := s.host + s.port.Text(), if s.slash then "/" else "";
    assert ']' !in rest && ('[' in rest <==> '[' in s.host);
    assert '[' !in s.scheme && ']' !in s.scheme;
    hide Spelling.Formed, HostChars, PortText.Text, AllDigits;
    if s.bracketed {
      assert s.Text() == s.scheme + "://" + "[" + s.host + ("]" + s.port.Text() + slash);
    } else {
      assert s.Text() == s.scheme + "://" + rest + slash;
    }
  }

  /** The request parser serves the text: short, no NUL, no bracket that stays open. */
  predicate Serviceable(origin: string) {
    |origin| <= MAX_ORIGIN_LENGTH && '\0' !in origin && ('[' in origin ==> ']' in origin)
  }

  /** How the request parser reads a configured origin. */
  lemma RequestReadsConfigured(literal: string -> bool, raw: string, requireHttps: bool, origin: string)
    requires StableLiterals(literal) && ConfiguredOrigin(literal, raw, requireHttps) == Some(origin)
    ensures RequestOrigin(literal, Some(origin)) ==
              if Serviceable(origin) then Parsed(Accepted, Some(origin)) else Parsed(Malformed, None)
    ensures requireHttps ==> StartsWith(origin, "https://")
  {
    hide RequestOrigin, ConfiguredOrigin, FormatOrigin, Spelling.Formed, Spelling.Text, StableLiterals;
    var s := ConfiguredIsSpelling(literal, raw, requireHttps);
    RequestReads(literal, s);
    BalancedText(literal, s);
    HttpsText(s);
  }

  lemma HttpsText(s: Spelling)
    ensures s.scheme == "https" ==> StartsWith(s.Text(), "https://")
  {
    hide Spelling.Authority;
    assert s.scheme == "https" ==> s.Text()[..8] == "https://";
  }

  /**
   * A trusted origin is a fixed point of the request parser, and is allowed, exactly when it
   * has at most 200 characters, no NUL and no bracket that stays open; every other trusted
   * origin is refused as malformed.
   */
  lemma TrustedIsAllowedExactlyWhen(
    literal: string -> bool, entries: seq<string>, requireHttps: bool, trusted: set<string>, origin: string)
    requires StableLiterals(literal)
    requires forall o :: o in trusted <==> ConfiguredAs(literal, entries, requireHttps, o)
    requires origin in trusted
    ensures Serviceable(origin) ==>
              && RequestOrigin(literal, Some(origin)) == Parsed(Accepted, Some(origin))
              && Evaluate(literal, Some(origin), trusted) == Verdict(true, Accepted)
    ensures !Serviceable(origin) ==> Evaluate(literal, Some(origin), trusted) == Verdict(false, Malformed)
    ensures requireHttps ==> StartsWith(origin, "https://")
  {
    hide RequestOrigin, ConfiguredOrigin, StableLiterals, Serviceable;
    var i :| 0 <= i < |entries| && ConfiguredOrigin(literal, entries[i], requireHttps) == Some(origin);
    RequestReadsConfigured(literal, entries[i], requireHttps, origin);
  }

  // Bracketed hosts.

  predicate IsHexDigit(c: char) {
    IsDigit(c) || 'a' <= LowerChar(c) <= 'f'
  }

  predicate FutureAt(h: string, k: int) {
    && 2 <= k < |h| - 1 && h[0] == 'v' && h[k] == '.' && '\n' !in h[k + 1..]
    && forall i :: 1 <= i < k ==> IsHexDigit(h[i])
  }

  /** `\Av[a-fA-F0-9]+\..+\Z`, an address of a future version. */
  predicate IsFutureAddress(h: string) {
    exists k {:trigger FutureAt(h, k)} | 0 <= k < |h| :: FutureAt(h, k)
  }

  /** What `urlsplit` accepts between brackets. */
  predicate BracketedHost(ipv6: string -> bool, h: string) {
    if StartsWith(h, "v") then IsFutureAddress(h) else ipv6(h)
  }

  /**
   * Without a scope an IPv6 address is hexadecimal groups, colons and dots, does not end in a dot,
   * and forgets case.
   */
  ghost predicate Ipv6Text(ipv6: string -> bool, h: string) {
    ipv6(h) && '%' !in h ==>
      && ipv6(Lower(h)) && h != "" && h[|h| - 1] != '.'
      && forall i :: 0 <= i < |h| ==> IsHexDigit(h[i]) || h[i] == ':' || h[i] == '.'
  }

  ghost predicate Ipv6Texts(ipv6: string -> bool) {
    forall h :: Ipv6Text(ipv6, h)
  }

  lemma FutureIsStable(h: string, k: int)
    requires FutureAt(h, k) && ':' in h
    ensures FutureAt(StripDots(Lower(h)), k)
  {
    var low, t := Lower(h), StripDots(Lower(h));
    DotsGone(low);
    var c :| 0 <= c < |h| && h[c] == ':';
    assert low[c] == ':' && c > k;
    KeepsColon(low, c);
    assert t == low[..|t|];
    assert low[0] == 'v' && low[k] == '.';
    forall i | 1 <= i < k
      ensures IsHexDigit(t[i])
    {
      assert IsHexDigit(h[i]) && t[i] == LowerChar(h[i]);
    }
    forall i | k < i < |t|
      ensures t[i] != '\n'
    {
      assert h[k + 1..][i - k - 1] == h[i];
    }
  }

  lemma {:induction false} KeepsColon(s: string, c: nat)
    requires c < |s| && s[c] == ':'
    ensures |StripDots(s)| > c
  {
    if s[|s| - 1] == '.' {
      KeepsColon(s[..|s| - 1], c);
    }
  }

  /** What the library accepts between brackets is stable, so the theorems above speak of it. */
  lemma LibraryLiteralsAreStable(ipv6: string -> bool)
    requires Ipv6Texts(ipv6)
    ensures StableLiterals(h => BracketedHost(ipv6, h))
  {
    var literal := h => BracketedHost(ipv6, h);
    forall h
      ensures StableLiteral(literal, h)
    {
      if literal(h) && ':' in h && '%' !in h {
        LibraryLiteralIsStable(ipv6, h);
      }
    }
  }

  lemma LibraryLiteralIsStable(ipv6: string -> bool, h: string)
    requires Ipv6Texts(ipv6) && BracketedHost(ipv6, h) && ':' in h && '%' !in h
    ensures BracketedHost(ipv6, Lower(StripDots(Lower(h))))
  {
    var t := StripDots(Lower(h));
    DotsGone(h);
    LowerTwice(StripDots(h));
    assert Lower(t) == t;
    if StartsWith(h, "v") {
      var k :| 0 <= k < |h| && FutureAt(h, k);
      FutureIsStable(h, k);
      assert t[..1] == "v";
    } else {
      assert Ipv6Text(ipv6, h);
      assert Lower(h)[|h| - 1] != '.';
      NoDots(Lower(h));
      assert IsHexDigit(h[0]) || h[0] == ':' || h[0] == '.';
      assert Lower(h)[0] != 'v';
    }
  }

  // Trusted origins that the request parser refuses.

  function Repeat(c: char, n: nat): string {
    seq(n, i => c)
  }

  /** Without scheme case, port and dots in the way: what a host under https reads as. */
  lemma HttpsHost(literal: string -> bool, host: string, bracketed: bool) returns (s: Spelling)
    requires host != "" && HostChars(host) && Lower(host) == host && host[|host| - 1] != '.'
    requires if bracketed then literal(host) else ':' !in host
    ensures s == Spelling("https", host, bracketed, NoPort, false) && s.Formed(literal)
    ensures s.Text() == "https://" + if bracketed then "[" + host + "]" else host
    ensures ':' !in host ==> FormatOrigin(Lower(s.scheme), Lower(s.host), s.port.Value()) == Some("https://" + host)
  {
    hide HostChars, StripDots;
    s := Spelling("https", host, bracketed, NoPort, false);
    assert Lower("https") == "https";
    NoDots(host);
    var shown := if bracketed then "[" + host + "]" else host;
    assert s.Authority() == shown;
    assert s.Text() == "https://" + shown;
    assert "https" + "://" + host == "https://" + host;
  }

  /** An origin of 201 characters: trusted, and refused. */
  lemma LongOriginIsRefused(literal: string -> bool, requireHttps: bool)
    ensures var origin := "https://" + Repeat('a', 193);
            && ConfiguredOrigin(literal, origin, requireHttps) == Some(origin)
            && RequestOrigin(literal, Some(origin)) == Parsed(Malformed, None)
  {
    hide ConfiguredOrigin, RequestOrigin, Spelling.Text, Spelling.Formed, FormatOrigin;
    var host := Repeat('a', 193);
    assert HostChars(host) && Lower(host) == host && ':' !in host && '[' !in host;
    var s := HttpsHost(literal, host, false);
    assert Lower("https") == "https";
    ConfigurationReads(literal, s, requireHttps);
    RequestReads(literal, s);
  }

  lemma OpenBracketHost(ipv6: string -> bool)
    ensures var host := "v1.[x";
            && BracketedHost(ipv6, host) && HostChars(host) && Lower(host) == host && ':' !in host && '[' in host
            && Lower("https") == "https"
  {
    assert FutureAt("v1.[x", 2) && "v1.[x"[..1] == "v" && "v1.[x"[3] == '[';
  }

  /** A bracketed host with a bracket inside: trusted without the outer ones, and refused. */
  lemma OpenBracketIsRefused(ipv6: string -> bool, requireHttps: bool)
    ensures var literal := h => BracketedHost(ipv6, h);
            && ConfiguredOrigin(literal, "https://[v1.[x]", requireHttps) == Some("https://v1.[x")
            && RequestOrigin(literal, Some("https://v1.[x")) == Parsed(Malformed, None)
  {
    hide ConfiguredOrigin, RequestOrigin, Spelling.Text, Spelling.Formed, FormatOrigin;
    var literal := h => BracketedHost(ipv6, h);
    var host := "v1.[x";
    OpenBracketHost(ipv6);
    var written := HttpsHost(literal, host, true);
    var shown := HttpsHost(literal, host, false);
    assert "https://" + ("[" + host + "]") == "https://[v1.[x]" && "https://" + host == "https://v1.[x";
    ConfigurationReads(literal, written, requireHttps);
    RequestReads(literal, shown);
  }
}
