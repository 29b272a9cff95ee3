/**
 Rules as lines of text: how a line is read, how a rule is printed, and which rules come back
 from their own printing.
 */
module Rules {
  import opened Common
  import opened Text
  import opened Destination

  const DEFAULT_PORT := 443
  const MAX_HOST_LEN := 253
  const MAX_PORT := 65535

  datatype RuleError = Empty | HasScheme | HasPath | BadPort | BadHost | BadWildcard | TooBroad

  // ---- hosts ----

  predicate IsLowerAlnum(c: char) {
    'a' <= c <= 'z' || IsDigit(c)
  }

  function LowerChar(c: char): char {
    if 'A' <= c <= 'Z' then (c as int + 32) as char else c
  }

  function Lower(s: string): (r: string)
    ensures |r| == |s|
  {
    seq(|s|, i requires 0 <= i < |s| => LowerChar(s[i]))
  }

  predicate IsHostChar(c: char) {
    IsLowerAlnum(LowerChar(c)) || c == '.' || c == '-' || c == '_' || c == ':' || c == '*'
  }

  predicate DoubleDot(s: string) {
    exists i :: 0 <= i < |s| - 1 && s[i] == '.' && s[i + 1] == '.'
  }

  predicate EndsInDot(s: string) {
    s != "" && s[|s|-1] == '.'
  }

  function StripDot(s: string): string {
    if EndsInDot(s) then s[..|s|-1] else s
  }

  /** A host as far as its characters go. */
  predicate HostChars(s: string) {
    && s != "" && |s| <= MAX_HOST_LEN && s[0] != '.' && !DoubleDot(s)
    && forall i :: 0 <= i < |s| ==> IsHostChar(s[i])
  }

  function NormaliseHost(ip: AddressText, host: string): Option<string> {
    var h := StripDot(host);
    if !HostChars(h) || (':' in h && ip.parse(h).None?) then None else Some(Lower(h))
  }

  /** How many non-empty labels a name has. */
  function LabelCount(s: string): nat {
    if s == "" then 0
    else LabelCount(s[..|s|-1]) + (if s[|s|-1] != '.' && (|s| == 1 || s[|s|-2] == '.') then 1 else 0)
  }

  // ---- reading a line ----

  predicate HasSchemeMark(s: string) {
    exists i :: 0 <= i < |s| - 2 && s[i] == ':' && s[i + 1] == '/' && s[i + 2] == '/'
  }

  /** Split `host:port`; none for a bare host or an unbracketed IPv6 literal. */
  function SplitAuthority(text: string): Option<(string, string)> {
    if text != "" && text[0] == '[' then
      var rest := text[1..];
      var close := Find(rest, ']');
      if close.None? then None
      else
        var tail := rest[close.value + 1..];
        if tail == "" || tail[0] != ':' then None else Some((rest[..close.value], tail[1..]))
    else
      var colon := FindLast(text, ':');
      if colon.None? || ':' in text[..colon.value] then None
      else Some((text[..colon.value], text[colon.value + 1..]))
  }

  function ParsePort(s: string): Option<nat> {
    var p := ParseUnsigned(s, MAX_PORT);
    if p == Some(0) then None else p
  }

  predicate HasWildcard(s: string) {
    |s| >= 2 && s[0] == '*' && s[1] == '.'
  }

  function ParsePattern(ip: AddressText, host: string): Result<HostPattern, RuleError> {
    if HasWildcard(host) then
      var rest := host[2..];
      if rest == "" then Err(TooBroad)
      else
        var name := NormaliseHost(ip, rest);
        if name.None? then Err(BadHost)
        else if LabelCount(name.value) < 2 then Err(TooBroad)
        else if '*' in name.value then Err(BadWildcard)
        else Ok(Subdomains(name.value))
    else if '*' in host then Err(BadWildcard)
    else
      var name := NormaliseHost(ip, host);
      if name.None? then Err(BadHost)
      else
        var addr := ip.parse(name.value);
        if addr.Some? then Ok(Address(addr.value)) else Ok(Exact(name.value))
  }

  function RuleFrom(ip: AddressText, host: string, port: Option<nat>): Result<Rule, RuleError> {
    if port.None? then Err(BadPort)
    else
      var p := ParsePattern(ip, host);
      if p.Err? then Err(p.error) else Ok(Rule(p.value, port.value))
  }

  /** A trimmed line that is not a URL. */
  function ParseAuthority(ip: AddressText, text: string): Result<Rule, RuleError> {
    var split := SplitAuthority(text);
    if split.None? then RuleFrom(ip, text, Some(DEFAULT_PORT))
    else RuleFrom(ip, split.value.0, ParsePort(split.value.1))
  }

  function ParseRule(ip: AddressText, line: string): Result<Rule, RuleError> {
    var text := Trim(line);
    if text == "" then Err(Empty)
    else if HasSchemeMark(text) then Err(HasScheme)
    else if '/' in text then Err(HasPath)
    else ParseAuthority(ip, text)
  }

  // ---- printing one ----

  function PatternText(ip: AddressText, p: HostPattern): string {
    match p
    case Exact(name) => name
    case Subdomains(name) => "*." + name
    case Address(addr) => ip.show(addr)
  }

  function AsLine(ip: AddressText, r: Rule): string {
    var host := PatternText(ip, r.host);
    if r.port == DEFAULT_PORT then host else host + ":" + Decimal(r.port)
  }

  /** What is taken from the standard library about address text. */
  ghost predicate Lawful(ip: AddressText) {
    && (forall s :: ip.parse(s).Some? ==> ip.parse(Lower(s)) == ip.parse(s))
    && (forall s :: ip.parse(s).Some? && ':' in s ==> TwoColons(s))
    && (forall s :: ip.parse(s).Some? ==> Printable(ip, ip.parse(s).value))
  }

  /** A printed address reads back, and is lower-case host text without stray dots. */
  ghost predicate Printable(ip: AddressText, addr: IpAddr) {
    var t := ip.show(addr);
    ip.parse(t) == Some(addr) && HostChars(t) && Lower(t) == t && !EndsInDot(t) && '*' !in t
  }

  predicate TwoColons(s: string) {
    exists i, j :: 0 <= i < j < |s| && s[i] == ':' && s[j] == ':'
  }

  // ---- what a parsed rule looks like ----

  /** A stored name: normalised host text without a wildcard. */
  predicate NameOk(name: string) {
    HostChars(name) && Lower(name) == name && '*' !in name && (':' in name ==> TwoColons(name))
  }

  ghost predicate PatternOk(ip: AddressText, p: HostPattern) {
    match p
    case Exact(name) => NameOk(name) && ':' !in name && ip.parse(name).None?
    case Subdomains(name) => NameOk(name) && LabelCount(name) >= 2 && (':' in name ==> ip.parse(name).Some?)
    case Address(addr) => Printable(ip, addr)
  }

  ghost predicate RuleOk(ip: AddressText, r: Rule) {
    PatternOk(ip, r.host) && 0 < r.port <= 65535
  }

  lemma LowerChars(s: string, i: nat)
    requires i < |s|
    ensures Lower(s)[i] == ':' <==> s[i] == ':'
    ensures Lower(s)[i] == '.' <==> s[i] == '.'
    ensures Lower(s)[i] == '*' <==> s[i] == '*'
    ensures IsHostChar(Lower(s)[i]) <==> IsHostChar(s[i])
    ensures LowerChar(Lower(s)[i]) == Lower(s)[i]
  {
  }

  lemma LowerKeeps(s: string)
    ensures HostChars(s) ==> HostChars(Lower(s))
    ensures Lower(Lower(s)) == Lower(s)
    ensures ':' in Lower(s) <==> ':' in s
    ensures TwoColons(s) ==> TwoColons(Lower(s))
  {
    forall i: nat | i < |s|
      ensures (Lower(s)[i] == ':' <==> s[i] == ':') && (Lower(s)[i] == '.' <==> s[i] == '.')
      ensures (IsHostChar(Lower(s)[i]) <==> IsHostChar(s[i])) && LowerChar(Lower(s)[i]) == Lower(s)[i]
    {
      LowerChars(s, i);
    }
    if ':' in s {
      var i :| 0 <= i < |s| && s[i] == ':';
      assert Lower(s)[i] == ':';
    }
    if TwoColons(s) {
      var i, j :| 0 <= i < j < |s| && s[i] == ':' && s[j] == ':';
      assert Lower(s)[i] == ':' && Lower(s)[j] == ':';
    }
  }

  lemma NormalisedOk(ip: AddressText, host: string)
    requires Lawful(ip) && NormaliseHost(ip, host).Some?
    ensures var name := NormaliseHost(ip, host).value;
            && HostChars(name) && Lower(name) == name && (':' in name ==> TwoColons(name))
            && (':' in name ==> ip.parse(name).Some?)
  {
    LowerKeeps(StripDot(host));
  }

  lemma ParsedPatternOk(ip: AddressText, host: string)
    requires Lawful(ip) && ParsePattern(ip, host).Ok?
    ensures PatternOk(ip, ParsePattern(ip, host).value)
  {
    if HasWildcard(host) {
      NormalisedOk(ip, host[2..]);
    } else {
      NormalisedOk(ip, host);
      NoStar(ip, host);
    }
  }

  lemma ParsedOk(ip: AddressText, line: string)
    requires Lawful(ip) && ParseRule(ip, line).Ok?
    ensures RuleOk(ip, ParseRule(ip, line).value)
  {
    AuthorityOk(ip, Trim(line));
  }

  lemma PortOk(s: string)
    ensures ParsePort(s).Some? ==> 0 < ParsePort(s).value <= 65535
  {
  }

  lemma AuthorityOk(ip: AddressText, text: string)
    requires Lawful(ip) && ParseAuthority(ip, text).Ok?
    ensures RuleOk(ip, ParseAuthority(ip, text).value)
  {
    var split := SplitAuthority(text);
    if split.None? {
      RuleFromOk(ip, text, Some(443));
    } else {
      PortOk(split.value.1);
      RuleFromOk(ip, split.value.0, ParsePort(split.value.1));
    }
  }

  lemma RuleFromOk(ip: AddressText, host: string, port: Option<nat>)
    requires Lawful(ip) && RuleFrom(ip, host, port).Ok? && 0 < port.value <= 65535
    ensures RuleOk(ip, RuleFrom(ip, host, port).value)
  {
    ParsedPatternOk(ip, host);
  }

  lemma NoStar(ip: AddressText, host: string)
    requires '*' !in host && NormaliseHost(ip, host).Some?
    ensures '*' !in NormaliseHost(ip, host).value
  {
    var h := StripDot(host);
    forall i: nat | i < |h| ensures Lower(h)[i] != '*' {
      LowerChars(h, i);
      assert h[i] == host[i] && host[i] in host;
    }
  }

  // ---- which rules come back from their own line ----

  /** The rules the printed form loses: colons before an explicit port, and a name left with a final dot. */
  predicate Unprintable(ip: AddressText, r: Rule) {
    || (r.port != 443 && ':' in PatternText(ip, r.host))
    || (!r.host.Address? && EndsInDot(r.host.name))
  }

  predicate PlainText(s: string) {
    s != "" && forall i :: 0 <= i < |s| ==> IsHostChar(s[i])
  }

  lemma HostCharsArePlain(s: string)
    requires PlainText(s)
    ensures Trim(s) == s && s[0] != '[' && '/' !in s && !HasSchemeMark(s)
  {
    assert IsHostChar(s[0]) && IsHostChar(s[|s|-1]);
    TrimNothing(s);
  }

  lemma PatternIsPlain(ip: AddressText, p: HostPattern)
    requires PatternOk(ip, p)
    ensures PlainText(PatternText(ip, p))
  {
  }

  lemma LineIsPlain(ip: AddressText, r: Rule)
    requires RuleOk(ip, r)
    ensures PlainText(AsLine(ip, r))
  {
    PatternIsPlain(ip, r.host);
    var host, digits := PatternText(ip, r.host), Decimal(r.port);
    var line := AsLine(ip, r);
    forall i | 0 <= i < |line| ensures IsHostChar(line[i]) {
      if i > |host| { assert line[i] == digits[i - |host| - 1] && digits[i - |host| - 1] in digits; }
    }
  }

  /** A line without a bracket splits at its last colon, if that is its only one. */
  lemma SplitPlain(host: string, port: string)
    requires PlainText(host + ":" + port) && ':' !in port
    ensures SplitAuthority(host + ":" + port) == if ':' in host then None else Some((host, port))
  {
    var text := host + ":" + port;
    HostCharsArePlain(text);
    assert text[|host|] == ':' && text[..|host|] == host && text[|host| + 1..] == port;
    forall j | |host| < j < |text| ensures text[j] != ':' { assert text[j] == port[j - |host| - 1]; }
    assert FindLast(text, ':') == Some(|host|);
  }

  lemma SplitBare(text: string)
    requires PlainText(text) && (':' in text ==> TwoColons(text))
    ensures SplitAuthority(text).None?
  {
    HostCharsArePlain(text);
    var colon := FindLast(text, ':');
    if colon.Some? {
      var i, j :| 0 <= i < j < |text| && text[i] == ':' && text[j] == ':';
      assert i < colon.value && text[..colon.value][i] == ':';
    }
  }

  lemma WildcardColons(name: string)
    ensures ':' in "*." + name <==> ':' in name
    ensures TwoColons(name) ==> TwoColons("*." + name)
  {
    var t := "*." + name;
    assert t[2..] == name && t[0] == '*' && t[1] == '.';
    if TwoColons(name) {
      var i, j :| 0 <= i < j < |name| && name[i] == ':' && name[j] == ':';
      assert t[i + 2] == ':' && t[j + 2] == ':';
    }
  }

  lemma TextColons(ip: AddressText, p: HostPattern)
    requires Lawful(ip) && PatternOk(ip, p) && ':' in PatternText(ip, p)
    ensures TwoColons(PatternText(ip, p))
  {
    if p.Subdomains? {
      WildcardColons(p.name);
    }
  }

  /** How a printed rule is split again. */
  lemma LineSplits(ip: AddressText, r: Rule)
    requires Lawful(ip) && RuleOk(ip, r)
    ensures var host := PatternText(ip, r.host);
            SplitAuthority(AsLine(ip, r)) ==
              if r.port == 443 || ':' in host then None else Some((host, Decimal(r.port)))
    ensures ParsePort(Decimal(r.port)) == Some(r.port)
  {
    LineIsPlain(ip, r);
    ParseDecimal(r.port, 65535);
    var host := PatternText(ip, r.host);
    if r.port == 443 {
      if ':' in host { TextColons(ip, r.host); }
      SplitBare(host);
    } else {
      SplitPlain(host, Decimal(r.port));
    }
  }

  lemma NormaliseName(ip: AddressText, name: string)
    requires HostChars(name) && Lower(name) == name && (':' in name ==> ip.parse(name).Some?)
    ensures !EndsInDot(name) ==> NormaliseHost(ip, name) == Some(name)
    ensures NormaliseHost(ip, name) == Some(name) ==> !EndsInDot(name)
  {
  }

  lemma NoWildcard(s: string)
    requires s != "" && '*' !in s
    ensures !HasWildcard(s)
  {
    assert s[0] in s;
  }

  lemma ExactRoundTrip(ip: AddressText, name: string)
    requires PatternOk(ip, Exact(name))
    ensures ParsePattern(ip, name) == Ok(Exact(name)) <==> !EndsInDot(name)
  {
    NoWildcard(name);
    NormaliseName(ip, name);
  }

  lemma WildcardRoundTrip(ip: AddressText, name: string)
    requires PatternOk(ip, Subdomains(name))
    ensures ParsePattern(ip, "*." + name) == Ok(Subdomains(name)) <==> !EndsInDot(name)
  {
    var t := "*." + name;
    assert HasWildcard(t) && t[2..] == name;
    NormaliseName(ip, name);
  }

  lemma AddressRoundTrip(ip: AddressText, addr: IpAddr)
    requires Printable(ip, addr)
    ensures ParsePattern(ip, ip.show(addr)) == Ok(Address(addr))
  {
    NoWildcard(ip.show(addr));
    NormaliseName(ip, ip.show(addr));
  }

  /** The host part of a line is read back exactly when the name has no final dot. */
  lemma PatternRoundTrip(ip: AddressText, p: HostPattern)
    requires PatternOk(ip, p)
    ensures ParsePattern(ip, PatternText(ip, p)) == Ok(p) <==> p.Address? || !EndsInDot(p.name)
  {
    match p
    case Exact(name) => ExactRoundTrip(ip, name);
    case Subdomains(name) => WildcardRoundTrip(ip, name);
    case Address(addr) => AddressRoundTrip(ip, addr);
  }

  lemma PlainParse(ip: AddressText, line: string)
    requires PlainText(line)
    ensures ParseRule(ip, line) == ParseAuthority(ip, line)
  {
    HostCharsArePlain(line);
  }

  /** What is read back from a printed rule: the printed host, or the whole line if it holds a colon too many. */
  lemma ReadBack(ip: AddressText, r: Rule)
    requires Lawful(ip) && RuleOk(ip, r)
    ensures var host, line := PatternText(ip, r.host), AsLine(ip, r);
            ParseRule(ip, line) ==
              if r.port != 443 && ':' in host then RuleFrom(ip, line, Some(443))
              else RuleFrom(ip, host, Some(r.port))
  {
    LineIsPlain(ip, r);
    PlainParse(ip, AsLine(ip, r));
    LineSplits(ip, r);
  }

  /** A rule that a line can produce comes back from its own line exactly when it is not unprintable. */
  lemma RuleRoundTrip(ip: AddressText, r: Rule)
    requires Lawful(ip) && RuleOk(ip, r)
    ensures ParseRule(ip, AsLine(ip, r)) == Ok(r) <==> !Unprintable(ip, r)
  {
    ReadBack(ip, r);
    PatternRoundTrip(ip, r.host);
  }

  /** For every line: what it parses to is printed and read back, unless it is one of the two kinds. */
  lemma ParsedRuleRoundTrip(ip: AddressText, line: string)
    requires Lawful(ip) && ParseRule(ip, line).Ok?
    ensures var r := ParseRule(ip, line).value;
            ParseRule(ip, AsLine(ip, r)) == Ok(r) <==> !Unprintable(ip, r)
  {
    ParsedOk(ip, line);
    RuleRoundTrip(ip, ParseRule(ip, line).value);
  }

  /** The host and port of an address in brackets. */
  function Bracketed(host: string, port: string): string {
    "[" + host + "]:" + port
  }

  lemma BracketedSplits(host: string, port: string)
    requires ']' !in host
    ensures SplitAuthority(Bracketed(host, port)) == Some((host, port))
  {
    var text, n := Bracketed(host, port), |host|;
    var rest := text[1..];
    assert rest == host + "]:" + port;
    assert rest[n] == ']' && rest[..n] == host && rest[n + 1..] == ":" + port;
    forall j | 0 <= j < n ensures rest[j] != ']' { assert rest[j] == host[j]; }
    assert Find(rest, ']') == Some(n);
    assert (":" + port)[1..] == port;
  }

  lemma BracketedIsText(host: string, port: string)
    requires PlainText(host) && AllDigits(port) && port != ""
    ensures var text := Bracketed(host, port);
            text != "" && Trim(text) == text && '/' !in text && !HasSchemeMark(text) && ']' !in host
  {
    var text := Bracketed(host, port);
    forall i | 0 <= i < |text| ensures text[i] != '/' && (i == |text| - 1 ==> IsDigit(text[i])) {
      if 1 <= i < |host| + 1 {
        assert text[i] == host[i - 1];
      } else if i >= |host| + 3 {
        assert text[i] == port[i - |host| - 3] && port[i - |host| - 3] in port;
      }
    }
    assert text[0] == '[';
    TrimNothing(text);
  }

  /** An address on a port is written in brackets. */
  lemma BracketedParses(ip: AddressText, addr: IpAddr, port: nat)
    requires Printable(ip, addr) && 0 < port <= 65535
    ensures ParseRule(ip, Bracketed(ip.show(addr), Decimal(port))) == Ok(Rule(Address(addr), port))
  {
    var host, digits := ip.show(addr), Decimal(port);
    BracketedIsText(host, digits);
    BracketedSplits(host, digits);
    AddressRoundTrip(ip, addr);
    ParseDecimal(port, 65535);
  }

  /** The first kind of loss: an IPv6 literal on any port but 443 reads back as something else. */
  lemma ColonBeforePortIsLost(ip: AddressText, addr: IpAddr, port: nat)
    requires Lawful(ip) && Printable(ip, addr) && ':' in ip.show(addr)
    requires 0 < port <= 65535 && port != 443
    ensures ParseRule(ip, Bracketed(ip.show(addr), Decimal(port))) == Ok(Rule(Address(addr), port))
    ensures ParseRule(ip, AsLine(ip, Rule(Address(addr), port))) != Ok(Rule(Address(addr), port))
  {
    BracketedParses(ip, addr, port);
    RuleRoundTrip(ip, Rule(Address(addr), port));
  }

  /** The second: two final dots leave one in the stored name, and printing it loses that one. */
  lemma FinalDotIsLost(ip: AddressText)
    requires Lawful(ip) && ip.parse("h.").None?
    ensures ParseRule(ip, "h..") == Ok(Rule(Exact("h."), 443))
    ensures ParseRule(ip, AsLine(ip, Rule(Exact("h."), 443))) != Ok(Rule(Exact("h."), 443))
  {
    assert StripDot("h..") == "h." && Lower("h.") == "h.";
    NoWildcard("h..");
    assert ParsePattern(ip, "h..") == Ok(Exact("h."));
    PlainParse(ip, "h..");
    SplitBare("h..");
    RuleRoundTrip(ip, Rule(Exact("h."), 443));
  }

  // ---- what a line is read as, in the terms of names and dots ----

  /** Capital letters become small ones, and nothing else changes. */
  lemma CaseFolds(k: nat, c: char)
    requires k < 26 && !('A' <= c <= 'Z')
    ensures LowerChar(('A' as int + k) as char) == ('a' as int + k) as char && LowerChar(c) == c
  {
  }

  predicate IsNameChar(c: char) {
    'a' <= c <= 'z' || 'A' <= c <= 'Z' || '0' <= c <= '9' || c == '-' || c == '_' || c == '.'
  }

  /** One to 253 letters, digits, dashes, underscores and dots, no dot in front and no two in a row. */
  predicate IsDnsName(s: string) {
    && 1 <= |s| <= 253 && s[0] != '.' && (forall i :: 0 <= i < |s| ==> IsNameChar(s[i]))
    && forall i :: 0 <= i < |s| - 1 ==> !(s[i] == '.' && s[i + 1] == '.')
  }

  lemma NameChars(c: char)
    requires c != '*' && c != ':'
    ensures IsHostChar(c) <==> IsNameChar(c)
  {
  }

  lemma DnsIs(s: string)
    requires '*' !in s && ':' !in s
    ensures HostChars(s) <==> IsDnsName(s)
  {
    forall i | 0 <= i < |s| ensures IsHostChar(s[i]) <==> IsNameChar(s[i]) {
      assert s[i] in s;
      NameChars(s[i]);
    }
    assert DoubleDot(s) <==> !(forall i :: 0 <= i < |s| - 1 ==> !(s[i] == '.' && s[i + 1] == '.'));
  }

  predicate InnerDot(s: string) {
    exists i :: 0 < i < |s| - 1 && s[i] == '.'
  }

  /** The labels are counted by the dots between them. */
  lemma {:induction false} LabelsMean(s: string)
    requires s != "" && s[0] != '.' && forall i :: 0 <= i < |s| - 1 ==> !(s[i] == '.' && s[i + 1] == '.')
    ensures LabelCount(s) >= 1 && (LabelCount(s) >= 2 <==> InnerDot(s))
  {
    if |s| == 1 {
      assert s[..0] == "";
    } else {
      var t, n := s[..|s|-1], |s| - 1;
      LabelsMean(t);
      if InnerDot(t) {
        var i :| 0 < i < |t| - 1 && t[i] == '.';
        assert s[i] == '.';
      }
      if InnerDot(s) {
        var i :| 0 < i < |s| - 1 && s[i] == '.';
        assert i < n - 1 ==> t[i] == '.';
      }
    }
  }

  /** A line without a colon, a slash or a bracket in front is a host on port 443, blanks around it dropped. */
  lemma ColonFreeLine(ip: AddressText, a: string, text: string, b: string)
    requires Blank(a) && Blank(b) && text != "" && !IsSpace(text[0]) && !IsSpace(text[|text|-1])
    requires ':' !in text && '/' !in text && text[0] != '['
    ensures ParseRule(ip, a + text + b) == RuleFrom(ip, text, Some(443))
  {
    TrimSurrounded(a, text, b);
    assert SplitAuthority(text).None?;
    assert !HasSchemeMark(text);
  }

  /** The same with a port behind a colon: the number if it is from 1 to 65535, and else an error. */
  lemma PortLine(ip: AddressText, a: string, host: string, port: nat, b: string)
    requires Blank(a) && Blank(b) && host != "" && !IsSpace(host[0])
    requires ':' !in host && '/' !in host && host[0] != '['
    ensures ParseRule(ip, a + (host + ":" + Decimal(port)) + b) ==
              if 1 <= port <= 65535 then RuleFrom(ip, host, Some(port)) else Err(BadPort)
  {
    var text := host + ":" + Decimal(port);
    PortText(host, port);
    TrimSurrounded(a, text, b);
    PortNumber(port);
  }

  /** With more than one colon and no bracket the whole line is a host on port 443. */
  lemma ManyColonsLine(ip: AddressText, a: string, text: string, b: string)
    requires Blank(a) && Blank(b) && TwoColons(text) && !IsSpace(text[0]) && !IsSpace(text[|text|-1])
    requires '/' !in text && text[0] != '['
    ensures ParseRule(ip, a + text + b) == RuleFrom(ip, text, Some(443))
  {
    TrimSurrounded(a, text, b);
    var colon := FindLast(text, ':');
    var i, j :| 0 <= i < j < |text| && text[i] == ':' && text[j] == ':';
    assert colon.Some? && i < colon.value;
    assert text[..colon.value][i] == ':';
    assert SplitAuthority(text).None?;
  }

  /** Brackets are for an address with a port: without one they are no host. */
  lemma BracketsWantPort(ip: AddressText, host: string)
    requires ']' !in host && '/' !in host
    ensures ParseRule(ip, "[" + host + "]") == Err(BadHost) || '*' in host
  {
    var text := "[" + host + "]";
    assert text[0] == '[' && text[|text|-1] == ']' && text[1..] == host + "]";
    TrimNothing(text);
    assert (host + "]")[|host|] == ']';
    forall j | 0 <= j < |host| ensures (host + "]")[j] != ']' { assert (host + "]")[j] == host[j]; }
    assert Find(text[1..], ']') == Some(|host|);
    assert (host + "]")[|host| + 1..] == "";
    assert SplitAuthority(text).None?;
    assert !HasSchemeMark(text);
    assert !IsHostChar(StripDot(text)[0]);
  }

  lemma PortText(host: string, port: nat)
    requires host != "" && ':' !in host && '/' !in host && host[0] != '['
    ensures var text := host + ":" + Decimal(port);
            && text != "" && text[0] == host[0] && !IsSpace(text[|text|-1]) && '/' !in text && !HasSchemeMark(text)
            && SplitAuthority(text) == Some((host, Decimal(port)))
  {
    var digits := Decimal(port);
    var text := host + ":" + digits;
    assert text[|text|-1] == digits[|digits|-1] && digits[|digits|-1] in digits;
    assert text[|host|] == ':' && text[..|host|] == host && text[|host| + 1..] == digits;
    forall j | |host| < j < |text| ensures text[j] != ':' {
      assert text[j] == digits[j - |host| - 1] && digits[j - |host| - 1] in digits;
    }
    assert FindLast(text, ':') == Some(|host|);
  }

  lemma PortNumber(port: nat)
    ensures ParsePort(Decimal(port)) == if 1 <= port <= 65535 then Some(port) else None
  {
    DecimalValue(port);
    assert Decimal(port)[0] in Decimal(port);
  }

  /** What a host without a colon is read as. */
  lemma HostIs(ip: AddressText, host: string, port: nat)
    requires ':' !in host
    ensures '*' !in host && IsDnsName(StripDot(host)) ==>
              var name := Lower(StripDot(host));
              RuleFrom(ip, host, Some(port)) ==
                Ok(Rule(if ip.parse(name).Some? then Address(ip.parse(name).value) else Exact(name), port))
    ensures '*' !in host && !IsDnsName(StripDot(host)) ==> RuleFrom(ip, host, Some(port)) == Err(BadHost)
    ensures '*' in host && !("*." <= host) ==> RuleFrom(ip, host, Some(port)) == Err(BadWildcard)
  {
    if '*' !in host {
      StripDotKeeps(host);
      DnsIs(StripDot(host));
      if host != "" { NoWildcard(host); }
    }
  }

  lemma StripDotKeeps(host: string)
    ensures forall c :: c in StripDot(host) ==> c in host
    ensures EndsInDot(host) ==> host == StripDot(host) + "."
  {
  }

  /** What a wildcard is read as: at least one inner dot is wanted behind it. */
  lemma WildcardIs(ip: AddressText, name: string, port: nat)
    requires ':' !in name && '*' !in name
    ensures name == "" ==> RuleFrom(ip, "*." + name, Some(port)) == Err(TooBroad)
    ensures name != "" && !IsDnsName(StripDot(name)) ==> RuleFrom(ip, "*." + name, Some(port)) == Err(BadHost)
    ensures IsDnsName(StripDot(name)) ==>
              RuleFrom(ip, "*." + name, Some(port)) ==
                if InnerDot(StripDot(name)) then Ok(Rule(Subdomains(Lower(StripDot(name))), port)) else Err(TooBroad)
  {
    var host, plain := "*." + name, StripDot(name);
    assert HasWildcard(host) && host[2..] == name;
    StripDotKeeps(name);
    DnsIs(plain);
    if IsDnsName(plain) {
      LowerKeeps(plain);
      LowerDots(plain);
      LabelsMean(Lower(plain));
      LowerStar(plain);
    }
  }

  lemma LowerStar(s: string)
    requires '*' !in s
    ensures '*' !in Lower(s)
  {
    forall i: nat | i < |s| ensures Lower(s)[i] != '*' {
      LowerChars(s, i);
      assert s[i] in s;
    }
  }

  lemma LowerDots(s: string)
    ensures InnerDot(Lower(s)) <==> InnerDot(s)
    ensures IsDnsName(s) ==> IsDnsName(Lower(s))
  {
    forall i: nat | i < |s| ensures Lower(s)[i] == '.' <==> s[i] == '.' {
      LowerChars(s, i);
    }
    if InnerDot(s) {
      var i :| 0 < i < |s| - 1 && s[i] == '.';
      assert Lower(s)[i] == '.';
    }
    if InnerDot(Lower(s)) {
      var i :| 0 < i < |s| - 1 && Lower(s)[i] == '.';
      assert s[i] == '.';
    }
  }

  /** A blank line, a URL and a path are refused as such. */
  lemma NotALine(ip: AddressText, line: string)
    ensures Blank(line) ==> ParseRule(ip, line) == Err(Empty)
    ensures HasSchemeMark(Trim(line)) ==> ParseRule(ip, line) == Err(HasScheme)
    ensures '/' in Trim(line) && !HasSchemeMark(Trim(line)) ==> ParseRule(ip, line) == Err(HasPath)
  {
    if Blank(line) { TrimBlank(line); }
  }

  // ---- whole lists ----

  type Parsed = Result<Rule, RuleError>

  /** All or nothing; a rule already there is not added again. */
  function Collect(rs: seq<Parsed>): Result<Allowlist, RuleError> {
    if rs == [] then Ok([])
    else
      var init, last := Collect(rs[..|rs|-1]), rs[|rs|-1];
      if init.Err? then init
      else if last.Err? then Err(last.error)
      else if last.value in init.value then init
      else Ok(init.value + [last.value])
  }

  function Parses(ip: AddressText, lines: seq<string>): seq<Parsed> {
    seq(|lines|, i requires 0 <= i < |lines| => ParseRule(ip, lines[i]))
  }

  function ParseList(ip: AddressText, lines: seq<string>): Result<Allowlist, RuleError> {
    Collect(Parses(ip, lines))
  }

  method ParseLines(ip: AddressText, lines: seq<string>) returns (r: Result<Allowlist, RuleError>)
    ensures r == ParseList(ip, lines)
  {
    var rules := [];
    ghost var all := Parses(ip, lines);
    for i := 0 to |lines|
      invariant Collect(all[..i]) == Ok(rules)
    {
      CollectMore(all, i, rules);
      var rule := ParseRule(ip, lines[i]);
      if rule.Err? {
        ErrorStays(all, i + 1);
        return Err(rule.error);
      }
      if rule.value !in rules {
        rules := rules + [rule.value];
      }
    }
    assert all[..|lines|] == all;
    return Ok(rules);
  }

  lemma CollectMore(rs: seq<Parsed>, i: nat, rules: Allowlist)
    requires i < |rs| && Collect(rs[..i]) == Ok(rules)
    ensures Collect(rs[..i + 1]) ==
              if rs[i].Err? then Err(rs[i].error)
              else if rs[i].value in rules then Ok(rules) else Ok(rules + [rs[i].value])
  {
    assert rs[..i + 1][..i] == rs[..i];
  }

  lemma {:induction false} ErrorStays(rs: seq<Parsed>, n: nat)
    requires n <= |rs| && Collect(rs[..n]).Err?
    ensures Collect(rs) == Collect(rs[..n])
    decreases |rs|
  {
    if n == |rs| {
      assert rs[..n] == rs;
    } else {
      assert rs[..|rs|-1][..n] == rs[..n];
      ErrorStays(rs[..|rs|-1], n);
    }
  }

  predicate Duplicates(rules: Allowlist) {
    exists i, j :: 0 <= i < j < |rules| && rules[i] == rules[j]
  }

  /** Every collected rule is one that was parsed, once. */
  lemma {:induction false} CollectedOnce(rs: seq<Parsed>)
    requires Collect(rs).Ok?
    ensures var rules := Collect(rs).value;
            |rules| <= |rs| && !Duplicates(rules) && forall r :: r in rules <==> Ok(r) in rs
  {
    if rs != [] {
      CollectedOnce(rs[..|rs|-1]);
      assert rs == rs[..|rs|-1] + [rs[|rs|-1]];
    }
  }

  lemma LastIsNew(rules: Allowlist, n: nat)
    requires |rules| == n + 1 && !Duplicates(rules)
    ensures !Duplicates(rules[..n]) && rules[n] !in rules[..n] && rules == rules[..n] + [rules[n]]
  {
  }

  /** Collecting as many results as there are rules gives the rules only if each result is its rule. */
  lemma {:induction false} CollectExact(rs: seq<Parsed>, rules: Allowlist)
    requires |rs| == |rules| && !Duplicates(rules)
    ensures Collect(rs) == Ok(rules) <==> forall i :: 0 <= i < |rules| ==> rs[i] == Ok(rules[i])
  {
    if rules != [] {
      var n := |rules| - 1;
      LastIsNew(rules, n);
      CollectExact(rs[..n], rules[..n]);
      LastCollected(rs, rules, n);
    }
  }

  /** The last result adds the last rule to the others, or they were not collected in full. */
  lemma LastCollected(rs: seq<Parsed>, rules: Allowlist, n: nat)
    requires |rs| == |rules| == n + 1 && rules[n] !in rules[..n]
    ensures Collect(rs) == Ok(rules) <==> Collect(rs[..n]) == Ok(rules[..n]) && rs[n] == Ok(rules[n])
  {
    assert rules == rules[..n] + [rules[n]];
    if Collect(rs[..n]).Ok? {
      CollectedOnce(rs[..n]);
    }
  }

  function Lines(ip: AddressText, rules: Allowlist): seq<string> {
    seq(|rules|, i requires 0 <= i < |rules| => AsLine(ip, rules[i]))
  }

  lemma ParsedListOk(ip: AddressText, lines: seq<string>, i: nat)
    requires Lawful(ip) && ParseList(ip, lines).Ok? && i < |ParseList(ip, lines).value|
    ensures RuleOk(ip, ParseList(ip, lines).value[i])
  {
    CollectedOnce(Parses(ip, lines));
    var r := ParseList(ip, lines).value[i];
    assert Ok(r) in Parses(ip, lines);
    var k :| 0 <= k < |lines| && Parses(ip, lines)[k] == Ok(r);
    ParsedOk(ip, lines[k]);
  }

  /** A list rebuilt from its own lines is the original exactly when none of its rules is unprintable. */
  lemma ListRoundTrip(ip: AddressText, lines: seq<string>)
    requires Lawful(ip) && ParseList(ip, lines).Ok?
    ensures var rules := ParseList(ip, lines).value;
            ParseList(ip, Lines(ip, rules)) == Ok(rules) <==>
              forall i :: 0 <= i < |rules| ==> !Unprintable(ip, rules[i])
  {
    var rules := ParseList(ip, lines).value;
    CollectedOnce(Parses(ip, lines));
    var back := Parses(ip, Lines(ip, rules));
    CollectExact(back, rules);
    forall i | 0 <= i < |rules| ensures back[i] == Ok(rules[i]) <==> !Unprintable(ip, rules[i]) {
      ParsedListOk(ip, lines, i);
      RuleRoundTrip(ip, rules[i]);
    }
  }

  // ---- narrowing a list ----

  datatype NarrowError = BadRule(error: RuleError) | Nothing | NotCovered(rule: string, runtime: seq<string>)

  /** The first rule the runtime does not cover, or the length. */
  method FirstUncovered(rules: Allowlist, runtime: Allowlist) returns (i: nat)
    ensures i <= |rules| && (forall k :: 0 <= k < i ==> CoveredBySome(rules[k], runtime))
    ensures i < |rules| ==> !CoveredBySome(rules[i], runtime)
  {
    i := 0;
    while i < |rules|
      invariant i <= |rules| && forall k :: 0 <= k < i ==> CoveredBySome(rules[k], runtime)
    {
      var covered := false;
      for k := 0 to |runtime|
        invariant covered <==> exists j :: 0 <= j < k && CoveredBy(rules[i], runtime[j])
      {
        covered := covered || CoveredBy(rules[i], runtime[k]);
      }
      if !covered { return; }
      i := i + 1;
    }
  }

  method Narrow(ip: AddressText, runtime: Allowlist, lines: seq<string>) returns (r: Result<Allowlist, NarrowError>)
    ensures match ParseList(ip, lines)
            case Err(e) => r == Err(BadRule(e))
            case Ok(rules) =>
              if rules == [] then r == Err(Nothing)
              else if Narrows(rules, runtime) then r == Ok(rules)
              else exists i :: 0 <= i < |rules| && !CoveredBySome(rules[i], runtime)
                               && (forall k :: 0 <= k < i ==> CoveredBySome(rules[k], runtime))
                               && r == Err(NotCovered(AsLine(ip, rules[i]), Lines(ip, runtime)))
  {
    var parsed := ParseLines(ip, lines);
    if parsed.Err? { return Err(BadRule(parsed.error)); }
    var narrowed := parsed.value;
    if narrowed == [] { return Err(Nothing); }
    var i := FirstUncovered(narrowed, runtime);
    if i < |narrowed| {
      return Err(NotCovered(AsLine(ip, narrowed[i]), Lines(ip, runtime)));
    }
    return Ok(narrowed);
  }

  // ---- covering, decided exactly ----

  /** A host some destination can have. */
  ghost predicate IsHost(ip: AddressText, host: string) {
    exists raw :: NormaliseHost(ip, raw) == Some(host)
  }

  /** Every host the first matches is matched by the second. */
  ghost predicate Contained(ip: AddressText, p: HostPattern, wider: HostPattern) {
    forall host :: IsHost(ip, host) && PatternCovers(ip, p, host) ==> PatternCovers(ip, wider, host)
  }

  // What is further taken from the standard library about address text.

  predicate HasLetter(s: string) {
    exists i :: 0 <= i < |s| && 'a' <= s[i] <= 'z'
  }

  predicate DotBeforeColon(s: string) {
    exists i, j :: 0 <= i < j < |s| && s[i] == '.' && s[j] == ':'
  }

  /** Another text of an address, a host as far as its characters go, without any dot. */
  ghost predicate DotlessText(ip: AddressText, addr: IpAddr, t: string) {
    ip.parse(t) == Some(addr) && HostChars(t) && '.' !in t
  }

  /**
   Without a colon only digits and dots are an address; dots come only after the last colon; an
   IPv4 address has one text, and an IPv6 address has one in groups alone.
   */
  ghost predicate LawfulTexts(ip: AddressText) {
    && (forall s :: ip.parse(s).Some? && HasLetter(s) ==> ':' in s)
    && (forall s :: ip.parse(s).Some? ==> !DotBeforeColon(s))
    && (forall s :: ip.parse(s).Some? && ip.parse(s).value.V4? ==> s == ip.show(ip.parse(s).value))
    && (forall s :: ip.parse(s).Some? && ip.parse(s).value.V6? ==> exists t :: DotlessText(ip, ip.parse(s).value, t))
  }

  /** Names with room for one more label, and without a colon. */
  predicate PlainName(name: string) {
    HostChars(name) && Lower(name) == name && ':' !in name && |name| <= 251
  }

  lemma NameIsHost(ip: AddressText, name: string)
    requires HostChars(name) && Lower(name) == name && ':' !in name
    ensures IsHost(ip, name)
  {
    var raw := name + ".";
    assert raw[..|raw|-1] == name;
    assert NormaliseHost(ip, raw) == Some(name);
  }

  /** One more label in front is still a host, under the name. */
  lemma LabelIsHost(ip: AddressText, c: char, name: string)
    requires PlainName(name) && 'a' <= c <= 'z'
    ensures IsHost(ip, [c] + "." + name) && Under([c] + "." + name, name)
  {
    var host := [c] + "." + name;
    assert host[2..] == name && host[0] == c && host[1] == '.';
    forall i | 0 <= i < |host| ensures IsHostChar(host[i]) && LowerChar(host[i]) == host[i] && host[i] != ':' {
      if i >= 2 {
        assert host[i] == name[i - 2] && name[i - 2] in name;
        assert Lower(name)[i - 2] == name[i - 2];
      }
    }
    forall i | 0 <= i < |host| - 1 ensures !(host[i] == '.' && host[i + 1] == '.') {
      if i >= 2 { assert host[i] == name[i - 2] && host[i + 1] == name[i - 1]; }
    }
    assert Lower(host) == host;
    NameIsHost(ip, host);
  }

  /** A label in front of `inner` falls under `outer` only if `inner` is it or under it. */
  lemma LabelUnder(c: char, inner: string, outer: string)
    requires inner != "" && inner[0] != '.' && Under([c] + "." + inner, outer)
    ensures inner == outer || Under(inner, outer)
  {
    var host, n := [c] + "." + inner, |inner| + 2 - |outer|;
    assert host[2..] == inner;
    assert host[n..] == inner[n - 2..];
    if n > 2 {
      assert host[n - 1] == inner[n - 3];
    }
  }

  /** A wildcard under which no host falls: too long for one more label, or with a colon in it. */
  predicate MatchesNothing(p: HostPattern) {
    p.Subdomains? && (|p.name| > 251 || ':' in p.name)
  }

  lemma UnderColon(host: string, suffix: string)
    ensures Under(host, suffix) && ':' in suffix ==> DotBeforeColon(host)
  {
    if Under(host, suffix) && ':' in suffix {
      var n := |host| - |suffix|;
      var j :| 0 <= j < |suffix| && suffix[j] == ':';
      assert host[n..][j] == host[n + j];
    }
  }

  lemma HostOk(ip: AddressText, host: string)
    requires Lawful(ip) && IsHost(ip, host)
    ensures |host| <= MAX_HOST_LEN && (':' in host ==> ip.parse(host).Some?)
  {
    var raw :| NormaliseHost(ip, raw) == Some(host);
    NormalisedOk(ip, raw);
  }

  lemma NothingMatches(ip: AddressText, p: HostPattern, host: string)
    requires Lawful(ip) && LawfulTexts(ip) && MatchesNothing(p) && IsHost(ip, host)
    ensures !PatternCovers(ip, p, host)
  {
    HostOk(ip, host);
    UnderColon(host, p.name);
  }

  lemma LabelIsNoAddress(ip: AddressText, c: char, name: string)
    requires LawfulTexts(ip) && ':' !in name && 'a' <= c <= 'z'
    ensures ip.parse([c] + "." + name).None?
  {
    var host := [c] + "." + name;
    assert host[0] == c;
    assert ':' !in host;
  }

  /** Any other wildcard matches two hosts, and the first is no address. */
  lemma WildcardMatchesTwo(ip: AddressText, p: HostPattern) returns (a: string, b: string)
    requires LawfulTexts(ip) && PatternOk(ip, p) && p.Subdomains? && !MatchesNothing(p)
    ensures a == ['a'] + "." + p.name && a != b
    ensures IsHost(ip, a) && PatternCovers(ip, p, a) && ip.parse(a).None?
    ensures IsHost(ip, b) && PatternCovers(ip, p, b)
  {
    a, b := ['a'] + "." + p.name, ['b'] + "." + p.name;
    LabelIsHost(ip, 'a', p.name);
    LabelIsHost(ip, 'b', p.name);
    LabelIsNoAddress(ip, 'a', p.name);
    assert a[0] == 'a' && b[0] == 'b';
  }

  lemma AddressIsHost(ip: AddressText, addr: IpAddr)
    requires Printable(ip, addr)
    ensures IsHost(ip, ip.show(addr)) && PatternCovers(ip, Address(addr), ip.show(addr))
  {
    NormaliseName(ip, ip.show(addr));
    assert NormaliseHost(ip, ip.show(addr)) == Some(ip.show(addr));
  }

  lemma LowerDotless(t: string, suffix: string)
    requires '.' !in t
    ensures !Under(Lower(t), suffix)
  {
    forall i: nat | i < |t| ensures Lower(t)[i] != '.' {
      LowerChars(t, i);
      assert t[i] in t;
    }
  }

  lemma DotlessIsHost(ip: AddressText, addr: IpAddr, t: string)
    requires Lawful(ip) && DotlessText(ip, addr, t)
    ensures IsHost(ip, Lower(t)) && ip.parse(Lower(t)) == Some(addr)
  {
    assert t[|t|-1] in t;
    assert StripDot(t) == t;
    assert NormaliseHost(ip, t) == Some(Lower(t));
  }

  /** An address in IPv6 groups is a host that falls under no wildcard. */
  lemma GroupsUnderNothing(ip: AddressText, addr: IpAddr, suffix: string) returns (host: string)
    requires Lawful(ip) && LawfulTexts(ip) && Printable(ip, addr) && addr.V6?
    ensures IsHost(ip, host) && PatternCovers(ip, Address(addr), host) && !Under(host, suffix)
  {
    assert ip.parse(ip.show(addr)) == Some(addr);
    var t :| DotlessText(ip, addr, t);
    DotlessIsHost(ip, addr, t);
    LowerDotless(t, suffix);
    host := Lower(t);
  }

  /** All texts of the address fall under the wildcard. */
  predicate TextsUnder(ip: AddressText, addr: IpAddr, suffix: string) {
    addr.V4? && Under(ip.show(addr), suffix)
  }

  lemma AddressUnderWildcard(ip: AddressText, addr: IpAddr, suffix: string)
    requires Lawful(ip) && LawfulTexts(ip) && Printable(ip, addr)
    ensures Contained(ip, Address(addr), Subdomains(suffix)) <==> TextsUnder(ip, addr, suffix)
  {
    if addr.V4? {
      AddressIsHost(ip, addr);
      assert Contained(ip, Address(addr), Subdomains(suffix)) ==> PatternCovers(ip, Subdomains(suffix), ip.show(addr));
    } else {
      var host := GroupsUnderNothing(ip, addr, suffix);
      assert !PatternCovers(ip, Subdomains(suffix), host);
    }
  }

  lemma WildcardContained(ip: AddressText, p: HostPattern, wider: HostPattern)
    requires Lawful(ip) && LawfulTexts(ip) && PatternOk(ip, p) && p.Subdomains?
    requires Contained(ip, p, wider) && !MatchesNothing(p)
    ensures p == wider || PatternCoveredBy(p, wider)
  {
    var a, b := WildcardMatchesTwo(ip, p);
    assert PatternCovers(ip, wider, a) && PatternCovers(ip, wider, b);
    if wider.Subdomains? {
      LabelUnder('a', p.name, wider.name);
    }
  }

  lemma NameContained(ip: AddressText, p: HostPattern, wider: HostPattern)
    requires PatternOk(ip, p) && PatternOk(ip, wider) && p.Exact? && Contained(ip, p, wider)
    ensures PatternCoveredBy(p, wider)
  {
    NameIsHost(ip, p.name);
    assert PatternCovers(ip, wider, p.name);
  }

  lemma AddressContained(ip: AddressText, addr: IpAddr, wider: HostPattern)
    requires Printable(ip, addr) && PatternOk(ip, wider) && !wider.Subdomains? && Contained(ip, Address(addr), wider)
    ensures PatternCoveredBy(Address(addr), wider)
  {
    AddressIsHost(ip, addr);
    assert PatternCovers(ip, wider, ip.show(addr));
  }

  /**
   Containments that `covered_by` may answer no to: a wildcard that matches nothing, a wildcard under
   its equal, and an IPv4 address whose text falls under a wildcard.
   */
  predicate Overlooked(ip: AddressText, p: HostPattern, wider: HostPattern) {
    || MatchesNothing(p)
    || (p.Subdomains? && p == wider)
    || (p.Address? && wider.Subdomains? && TextsUnder(ip, p.addr, wider.name))
  }

  lemma CoveredIsContained(ip: AddressText, p: HostPattern, wider: HostPattern)
    requires PatternCoveredBy(p, wider)
    ensures Contained(ip, p, wider)
  {
    forall host | IsHost(ip, host) && PatternCovers(ip, p, host) ensures PatternCovers(ip, wider, host) {
      CoveredPatternMatches(ip, p, wider, host);
    }
  }

  lemma NothingIsContained(ip: AddressText, p: HostPattern, wider: HostPattern)
    requires Lawful(ip) && LawfulTexts(ip) && MatchesNothing(p)
    ensures Contained(ip, p, wider)
  {
    forall host | IsHost(ip, host) ensures !PatternCovers(ip, p, host) {
      NothingMatches(ip, p, host);
    }
  }

  /**
   For all patterns a line can produce: what the first matches is contained in what the second
   matches exactly when `covered_by` says so or it is one of the three containments it overlooks.
   */
  lemma CoverageExact(ip: AddressText, p: HostPattern, wider: HostPattern)
    requires Lawful(ip) && LawfulTexts(ip) && PatternOk(ip, p) && PatternOk(ip, wider)
    ensures Contained(ip, p, wider) <==> PatternCoveredBy(p, wider) || Overlooked(ip, p, wider)
  {
    if PatternCoveredBy(p, wider) {
      CoveredIsContained(ip, p, wider);
    } else if MatchesNothing(p) {
      NothingIsContained(ip, p, wider);
    } else if p.Address? && wider.Subdomains? {
      AddressUnderWildcard(ip, p.addr, wider.name);
    } else if Contained(ip, p, wider) {
      match p
      case Exact(_) => NameContained(ip, p, wider);
      case Subdomains(_) => WildcardContained(ip, p, wider);
      case Address(addr) => AddressContained(ip, addr, wider);
    }
  }

  /** Every destination the first rule permits is permitted by the second. */
  ghost predicate RuleContained(ip: AddressText, r: Rule, wider: Rule) {
    forall host, port :: IsHost(ip, host) && Matches(ip, r, Dest(host, port)) ==> Matches(ip, wider, Dest(host, port))
  }

  /** A pattern that matches something, and what. */
  lemma MatchesSomething(ip: AddressText, p: HostPattern) returns (host: string)
    requires LawfulTexts(ip) && PatternOk(ip, p) && !MatchesNothing(p)
    ensures IsHost(ip, host) && PatternCovers(ip, p, host)
  {
    match p {
      case Exact(name) =>
        NameIsHost(ip, name);
        host := name;
      case Subdomains(_) =>
        var a, b := WildcardMatchesTwo(ip, p);
        host := a;
      case Address(addr) =>
        AddressIsHost(ip, addr);
        host := ip.show(addr);
    }
  }

  lemma PortsDecide(ip: AddressText, r: Rule, wider: Rule)
    requires Lawful(ip) && LawfulTexts(ip) && PatternOk(ip, r.host)
    ensures RuleContained(ip, r, wider) <==>
              MatchesNothing(r.host) || (r.port == wider.port && Contained(ip, r.host, wider.host))
  {
    if MatchesNothing(r.host) {
      forall host | IsHost(ip, host) ensures !PatternCovers(ip, r.host, host) {
        NothingMatches(ip, r.host, host);
      }
    } else if RuleContained(ip, r, wider) {
      var host := MatchesSomething(ip, r.host);
      assert Matches(ip, r, Dest(host, r.port));
      forall h | IsHost(ip, h) && PatternCovers(ip, r.host, h) ensures PatternCovers(ip, wider.host, h) {
        assert Matches(ip, r, Dest(h, r.port));
      }
    }
  }

  /** For the rules of any two lines: when the sets of destinations are contained, and when it is seen. */
  lemma LineCoverageExact(ip: AddressText, line: string, other: string)
    requires Lawful(ip) && LawfulTexts(ip) && ParseRule(ip, line).Ok? && ParseRule(ip, other).Ok?
    ensures var r, wider := ParseRule(ip, line).value, ParseRule(ip, other).value;
            RuleContained(ip, r, wider) <==>
              || CoveredBy(r, wider) || MatchesNothing(r.host)
              || (r.port == wider.port && Overlooked(ip, r.host, wider.host))
  {
    ParsedOk(ip, line);
    ParsedOk(ip, other);
    var r, wider := ParseRule(ip, line).value, ParseRule(ip, other).value;
    CoverageExact(ip, r.host, wider.host);
    PortsDecide(ip, r, wider);
  }

  // ---- each overlooked containment, on lines the code accepts ----

  /** How the line of a printable rule on the default port is read. */
  lemma LineOfPattern(ip: AddressText, p: HostPattern)
    requires Lawful(ip) && PatternOk(ip, p) && (p.Address? || !EndsInDot(p.name))
    ensures ParseRule(ip, PatternText(ip, p)) == Ok(Rule(p, 443))
  {
    RuleRoundTrip(ip, Rule(p, 443));
  }

  /** A wildcard contains itself and is not covered by itself. */
  lemma EqualWildcardOverlooked(ip: AddressText, line: string)
    requires ParseRule(ip, line).Ok? && ParseRule(ip, line).value.host.Subdomains?
    ensures var r := ParseRule(ip, line).value; RuleContained(ip, r, r) && !CoveredBy(r, r)
  {
  }

  /** A wildcard over the text of an address permits that literal, and the address is not covered by it. */
  lemma AddressOverlooked(ip: AddressText, addr: IpAddr, suffix: string)
    requires Lawful(ip) && LawfulTexts(ip) && Printable(ip, addr) && TextsUnder(ip, addr, suffix)
    requires PatternOk(ip, Subdomains(suffix)) && !EndsInDot(suffix)
    ensures var r, wider := Rule(Address(addr), 443), Rule(Subdomains(suffix), 443);
            && ParseRule(ip, ip.show(addr)) == Ok(r) && ParseRule(ip, "*." + suffix) == Ok(wider)
            && RuleContained(ip, r, wider) && !CoveredBy(r, wider)
            && Allowed(ip, [wider], Dest(ip.show(addr), 443))
  {
    LineOfPattern(ip, Address(addr));
    LineOfPattern(ip, Subdomains(suffix));
    LineCoverageExact(ip, ip.show(addr), "*." + suffix);
    assert [Rule(Subdomains(suffix), 443)][0] == Rule(Subdomains(suffix), 443);
  }

  lemma NumericNameOk(ip: AddressText, suffix: string)
    requires suffix == "3.4"
    ensures PatternOk(ip, Subdomains(suffix)) && !EndsInDot(suffix)
  {
    assert Lower(suffix) == suffix;
    assert suffix[..2] == "3." && "3."[..1] == "3" && "3"[..0] == "";
    assert LabelCount("3") == 1 && LabelCount("3.") == 1;
  }

  /** Such a pair, written out. */
  lemma NumericWildcardOverlooked(ip: AddressText, literal: string, suffix: string)
    requires literal == "1.2.3.4" && suffix == "3.4"
    requires Lawful(ip) && LawfulTexts(ip) && ip.parse(literal) == Some(V4(1, 2, 3, 4))
    ensures var r, wider := Rule(Address(V4(1, 2, 3, 4)), 443), Rule(Subdomains(suffix), 443);
            && ParseRule(ip, literal) == Ok(r) && ParseRule(ip, "*." + suffix) == Ok(wider)
            && RuleContained(ip, r, wider) && !CoveredBy(r, wider)
            && Allowed(ip, [wider], Dest(literal, 443))
  {
    NumericNameOk(ip, suffix);
    assert ip.show(V4(1, 2, 3, 4)) == literal;
    assert literal[4..] == suffix && literal[3] == '.';
    AddressOverlooked(ip, V4(1, 2, 3, 4), suffix);
  }

  /** A name of the greatest length. */
  function LongName(): (name: string)
    ensures |name| == 253
  {
    seq(253, i => if i == 1 then '.' else 'a')
  }

  lemma {:induction false} LabelCountGrows(s: string, n: nat)
    requires n <= |s|
    ensures LabelCount(s[..n]) <= LabelCount(s)
    decreases |s|
  {
    if n == |s| {
      assert s[..n] == s;
    } else {
      LabelCountGrows(s[..|s|-1], n);
      assert s[..|s|-1][..n] == s[..n];
    }
  }

  lemma LongNameOk(ip: AddressText)
    ensures PatternOk(ip, Subdomains(LongName())) && !EndsInDot(LongName())
  {
    var name := LongName();
    assert name[..3] == "a.a" && "a.a"[..2] == "a." && "a."[..1] == "a" && "a"[..0] == "";
    assert LabelCount("a") == 1 && LabelCount("a.") == 1;
    LabelCountGrows(name, 3);
    assert Lower(name) == name;
    assert ':' !in name && '*' !in name;
  }

  /** A wildcard too long to match anything is contained in every rule and covered by no name. */
  lemma LongWildcardOverlooked(ip: AddressText, other: string)
    requires Lawful(ip) && LawfulTexts(ip) && ParseRule(ip, other).Ok? && !ParseRule(ip, other).value.host.Subdomains?
    ensures var wider := ParseRule(ip, other).value;
            && ParseRule(ip, "*." + LongName()) == Ok(Rule(Subdomains(LongName()), 443))
            && RuleContained(ip, Rule(Subdomains(LongName()), 443), wider)
            && !CoveredBy(Rule(Subdomains(LongName()), 443), wider)
  {
    LongNameOk(ip);
    LineOfPattern(ip, Subdomains(LongName()));
    LineCoverageExact(ip, "*." + LongName(), other);
  }

  const LOOPBACK := V6(0, 0, 0, 0, 0, 0, 0, 1)

  /** A pair of functions that knows one address of each kind. */
  function TwoAddresses(): AddressText {
    AddressText(
      (s: string) => if s == "1.2.3.4" then Some(V4(1, 2, 3, 4)) else if s == "::1" then Some(LOOPBACK) else None,
      (a: IpAddr) => if a.V4? then "1.2.3.4" else "::1")
  }

  lemma DottedText(s: string)
    requires s == "1.2.3.4"
    ensures HostChars(s) && Lower(s) == s && !EndsInDot(s) && '*' !in s
    ensures ':' !in s && !HasLetter(s) && !DotBeforeColon(s)
  {
    assert Lower(s) == s;
  }

  lemma GroupText(s: string)
    requires s == "::1"
    ensures HostChars(s) && Lower(s) == s && !EndsInDot(s) && '*' !in s
    ensures ':' in s && TwoColons(s) && '.' !in s && !DotBeforeColon(s)
  {
    assert Lower(s) == s;
    assert s[0] == ':' && s[1] == ':';
  }

  lemma KnownTexts(s: string)
    requires TwoAddresses().parse(s).Some?
    ensures s == "1.2.3.4" || s == "::1"
    ensures s == "1.2.3.4" ==> TwoAddresses().parse(s) == Some(V4(1, 2, 3, 4))
    ensures s == "::1" ==> TwoAddresses().parse(s) == Some(LOOPBACK)
    ensures TwoAddresses().show(TwoAddresses().parse(s).value) == s
  {
  }

  lemma TwoAddressesLawful()
    ensures Lawful(TwoAddresses())
  {
    var ip := TwoAddresses();
    forall s | ip.parse(s).Some?
      ensures Lower(s) == s && (':' in s ==> TwoColons(s)) && Printable(ip, ip.parse(s).value)
    {
      KnownTexts(s);
      if s == "::1" { GroupText(s); } else { DottedText(s); }
    }
  }

  lemma TwoAddressesLawfulTexts()
    ensures LawfulTexts(TwoAddresses())
  {
    var ip := TwoAddresses();
    forall s | ip.parse(s).Some?
      ensures (HasLetter(s) ==> ':' in s) && !DotBeforeColon(s) && s == ip.show(ip.parse(s).value)
      ensures ip.parse(s).value.V6? ==> DotlessText(ip, ip.parse(s).value, s)
    {
      KnownTexts(s);
      if s == "::1" { GroupText(s); } else { DottedText(s); }
    }
  }

  /** What is assumed of address text can be had all at once. */
  lemma LawsHoldTogether()
    ensures Lawful(TwoAddresses()) && LawfulTexts(TwoAddresses())
    ensures TwoAddresses().parse("1.2.3.4") == Some(V4(1, 2, 3, 4)) && TwoAddresses().parse("::1") == Some(LOOPBACK)
  {
    TwoAddressesLawful();
    TwoAddressesLawfulTexts();
  }
}
