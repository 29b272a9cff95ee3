/**
 The standard-library string operations the parsers rest on: whitespace as Unicode defines
 it, splitting and trimming on it, and decimal numbers printed and read back.
 */
module Text {
  import opened Common

  predicate IsSpace(c: char) {
    || '\t' <= c <= '\r' || c == ' ' || c == '\U{0085}' || c == '\U{00A0}' || c == '\U{1680}'
    || '\U{2000}' <= c <= '\U{200A}' || c == '\U{2028}' || c == '\U{2029}' || c == '\U{202F}'
    || c == '\U{205F}' || c == '\U{3000}'
  }

  /** The 25 characters with Unicode's White_Space property. */
  lemma WhiteSpaceIs(c: char)
    ensures IsSpace(c) <==>
              c as int in {9, 10, 11, 12, 13, 32, 0x85, 0xa0, 0x1680, 0x2000, 0x2001, 0x2002, 0x2003, 0x2004, 0x2005,
                           0x2006, 0x2007, 0x2008, 0x2009, 0x200a, 0x2028, 0x2029, 0x202f, 0x205f, 0x3000}
  {
  }

  predicate NoSpace(s: string) {
    forall c :: c in s ==> !IsSpace(c)
  }

  function TrimStart(s: string): string {
    if s != "" && IsSpace(s[0]) then TrimStart(s[1..]) else s
  }

  function TrimEnd(s: string): string {
    if s != "" && IsSpace(s[|s|-1]) then TrimEnd(s[..|s|-1]) else s
  }

  function Trim(s: string): string {
    TrimStart(TrimEnd(s))
  }

  lemma TrimNothing(s: string)
    requires s == "" || (!IsSpace(s[0]) && !IsSpace(s[|s|-1]))
    ensures Trim(s) == s
  {
  }

  predicate Blank(s: string) {
    forall i :: 0 <= i < |s| ==> IsSpace(s[i])
  }

  lemma {:induction false} TrimStartBlanks(a: string, s: string)
    requires Blank(a) && (s == "" || !IsSpace(s[0]))
    ensures TrimStart(a + s) == s
  {
    if a == "" {
      assert a + s == s;
    } else {
      assert (a + s)[1..] == a[1..] + s;
      TrimStartBlanks(a[1..], s);
    }
  }

  lemma {:induction false} TrimEndBlanks(s: string, b: string)
    requires Blank(b) && (s == "" || !IsSpace(s[|s|-1]))
    ensures TrimEnd(s + b) == s
  {
    if b == "" {
      assert s + b == s;
    } else {
      assert (s + b)[..|s + b|-1] == s + b[..|b|-1];
      TrimEndBlanks(s, b[..|b|-1]);
    }
  }

  /** Whatever blanks surround a text, trimming gives the text. */
  lemma TrimSurrounded(a: string, s: string, b: string)
    requires Blank(a) && Blank(b) && s != "" && !IsSpace(s[0]) && !IsSpace(s[|s|-1])
    ensures Trim(a + s + b) == s
  {
    TrimEndBlanks(a + s, b);
    TrimStartBlanks(a, s);
  }

  lemma TrimBlank(s: string)
    requires Blank(s)
    ensures Trim(s) == ""
  {
    assert "" + s == s;
    TrimEndBlanks("", s);
  }

  // ---- splitting on whitespace ----

  /** The length of the leading run without whitespace. */
  function WordLength(s: string): (n: nat)
    ensures n <= |s| && NoSpace(s[..n]) && (n < |s| ==> IsSpace(s[n]))
  {
    if s == "" || IsSpace(s[0]) then 0
    else
      var n := WordLength(s[1..]);
      assert s[..n + 1] == [s[0]] + s[1..][..n];
      n + 1
  }

  function SplitWhitespace(s: string): seq<string>
    decreases |s|
  {
    if s == "" then []
    else if IsSpace(s[0]) then SplitWhitespace(s[1..])
    else [s[..WordLength(s)]] + SplitWhitespace(s[WordLength(s)..])
  }

  function Join(words: seq<string>): string {
    if words == [] then ""
    else if |words| == 1 then words[0]
    else words[0] + " " + Join(words[1..])
  }

  predicate Words(words: seq<string>) {
    forall k :: 0 <= k < |words| ==> words[k] != "" && NoSpace(words[k])
  }

  lemma {:induction false} WordThen(w: string, rest: string)
    requires w != "" && NoSpace(w) && (rest == "" || IsSpace(rest[0]))
    ensures WordLength(w + rest) == |w|
    ensures SplitWhitespace(w + rest) == [w] + SplitWhitespace(rest)
  {
    WordLengthIs(w, rest);
    assert (w + rest)[0] == w[0] && w[0] in w;
    assert (w + rest)[..|w|] == w && (w + rest)[|w|..] == rest;
  }

  lemma {:induction false} WordLengthIs(w: string, rest: string)
    requires NoSpace(w) && (rest == "" || IsSpace(rest[0]))
    ensures WordLength(w + rest) == |w|
  {
    if w == "" {
      assert w + rest == rest;
    } else {
      assert (w + rest)[1..] == w[1..] + rest && w[0] in w;
      WordLengthIs(w[1..], rest);
    }
  }

  /** Splitting the joined words gives them back, whatever whitespace follows. */
  lemma {:induction false} SplitJoined(words: seq<string>, tail: string)
    requires Words(words) && (forall c :: c in tail ==> IsSpace(c))
    ensures SplitWhitespace(Join(words) + tail) == words
    decreases |words|
  {
    if words == [] {
      assert Join(words) + tail == tail;
      SplitSpaces(tail);
    } else if |words| == 1 {
      WordThen(words[0], tail);
      SplitSpaces(tail);
    } else {
      var rest := " " + (Join(words[1..]) + tail);
      assert Join(words) + tail == words[0] + rest;
      WordThen(words[0], rest);
      assert rest[1..] == Join(words[1..]) + tail;
      SplitJoined(words[1..], tail);
    }
  }

  lemma {:induction false} SplitSpaces(tail: string)
    requires forall c :: c in tail ==> IsSpace(c)
    ensures SplitWhitespace(tail) == []
  {
    if tail != "" {
      assert tail[0] in tail;
      SplitSpaces(tail[1..]);
    }
  }

  // ---- decimal numbers ----

  predicate IsDigit(c: char) {
    '0' <= c <= '9'
  }

  function DigitChar(d: nat): (c: char)
    requires d < 10
    ensures IsDigit(c) && c as int - '0' as int == d
  {
    ('0' as int + d) as char
  }

  function Decimal(n: nat): (s: string)
    ensures s != "" && forall c :: c in s ==> IsDigit(c)
  {
    if n < 10 then [DigitChar(n)] else Decimal(n / 10) + [DigitChar(n % 10)]
  }

  function DecimalInt(i: int): string {
    if i < 0 then "-" + Decimal(-i) else Decimal(i)
  }

  predicate AllDigits(s: string) {
    forall c :: c in s ==> IsDigit(c)
  }

  function DigitsValue(s: string): nat
    requires AllDigits(s)
  {
    if s == "" then 0
    else
      assert s[|s|-1] in s;
      10 * DigitsValue(s[..|s|-1]) + (s[|s|-1] as int - '0' as int)
  }

  lemma {:induction false} DecimalValue(n: nat)
    ensures AllDigits(Decimal(n)) && DigitsValue(Decimal(n)) == n
  {
    if n >= 10 {
      DecimalValue(n / 10);
      var s := Decimal(n);
      assert s[..|s|-1] == Decimal(n / 10);
    } else {
      assert DigitsValue([DigitChar(n)]) == 10 * DigitsValue([DigitChar(n)][..0]) + n;
    }
  }

  lemma DecimalInjective(m: nat, n: nat)
    ensures Decimal(m) == Decimal(n) <==> m == n
  {
    DecimalValue(m);
    DecimalValue(n);
  }

  lemma DecimalIntInjective(i: int, j: int)
    ensures DecimalInt(i) == DecimalInt(j) <==> i == j
  {
    if i < 0 && j < 0 {
      assert DecimalInt(i)[1..] == Decimal(-i) && DecimalInt(j)[1..] == Decimal(-j);
      DecimalInjective(-i, -j);
    } else if i < 0 {
      assert Decimal(j)[0] in Decimal(j) && DecimalInt(i)[0] == '-';
    } else if j < 0 {
      assert Decimal(i)[0] in Decimal(i) && DecimalInt(j)[0] == '-';
    } else {
      DecimalInjective(i, j);
    }
  }

  /** Reading an unsigned number: one optional plus sign, then digits, within `max`. */
  function ParseUnsigned(s: string, max: nat): Option<nat> {
    var digits := if s != "" && s[0] == '+' then s[1..] else s;
    if digits == "" || !AllDigits(digits) then None
    else if DigitsValue(digits) <= max then Some(DigitsValue(digits))
    else None
  }

  /** Reading a signed one, between `-max - 1` and `max`. */
  function ParseSigned(s: string, max: nat): Option<int> {
    if s != "" && s[0] == '-' then
      var digits := s[1..];
      if digits == "" || !AllDigits(digits) then None
      else if DigitsValue(digits) <= max + 1 then Some(0 - DigitsValue(digits))
      else None
    else
      var r := ParseUnsigned(s, max);
      if r.Some? then Some(r.value) else None
  }

  lemma ParseDecimal(n: nat, max: nat)
    requires n <= max
    ensures ParseUnsigned(Decimal(n), max) == Some(n)
  {
    DecimalValue(n);
    assert Decimal(n)[0] in Decimal(n);
  }

  lemma ParseDecimalInt(i: int, max: nat)
    requires 0 <= i <= max || 0 <= -i <= max + 1
    ensures ParseSigned(DecimalInt(i), max) == Some(i)
  {
    if i < 0 {
      DecimalValue(-i);
      assert DecimalInt(i)[1..] == Decimal(-i);
    } else {
      ParseDecimal(i, max);
      assert Decimal(i)[0] in Decimal(i);
    }
  }

  // ---- finding a character ----

  function Find(s: string, c: char): (r: Option<nat>)
    ensures r.Some? ==> r.value < |s| && s[r.value] == c && forall j :: 0 <= j < r.value ==> s[j] != c
    ensures r.None? ==> forall j :: 0 <= j < |s| ==> s[j] != c
  {
    if s == "" then None
    else if s[0] == c then Some(0)
    else
      var r := Find(s[1..], c);
      assert forall j :: 1 <= j < |s| ==> s[j] == s[1..][j - 1];
      if r.None? then None else Some(r.value + 1)
  }

  function FindLast(s: string, c: char): (r: Option<nat>)
    ensures r.Some? ==> r.value < |s| && s[r.value] == c && forall j :: r.value < j < |s| ==> s[j] != c
    ensures r.None? ==> forall j :: 0 <= j < |s| ==> s[j] != c
  {
    if s == "" then None
    else if s[|s|-1] == c then Some(|s|-1)
    else FindLast(s[..|s|-1], c)
  }
}
