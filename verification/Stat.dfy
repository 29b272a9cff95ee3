/**
 The two readers of a `/proc/<pid>/stat` line. The process name sits in the line between
 brackets and unescaped, so both split after the last closing bracket.
 */
module Stat {
  import opened Common
  import opened Text

  const I32_MAX := 0x7fff_ffff
  const U64_MAX := 0xffff_ffff_ffff_ffff

  datatype StatLine = StatLine(comm: string, ppid: int, startTicks: nat)

  function Field(fields: seq<string>, k: nat): string {
    if k < |fields| then fields[k] else ""
  }

  /** Counting the state as field 0, the parent is field 1 and the start time field 19. */
  function ParentIn(fields: seq<string>): Option<int> {
    ParseSigned(Field(fields, 1), I32_MAX)
  }

  function StartIn(fields: seq<string>): Option<nat> {
    ParseUnsigned(Field(fields, 19), U64_MAX)
  }

  function WithFields(comm: string, fields: seq<string>): Option<StatLine> {
    var ppid, start := ParentIn(fields), StartIn(fields);
    if ppid.None? || start.None? then None else Some(StatLine(comm, ppid.value, start.value))
  }

  /** Between the first opening and the last closing bracket. */
  function NameIn(line: string): Option<string> {
    var close := FindLast(line, ')');
    var open := Find(line, '(');
    if close.None? || open.None? || open.value >= close.value then None
    else Some(line[open.value + 1..close.value])
  }

  /** Behind the last closing bracket. */
  function RestOf(line: string): Option<string> {
    var close := FindLast(line, ')');
    if close.None? then None else Some(line[close.value + 1..])
  }

  function FieldsOf(line: string): Option<seq<string>> {
    var rest := RestOf(line);
    if rest.None? then None else Some(SplitWhitespace(rest.value))
  }

  function ParseStat(line: string): Option<StatLine> {
    var name, fields := NameIn(line), FieldsOf(line);
    if name.None? || fields.None? then None else WithFields(name.value, fields.value)
  }

  /** The reader that only wants the start time. */
  function ParseStartTime(line: string): Option<nat> {
    var fields := FieldsOf(line);
    if fields.None? then None else StartIn(fields.value)
  }

  /** Whatever one reader makes of a line, the other agrees about the start time. */
  lemma ReadersAgree(line: string)
    ensures ParseStat(line).Some? ==> ParseStartTime(line) == Some(ParseStat(line).value.startTicks)
    ensures ParseStat(line).Some? <==>
              && ParseStartTime(line).Some? && NameIn(line).Some?
              && FieldsOf(line).Some? && ParentIn(FieldsOf(line).value).Some?
  {
  }

  /** The line as the kernel prints it: fields 3 onwards, field 4 the parent and field 22 the start. */
  function PrintStat(pid: nat, comm: string, fields: seq<string>, tail: string): string {
    Decimal(pid) + " (" + comm + ") " + Join(fields) + tail
  }

  /** Fields that are words without a bracket, the two that are read being numbers in range. */
  predicate FieldsOk(fields: seq<string>, ppid: int, start: nat) {
    && |fields| >= 20 && Words(fields)
    && (forall k :: 0 <= k < |fields| ==> ')' !in fields[k])
    && fields[1] == DecimalInt(ppid) && -0x8000_0000 <= ppid <= 0x7fff_ffff
    && fields[19] == Decimal(start) && start <= 0xffff_ffff_ffff_ffff
  }

  lemma {:induction false} JoinedHas(fields: seq<string>, c: char)
    requires c != ' ' && forall k :: 0 <= k < |fields| ==> c !in fields[k]
    ensures c !in Join(fields)
  {
    if |fields| > 1 {
      JoinedHas(fields[1..], c);
    }
  }

  /** Where the brackets of a printed line are, and what lies between and after them. */
  lemma Brackets(line: string, head: string, comm: string, rest: string)
    requires line == head + "(" + comm + ")" + rest && '(' !in head && ')' !in rest
    ensures NameIn(line) == Some(comm) && RestOf(line) == Some(rest)
  {
    var close := |head| + 1 + |comm|;
    assert line[|head|] == '(' && line[close] == ')';
    forall j | 0 <= j < |head| ensures line[j] != '(' { assert line[j] == head[j]; }
    forall j | close < j < |line| ensures line[j] != ')' { assert line[j] == rest[j - close - 1]; }
    assert Find(line, '(') == Some(|head|) && FindLast(line, ')') == Some(close);
    assert line[|head| + 1..close] == comm && line[close + 1..] == rest;
  }

  lemma LeadingBlank(text: string)
    ensures SplitWhitespace(" " + text) == SplitWhitespace(text)
  {
    var blank := " " + text;
    assert blank[0] == ' ' && blank[1..] == text;
  }

  lemma FieldsSplit(fields: seq<string>, tail: string)
    requires Words(fields) && (forall c :: c in tail ==> IsSpace(c))
    ensures SplitWhitespace(" " + Join(fields) + tail) == fields
  {
    SplitJoined(fields, tail);
    LeadingBlank(Join(fields) + tail);
    assert " " + (Join(fields) + tail) == " " + Join(fields) + tail;
  }

  lemma NoBracketBehind(fields: seq<string>, tail: string)
    requires forall k :: 0 <= k < |fields| ==> ')' !in fields[k]
    requires forall c :: c in tail ==> IsSpace(c)
    ensures ')' !in " " + Join(fields) + tail
  {
    JoinedHas(fields, ')');
  }

  lemma FieldsRead(comm: string, fields: seq<string>, ppid: int, start: nat)
    requires FieldsOk(fields, ppid, start)
    ensures WithFields(comm, fields) == Some(StatLine(comm, ppid, start)) && StartIn(fields) == Some(start)
  {
    ParseDecimalInt(ppid, I32_MAX);
    ParseDecimal(start, U64_MAX);
  }

  /** Any name at all, spaces and brackets included, comes back with its parent and start time. */
  lemma StatRoundTrip(pid: nat, comm: string, fields: seq<string>, tail: string, ppid: int, start: nat)
    requires FieldsOk(fields, ppid, start) && (forall c :: c in tail ==> IsSpace(c))
    ensures ParseStat(PrintStat(pid, comm, fields, tail)) == Some(StatLine(comm, ppid, start))
    ensures ParseStartTime(PrintStat(pid, comm, fields, tail)) == Some(start)
  {
    FieldsSplit(fields, tail);
    NoBracketBehind(fields, tail);
    FieldsRead(comm, fields, ppid, start);
    PrintShape(pid, comm, Join(fields), tail);
    assert '(' !in Decimal(pid) + " ";
    var line, rest := PrintStat(pid, comm, fields, tail), " " + Join(fields) + tail;
    Brackets(line, Decimal(pid) + " ", comm, rest);
    BracketedReads(line, comm, rest, fields);
  }

  /** Both readers look at the fields behind the last bracket. */
  lemma BracketedReads(line: string, comm: string, rest: string, fields: seq<string>)
    requires NameIn(line) == Some(comm) && RestOf(line) == Some(rest) && SplitWhitespace(rest) == fields
    ensures ParseStat(line) == WithFields(comm, fields) && ParseStartTime(line) == StartIn(fields)
  {
  }

  lemma PrintShape(pid: nat, comm: string, joined: string, tail: string)
    ensures Decimal(pid) + " (" + comm + ") " + joined + tail
         == (Decimal(pid) + " ") + "(" + comm + ")" + (" " + joined + tail)
  {
  }
}
