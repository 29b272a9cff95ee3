/**
 The bounded record of a session's subagents, driven by hook events that may be missing,
 repeated or unnamed.
 */
module Ledger {
  import opened Common
  import opened Text
  import opened Graph

  // ---- names ----

  predicate IsIdChar(c: char) {
    'a' <= c <= 'z' || 'A' <= c <= 'Z' || IsDigit(c) || c == '-' || c == '_' || c == '.'
  }

  function IdChars(s: string): (r: string)
    ensures forall c :: c in r ==> IsIdChar(c)
  {
    if s == "" then "" else if IsIdChar(s[0]) then [s[0]] + IdChars(s[1..]) else IdChars(s[1..])
  }

  const ANON := "anon:"

  predicate IsAnon(id: string) {
    ANON <= id
  }

  function AnonId(n: nat): string {
    ANON + Decimal(n)
  }

  function ClampId(raw: string): (id: string)
    ensures id == "anon:unnamed" || (forall c :: c in id ==> IsIdChar(c))
  {
    var kept := Take(IdChars(raw), MAX_LABEL);
    if kept == "" then "anon:unnamed" else kept
  }

  /** The usable name on an event, if it carries one. */
  function NameOf(agentId: Option<string>): Option<string> {
    if agentId.Some? && Trim(agentId.value) != "" then Some(ClampId(Trim(agentId.value))) else None
  }

  function BlankControls(s: string): string {
    seq(|s|, i requires 0 <= i < |s| => if IsControl(s[i]) then ' ' else s[i])
  }

  function ClampLabel(raw: Option<string>): string {
    if raw.None? then "subagent"
    else
      var kept := Join(SplitWhitespace(BlankControls(raw.value)));
      if kept == "" then "subagent" else Take(kept, MAX_LABEL)
  }

  /** A clamped name never falls among the synthesised numbered ids. */
  lemma NamesAreNotNumbered(raw: string, n: nat)
    ensures ClampId(raw) != AnonId(n)
    ensures IsAnon(ClampId(raw)) <==> ClampId(raw) == "anon:unnamed"
  {
    var id := ClampId(raw);
    if id == "anon:unnamed" {
      assert id[5] == 'u' && AnonId(n)[5] == Decimal(n)[0] && Decimal(n)[0] in Decimal(n);
      assert id[..5] == ANON;
    } else {
      assert AnonId(n)[4] == ':' && ANON[4] == ':';
      if |id| > 4 { assert id[4] in id; }
    }
  }

  predicate IsName(s: string) {
    s != "" && forall i :: 0 <= i < |s| ==> IsIdChar(s[i])
  }

  lemma {:induction false} IdCharsKept(s: string)
    requires forall i :: 0 <= i < |s| ==> IsIdChar(s[i])
    ensures IdChars(s) == s
  {
    if s != "" {
      IdCharsKept(s[1..]);
      assert s == [s[0]] + s[1..];
    }
  }

  lemma {:induction false} OtherDropped(a: string, c: char, b: string)
    requires !IsIdChar(c)
    ensures IdChars(a + [c] + b) == IdChars(a + b)
  {
    if a == "" {
      assert a + [c] + b == [c] + b && a + b == b;
    } else {
      assert (a + [c] + b)[1..] == a[1..] + [c] + b && (a + b)[1..] == a[1..] + b;
      OtherDropped(a[1..], c, b);
    }
  }

  /** A name of letters, digits, dashes, underscores and dots is kept up to 48 characters, blanks around it dropped. */
  lemma NameKept(a: string, s: string, b: string)
    requires IsName(s) && Blank(a) && Blank(b)
    ensures NameOf(Some(a + s + b)) == Some(if |s| <= 48 then s else s[..48])
  {
    TrimSurrounded(a, s, b);
    IdCharsKept(s);
  }

  /** Without any of those characters it is the unusable name; without anything but blanks, none. */
  lemma NameUnusable(s: string)
    ensures Blank(s) ==> NameOf(Some(s)) == None
    ensures NameOf(None) == None
    ensures Trim(s) != "" && IdChars(Trim(s)) == "" ==> NameOf(Some(s)) == Some("anon:unnamed")
  {
    if Blank(s) { TrimBlank(s); }
  }

  lemma BlankControlsKeeps(s: string)
    requires NoControls(s)
    ensures BlankControls(s) == s
  {
  }

  /** A type of printable words is labelled by them, up to 48 characters. */
  lemma LabelIs(words: seq<string>)
    requires Words(words) && NoControls(Join(words)) && words != []
    ensures ClampLabel(Some(Join(words))) == if |Join(words)| <= 48 then Join(words) else Join(words)[..48]
    ensures ClampLabel(None) == "subagent"
  {
    BlankControlsKeeps(Join(words));
    assert Join(words) + "" == Join(words);
    SplitJoined(words, "");
    assert words[0] != "";
  }

  // ---- what each event does to the list ----

  predicate HasId(cs: seq<ChildInfo>, id: string) {
    exists k :: 0 <= k < |cs| && cs[k].id == id
  }

  function EndOf(c: ChildInfo): nat {
    if c.ended.Some? then c.ended.value else 0
  }

  /** The earliest-ended closed child, the first of equals. */
  function OldestClosed(cs: seq<ChildInfo>): (r: Option<nat>)
    ensures r.None? <==> forall k :: 0 <= k < |cs| ==> cs[k].IsOpen()
    ensures r.Some? ==> r.value < |cs| && !cs[r.value].IsOpen()
    ensures r.Some? ==> forall k :: 0 <= k < |cs| && !cs[k].IsOpen() ==>
              EndOf(cs[r.value]) < EndOf(cs[k]) || (EndOf(cs[r.value]) == EndOf(cs[k]) && r.value <= k)
  {
    if cs == [] then None
    else
      var n, r := |cs| - 1, OldestClosed(cs[..|cs|-1]);
      if cs[n].IsOpen() then r
      else if r.None? then Some(n)
      else if EndOf(cs[n]) < EndOf(cs[r.value]) then Some(n) else r
  }

  function Remove(cs: seq<ChildInfo>, i: nat): seq<ChildInfo>
    requires i < |cs|
  {
    cs[..i] + cs[i + 1..]
  }

  function Push(cs: seq<ChildInfo>, child: ChildInfo): seq<ChildInfo> {
    if |cs| < MAX_CHILDREN then cs + [child]
    else
      var oldest := OldestClosed(cs);
      if oldest.None? then cs else Remove(cs, oldest.value) + [child]
  }

  function NewChild(id: string, agentType: Option<string>, at: nat, ended: bool): ChildInfo {
    ChildInfo(id, Subagent, ClampLabel(agentType), at,
      if ended then Some(at) else None, if ended then Some(Reported) else None, None, None, None)
  }

  function Started(cs: seq<ChildInfo>, agentId: Option<string>, agentType: Option<string>, at: nat): seq<ChildInfo> {
    var name := NameOf(agentId);
    var id := if name.Some? then name.value else AnonId(|cs|);
    if HasId(cs, id) then cs else Push(cs, NewChild(id, agentType, at, false))
  }

  predicate Correctable(c: ChildInfo) {
    c.IsOpen() || c.endedBy != Some(Reported)
  }

  /** Which child a stop is about. */
  predicate Answers(c: ChildInfo, name: Option<string>) {
    if name.Some? then c.id == name.value && Correctable(c) else c.IsOpen() && IsAnon(c.id)
  }

  function FirstAnswering(cs: seq<ChildInfo>, name: Option<string>): (r: Option<nat>)
    ensures r.Some? ==>
              r.value < |cs| && Answers(cs[r.value], name) && forall k :: 0 <= k < r.value ==> !Answers(cs[k], name)
    ensures r.None? ==> forall k :: 0 <= k < |cs| ==> !Answers(cs[k], name)
  {
    if cs == [] then None
    else
      var r := FirstAnswering(cs[..|cs|-1], name);
      if r.Some? then r else if Answers(cs[|cs|-1], name) then Some(|cs|-1) else None
  }

  /** The one child a stop is taken to be about. */
  predicate IsFirstAnswering(cs: seq<ChildInfo>, c: ChildInfo, name: Option<string>) {
    var r := FirstAnswering(cs, name);
    r.Some? && c == cs[r.value]
  }

  function ReportEnd(c: ChildInfo, at: nat): ChildInfo {
    c.(ended := Some(at), endedBy := Some(Reported))
  }

  function Stopped(cs: seq<ChildInfo>, agentId: Option<string>, agentType: Option<string>, at: nat): seq<ChildInfo> {
    var name := NameOf(agentId);
    var found := FirstAnswering(cs, name);
    if found.Some? then cs[found.value := ReportEnd(cs[found.value], at)]
    else
      var id := if name.Some? then name.value else AnonId(|cs|);
      if HasId(cs, id) then cs else Push(cs, NewChild(id, agentType, at, true))
  }

  function Swept(c: ChildInfo, why: ChildEnd, at: nat): ChildInfo {
    if c.IsOpen() then c.(ended := Some(at), endedBy := Some(why)) else c
  }

  function CloseOpen(cs: seq<ChildInfo>, why: ChildEnd, at: nat): seq<ChildInfo> {
    seq(|cs|, i requires 0 <= i < |cs| => Swept(cs[i], why, at))
  }

  function OpenCount(cs: seq<ChildInfo>): nat {
    if cs == [] then 0 else OpenCount(cs[..|cs|-1]) + (if cs[|cs|-1].IsOpen() then 1 else 0)
  }

  // ---- runs ----

  datatype Event =
    | Start(agentId: Option<string>, agentType: Option<string>, at: nat)
    | Stop(agentId: Option<string>, agentType: Option<string>, at: nat)
    | Sweep(why: ChildEnd, at: nat)

  function Apply(cs: seq<ChildInfo>, e: Event): seq<ChildInfo> {
    match e
    case Start(id, kind, at) => Started(cs, id, kind, at)
    case Stop(id, kind, at) => Stopped(cs, id, kind, at)
    case Sweep(why, at) => CloseOpen(cs, why, at)
  }

  function Run(events: seq<Event>): seq<ChildInfo> {
    if events == [] then [] else Apply(Run(events[..|events|-1]), events[|events|-1])
  }

  ghost predicate UniqueIds(cs: seq<ChildInfo>) {
    forall i, j :: 0 <= i < |cs| && 0 <= j < |cs| && cs[i].id == cs[j].id ==> i == j
  }

  predicate WellClosed(c: ChildInfo) {
    c.ended.Some? <==> c.endedBy.Some?
  }

  /** A synthesised number is below the length it was drawn from, or the cap itself. */
  ghost predicate NumbersBelow(cs: seq<ChildInfo>, size: nat) {
    forall k, n: nat :: 0 <= k < |cs| && cs[k].id == AnonId(n) ==> n < size || n == size == MAX_CHILDREN
  }

  ghost predicate Sound(cs: seq<ChildInfo>) {
    UniqueIds(cs) && forall k :: 0 <= k < |cs| ==> WellClosed(cs[k])
  }

  ghost predicate Valid(cs: seq<ChildInfo>) {
    |cs| <= MAX_CHILDREN && Sound(cs) && NumbersBelow(cs, |cs|)
  }

  lemma AnonIdInjective(m: nat, n: nat)
    ensures AnonId(m) == AnonId(n) <==> m == n
  {
    assert AnonId(m)[5..] == Decimal(m) && AnonId(n)[5..] == Decimal(n);
    DecimalInjective(m, n);
  }

  lemma AppendKeeps(cs: seq<ChildInfo>, child: ChildInfo, size: nat)
    requires Sound(cs) && !HasId(cs, child.id) && WellClosed(child) && NumbersBelow(cs, size)
    requires forall n: nat :: child.id == AnonId(n) ==> n == size
    ensures Sound(cs + [child])
    ensures size < MAX_CHILDREN ==> NumbersBelow(cs + [child], size + 1)
    ensures size == MAX_CHILDREN ==> NumbersBelow(cs + [child], size)
  {
  }

  lemma RemoveAt(cs: seq<ChildInfo>, i: nat, m: nat)
    requires i < |cs| && m < |cs| - 1
    ensures |Remove(cs, i)| == |cs| - 1 && Remove(cs, i)[m] == cs[if m < i then m else m + 1]
  {
  }

  lemma RemoveKeeps(cs: seq<ChildInfo>, i: nat, size: nat)
    requires i < |cs| && Sound(cs) && NumbersBelow(cs, size)
    ensures |Remove(cs, i)| == |cs| - 1 && Sound(Remove(cs, i)) && NumbersBelow(Remove(cs, i), size)
    ensures !HasId(Remove(cs, i), cs[i].id)
    ensures forall c :: c in Remove(cs, i) ==> c in cs
    ensures forall c :: c in cs && c != cs[i] ==> c in Remove(cs, i)
  {
    var tt := Remove(cs, i);
    forall m | 0 <= m < |tt| ensures tt[m] == cs[if m < i then m else m + 1] { RemoveAt(cs, i, m); }
    forall c | c in cs && c != cs[i] ensures c in tt {
      var k :| 0 <= k < |cs| && cs[k] == c;
      assert tt[if k < i then k else k - 1] == c;
    }
  }

  lemma StillMissing(cs: seq<ChildInfo>, tt: seq<ChildInfo>, id: string)
    requires !HasId(cs, id) && forall c :: c in tt ==> c in cs
    ensures !HasId(tt, id)
  {
    forall k | 0 <= k < |tt| ensures tt[k].id != id {
      assert tt[k] in cs;
      var j :| 0 <= j < |cs| && cs[j] == tt[k];
    }
  }

  /** Nothing is dropped below the cap, and at the cap only a closed child. */
  ghost predicate Spared(cs: seq<ChildInfo>, tt: seq<ChildInfo>, c: ChildInfo) {
    c in tt || (!c.IsOpen() && |cs| == MAX_CHILDREN && !HasId(tt, c.id))
  }

  /** What a push keeps, adds and may drop. */
  lemma PushEffect(cs: seq<ChildInfo>, child: ChildInfo)
    requires Valid(cs) && !HasId(cs, child.id) && WellClosed(child)
    requires forall n: nat :: child.id == AnonId(n) ==> n == |cs|
    ensures Valid(Push(cs, child)) && |cs| <= |Push(cs, child)|
    ensures forall c :: c in Push(cs, child) ==> c in cs || c == child
    ensures forall c :: c in cs ==> Spared(cs, Push(cs, child), c)
    ensures Push(cs, child) == cs || child in Push(cs, child)
  {
    if |cs| < MAX_CHILDREN {
      AppendKeeps(cs, child, |cs|);
      assert (cs + [child])[|cs|] == child;
    } else {
      var oldest := OldestClosed(cs);
      if oldest.Some? {
        EvictEffect(cs, oldest.value, child);
      }
    }
  }

  lemma EvictEffect(cs: seq<ChildInfo>, i: nat, child: ChildInfo)
    requires Valid(cs) && !HasId(cs, child.id) && WellClosed(child) && |cs| == MAX_CHILDREN
    requires forall n: nat :: child.id == AnonId(n) ==> n == |cs|
    requires i < |cs| && !cs[i].IsOpen()
    ensures var tt := Remove(cs, i) + [child];
            && Valid(tt) && |tt| == |cs| && child in tt
            && (forall c :: c in tt ==> c in cs || c == child)
            && (forall c :: c in cs ==> Spared(cs, tt, c))
  {
    var kept := Remove(cs, i);
    var tt := kept + [child];
    RemoveKeeps(cs, i, MAX_CHILDREN);
    StillMissing(cs, kept, child.id);
    AppendKeeps(kept, child, MAX_CHILDREN);
    assert tt[|kept|] == child && cs[i].id != child.id;
    assert !HasId(tt, cs[i].id);
    forall c | c in cs ensures Spared(cs, tt, c) { assert c != cs[i] ==> c in kept; }
  }

  /** An id an event may use: not a number other than the current length. */
  lemma EventId(agentId: Option<string>, size: nat)
    ensures var name := NameOf(agentId);
            var id := if name.Some? then name.value else AnonId(size);
            forall n: nat :: id == AnonId(n) ==> n == size
  {
    var name := NameOf(agentId);
    forall n: nat | (if name.Some? then name.value else AnonId(size)) == AnonId(n) ensures n == size {
      if name.Some? { NamesAreNotNumbered(Trim(agentId.value), n); } else { AnonIdInjective(size, n); }
    }
  }

  // ---- what each event may change ----

  /** A start changes nobody; it may only add one open child. */
  lemma StartEffect(cs: seq<ChildInfo>, agentId: Option<string>, agentType: Option<string>, at: nat)
    requires Valid(cs)
    ensures var tt := Started(cs, agentId, agentType, at);
            && Valid(tt) && |cs| <= |tt|
            && forall c :: c in cs ==> Spared(cs, tt, c)
  {
    EventId(agentId, |cs|);
    var name := NameOf(agentId);
    var id := if name.Some? then name.value else AnonId(|cs|);
    if !HasId(cs, id) {
      PushEffect(cs, NewChild(id, agentType, at, false));
    }
  }

  lemma UpdateKeeps(cs: seq<ChildInfo>, i: nat, c: ChildInfo)
    requires Valid(cs) && i < |cs| && c.id == cs[i].id && WellClosed(c)
    ensures Valid(cs[i := c])
    ensures forall d :: d in cs && d.id != c.id ==> d in cs[i := c]
  {
    var tt := cs[i := c];
    forall d | d in cs && d.id != c.id ensures d in tt {
      var k :| 0 <= k < |cs| && cs[k] == d;
      assert tt[k] == d;
    }
    assert forall k :: 0 <= k < |cs| ==> tt[k].id == cs[k].id;
  }

  /**
   A stop changes at most the one child it answers to: a child that was not reported yet, the
   named one if the stop has a name, and one without a usable name if it has none.
   */
  lemma StopEffect(cs: seq<ChildInfo>, agentId: Option<string>, agentType: Option<string>, at: nat)
    requires Valid(cs)
    ensures var tt := Stopped(cs, agentId, agentType, at);
            && Valid(tt) && |cs| <= |tt|
            && forall c :: c in cs ==>
                 || Spared(cs, tt, c)
                 || (IsFirstAnswering(cs, c, NameOf(agentId)) && ReportEnd(c, at) in tt)
  {
    var name := NameOf(agentId);
    var found := FirstAnswering(cs, name);
    var tt := Stopped(cs, agentId, agentType, at);
    if found.Some? {
      var c := cs[found.value];
      UpdateKeeps(cs, found.value, ReportEnd(c, at));
      assert tt[found.value] == ReportEnd(c, at);
      forall d | d in cs ensures Spared(cs, tt, d) || (IsFirstAnswering(cs, d, name) && ReportEnd(d, at) in tt) {
        if d.id == c.id { SameChild(cs, d, found.value); }
      }
    } else {
      EventId(agentId, |cs|);
      var id := if name.Some? then name.value else AnonId(|cs|);
      if !HasId(cs, id) {
        PushEffect(cs, NewChild(id, agentType, at, true));
      }
    }
  }

  lemma SameChild(cs: seq<ChildInfo>, d: ChildInfo, i: nat)
    requires UniqueIds(cs) && d in cs && i < |cs| && d.id == cs[i].id
    ensures d == cs[i]
  {
    var k :| 0 <= k < |cs| && cs[k] == d;
  }

  /** A sweep leaves nothing open and touches nothing closed. */
  lemma SweepEffect(cs: seq<ChildInfo>, why: ChildEnd, at: nat)
    requires Valid(cs)
    ensures var tt := CloseOpen(cs, why, at);
            && Valid(tt) && |cs| == |tt|
            && (forall c :: c in tt ==> !c.IsOpen())
            && (forall k :: 0 <= k < |cs| ==>
                  tt[k] == if cs[k].IsOpen() then cs[k].(ended := Some(at), endedBy := Some(why)) else cs[k])
            && (forall c :: c in cs ==> Swept(c, why, at) in tt)
            && (forall c :: c in cs && !c.IsOpen() ==> c in tt)
  {
    var tt := CloseOpen(cs, why, at);
    assert forall k :: 0 <= k < |cs| ==> tt[k].id == cs[k].id && WellClosed(tt[k]) by {
      forall k | 0 <= k < |cs| ensures tt[k].id == cs[k].id && WellClosed(tt[k]) { assert WellClosed(cs[k]); }
    }
    forall c | c in cs ensures Swept(c, why, at) in tt {
      var k :| 0 <= k < |cs| && cs[k] == c;
      assert tt[k] == Swept(c, why, at);
    }
  }

  // ---- over every run ----

  lemma {:induction false} RunValid(events: seq<Event>)
    ensures Valid(Run(events))
    ensures |Run(events)| <= 128
  {
    if events != [] {
      var before := Run(events[..|events|-1]);
      RunValid(events[..|events|-1]);
      StepEffect(before, events[|events|-1]);
    }
  }

  /** An open child is never dropped, and a reported one never changes while it is kept. */
  lemma StepEffect(cs: seq<ChildInfo>, e: Event)
    requires Valid(cs)
    ensures Valid(Apply(cs, e)) && |cs| <= |Apply(cs, e)|
    ensures forall c :: c in cs && c.IsOpen() ==> HasId(Apply(cs, e), c.id)
    ensures forall c :: c in cs && c.endedBy == Some(Reported) ==> Spared(cs, Apply(cs, e), c)
  {
    var tt := Apply(cs, e);
    match e {
      case Start(id, kind, at) => StartEffect(cs, id, kind, at);
      case Stop(id, kind, at) => StopEffect(cs, id, kind, at);
      case Sweep(why, at) => SweepEffect(cs, why, at);
    }
    forall c | c in cs && c.IsOpen() ensures HasId(tt, c.id) {
      if c in tt { Member(tt, c); }
      else if e.Stop? { Member(tt, ReportEnd(c, e.at)); }
      else if e.Sweep? { Member(tt, Swept(c, e.why, e.at)); }
    }
    forall c | c in cs && c.endedBy == Some(Reported) ensures Spared(cs, tt, c) {
      var k :| 0 <= k < |cs| && cs[k] == c;
      assert WellClosed(cs[k]);
    }
  }

  lemma ReportedStep(events: seq<Event>, e: Event, c: ChildInfo)
    requires c in Run(events) && c.endedBy == Some(Reported)
    ensures c in Run(events + [e]) || !HasId(Run(events + [e]), c.id)
  {
    RunValid(events);
    StepEffect(Run(events), e);
    assert (events + [e])[..|events|] == events;
  }

  ghost predicate EvictedDuring(events: seq<Event>, more: seq<Event>, c: ChildInfo) {
    exists m :: 0 <= m <= |more| && !HasId(Run(events + more[..m]), c.id)
  }

  lemma EvictedEarlier(events: seq<Event>, more: seq<Event>, e: Event, c: ChildInfo)
    requires EvictedDuring(events, more, c)
    ensures EvictedDuring(events, more + [e], c)
  {
    var m :| 0 <= m <= |more| && !HasId(Run(events + more[..m]), c.id);
    assert (more + [e])[..m] == more[..m];
  }

  /** A reported end stands until the child is evicted. */
  lemma {:induction false} ReportedUntilEvicted(events: seq<Event>, more: seq<Event>, c: ChildInfo)
    requires c in Run(events) && c.endedBy == Some(Reported)
    ensures c in Run(events + more) || EvictedDuring(events, more, c)
    decreases |more|
  {
    if more == [] {
      assert events + more == events;
    } else {
      var init, e := more[..|more|-1], more[|more|-1];
      assert init + [e] == more && events + more == (events + init) + [e];
      ReportedUntilEvicted(events, init, c);
      if c in Run(events + init) {
        ReportedStep(events + init, e, c);
        assert more[..|more|] == more;
      } else {
        EvictedEarlier(events, init, e, c);
      }
    }
  }

  lemma Member(cs: seq<ChildInfo>, c: ChildInfo)
    requires c in cs
    ensures HasId(cs, c.id)
  {
  }

  // ---- what each event does, said outright ----

  /** The child as a hook reports its end. */
  function Finished(c: ChildInfo, at: nat): ChildInfo {
    c.(ended := Some(at), endedBy := Some(Reported))
  }

  lemma RunMore(events: seq<Event>, e: Event)
    ensures Run(events + [e]) == Apply(Run(events), e)
  {
    assert (events + [e])[..|events|] == events;
  }

  /**
   In any run a stop with the name of a child that is open, or was closed by a sweep, ends that
   child there and then as reported, and leaves every other as it was.
   */
  lemma NamedStopEnds(events: seq<Event>, agentId: Option<string>, agentType: Option<string>, at: nat, k: nat)
    requires k < |Run(events)| && NameOf(agentId) == Some(Run(events)[k].id)
    requires Run(events)[k].ended.None? || Run(events)[k].endedBy != Some(Reported)
    ensures Run(events + [Stop(agentId, agentType, at)]) == Run(events)[k := Finished(Run(events)[k], at)]
  {
    RunMore(events, Stop(agentId, agentType, at));
    RunValid(events);
    var cs := Run(events);
    var found := FirstAnswering(cs, NameOf(agentId));
    assert Answers(cs[k], NameOf(agentId));
    assert found.Some? && cs[found.value].id == cs[k].id;
  }

  /** One without a usable name ends the first open child without one, and no other. */
  lemma AnonymousStopEnds(events: seq<Event>, agentId: Option<string>, agentType: Option<string>, at: nat, k: nat)
    requires k < |Run(events)| && NameOf(agentId).None?
    requires Run(events)[k].ended.None? && "anon:" <= Run(events)[k].id
    requires forall i :: 0 <= i < k ==> !(Run(events)[i].ended.None? && "anon:" <= Run(events)[i].id)
    ensures Run(events + [Stop(agentId, agentType, at)]) == Run(events)[k := Finished(Run(events)[k], at)]
  {
    RunMore(events, Stop(agentId, agentType, at));
    var cs := Run(events);
    var found := FirstAnswering(cs, None);
    assert Answers(cs[k], None);
    assert forall i :: 0 <= i < k ==> !Answers(cs[i], None);
    assert found == Some(k);
  }

  /** A second report about a child changes nothing. */
  lemma ReportedOnce(events: seq<Event>, agentId: Option<string>, agentType: Option<string>, at: nat, k: nat)
    requires k < |Run(events)| && NameOf(agentId) == Some(Run(events)[k].id)
    requires Run(events)[k].endedBy == Some(Reported)
    ensures Run(events + [Stop(agentId, agentType, at)]) == Run(events)
  {
    RunMore(events, Stop(agentId, agentType, at));
    RunValid(events);
    var cs := Run(events);
    assert WellClosed(cs[k]);
    assert forall i :: 0 <= i < |cs| ==> !Answers(cs[i], NameOf(agentId));
    assert HasId(cs, cs[k].id);
  }

  /** The child a start or an unexpected stop is recorded as. */
  function Recorded(id: string, agentType: Option<string>, at: nat, ended: bool): ChildInfo {
    ChildInfo(id, Subagent, ClampLabel(agentType), at, if ended then Some(at) else None,
              if ended then Some(Reported) else None, None, None, None)
  }

  /** Below the cap a start without a usable name appends an open child numbered by the length. */
  lemma AnonymousStartIs(events: seq<Event>, agentId: Option<string>, agentType: Option<string>, at: nat)
    requires NameOf(agentId).None? && |Run(events)| < 128
    ensures Run(events + [Start(agentId, agentType, at)]) ==
              Run(events) + [Recorded("anon:" + Decimal(|Run(events)|), agentType, at, false)]
  {
    RunMore(events, Start(agentId, agentType, at));
    RunValid(events);
    NextNumber(Run(events));
  }

  /** Below the cap a start with a new name appends that child, open; a known name changes nothing. */
  lemma NamedStartRecorded(events: seq<Event>, agentId: Option<string>, agentType: Option<string>, at: nat)
    requires NameOf(agentId).Some?
    ensures var cs, id := Run(events), NameOf(agentId).value;
            var tt := Run(events + [Start(agentId, agentType, at)]);
            && (HasId(cs, id) ==> tt == cs)
            && (!HasId(cs, id) && |cs| < 128 ==> tt == cs + [Recorded(id, agentType, at, false)])
            && (!HasId(cs, id) && |cs| >= 128 ==>
                  if exists k :: 0 <= k < |cs| && cs[k].ended.Some?
                  then MadeRoom(cs, tt, Recorded(id, agentType, at, false)) else tt == cs)
  {
    RunMore(events, Start(agentId, agentType, at));
    RunValid(events);
    PushMakesRoom(Run(events), Recorded(NameOf(agentId).value, agentType, at, false));
  }

  /** The earliest-ended closed child, the first of equals, went, and `child` came last. */
  ghost predicate MadeRoom(cs: seq<ChildInfo>, tt: seq<ChildInfo>, child: ChildInfo) {
    exists i :: 0 <= i < |cs| && Earliest(cs, i) && tt == cs[..i] + cs[i + 1..] + [child]
  }

  ghost predicate Earliest(cs: seq<ChildInfo>, i: nat)
    requires i < |cs|
  {
    && cs[i].ended.Some?
    && forall k :: 0 <= k < |cs| && cs[k].ended.Some? ==>
         cs[i].ended.value < cs[k].ended.value || (cs[i].ended.value == cs[k].ended.value && i <= k)
  }

  lemma PushMakesRoom(cs: seq<ChildInfo>, child: ChildInfo)
    requires Valid(cs)
    ensures |cs| < 128 ==> Push(cs, child) == cs + [child]
    ensures |cs| >= 128 ==>
              if exists k :: 0 <= k < |cs| && cs[k].ended.Some? then MadeRoom(cs, Push(cs, child), child)
              else Push(cs, child) == cs
  {
    var oldest := OldestClosed(cs);
    if |cs| >= 128 && oldest.Some? {
      assert Earliest(cs, oldest.value);
    }
  }

  /** A stop naming a child nobody saw start is recorded in the same way, as begun and ended at once. */
  lemma UnseenStopRecorded(events: seq<Event>, agentId: Option<string>, agentType: Option<string>, at: nat)
    requires NameOf(agentId).Some? && !HasId(Run(events), NameOf(agentId).value)
    ensures var cs, child := Run(events), Recorded(NameOf(agentId).value, agentType, at, true);
            var tt := Run(events + [Stop(agentId, agentType, at)]);
            && (|cs| < 128 ==> tt == cs + [child])
            && (|cs| >= 128 ==>
                  if exists k :: 0 <= k < |cs| && cs[k].ended.Some? then MadeRoom(cs, tt, child) else tt == cs)
  {
    RunMore(events, Stop(agentId, agentType, at));
    RunValid(events);
    var cs := Run(events);
    assert forall i :: 0 <= i < |cs| ==> !Answers(cs[i], NameOf(agentId));
    PushMakesRoom(cs, Recorded(NameOf(agentId).value, agentType, at, true));
  }

  ghost function OpenOnes(cs: seq<ChildInfo>): set<nat> {
    set k: nat | k < |cs| && cs[k].IsOpen()
  }

  lemma {:induction false} OpenCountIs(cs: seq<ChildInfo>)
    ensures OpenCount(cs) == |OpenOnes(cs)|
  {
    if cs != [] {
      var init, n := cs[..|cs|-1], |cs| - 1;
      OpenCountIs(init);
      assert OpenOnes(cs) == if cs[n].IsOpen() then OpenOnes(init) + {n} else OpenOnes(init);
    }
  }

  // ---- what is recorded below and at the cap ----

  /** There is a free place, or a closed child to give one up. */
  ghost predicate HasRoom(cs: seq<ChildInfo>) {
    |cs| < MAX_CHILDREN || exists k :: 0 <= k < |cs| && !cs[k].IsOpen()
  }

  lemma PushRecords(cs: seq<ChildInfo>, child: ChildInfo)
    requires Valid(cs) && !HasId(cs, child.id) && WellClosed(child)
    requires forall n: nat :: child.id == AnonId(n) ==> n == |cs|
    ensures Push(cs, child) != cs <==> HasRoom(cs)
    ensures HasRoom(cs) <==> child in Push(cs, child)
  {
    PushEffect(cs, child);
    if child in cs { Member(cs, child); }
  }

  /** Below the cap the next number is free. */
  lemma NextNumber(cs: seq<ChildInfo>)
    requires Valid(cs) && |cs| < MAX_CHILDREN
    ensures !HasId(cs, AnonId(|cs|))
  {
  }

  /** When an event without a name gets an entry of its own. */
  ghost predicate AnonymousFits(cs: seq<ChildInfo>) {
    || |cs| < MAX_CHILDREN
    || (!HasId(cs, AnonId(MAX_CHILDREN)) && exists k :: 0 <= k < |cs| && !cs[k].IsOpen())
  }

  lemma AnonymousEntry(cs: seq<ChildInfo>, child: ChildInfo)
    requires Valid(cs) && child.id == AnonId(|cs|) && WellClosed(child)
    ensures var tt := if HasId(cs, child.id) then cs else Push(cs, child);
            (tt != cs <==> AnonymousFits(cs)) && (tt != cs ==> child in tt)
  {
    if |cs| < MAX_CHILDREN { NextNumber(cs); }
    EventId(None, |cs|);
    if !HasId(cs, child.id) { PushRecords(cs, child); }
  }

  /** Exactly when an anonymous start is recorded. */
  lemma AnonymousStartRecorded(events: seq<Event>, agentType: Option<string>, at: nat)
    ensures var cs := Run(events);
            var tt := Started(cs, None, agentType, at);
            && (tt != cs <==> AnonymousFits(cs))
            && (tt != cs ==> NewChild(AnonId(|cs|), agentType, at, false) in tt)
  {
    RunValid(events);
    AnonymousEntry(Run(events), NewChild(AnonId(|Run(events)|), agentType, at, false));
  }

  /** Exactly when an anonymous stop that no open child answers to is recorded. */
  lemma AnonymousStopRecorded(events: seq<Event>, agentType: Option<string>, at: nat)
    requires forall c :: c in Run(events) ==> !(c.IsOpen() && IsAnon(c.id))
    ensures var cs := Run(events);
            var tt := Stopped(cs, None, agentType, at);
            && (tt != cs <==> AnonymousFits(cs))
            && (tt != cs ==> NewChild(AnonId(|cs|), agentType, at, true) in tt)
  {
    RunValid(events);
    AnonymousEntry(Run(events), NewChild(AnonId(|Run(events)|), agentType, at, true));
  }

  /** Exactly when a stop naming a child nobody saw start is recorded. */
  lemma NamedStopRecorded(events: seq<Event>, agentId: string, agentType: Option<string>, at: nat)
    requires NameOf(Some(agentId)).Some? && !HasId(Run(events), NameOf(Some(agentId)).value)
    ensures NewChild(NameOf(Some(agentId)).value, agentType, at, true)
              in Run(events + [Stop(Some(agentId), agentType, at)])
            <==> HasRoom(Run(events))
  {
    RunValid(events);
    EventId(Some(agentId), |Run(events)|);
    assert (events + [Stop(Some(agentId), agentType, at)])[..|events|] == events;
    PushRecords(Run(events), NewChild(NameOf(Some(agentId)).value, agentType, at, true));
  }

  /** At the cap a second anonymous start in a row is always lost. */
  lemma SecondAnonymousStartLost(events: seq<Event>, kind: Option<string>, kind': Option<string>, at: nat, at': nat)
    requires |Run(events)| == MAX_CHILDREN
    ensures var once := Started(Run(events), None, kind, at);
            Started(once, None, kind', at') == once
  {
    RunValid(events);
    var cs := Run(events);
    var child := NewChild(AnonId(|cs|), kind, at, false);
    EventId(None, |cs|);
    if !HasId(cs, AnonId(|cs|)) {
      PushEffect(cs, child);
      if child in Push(cs, child) { Member(Push(cs, child), child); }
    }
  }

  // ---- a run that gets there ----

  /** Anonymous starts and nothing else. */
  function AnonymousStarts(n: nat): seq<Event> {
    if n == 0 then [] else AnonymousStarts(n - 1) + [Start(None, None, 0)]
  }

  lemma StartBelowCap(cs: seq<ChildInfo>, at: nat)
    requires Valid(cs) && |cs| < MAX_CHILDREN
    ensures Started(cs, None, None, at) == cs + [NewChild(AnonId(|cs|), None, at, false)]
  {
    NextNumber(cs);
  }

  predicate NumberedAt(cs: seq<ChildInfo>, k: nat)
    requires k < |cs|
  {
    cs[k].id == AnonId(k) && cs[k].IsOpen()
  }

  /** Open children numbered in order. */
  predicate Numbered(cs: seq<ChildInfo>) {
    forall k {:trigger NumberedAt(cs, k)} :: 0 <= k < |cs| ==> NumberedAt(cs, k)
  }

  lemma NumberedMore(cs: seq<ChildInfo>, child: ChildInfo)
    requires Numbered(cs) && child.id == AnonId(|cs|) && child.IsOpen()
    ensures Numbered(cs + [child])
  {
    forall k | 0 <= k < |cs + [child]| ensures NumberedAt(cs + [child], k) {
      assert k < |cs| ==> NumberedAt(cs, k);
    }
  }

  predicate Filled(cs: seq<ChildInfo>, n: nat) {
    |cs| == n && Numbered(cs)
  }

  lemma OneMoreStart(events: seq<Event>, n: nat, more: seq<Event>)
    requires n < MAX_CHILDREN && Filled(Run(events), n) && more == events + [Start(None, None, 0)]
    ensures Filled(Run(more), n + 1)
  {
    var cs := Run(events);
    RunValid(events);
    StartBelowCap(cs, 0);
    NumberedMore(cs, NewChild(AnonId(|cs|), None, 0, false));
    RunMore(events, Start(None, None, 0));
  }

  /** Every size up to the cap is reached. */
  lemma {:induction false} StartsFill(n: nat, events: seq<Event>)
    requires n <= MAX_CHILDREN && events == AnonymousStarts(n)
    ensures Filled(Run(events), n)
  {
    if n > 0 {
      var fewer := AnonymousStarts(n - 1);
      StartsFill(n - 1, fewer);
      OneMoreStart(fewer, n - 1, events);
    }
  }

  /** The cap reached and every child closed. */
  function FullAndSwept(): seq<Event> {
    AnonymousStarts(MAX_CHILDREN) + [Sweep(ParentStop, 0)]
  }

  lemma FullLacksTheCap(n: nat)
    ensures forall cs, why, at :: Filled(cs, n) ==> !HasId(CloseOpen(cs, why, at), AnonId(n))
  {
    forall cs, why, at, k | Filled(cs, n) && 0 <= k < n ensures CloseOpen(cs, why, at)[k].id != AnonId(n) {
      assert NumberedAt(cs, k);
      AnonIdInjective(k, n);
    }
  }

  lemma FullIsSwept()
    ensures var cs := Run(FullAndSwept());
            && |cs| == MAX_CHILDREN && !HasId(cs, AnonId(MAX_CHILDREN))
            && forall c :: c in cs ==> !c.IsOpen()
  {
    var starts := AnonymousStarts(MAX_CHILDREN);
    StartsFill(MAX_CHILDREN, starts);
    RunMore(starts, Sweep(ParentStop, 0));
    FullLacksTheCap(MAX_CHILDREN);
    RunValid(starts);
    SweepEffect(Run(starts), ParentStop, 0);
  }

  /** A start lost while a closed child could have made room for it. */
  lemma LostStartReached(at: nat)
    ensures var first := FullAndSwept() + [Start(None, None, at)];
            && Run(first) != Run(FullAndSwept())
            && HasRoom(Run(first))
            && Run(first + [Start(None, None, at)]) == Run(first)
  {
    var events, start := FullAndSwept(), Start(None, None, at);
    FullIsSwept();
    RunMore(events, start);
    RunMore(events + [start], start);
    assert !Run(events)[0].IsOpen();
    AnonymousStartRecorded(events, None, at);
    SecondAnonymousStartLost(events, None, None, at, at);
    RunValid(events);
    ClosedLeft(events, at);
  }

  lemma ClosedLeft(events: seq<Event>, at: nat)
    requires |Run(events)| == MAX_CHILDREN && forall c :: c in Run(events) ==> !c.IsOpen()
    ensures HasRoom(Started(Run(events), None, None, at))
  {
    RunValid(events);
    var cs := Run(events);
    var tt := Started(cs, None, None, at);
    assert cs[0] in cs && cs[1] in cs;
    if tt != cs {
      var oldest := OldestClosed(cs);
      assert tt == Remove(cs, oldest.value) + [NewChild(AnonId(|cs|), None, at, false)];
      RemoveAt(cs, oldest.value, 0);
      assert tt[0] in cs;
    }
  }

  /** The same for stops that nothing open answers to: the second leaves no trace. */
  lemma LostStopReached(at: nat)
    ensures var first := FullAndSwept() + [Stop(None, None, at)];
            && Run(first) != Run(FullAndSwept())
            && HasRoom(Run(first))
            && Run(first + [Stop(None, None, at)]) == Run(first)
  {
    var events, stop := FullAndSwept(), Stop(None, None, at);
    FullIsSwept();
    RunMore(events, stop);
    RunMore(events + [stop], stop);
    assert !Run(events)[0].IsOpen();
    AnonymousStopRecorded(events, None, at);
    var cs, tt := Run(events), Run(events + [stop]);
    RunValid(events);
    StopEffect(cs, None, None, at);
    NothingOpens(cs, at);
    Member(tt, NewChild(AnonId(MAX_CHILDREN), None, at, true));
    RunValid(events + [stop]);
    AnonymousStopRecorded(events + [stop], None, at);
  }

  lemma NothingOpens(cs: seq<ChildInfo>, at: nat)
    requires Valid(cs) && |cs| == MAX_CHILDREN && forall c :: c in cs ==> !c.IsOpen()
    ensures var tt := Stopped(cs, None, None, at);
            |tt| == MAX_CHILDREN && (forall c :: c in tt ==> !c.IsOpen()) && HasRoom(tt)
  {
    var tt := Stopped(cs, None, None, at);
    var child := NewChild(AnonId(|cs|), None, at, true);
    EventId(None, |cs|);
    if !HasId(cs, child.id) {
      PushEffect(cs, child);
    }
    assert tt[0] in tt;
  }

  lemma FullHasNoName(cs: seq<ChildInfo>, agentId: string, agentType: Option<string>, at: nat)
    requires Filled(cs, MAX_CHILDREN) && NameOf(Some(agentId)).Some?
    ensures !HasId(cs, NameOf(Some(agentId)).value)
    ensures Stopped(cs, Some(agentId), agentType, at) == cs
  {
    var name := NameOf(Some(agentId));
    forall k | 0 <= k < |cs| ensures cs[k].id != name.value && cs[k].IsOpen() {
      assert NumberedAt(cs, k);
      NamesAreNotNumbered(Trim(agentId), k);
    }
  }

  /** Any named stop is lost while every kept child is open. */
  lemma LostNamedStopReached(agentId: string, agentType: Option<string>, at: nat)
    requires NameOf(Some(agentId)).Some?
    ensures var events := AnonymousStarts(MAX_CHILDREN);
            && !HasId(Run(events), NameOf(Some(agentId)).value)
            && Run(events + [Stop(Some(agentId), agentType, at)]) == Run(events)
  {
    var events := AnonymousStarts(MAX_CHILDREN);
    StartsFill(MAX_CHILDREN, events);
    FullHasNoName(Run(events), agentId, agentType, at);
    RunMore(events, Stop(Some(agentId), agentType, at));
  }

  // ---- the record as it is updated in place ----

  class Record {
    var children: seq<ChildInfo>

    constructor ()
      ensures children == Run([])
    {
      children := [];
    }

    method Contains(id: string) returns (found: bool)
      ensures found <==> HasId(children, id)
    {
      for i := 0 to |children|
        invariant forall k :: 0 <= k < i ==> children[k].id != id
      {
        if children[i].id == id { return true; }
      }
      return false;
    }

    /** The first of the closed children with the smallest end. */
    method FindOldestClosed() returns (oldest: Option<nat>)
      ensures oldest == OldestClosed(children)
    {
      oldest := None;
      for i := 0 to |children|
        invariant oldest == OldestClosed(children[..i])
      {
        assert children[..i + 1][..i] == children[..i];
        if !children[i].IsOpen() && (oldest.None? || EndOf(children[i]) < EndOf(children[oldest.value])) {
          oldest := Some(i);
        }
      }
      assert children[..|children|] == children;
    }

    method PushChild(child: ChildInfo)
      modifies this
      ensures children == Push(old(children), child)
    {
      if |children| >= MAX_CHILDREN {
        var oldest := FindOldestClosed();
        if oldest.None? { return; }
        children := children[..oldest.value] + children[oldest.value + 1..];
      }
      children := children + [child];
    }

    method SubagentStarted(agentId: Option<string>, agentType: Option<string>, at: nat)
      requires Valid(children)
      modifies this
      ensures children == Started(old(children), agentId, agentType, at) && Valid(children)
    {
      StartEffect(children, agentId, agentType, at);
      var name := NameOf(agentId);
      var id := if name.Some? then name.value else AnonId(|children|);
      var known := Contains(id);
      if known { return; }
      PushChild(NewChild(id, agentType, at, false));
    }

    method SubagentStopped(agentId: Option<string>, agentType: Option<string>, at: nat)
      requires Valid(children)
      modifies this
      ensures children == Stopped(old(children), agentId, agentType, at) && Valid(children)
    {
      StopEffect(children, agentId, agentType, at);
      var name := NameOf(agentId);
      for i := 0 to |children|
        invariant forall k :: 0 <= k < i ==> !Answers(children[k], name)
        invariant children == old(children)
      {
        if Answers(children[i], name) {
          children := children[i := children[i].(ended := Some(at), endedBy := Some(Reported))];
          return;
        }
      }
      var id := if name.Some? then name.value else AnonId(|children|);
      var known := Contains(id);
      if known { return; }
      PushChild(NewChild(id, agentType, at, true));
    }

    method SweepEach(why: ChildEnd, at: nat) returns (closed: nat)
      modifies this
      ensures children == CloseOpen(old(children), why, at)
      ensures closed == OpenCount(old(children))
    {
      closed := 0;
      ghost var was := children;
      for i := 0 to |children|
        invariant |children| == |was| && closed == OpenCount(was[..i])
        invariant forall k :: 0 <= k < i ==> children[k] == Swept(was[k], why, at)
        invariant forall k :: i <= k < |was| ==> children[k] == was[k]
      {
        assert was[..i + 1][..i] == was[..i];
        if children[i].IsOpen() {
          children := children[i := children[i].(ended := Some(at), endedBy := Some(why))];
          closed := closed + 1;
        }
      }
      assert was[..|was|] == was;
      assert children == CloseOpen(was, why, at);
    }

    method CloseAll(why: ChildEnd, at: nat) returns (closed: nat)
      requires Valid(children)
      modifies this
      ensures children == CloseOpen(old(children), why, at) && Valid(children)
      ensures closed == |OpenOnes(old(children))|
    {
      OpenCountIs(children);
      SweepEffect(children, why, at);
      closed := SweepEach(why, at);
    }
  }
}
