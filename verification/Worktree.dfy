/** The reader of `git worktree list --porcelain`: records of lines, separated by blank ones. */
module Worktree {
  import opened Common
  import opened Text

  datatype Worktree = Worktree(path: string, branch: Option<string>, head: Option<string>, isMain: bool)

  /** What a line says, once its trailing blanks are gone. */
  datatype Line = Blank | PathLine(path: string) | BranchLine(branch: string) | HeadLine(head: string) | OtherLine

  const HEADS := "refs/heads/"

  /** Every leading `refs/heads/` comes off. */
  function TrimHeads(s: string): string {
    if HEADS <= s then TrimHeads(s[|HEADS|..]) else s
  }

  function Classify(line: string): Line {
    var text := TrimEnd(line);
    if text == "" then Blank
    else if "worktree " <= text then PathLine(text[9..])
    else if "branch " <= text then BranchLine(TrimHeads(text[7..]))
    else if "HEAD " <= text then HeadLine(text[5..])
    else OtherLine
  }

  // ---- the loop ----

  datatype State = State(path: Option<string>, branch: Option<string>, head: Option<string>, out: seq<Worktree>)

  const FRESH := State(None, None, None, [])

  function Flush(st: State): State {
    State(None, None, None,
      if st.path.Some? then st.out + [Worktree(st.path.value, st.branch, st.head, st.out == [])] else st.out)
  }

  function Feed(st: State, line: Line): State {
    match line
    case Blank => Flush(st)
    case PathLine(p) => Flush(st).(path := Some(p))
    case BranchLine(b) => st.(branch := Some(b))
    case HeadLine(h) => st.(head := Some(h))
    case OtherLine => st
  }

  function FeedAll(st: State, lines: seq<Line>): State {
    if lines == [] then st else Feed(FeedAll(st, lines[..|lines|-1]), lines[|lines|-1])
  }

  method ParseWorktreeList(text: string) returns (out: seq<Worktree>)
    ensures out == Records(Classified(SplitLines(text)))
  {
    var lines := SplitLines(text);
    var path, branch, head := None, None, None;
    out := [];
    ghost var kinds := Classified(lines);
    for i := 0 to |lines|
      invariant State(path, branch, head, out) == FeedAll(FRESH, kinds[..i])
    {
      var kind := Classify(lines[i]);
      FeedNext(kinds, i, kind);
      match kind {
        case Blank =>
          path, branch, head, out := FlushRecord(path, branch, head, out);
        case PathLine(p) =>
          path, branch, head, out := FlushRecord(path, branch, head, out);
          path := Some(p);
        case BranchLine(b) => branch := Some(b);
        case HeadLine(h) => head := Some(h);
        case OtherLine =>
      }
    }
    assert kinds[..|lines|] == kinds;
    path, branch, head, out := FlushRecord(path, branch, head, out);
    LoopFindsRecords(kinds);
  }

  lemma FeedNext(kinds: seq<Line>, i: nat, kind: Line)
    requires i < |kinds| && kinds[i] == kind
    ensures FeedAll(FRESH, kinds[..i + 1]) == Feed(FeedAll(FRESH, kinds[..i]), kind)
  {
    assert kinds[..i + 1][..i] == kinds[..i];
  }

  method FlushRecord(path: Option<string>, branch: Option<string>, head: Option<string>, out: seq<Worktree>)
    returns (path': Option<string>, branch': Option<string>, head': Option<string>, out': seq<Worktree>)
    ensures State(path', branch', head', out') == Flush(State(path, branch, head, out))
  {
    path', branch', head' := None, None, None;
    out' := if path.Some? then out + [Worktree(path.value, branch, head, out == [])] else out;
  }

  function Classified(lines: seq<string>): seq<Line> {
    seq(|lines|, i requires 0 <= i < |lines| => Classify(lines[i]))
  }

  /** Lines end at a newline; nothing after the last one is no line. */
  function SplitLines(text: string): seq<string>
    decreases |text|
  {
    if text == "" then []
    else
      var nl := Find(text, '\n');
      if nl.None? then [text] else [text[..nl.value]] + SplitLines(text[nl.value + 1..])
  }

  // ---- what the records are, line by line ----

  predicate Ends(line: Line) {
    line.Blank? || line.PathLine?
  }

  /** The first line from `i` on that ends a record. */
  function EndFrom(lines: seq<Line>, i: nat): (e: nat)
    requires i <= |lines|
    ensures i <= e <= |lines| && (e < |lines| ==> Ends(lines[e])) && forall k :: i <= k < e ==> !Ends(lines[k])
    decreases |lines| - i
  {
    if i == |lines| || Ends(lines[i]) then i else EndFrom(lines, i + 1)
  }

  function LastBranch(lines: seq<Line>, lo: nat, hi: nat): Option<string>
    requires hi <= |lines|
  {
    if hi <= lo then None
    else if lines[hi - 1].BranchLine? then Some(lines[hi - 1].branch)
    else LastBranch(lines, lo, hi - 1)
  }

  function LastHead(lines: seq<Line>, lo: nat, hi: nat): Option<string>
    requires hi <= |lines|
  {
    if hi <= lo then None
    else if lines[hi - 1].HeadLine? then Some(lines[hi - 1].head)
    else LastHead(lines, lo, hi - 1)
  }

  /** The record a path line opens: what the lines up to the next blank or path line say. */
  function RecordAt(lines: seq<Line>, w: nat, isMain: bool): Worktree
    requires w < |lines| && lines[w].PathLine?
  {
    var e := EndFrom(lines, w + 1);
    Worktree(lines[w].path, LastBranch(lines, w + 1, e), LastHead(lines, w + 1, e), isMain)
  }

  /** Where the path lines are. */
  function Starts(lines: seq<Line>): (r: seq<nat>)
    ensures forall k :: 0 <= k < |r| ==> r[k] < |lines| && lines[r[k]].PathLine?
  {
    if lines == [] then []
    else
      var r := Starts(lines[..|lines|-1]);
      if lines[|lines|-1].PathLine? then r + [|lines|-1] else r
  }

  lemma {:induction false} StartsComplete(lines: seq<Line>, i: nat)
    requires i < |lines| && lines[i].PathLine?
    ensures i in Starts(lines)
  {
    if i < |lines| - 1 {
      StartsComplete(lines[..|lines|-1], i);
    }
  }

  lemma {:induction false} StartsAscend(lines: seq<Line>)
    ensures Ascending(Starts(lines))
  {
    if lines != [] {
      StartsAscend(lines[..|lines|-1]);
    }
  }

  /** One record per path line, in order, the first one main. */
  function Records(lines: seq<Line>): seq<Worktree> {
    var starts := Starts(lines);
    seq(|starts|, k requires 0 <= k < |starts| => RecordAt(lines, starts[k], k == 0))
  }

  lemma {:induction false} EndAppend(lines: seq<Line>, l: Line, i: nat)
    requires i <= |lines|
    ensures EndFrom(lines + [l], i) ==
              if EndFrom(lines, i) < |lines| then EndFrom(lines, i) else if Ends(l) then |lines| else |lines| + 1
    decreases |lines| - i
  {
    if i < |lines| && !Ends(lines[i]) {
      EndAppend(lines, l, i + 1);
    }
  }

  lemma {:induction false} LastAppend(lines: seq<Line>, l: Line, lo: nat, hi: nat)
    requires hi <= |lines|
    ensures LastBranch(lines + [l], lo, hi) == LastBranch(lines, lo, hi)
    ensures LastHead(lines + [l], lo, hi) == LastHead(lines, lo, hi)
  {
    if lo < hi {
      LastAppend(lines, l, lo, hi - 1);
    }
  }

  /** A record that has ended is not touched by later lines, and an open one only by its own. */
  lemma RecordAppend(lines: seq<Line>, l: Line, w: nat, isMain: bool)
    requires w < |lines| && lines[w].PathLine?
    ensures var before, after := RecordAt(lines, w, isMain), RecordAt(lines + [l], w, isMain);
            if EndFrom(lines, w + 1) < |lines| || Ends(l) || l.OtherLine? then after == before
            else if l.BranchLine? then after == before.(branch := Some(l.branch))
            else after == before.(head := Some(l.head))
  {
    EndAppend(lines, l, w + 1);
    LastAppend(lines, l, w + 1, EndFrom(lines, w + 1));
  }

  lemma StartsAppend(lines: seq<Line>, l: Line)
    ensures Starts(lines + [l]) == if l.PathLine? then Starts(lines) + [|lines|] else Starts(lines)
  {
    assert (lines + [l])[..|lines|] == lines;
  }

  /** The record opened at `w` has met its end. */
  predicate IsClosed(lines: seq<Line>, w: nat) {
    w < |lines| && EndFrom(lines, w + 1) < |lines|
  }

  ghost predicate FirstClosed(lines: seq<Line>, m: nat) {
    m <= |Starts(lines)| && forall k :: 0 <= k < m ==> IsClosed(lines, Starts(lines)[k])
  }

  lemma ClosedStays(lines: seq<Line>, l: Line, w: nat, isMain: bool)
    requires w < |lines| && lines[w].PathLine? && IsClosed(lines, w)
    ensures IsClosed(lines + [l], w) && RecordAt(lines + [l], w, isMain) == RecordAt(lines, w, isMain)
  {
    EndAppend(lines, l, w + 1);
    RecordAppend(lines, l, w, isMain);
  }

  lemma RecordStays(lines: seq<Line>, l: Line, k: nat)
    requires k < |Starts(lines)| && IsClosed(lines, Starts(lines)[k])
    ensures k < |Starts(lines + [l])| && Starts(lines + [l])[k] == Starts(lines)[k]
    ensures IsClosed(lines + [l], Starts(lines)[k]) && Records(lines + [l])[k] == Records(lines)[k]
  {
    StartsAppend(lines, l);
    ClosedStays(lines, l, Starts(lines)[k], k == 0);
  }

  lemma SamePrefix(a: seq<Worktree>, b: seq<Worktree>, m: nat)
    requires m <= |a| && m <= |b| && forall k :: 0 <= k < m ==> a[k] == b[k]
    ensures a[..m] == b[..m]
  {
  }

  /** Closed records stay closed and as they are. */
  lemma ClosedStay(lines: seq<Line>, l: Line, m: nat)
    requires FirstClosed(lines, m)
    ensures FirstClosed(lines + [l], m) && Records(lines + [l])[..m] == Records(lines)[..m]
  {
    var more := lines + [l];
    StartsAppend(lines, l);
    forall k | 0 <= k < m ensures IsClosed(more, Starts(more)[k]) && Records(more)[k] == Records(lines)[k] {
      assert IsClosed(lines, Starts(lines)[k]);
      RecordStays(lines, l, k);
    }
    SamePrefix(Records(more), Records(lines), m);
  }

  function Pending(st: State): seq<Worktree> {
    if st.path.Some? then [Worktree(st.path.value, st.branch, st.head, st.out == [])] else []
  }

  /** The loop's state, in terms of the records so far: all but the pending one are closed. */
  ghost predicate Reflects(lines: seq<Line>, st: State) {
    && Records(lines) == st.out + Pending(st)
    && FirstClosed(lines, |st.out|)
    && (st.path.Some? ==> EndFrom(lines, Starts(lines)[|st.out|] + 1) == |lines|)
  }

  /** A line that is not about the pending record. */
  lemma FeedNoPending(lines: seq<Line>, st: State, l: Line)
    requires Reflects(lines, st) && st.path.None?
    ensures Reflects(lines + [l], Feed(st, l))
  {
    var n := |st.out|;
    assert st.out + [] == st.out && Records(lines) == st.out;
    ClosedStay(lines, l, n);
    StartsAppend(lines, l);
    assert Records(lines)[..n] == st.out;
    if l.PathLine? {
      NewRecord(lines, l);
      SplitAt(Records(lines + [l]), n);
    } else {
      assert Records(lines + [l]) == Records(lines + [l])[..n];
    }
  }

  lemma NewRecord(lines: seq<Line>, l: Line)
    requires l.PathLine?
    ensures var n := |Starts(lines)|;
            && |Starts(lines + [l])| == n + 1 && Starts(lines + [l])[n] == |lines|
            && Records(lines + [l])[n] == Worktree(l.path, None, None, n == 0)
            && EndFrom(lines + [l], |lines| + 1) == |lines| + 1
  {
    StartsAppend(lines, l);
  }

  lemma PendingIsLast(lines: seq<Line>, st: State)
    requires Reflects(lines, st) && st.path.Some?
    ensures |Starts(lines)| == |st.out| + 1
    ensures Records(lines)[..|st.out|] == st.out
    ensures RecordAt(lines, Starts(lines)[|st.out|], |st.out| == 0) == Pending(st)[0]
  {
    assert Records(lines)[|st.out|] == Pending(st)[0];
  }

  function Updated(r: Worktree, l: Line): Worktree {
    match l
    case BranchLine(b) => r.(branch := Some(b))
    case HeadLine(h) => r.(head := Some(h))
    case _ => r
  }

  lemma RecordUpdated(lines: seq<Line>, l: Line, w: nat, isMain: bool)
    requires w < |lines| && lines[w].PathLine? && EndFrom(lines, w + 1) == |lines|
    ensures RecordAt(lines + [l], w, isMain) == Updated(RecordAt(lines, w, isMain), l)
    ensures EndFrom(lines + [l], w + 1) == if Ends(l) then |lines| else |lines| + 1
  {
    RecordAppend(lines, l, w, isMain);
    EndAppend(lines, l, w + 1);
  }

  lemma StartsStay(lines: seq<Line>, l: Line, k: nat)
    requires k < |Starts(lines)|
    ensures k < |Starts(lines + [l])| && Starts(lines + [l])[k] == Starts(lines)[k]
  {
    StartsAppend(lines, l);
  }

  lemma PendingPlace(lines: seq<Line>, st: State, l: Line)
    requires Reflects(lines, st) && st.path.Some?
    ensures var n, more := |st.out|, lines + [l];
            && |Starts(lines)| == n + 1 && |Starts(more)| > n && Starts(more)[n] == Starts(lines)[n]
            && EndFrom(more, Starts(lines)[n] + 1) == (if Ends(l) then |lines| else |lines| + 1)
            && RecordAt(more, Starts(lines)[n], n == 0) == Updated(Pending(st)[0], l)
  {
    var n := |st.out|;
    PendingIsLast(lines, st);
    StartsStay(lines, l, n);
    RecordUpdated(lines, l, Starts(lines)[n], n == 0);
  }

  /** What one more line makes of the pending record. */
  lemma PendingRecord(lines: seq<Line>, st: State, l: Line)
    requires Reflects(lines, st) && st.path.Some?
    ensures var n, more := |st.out|, lines + [l];
            && |Starts(lines)| == n + 1 && |Records(more)| >= n + 1 && Records(more)[..n] == st.out
            && Starts(more)[n] == Starts(lines)[n] && FirstClosed(more, n)
            && EndFrom(more, Starts(lines)[n] + 1) == (if Ends(l) then |lines| else |lines| + 1)
            && Records(more)[n] == Updated(Pending(st)[0], l)
  {
    PendingPlace(lines, st, l);
    PendingIsLast(lines, st);
    ClosedStay(lines, l, |st.out|);
  }

  lemma SplitAt(a: seq<Worktree>, n: nat)
    requires n < |a|
    ensures a[..n + 1] == a[..n] + [a[n]]
    ensures |a| == n + 1 ==> a == a[..n] + [a[n]]
    ensures |a| == n + 2 ==> a == a[..n] + [a[n]] + [a[n + 1]]
  {
  }

  lemma FeedPendingMore(lines: seq<Line>, st: State, l: Line)
    requires Reflects(lines, st) && st.path.Some? && !Ends(l)
    ensures Reflects(lines + [l], Feed(st, l))
  {
    PendingRecord(lines, st, l);
    StartsAppend(lines, l);
    SplitAt(Records(lines + [l]), |st.out|);
  }

  lemma FeedPendingEnds(lines: seq<Line>, st: State, l: Line)
    requires Reflects(lines, st) && st.path.Some? && Ends(l)
    ensures Reflects(lines + [l], Feed(st, l))
  {
    var n, more := |st.out|, lines + [l];
    PendingRecord(lines, st, l);
    StartsAppend(lines, l);
    SplitAt(Records(more), n);
    assert IsClosed(more, Starts(more)[n]);
    assert FirstClosed(more, n + 1);
    if l.PathLine? { NewRecord(lines, l); }
    assert Feed(st, l).out == st.out + Pending(st);
  }

  lemma FeedReflects(lines: seq<Line>, st: State, l: Line)
    requires Reflects(lines, st)
    ensures Reflects(lines + [l], Feed(st, l))
  {
    if st.path.None? { FeedNoPending(lines, st, l); }
    else if Ends(l) { FeedPendingEnds(lines, st, l); }
    else { FeedPendingMore(lines, st, l); }
  }

  lemma {:induction false} FeedAllReflects(lines: seq<Line>)
    ensures Reflects(lines, FeedAll(FRESH, lines))
  {
    if lines != [] {
      var init, l := lines[..|lines|-1], lines[|lines|-1];
      FeedAllReflects(init);
      FeedReflects(init, FeedAll(FRESH, init), l);
      assert init + [l] == lines;
    }
  }

  /** For any text at all, the loop lists exactly the records. */
  lemma LoopFindsRecords(lines: seq<Line>)
    ensures Flush(FeedAll(FRESH, lines)).out == Records(lines)
  {
    FeedAllReflects(lines);
  }

  /** Only the first record is main, and a record's branch and HEAD are said between its own path line and its end. */
  lemma RecordsAreSeparate(lines: seq<Line>, k: nat)
    requires k < |Starts(lines)|
    ensures var w, e, r := Starts(lines)[k], EndFrom(lines, Starts(lines)[k] + 1), Records(lines)[k];
            && (r.isMain <==> k == 0)
            && lines[w] == PathLine(r.path)
            && (forall i :: w < i < e ==> !Ends(lines[i]))
            && (k + 1 < |Starts(lines)| ==> e <= Starts(lines)[k + 1])
            && (r.branch.Some? ==> exists i :: w < i < e && IsLastBranch(lines, i, e, r.branch.value))
            && (r.branch.None? ==> forall i :: w < i < e ==> !lines[i].BranchLine?)
            && (r.head.Some? ==> exists i :: w < i < e && IsLastHead(lines, i, e, r.head.value))
            && (r.head.None? ==> forall i :: w < i < e ==> !lines[i].HeadLine?)
  {
    var w, e := Starts(lines)[k], EndFrom(lines, Starts(lines)[k] + 1);
    LastBranchIs(lines, w + 1, e);
    LastHeadIs(lines, w + 1, e);
    StartsAscend(lines);
    if k + 1 < |Starts(lines)| {
      assert Ends(lines[Starts(lines)[k + 1]]);
    }
  }

  /** Line `i` names the branch and no line after it, before `e`, names another. */
  predicate IsLastBranch(lines: seq<Line>, i: nat, e: nat, branch: string)
    requires i < e <= |lines|
  {
    lines[i] == BranchLine(branch) && forall j :: i < j < e ==> !lines[j].BranchLine?
  }

  predicate IsLastHead(lines: seq<Line>, i: nat, e: nat, head: string)
    requires i < e <= |lines|
  {
    lines[i] == HeadLine(head) && forall j :: i < j < e ==> !lines[j].HeadLine?
  }

  lemma {:induction false} LastBranchIs(lines: seq<Line>, lo: nat, hi: nat)
    requires hi <= |lines|
    ensures var b := LastBranch(lines, lo, hi);
            && (b.Some? ==> exists i :: lo <= i < hi && IsLastBranch(lines, i, hi, b.value))
            && (b.None? ==> forall i :: lo <= i < hi ==> !lines[i].BranchLine?)
  {
    if lo < hi {
      LastBranchIs(lines, lo, hi - 1);
      var b := LastBranch(lines, lo, hi);
      if lines[hi - 1].BranchLine? {
        assert IsLastBranch(lines, hi - 1, hi, b.value);
      } else if b.Some? {
        var i :| lo <= i < hi - 1 && IsLastBranch(lines, i, hi - 1, b.value);
        assert IsLastBranch(lines, i, hi, b.value);
      }
    }
  }

  lemma {:induction false} LastHeadIs(lines: seq<Line>, lo: nat, hi: nat)
    requires hi <= |lines|
    ensures var h := LastHead(lines, lo, hi);
            && (h.Some? ==> exists i :: lo <= i < hi && IsLastHead(lines, i, hi, h.value))
            && (h.None? ==> forall i :: lo <= i < hi ==> !lines[i].HeadLine?)
  {
    if lo < hi {
      LastHeadIs(lines, lo, hi - 1);
      var h := LastHead(lines, lo, hi);
      if lines[hi - 1].HeadLine? {
        assert IsLastHead(lines, hi - 1, hi, h.value);
      } else if h.Some? {
        var i :| lo <= i < hi - 1 && IsLastHead(lines, i, hi - 1, h.value);
        assert IsLastHead(lines, i, hi, h.value);
      }
    }
  }

  // ---- printing a listing and reading it back ----

  function Unlines(lines: seq<string>): string {
    if lines == [] then "" else lines[0] + "\n" + Unlines(lines[1..])
  }

  lemma {:induction false} SplitUnlines(lines: seq<string>)
    requires forall k :: 0 <= k < |lines| ==> '\n' !in lines[k]
    ensures SplitLines(Unlines(lines)) == lines
  {
    if lines != [] {
      SplitFirst(lines[0], Unlines(lines[1..]));
      SplitUnlines(lines[1..]);
      assert lines == [lines[0]] + lines[1..];
    }
  }

  lemma SplitFirst(line: string, rest: string)
    requires '\n' !in line
    ensures SplitLines(line + "\n" + rest) == [line] + SplitLines(rest)
  {
    var text, n := line + "\n" + rest, |line|;
    assert text[n] == '\n' && text[..n] == line && text[n + 1..] == rest;
    forall j | 0 <= j < n ensures text[j] != '\n' { assert text[j] == line[j]; }
    assert Find(text, '\n') == Some(n);
  }

  /** A value that survives the trimming of its line. */
  predicate Clean(s: string) {
    '\n' !in s && (s != "" ==> !IsSpace(s[|s|-1]))
  }

  predicate Printable(r: Worktree) {
    && r.path != "" && Clean(r.path)
    && (r.head.Some? ==> r.head.value != "" && Clean(r.head.value))
    && (r.branch.Some? ==> Clean(r.branch.value) && !("refs/heads/" <= r.branch.value))
  }

  /** A record as git prints it, without its final blank line. */
  function RecordLines(r: Worktree): seq<string> {
    ["worktree " + r.path]
    + (if r.head.Some? then ["HEAD " + r.head.value] else [])
    + [if r.branch.Some? then "branch refs/heads/" + r.branch.value else "detached"]
  }

  function RecordKinds(r: Worktree): seq<Line> {
    [PathLine(r.path)]
    + (if r.head.Some? then [HeadLine(r.head.value)] else [])
    + [if r.branch.Some? then BranchLine(r.branch.value) else OtherLine]
  }

  function ListingLines(rs: seq<Worktree>): seq<string> {
    if rs == [] then [] else ListingLines(rs[..|rs|-1]) + RecordLines(rs[|rs|-1]) + [""]
  }

  function ListingKinds(rs: seq<Worktree>): seq<Line> {
    if rs == [] then [] else ListingKinds(rs[..|rs|-1]) + RecordKinds(rs[|rs|-1]) + [Blank]
  }

  function Porcelain(rs: seq<Worktree>): string {
    Unlines(ListingLines(rs))
  }

  lemma TrimClean(prefix: string, s: string)
    requires Clean(s) && (s == "" ==> prefix != "" && !IsSpace(prefix[|prefix|-1]))
    ensures TrimEnd(prefix + s) == prefix + s
  {
    var t := prefix + s;
    assert t != "" ==> t[|t|-1] == if s != "" then s[|s|-1] else prefix[|prefix|-1];
  }

  lemma ClassifyPath(path: string)
    requires path != "" && Clean(path)
    ensures Classify("worktree " + path) == PathLine(path)
  {
    var t := "worktree " + path;
    TrimClean("worktree ", path);
    assert t[..9] == "worktree " && t[9..] == path;
  }

  lemma ClassifyHead(head: string)
    requires head != "" && Clean(head)
    ensures Classify("HEAD " + head) == HeadLine(head)
  {
    var t := "HEAD " + head;
    TrimClean("HEAD ", head);
    assert t[..5] == "HEAD " && t[5..] == head && t[0] == 'H';
  }

  lemma ClassifyBranch(branch: string)
    requires Clean(branch) && !(HEADS <= branch)
    ensures Classify("branch refs/heads/" + branch) == BranchLine(branch)
  {
    var t := "branch " + HEADS + branch;
    assert "branch refs/heads/" == "branch " + HEADS;
    TrimClean("branch " + HEADS, branch);
    assert t[..7] == "branch " && t[7..] == HEADS + branch && t[0] == 'b';
    PrefixComesOff(branch);
  }

  lemma PrefixComesOff(branch: string)
    requires !(HEADS <= branch)
    ensures TrimHeads(HEADS + branch) == branch
  {
    var s := HEADS + branch;
    assert HEADS <= s && s[|HEADS|..] == branch;
    assert TrimHeads(s) == TrimHeads(branch);
  }

  lemma ClassifyDetached()
    ensures Classify("detached") == OtherLine
  {
    var t := "detached";
    assert TrimEnd(t) == t && t[0] == 'd';
    assert !("branch " <= t) && !("HEAD " <= t) && !("worktree " <= t);
  }

  lemma ClassifyBlank(s: string)
    requires s == ""
    ensures Classify(s) == Blank
  {
  }

  lemma ClassifiedConcat(a: seq<string>, b: seq<string>)
    ensures Classified(a + b) == Classified(a) + Classified(b)
  {
  }

  lemma ClassifiedOne(line: string)
    ensures Classified([line]) == [Classify(line)]
  {
  }

  lemma ClassifyRecord(r: Worktree)
    requires Printable(r)
    ensures Classified(RecordLines(r)) == RecordKinds(r)
  {
    var first := "worktree " + r.path;
    var last := if r.branch.Some? then "branch refs/heads/" + r.branch.value else "detached";
    var heads := if r.head.Some? then ["HEAD " + r.head.value] else [];
    ClassifyPath(r.path);
    if r.branch.Some? { ClassifyBranch(r.branch.value); } else { ClassifyDetached(); }
    ClassifiedConcat([first] + heads, [last]);
    ClassifiedConcat([first], heads);
    ClassifiedOne(first);
    ClassifiedOne(last);
    if r.head.Some? {
      ClassifyHead(r.head.value);
      ClassifiedOne("HEAD " + r.head.value);
    } else {
      assert Classified([]) == [];
    }
  }

  lemma RecordHasNoNewline(r: Worktree)
    requires Printable(r)
    ensures forall k :: 0 <= k < |RecordLines(r)| ==> '\n' !in RecordLines(r)[k]
  {
  }

  lemma {:induction false} ClassifyListing(rs: seq<Worktree>)
    requires forall k :: 0 <= k < |rs| ==> Printable(rs[k])
    ensures Classified(ListingLines(rs)) == ListingKinds(rs)
    ensures forall k :: 0 <= k < |ListingLines(rs)| ==> '\n' !in ListingLines(rs)[k]
  {
    if rs != [] {
      var init, r := rs[..|rs|-1], rs[|rs|-1];
      ClassifyListing(init);
      ClassifyRecord(r);
      RecordHasNoNewline(r);
      ClassifyBlank("");
      ClassifiedConcat(ListingLines(init), RecordLines(r));
      ClassifiedConcat(ListingLines(init) + RecordLines(r), [""]);
      assert Classified([""]) == [Blank];
    }
  }

  lemma {:induction false} FeedConcat(st: State, a: seq<Line>, b: seq<Line>)
    ensures FeedAll(st, a + b) == FeedAll(FeedAll(st, a), b)
    decreases |b|
  {
    if b == [] {
      assert a + b == a;
    } else {
      assert (a + b)[..|a| + |b| - 1] == a + b[..|b|-1];
      FeedConcat(st, a, b[..|b|-1]);
    }
  }

  lemma FeedOne(st: State, l: Line)
    ensures FeedAll(st, [l]) == Feed(st, l)
  {
    assert [l][..0] == [];
  }

  /** Reading one printed record from between records. */
  lemma FeedRecord(out: seq<Worktree>, r: Worktree)
    ensures FeedAll(State(None, None, None, out), RecordKinds(r) + [Blank])
         == State(None, None, None, out + [r.(isMain := out == [])])
  {
    var st := State(None, None, None, out);
    var last := if r.branch.Some? then BranchLine(r.branch.value) else OtherLine;
    var heads := if r.head.Some? then [HeadLine(r.head.value)] else [];
    FeedConcat(st, RecordKinds(r), [Blank]);
    FeedConcat(st, [PathLine(r.path)] + heads, [last]);
    FeedConcat(st, [PathLine(r.path)], heads);
    FeedOne(st, PathLine(r.path));
    if r.head.Some? { FeedOne(FeedAll(st, [PathLine(r.path)]), HeadLine(r.head.value)); }
    FeedOne(FeedAll(st, [PathLine(r.path)] + heads), last);
    FeedOne(FeedAll(st, RecordKinds(r)), Blank);
  }

  /** The records with the flag only the first one has. */
  function Marked(rs: seq<Worktree>): seq<Worktree> {
    seq(|rs|, k requires 0 <= k < |rs| => rs[k].(isMain := k == 0))
  }

  lemma {:induction false} FeedListing(rs: seq<Worktree>)
    ensures FeedAll(FRESH, ListingKinds(rs)) == State(None, None, None, Marked(rs))
  {
    if rs != [] {
      var init, r := rs[..|rs|-1], rs[|rs|-1];
      FeedListing(init);
      assert ListingKinds(rs) == ListingKinds(init) + (RecordKinds(r) + [Blank]);
      FeedConcat(FRESH, ListingKinds(init), RecordKinds(r) + [Blank]);
      FeedRecord(Marked(init), r);
      assert Marked(rs) == Marked(init) + [r.(isMain := Marked(init) == [])];
    }
  }

  /** A printed listing reads back as the same records in the same order. */
  lemma ListingRoundTrip(rs: seq<Worktree>)
    requires forall k :: 0 <= k < |rs| ==> Printable(rs[k])
    ensures Records(Classified(SplitLines(Porcelain(rs)))) == Marked(rs)
  {
    ClassifyListing(rs);
    SplitUnlines(ListingLines(rs));
    LoopFindsRecords(ListingKinds(rs));
    FeedListing(rs);
  }
}
