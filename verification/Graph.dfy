/** One node under a session: a subagent reported by hooks, or a process seen in `/proc`. */
module Graph {
  import opened Common
  import opened Text

  datatype ChildKind = Subagent | Process

  /** Which of the three routes closed a child. */
  datatype ChildEnd = Reported | ParentStop | ParentExit

  datatype ChildInfo = ChildInfo(
    id: string, kind: ChildKind, caption: string, started: nat,
    ended: Option<nat>, endedBy: Option<ChildEnd>, parent: Option<string>, pid: Option<int>, rssKb: Option<nat>)
  {
    predicate IsOpen() {
      ended.None?
    }
  }

  const MAX_CHILDREN := 128
  const MAX_LABEL := 48

  predicate IsControl(c: char) {
    c < ' ' || '\U{007F}' <= c <= '\U{009F}'
  }

  lemma ControlsAre(c: char)
    ensures IsControl(c) <==> 0 <= c as int < 0x20 || 0x7f <= c as int <= 0x9f
  {
  }

  function Take(s: string, n: nat): string {
    if |s| <= n then s else s[..n]
  }

  function WithoutControls(s: string): string {
    if s == "" then ""
    else if IsControl(s[0]) then WithoutControls(s[1..])
    else [s[0]] + WithoutControls(s[1..])
  }

  function ClampProcessLabel(comm: string): string {
    var kept := Take(WithoutControls(comm), MAX_LABEL);
    if Trim(kept) == "" then "process" else kept
  }

  predicate NoControls(s: string) {
    forall i :: 0 <= i < |s| ==> !IsControl(s[i])
  }

  lemma {:induction false} NothingToDrop(s: string)
    requires NoControls(s)
    ensures WithoutControls(s) == s
  {
    if s != "" {
      NothingToDrop(s[1..]);
      assert s == [s[0]] + s[1..];
    }
  }

  lemma {:induction false} ControlDropped(a: string, c: char, b: string)
    requires IsControl(c)
    ensures WithoutControls(a + [c] + b) == WithoutControls(a + b)
  {
    if a == "" {
      assert a + [c] + b == [c] + b && a + b == b;
    } else {
      assert (a + [c] + b)[1..] == a[1..] + [c] + b && (a + b)[1..] == a[1..] + b;
      ControlDropped(a[1..], c, b);
    }
  }

  /** A printable process name of at most 48 characters is its own label; a longer one is cut there. */
  lemma ProcessLabelIs(comm: string)
    requires NoControls(comm) && (exists i :: 0 <= i < |comm| && i < 48 && !IsSpace(comm[i]))
    ensures ClampProcessLabel(comm) == if |comm| <= 48 then comm else comm[..48]
  {
    NothingToDrop(comm);
    var i :| 0 <= i < |comm| && i < 48 && !IsSpace(comm[i]);
    NotAllBlank(if |comm| <= 48 then comm else comm[..48], i);
  }

  lemma {:induction false} TrimStartKeeps(s: string, i: nat)
    requires i < |s| && !IsSpace(s[i])
    ensures TrimStart(s) != ""
  {
    if IsSpace(s[0]) {
      TrimStartKeeps(s[1..], i - 1);
    }
  }

  lemma {:induction false} TrimEndKeeps(s: string, i: nat)
    requires i < |s| && !IsSpace(s[i])
    ensures i < |TrimEnd(s)| && TrimEnd(s)[i] == s[i]
  {
    if IsSpace(s[|s|-1]) {
      TrimEndKeeps(s[..|s|-1], i);
    }
  }

  lemma NotAllBlank(s: string, i: nat)
    requires i < |s| && !IsSpace(s[i])
    ensures Trim(s) != ""
  {
    TrimEndKeeps(s, i);
    TrimStartKeeps(TrimEnd(s), i);
  }
}
