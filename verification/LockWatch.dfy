/**
 What a screen lock means for running sessions: the three lock rules, and the watch that turns
 a stream of observations into sessions to hold, sessions to resume and grants to revoke.
 */
module LockWatch {
  import opened Common

  datatype LockState = Unlocked | Locked | NoDisplaySession | Unreadable(why: string)

  /** A state that could not be read counts as locked. */
  predicate TreatAsLocked(s: LockState) {
    s.Locked? || s.Unreadable?
  }

  datatype Origin = LocalTerminal | RimeShell | RemoteControl | ScheduledJob | Mcp | Subagent | CloudJob

  datatype Policy = Policy(agentsContinue: bool, remoteContinues: bool, revokeRootGrants: bool)

  /** Why a session is held, with the read failure when there was one. */
  datatype Reason =
    | RemoteNotAllowed(unreadable: Option<string>)
    | AgentsHeld(unreadable: Option<string>)
    | OriginUnknown

  datatype Decision = Continue | Hold(why: Reason)

  function ReadFailure(s: LockState): Option<string> {
    if s.Unreadable? then Some(s.why) else None
  }

  function Decide(policy: Policy, origin: Origin, state: LockState): Decision {
    if !TreatAsLocked(state) then Continue
    else if origin.RemoteControl? then
      if policy.remoteContinues then Continue else Hold(RemoteNotAllowed(ReadFailure(state)))
    else
      if policy.agentsContinue then Continue else Hold(AgentsHeld(ReadFailure(state)))
  }

  /** An unknown origin gets the stricter of the two rules. */
  function DecideSession(policy: Policy, origin: Option<Origin>, state: LockState): Decision {
    if origin.Some? then Decide(policy, origin.value, state)
    else if !TreatAsLocked(state) || (policy.agentsContinue && policy.remoteContinues) then Continue
    else Hold(OriginUnknown)
  }

  /**
   Under a locked or unreadable screen Remote Control goes on exactly if the owner allows it and
   every other origin exactly if agents may; with no lock, or no screen, everything goes on.
   */
  lemma LockRules(policy: Policy, origin: Origin, why: string)
    ensures DecideSession(policy, Some(origin), Unlocked) == Continue
    ensures DecideSession(policy, Some(origin), NoDisplaySession) == Continue
    ensures DecideSession(policy, Some(origin), Locked) ==
              if origin == RemoteControl
              then (if policy.remoteContinues then Continue else Hold(RemoteNotAllowed(None)))
              else (if policy.agentsContinue then Continue else Hold(AgentsHeld(None)))
    ensures DecideSession(policy, Some(origin), Unreadable(why)) ==
              if origin == RemoteControl
              then (if policy.remoteContinues then Continue else Hold(RemoteNotAllowed(Some(why))))
              else (if policy.agentsContinue then Continue else Hold(AgentsHeld(Some(why))))
  {
  }

  /** Whether an origin is decided does not depend on knowing it, only on the rules it could fall under. */
  lemma UnknownOriginIsStrictest(policy: Policy, state: LockState)
    ensures DecideSession(policy, None, state).Continue? <==>
              forall o: Origin :: DecideSession(policy, Some(o), state).Continue?
  {
    if forall o: Origin :: DecideSession(policy, Some(o), state).Continue? {
      assert DecideSession(policy, Some(RemoteControl), state).Continue?;
      assert DecideSession(policy, Some(LocalTerminal), state).Continue?;
    }
  }

  datatype SessionView = SessionView(id: nat, origin: Option<Origin>, paused: bool)

  datatype Actions = Actions(hold: seq<(nat, Reason)>, resume: seq<nat>, revoke: seq<nat>)

  /** One observation. */
  datatype Tick = Tick(policy: Policy, state: LockState, sessions: seq<SessionView>, grants: seq<nat>)

  datatype Watch = Watch(lastLocked: Option<bool>, held: set<nat>)

  const NEW_WATCH := Watch(None, {})

  predicate Present(t: Tick, id: nat) {
    exists k :: 0 <= k < |t.sessions| && t.sessions[k].id == id
  }

  /** A session that is running and that the rules stop. */
  predicate MustHold(t: Tick, s: SessionView) {
    !s.paused && DecideSession(t.policy, s.origin, t.state).Hold?
  }

  predicate Stops(t: Tick, id: nat) {
    exists k :: 0 <= k < |t.sessions| && t.sessions[k].id == id && MustHold(t, t.sessions[k])
  }

  // ---- one step ----

  /** The holds among the first `n` sessions, and the set held after them. */
  function Holds(t: Tick, held: set<nat>, n: nat): (seq<(nat, Reason)>, set<nat>)
    requires n <= |t.sessions|
  {
    if n == 0 then ([], held)
    else
      var (hold, now) := Holds(t, held, n - 1);
      var s := t.sessions[n - 1];
      if s.id in now || !MustHold(t, s) then (hold, now)
      else (hold + [(s.id, DecideSession(t.policy, s.origin, t.state).why)], now + {s.id})
  }

  function Keep(t: Tick, held: set<nat>): set<nat> {
    set id | id in held && Present(t, id)
  }

  function BecameLocked(w: Watch, t: Tick): bool {
    TreatAsLocked(t.state) && w.lastLocked != Some(true)
  }

  predicate IsLeast(m: nat, ids: set<nat>) {
    m in ids && forall id :: id in ids ==> m <= id
  }

  lemma {:induction false} LeastExists(ids: set<nat>)
    requires ids != {}
    ensures exists m :: IsLeast(m, ids)
    decreases |ids|
  {
    var some :| some in ids;
    var rest := ids - {some};
    var least := some;
    if rest != {} {
      LeastExists(rest);
      var m :| IsLeast(m, rest);
      if m < some { least := m; }
    }
    forall id | id in ids ensures least <= id {
      assert id == some || id in rest;
    }
    assert IsLeast(least, ids);
  }

  /** A set in ascending order, as the ordered set of held sessions is walked. */
  function Listed(ids: set<nat>): (r: seq<nat>)
    ensures Ascending(r) && forall id :: id in r <==> id in ids
    decreases |ids|
  {
    if ids == {} then []
    else
      LeastExists(ids);
      var least :| IsLeast(least, ids);
      var rest := Listed(ids - {least});
      AscendingCons(least, rest);
      [least] + rest
  }

  function Step(w: Watch, t: Tick): (Actions, Watch) {
    var locked := TreatAsLocked(t.state);
    if locked then
      var (hold, held) := Holds(t, w.held, |t.sessions|);
      var revoke := if BecameLocked(w, t) && t.policy.revokeRootGrants then t.grants else [];
      (Actions(hold, [], revoke), Watch(Some(locked), Keep(t, held)))
    else (Actions([], Listed(Keep(t, w.held)), []), Watch(Some(locked), {}))
  }

  class Watcher {
    var lastLocked: Option<bool>
    var held: set<nat>

    function View(): Watch
      reads this
    {
      Watch(lastLocked, held)
    }

    constructor ()
      ensures View() == NEW_WATCH
    {
      lastLocked, held := None, {};
    }

    method Observe(policy: Policy, state: LockState, sessions: seq<SessionView>, grants: seq<nat>)
      returns (actions: Actions)
      modifies this
      ensures (actions, View()) == Step(old(View()), Tick(policy, state, sessions, grants))
    {
      var t := Tick(policy, state, sessions, grants);
      var locked := TreatAsLocked(state);
      var becameLocked := locked && lastLocked != Some(true);
      lastLocked := Some(locked);
      actions := Actions([], [], []);
      if locked {
        var was := held;
        for n := 0 to |sessions|
          invariant lastLocked == Some(locked) && actions.resume == [] && actions.revoke == []
          invariant (actions.hold, held) == Holds(t, was, n)
        {
          var s := sessions[n];
          if s.id in held || s.paused { continue; }
          var decision := DecideSession(policy, s.origin, state);
          if decision.Hold? {
            held := held + {s.id};
            actions := actions.(hold := actions.hold + [(s.id, decision.why)]);
          }
        }
        if becameLocked && policy.revokeRootGrants {
          actions := actions.(revoke := grants);
        }
      } else {
        actions := actions.(resume := Listed(Keep(t, held)));
        held := {};
        assert Keep(t, held) == {};
      }
      held := Keep(t, held);
    }
  }

  lemma {:induction false} HoldsAre(t: Tick, held: set<nat>, n: nat)
    requires n <= |t.sessions|
    ensures var (hold, now) := Holds(t, held, n);
            && (forall id :: id in now <==>
                  id in held || exists k :: 0 <= k < n && t.sessions[k].id == id && MustHold(t, t.sessions[k]))
            && (forall id :: (exists i :: 0 <= i < |hold| && hold[i].0 == id) <==> id in now && id !in held)
  {
    if n > 0 {
      HoldsAre(t, held, n - 1);
      var (hold0, now0) := Holds(t, held, n - 1);
      var (hold, now) := Holds(t, held, n);
      var s := t.sessions[n - 1];
      if s.id !in now0 && MustHold(t, s) {
        assert hold[|hold0|].0 == s.id && forall i :: 0 <= i < |hold0| ==> hold[i] == hold0[i];
      }
    }
  }

  /** What is held after a step, without the loop. */
  lemma HeldAfter(w: Watch, t: Tick, id: nat)
    ensures id in Step(w, t).1.held <==> TreatAsLocked(t.state) && Present(t, id) && (id in w.held || Stops(t, id))
  {
    if TreatAsLocked(t.state) {
      HoldsAre(t, w.held, |t.sessions|);
    }
  }

  // ---- over whole runs ----

  function Run(ticks: seq<Tick>): Watch {
    if ticks == [] then NEW_WATCH else Step(Run(ticks[..|ticks|-1]), ticks[|ticks|-1]).1
  }

  /** What the watch asked for at tick `n` of a run. */
  function ActionsAt(ticks: seq<Tick>, n: nat): Actions
    requires n < |ticks|
  {
    Step(Run(ticks[..n]), ticks[n]).0
  }

  lemma LastLocked(ticks: seq<Tick>)
    ensures Run(ticks).lastLocked == if ticks == [] then None else Some(TreatAsLocked(ticks[|ticks|-1].state))
  {
  }

  /** After a locked tick every session present is paused, held, or allowed to go on. */
  lemma LockedTickHolds(ticks: seq<Tick>, k: nat)
    requires ticks != [] && TreatAsLocked(ticks[|ticks|-1].state) && k < |ticks[|ticks|-1].sessions|
    ensures var t := ticks[|ticks|-1];
            var s := t.sessions[k];
            s.paused || s.id in Run(ticks).held || DecideSession(t.policy, s.origin, t.state).Continue?
  {
    var t := ticks[|ticks|-1];
    HeldAfter(Run(ticks[..|ticks|-1]), t, t.sessions[k].id);
  }

  /** The rule the owner set for a session: both, if its origin is not known. */
  predicate OwnerAllows(policy: Policy, origin: Option<Origin>) {
    match origin
    case None => policy.agentsContinue && policy.remoteContinues
    case Some(RemoteControl) => policy.remoteContinues
    case Some(_) => policy.agentsContinue
  }

  /** The same in the owner's terms. */
  lemma LockedTickObeys(ticks: seq<Tick>, k: nat)
    requires ticks != [] && ticks[|ticks|-1].state != Unlocked && ticks[|ticks|-1].state != NoDisplaySession
    requires k < |ticks[|ticks|-1].sessions|
    ensures var t := ticks[|ticks|-1];
            var s := t.sessions[k];
            s.paused || s.id in Run(ticks).held || OwnerAllows(t.policy, s.origin)
  {
    LockedTickHolds(ticks, k);
  }

  /** A tick holds exactly the sessions it stops that were not held yet, for the reason of one of their entries. */
  lemma HeldNow(ticks: seq<Tick>, n: nat, id: nat)
    requires n < |ticks|
    ensures (exists i :: 0 <= i < |ActionsAt(ticks, n).hold| && ActionsAt(ticks, n).hold[i].0 == id) <==>
              TreatAsLocked(ticks[n].state) && Stops(ticks[n], id) && id !in Run(ticks[..n]).held
    ensures forall i :: 0 <= i < |ActionsAt(ticks, n).hold| ==> ForReason(ticks[n], ActionsAt(ticks, n).hold[i])
  {
    var t, held := ticks[n], Run(ticks[..n]).held;
    if TreatAsLocked(t.state) {
      HoldsAre(t, held, |t.sessions|);
      HoldsForReasons(t, held, |t.sessions|);
      var hold, now := Holds(t, held, |t.sessions|).0, Holds(t, held, |t.sessions|).1;
      assert ActionsAt(ticks, n).hold == hold;
      assert (exists i :: 0 <= i < |hold| && hold[i].0 == id) <==> id in now && id !in held;
    } else {
      assert ActionsAt(ticks, n).hold == [];
    }
  }

  ghost predicate ForReason(t: Tick, h: (nat, Reason)) {
    exists k :: 0 <= k < |t.sessions| && t.sessions[k].id == h.0
                && DecideSession(t.policy, t.sessions[k].origin, t.state) == Hold(h.1)
  }

  lemma {:induction false} HoldsForReasons(t: Tick, held: set<nat>, n: nat)
    requires n <= |t.sessions|
    ensures forall i :: 0 <= i < |Holds(t, held, n).0| ==> ForReason(t, Holds(t, held, n).0[i])
  {
    if n > 0 {
      HoldsForReasons(t, held, n - 1);
      var s := t.sessions[n - 1];
      var d := DecideSession(t.policy, s.origin, t.state);
      assert d.Hold? ==> ForReason(t, (s.id, d.why));
      var before, now := Holds(t, held, n - 1).0, Holds(t, held, n).0;
      forall i | 0 <= i < |now| ensures ForReason(t, now[i]) {
        assert i < |before| ==> now[i] == before[i];
        assert i >= |before| ==> now[i] == (s.id, d.why);
      }
    }
  }

  /** Grants are revoked exactly on the first tick of a locked stretch, and then all of them or none. */
  lemma RevokedOncePerLock(ticks: seq<Tick>, n: nat)
    requires n < |ticks|
    ensures ActionsAt(ticks, n).revoke ==
              if TreatAsLocked(ticks[n].state) && (n == 0 || !TreatAsLocked(ticks[n - 1].state))
                 && ticks[n].policy.revokeRootGrants
              then ticks[n].grants else []
  {
    LastLocked(ticks[..n]);
  }

  /** Since tick `j`, which stopped it, the session has been there and the screen locked. */
  ghost predicate HeldSince(ticks: seq<Tick>, j: nat, id: nat) {
    && j < |ticks| && Stops(ticks[j], id)
    && forall i :: j <= i < |ticks| ==> TreatAsLocked(ticks[i].state) && Present(ticks[i], id)
  }

  lemma HeldSinceEarlier(ticks: seq<Tick>, j: nat, id: nat)
    requires ticks != [] && TreatAsLocked(ticks[|ticks|-1].state) && Present(ticks[|ticks|-1], id)
    ensures j < |ticks| - 1 ==> (HeldSince(ticks, j, id) <==> HeldSince(ticks[..|ticks|-1], j, id))
  {
    var init := ticks[..|ticks|-1];
    assert forall i :: 0 <= i < |init| ==> init[i] == ticks[i];
  }

  /** How one more tick changes what has been held since when. */
  lemma HeldSinceLast(ticks: seq<Tick>, id: nat)
    requires ticks != []
    ensures var init, t := ticks[..|ticks|-1], ticks[|ticks|-1];
            (exists j: nat :: HeldSince(ticks, j, id)) <==>
              && TreatAsLocked(t.state) && Present(t, id)
              && ((exists j: nat :: HeldSince(init, j, id)) || Stops(t, id))
  {
    var init, t, n := ticks[..|ticks|-1], ticks[|ticks|-1], |ticks| - 1;
    if TreatAsLocked(t.state) && Present(t, id) {
      forall j: nat ensures j < n ==> (HeldSince(ticks, j, id) <==> HeldSince(init, j, id)) {
        HeldSinceEarlier(ticks, j, id);
      }
      assert HeldSince(ticks, n, id) <==> Stops(t, id);
    } else {
      forall j: nat ensures !HeldSince(ticks, j, id) {
        if j < |ticks| { assert n < |ticks|; }
      }
    }
  }

  /** What is held, in terms of the observations alone. */
  lemma {:induction false} HeldMeans(ticks: seq<Tick>, id: nat)
    ensures id in Run(ticks).held <==> exists j: nat :: HeldSince(ticks, j, id)
  {
    if ticks != [] {
      HeldMeans(ticks[..|ticks|-1], id);
      HeldAfter(Run(ticks[..|ticks|-1]), ticks[|ticks|-1], id);
      HeldSinceLast(ticks, id);
    }
  }

  /** An unlock resumes exactly what this watch stopped and has seen at every tick since. */
  lemma UnlockResumes(ticks: seq<Tick>, n: nat, id: nat)
    requires n < |ticks|
    ensures Ascending(ActionsAt(ticks, n).resume)
    ensures id in ActionsAt(ticks, n).resume <==>
              !TreatAsLocked(ticks[n].state) && Present(ticks[n], id) && exists j: nat :: HeldSince(ticks[..n], j, id)
  {
    HeldMeans(ticks[..n], id);
  }

  predicate PausedWhenSeen(t: Tick, id: nat) {
    forall k :: 0 <= k < |t.sessions| && t.sessions[k].id == id ==> t.sessions[k].paused
  }

  /**
   So a session seen only paused since the screen was last unlocked, or since the watch began, is
   left alone, whatever was done with it at earlier locks.
   */
  lemma PausedByHandStaysPaused(ticks: seq<Tick>, s: nat, n: nat, id: nat)
    requires s <= n < |ticks| && (s == 0 || !TreatAsLocked(ticks[s - 1].state))
    requires forall i :: s <= i < n ==> PausedWhenSeen(ticks[i], id)
    ensures id !in ActionsAt(ticks, n).resume
  {
    UnlockResumes(ticks, n, id);
    var before := ticks[..n];
    forall j: nat ensures !HeldSince(before, j, id) {
      if s <= j < n {
        assert before[j] == ticks[j];
      } else if j < s {
        assert before[s - 1] == ticks[s - 1];
      }
    }
  }

  // ---- not being able to read the lock is being locked ----

  /** The same observation, except that a locked screen may be an unreadable one. */
  predicate SameButReadable(t: Tick, u: Tick) {
    && t.policy == u.policy && t.sessions == u.sessions && t.grants == u.grants
    && (t.state == u.state || (TreatAsLocked(t.state) && TreatAsLocked(u.state)))
  }

  /** The same actions, except for the text of reasons. */
  predicate SameButReasons(a: Actions, b: Actions) {
    && a.resume == b.resume && a.revoke == b.revoke && |a.hold| == |b.hold|
    && forall i :: 0 <= i < |a.hold| ==> a.hold[i].0 == b.hold[i].0
  }

  lemma {:induction false} HoldsAlike(t: Tick, u: Tick, held: set<nat>, n: nat)
    requires SameButReadable(t, u) && n <= |t.sessions|
    ensures var (hold, now), (hold', now') := Holds(t, held, n), Holds(u, held, n);
            now == now' && |hold| == |hold'| && forall i :: 0 <= i < |hold| ==> hold[i].0 == hold'[i].0
  {
    if n > 0 {
      HoldsAlike(t, u, held, n - 1);
      assert MustHold(t, t.sessions[n - 1]) == MustHold(u, u.sessions[n - 1]);
    }
  }

  lemma StepAlike(w: Watch, t: Tick, u: Tick)
    requires SameButReadable(t, u)
    ensures Step(w, t).1 == Step(w, u).1 && SameButReasons(Step(w, t).0, Step(w, u).0)
  {
    HoldsAlike(t, u, w.held, |t.sessions|);
    assert forall id :: Present(t, id) <==> Present(u, id);
  }

  lemma {:induction false} RunAlike(ticks: seq<Tick>, others: seq<Tick>)
    requires |ticks| == |others| && forall i :: 0 <= i < |ticks| ==> SameButReadable(ticks[i], others[i])
    ensures Run(ticks) == Run(others)
  {
    if ticks != [] {
      var n := |ticks| - 1;
      RunAlike(ticks[..n], others[..n]);
      StepAlike(Run(ticks[..n]), ticks[n], others[n]);
    }
  }

  /** Over any run, replacing locked by unreadable changes no state and nothing but reasons. */
  lemma UnreadableIsLocked(ticks: seq<Tick>, others: seq<Tick>, n: nat)
    requires |ticks| == |others| && forall i :: 0 <= i < |ticks| ==> SameButReadable(ticks[i], others[i])
    requires n < |ticks|
    ensures Run(ticks) == Run(others) && SameButReasons(ActionsAt(ticks, n), ActionsAt(others, n))
  {
    RunAlike(ticks, others);
    RunAlike(ticks[..n], others[..n]);
    StepAlike(Run(ticks[..n]), ticks[n], others[n]);
  }
}
