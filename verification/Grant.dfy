/**
 System-access grants: how long one may last, how its state is read off a clock and a boot
 stamp, and how its ending is recorded.
 */
module Grant {
  import opened Common

  const U64_MAX := 0xffff_ffff_ffff_ffff

  datatype GrantKind = SystemAccess | BreakGlass

  const MAX_BREAK_GLASS_MS := 60 * 60 * 1000
  const MAX_SESSION_ACCESS_MS := 8 * 60 * 60 * 1000
  const DEFAULT_SESSION_ACCESS_MS := 30 * 60 * 1000

  datatype TtlError = Zero | TooLong(askedMs: nat, capMs: nat, kind: GrantKind) | BreakGlassNeedsTtl

  function Cap(kind: GrantKind): nat {
    if kind.BreakGlass? then MAX_BREAK_GLASS_MS else MAX_SESSION_ACCESS_MS
  }

  function TtlFor(kind: GrantKind, askedMs: Option<nat>): Result<nat, TtlError> {
    if kind.BreakGlass? && askedMs.None? then Err(BreakGlassNeedsTtl)
    else
      var ms := if askedMs.Some? then askedMs.value else DEFAULT_SESSION_ACCESS_MS;
      if ms == 0 then Err(Zero) else if ms > Cap(kind) then Err(TooLong(ms, Cap(kind), kind)) else Ok(ms)
  }

  // ---- a grant and where it stands ----

  datatype ClosureReason = Revoked | Expired | Reboot | RuntimeRestart
  datatype Closure = Closure(ms: nat, why: ClosureReason)

  /** `bootedMs` is zero when the boot's start could not be read. */
  datatype BootStamp = BootStamp(id: string, bootedMs: nat)

  datatype Grant = Grant(kind: GrantKind, issuedMs: nat, expiresMs: nat, bootId: string, closed: Option<Closure>)

  datatype GrantState = Active(remainingMs: nat) | Ended(why: ClosureReason, atMs: nat)

  function Max(a: nat, b: nat): nat {
    if a < b then b else a
  }

  function StateAt(g: Grant, now: nat, boot: BootStamp): GrantState {
    if g.closed.Some? then Ended(g.closed.value.why, g.closed.value.ms)
    else if g.bootId != boot.id then
      if g.expiresMs <= boot.bootedMs then Ended(Expired, g.expiresMs)
      else Ended(Reboot, Max(boot.bootedMs, g.issuedMs))
    else if g.expiresMs <= now then Ended(Expired, g.expiresMs)
    else Active(g.expiresMs - now)
  }

  function Close(g: Grant, why: ClosureReason, at: nat): Grant {
    if g.closed.Some? then g else g.(closed := Some(Closure(at, why)))
  }

  /** A grant as issued: the asked-for window from now, saturating at the end of the clock. */
  function Issue(kind: GrantKind, askedMs: Option<nat>, now: nat, boot: BootStamp): Result<Grant, TtlError> {
    var ttl := TtlFor(kind, askedMs);
    if ttl.Err? then Err(ttl.error)
    else Ok(Grant(kind, now, if now + ttl.value < U64_MAX then now + ttl.value else U64_MAX, boot.id, None))
  }

  class SystemGrant {
    const kind: GrantKind
    const issuedMs: nat
    const expiresMs: nat
    const bootId: string
    var closed: Option<Closure>

    function View(): Grant
      reads this
    {
      Grant(kind, issuedMs, expiresMs, bootId, closed)
    }

    constructor (g: Grant)
      ensures View() == g
    {
      kind, issuedMs, expiresMs, bootId, closed := g.kind, g.issuedMs, g.expiresMs, g.bootId, g.closed;
    }

    /** Whether anything changed, so that one audit line is written per ending. */
    method CloseWith(why: ClosureReason, at: nat) returns (changed: bool)
      modifies this
      ensures View() == Close(old(View()), why, at)
      ensures changed <==> old(View()).closed.None?
    {
      if closed.Some? { return false; }
      closed := Some(Closure(at, why));
      return true;
    }
  }

  // ---- time on one machine ----

  /** The grant is looked at, and possibly closed, at a time on the machine's `boot`-th boot. */
  datatype Moment = Moment(now: nat, boot: nat, closing: Option<ClosureReason>)

  /** Boot ids are never reused. */
  ghost predicate FreshBoots(boots: seq<BootStamp>) {
    forall i, j :: 0 <= i < j < |boots| ==> boots[i].id != boots[j].id
  }

  /** The clock and the boots only go forward. */
  ghost predicate Forward(boots: seq<BootStamp>, ms: seq<Moment>) {
    && (forall i :: 0 <= i < |ms| ==> ms[i].boot < |boots|)
    && (forall i, j :: 0 <= i < j < |ms| ==> ms[i].now <= ms[j].now && ms[i].boot <= ms[j].boot)
  }

  /** The grant was issued on boot `b`, before any of the moments. */
  ghost predicate IssuedOn(g: Grant, boots: seq<BootStamp>, b: nat, ms: seq<Moment>) {
    && b < |boots| && g.bootId == boots[b].id && g.issuedMs <= g.expiresMs
    && forall i :: 0 <= i < |ms| ==> g.issuedMs <= ms[i].now && b <= ms[i].boot
  }

  function After(g: Grant, ms: seq<Moment>): Grant {
    if ms == [] then g
    else
      var before, m := After(g, ms[..|ms|-1]), ms[|ms|-1];
      if m.closing.Some? then Close(before, m.closing.value, m.now) else before
  }

  /** What is seen at moment `i`, before anything is recorded there. */
  function SeenAt(g: Grant, boots: seq<BootStamp>, ms: seq<Moment>, i: nat): GrantState
    requires i < |ms| && ms[i].boot < |boots|
  {
    StateAt(After(g, ms[..i]), ms[i].now, boots[ms[i].boot])
  }

  lemma {:induction false} ClosureStays(g: Grant, ms: seq<Moment>, i: nat, j: nat)
    requires i <= j <= |ms|
    ensures After(g, ms[..i]).closed.Some? ==> After(g, ms[..j]).closed == After(g, ms[..i]).closed
    ensures After(g, ms[..j]) == g.(closed := After(g, ms[..j]).closed)
    decreases j
  {
    if i < j {
      ClosureStays(g, ms, i, j - 1);
      assert ms[..j][..j - 1] == ms[..j - 1];
    } else if j > 0 {
      ClosureStays(g, ms, i - 1, j - 1);
      assert ms[..j][..j - 1] == ms[..j - 1];
    }
  }

  /** A recorded ending is what is seen for ever after, and no second one is recorded. */
  lemma RecordedForever(g: Grant, boots: seq<BootStamp>, ms: seq<Moment>, i: nat, j: nat)
    requires Forward(boots, ms) && i <= j < |ms| && After(g, ms[..i]).closed.Some?
    ensures var c := After(g, ms[..i]).closed.value;
            && SeenAt(g, boots, ms, j) == Ended(c.why, c.ms)
            && After(g, ms[..j + 1]).closed == Some(c)
  {
    ClosureStays(g, ms, i, j);
    ClosureStays(g, ms, i, j + 1);
  }

  /** Once a grant is seen ended it is never seen active again. */
  lemma EndedForever(g: Grant, boots: seq<BootStamp>, b: nat, ms: seq<Moment>, i: nat, j: nat)
    requires FreshBoots(boots) && Forward(boots, ms) && IssuedOn(g, boots, b, ms)
    requires i <= j < |ms| && SeenAt(g, boots, ms, i).Ended?
    ensures SeenAt(g, boots, ms, j).Ended?
  {
    ClosureStays(g, ms, 0, i);
    ClosureStays(g, ms, i, j);
    if After(g, ms[..i]).closed.None? && g.bootId != boots[ms[i].boot].id {
      assert b < ms[i].boot <= ms[j].boot;
    }
  }

  /** A grant issued through the caps never shows more time left than its kind's cap. */
  lemma NeverMoreThanTheCap(kind: GrantKind, asked: Option<nat>, now: nat, boots: seq<BootStamp>, b: nat,
                            ms: seq<Moment>, i: nat)
    requires b < |boots| && Issue(kind, asked, now, boots[b]).Ok? && Forward(boots, ms) && i < |ms|
    requires IssuedOn(Issue(kind, asked, now, boots[b]).value, boots, b, ms)
    ensures var s := SeenAt(Issue(kind, asked, now, boots[b]).value, boots, ms, i);
            s.Active? ==> s.remainingMs <= if kind == BreakGlass then 3_600_000 else 28_800_000
  {
    ClosureStays(Issue(kind, asked, now, boots[b]).value, ms, 0, i);
  }

  /** Break-glass up to an hour and never by default; system access up to eight hours, half of one by default. */
  lemma TtlIs(ms: nat)
    ensures TtlFor(BreakGlass, Some(ms)).Ok? <==> 0 < ms <= 3_600_000
    ensures TtlFor(SystemAccess, Some(ms)).Ok? <==> 0 < ms <= 28_800_000
    ensures forall kind: GrantKind :: TtlFor(kind, Some(ms)).Ok? ==> TtlFor(kind, Some(ms)).value == ms
    ensures TtlFor(BreakGlass, None) == Err(BreakGlassNeedsTtl) && TtlFor(SystemAccess, None) == Ok(1_800_000)
  {
  }

  /** On its own boot an unclosed grant counts down to its expiry, and has then expired. */
  lemma CountsDown(g: Grant, boots: seq<BootStamp>, b: nat, ms: seq<Moment>, i: nat)
    requires Forward(boots, ms) && IssuedOn(g, boots, b, ms) && g.closed.None?
    requires i < |ms| && ms[i].boot == b && forall k :: 0 <= k < i ==> ms[k].closing.None?
    ensures SeenAt(g, boots, ms, i) ==
              if ms[i].now < g.expiresMs then Active(g.expiresMs - ms[i].now) else Ended(Expired, g.expiresMs)
  {
    NothingRecordedYet(g, ms, i);
  }

  /** An issued grant is open, starts now on this boot and ends after its window, or with the clock. */
  lemma IssuedIs(kind: GrantKind, asked: Option<nat>, now: nat, boot: BootStamp)
    requires TtlFor(kind, asked).Ok?
    ensures var end := now + TtlFor(kind, asked).value;
            Issue(kind, asked, now, boot) ==
              Ok(Grant(kind, now, if end < 0xffff_ffff_ffff_ffff then end else 0xffff_ffff_ffff_ffff, boot.id, None))
  {
  }

  // ---- which ending is recorded ----

  /** Readable boot times: each boot starts after everything seen on earlier ones. */
  ghost predicate ReadableBoots(boots: seq<BootStamp>, ms: seq<Moment>) {
    && (forall i, j :: 0 <= i <= j < |boots| ==> boots[i].bootedMs <= boots[j].bootedMs)
    && (forall i, k :: 0 <= i < |ms| && ms[i].boot < k < |boots| ==> ms[i].now <= boots[k].bootedMs)
  }

  /** Moment `i` is the first at which the grant is seen ended. */
  ghost predicate FirstEnded(g: Grant, boots: seq<BootStamp>, ms: seq<Moment>, i: nat)
    requires Forward(boots, ms)
  {
    && i < |ms| && SeenAt(g, boots, ms, i).Ended?
    && forall k :: 0 <= k < i ==> SeenAt(g, boots, ms, k).Active? && ms[k].closing.None?
  }

  /** What happened: the grant was still running when the machine next went down. */
  predicate CutShort(g: Grant, boots: seq<BootStamp>, b: nat) {
    b + 1 < |boots| && boots[b + 1].bootedMs < g.expiresMs
  }

  lemma {:induction false} NothingRecordedYet(g: Grant, ms: seq<Moment>, i: nat)
    requires i <= |ms| && forall k :: 0 <= k < i ==> ms[k].closing.None?
    ensures After(g, ms[..i]) == g
  {
    if i > 0 {
      NothingRecordedYet(g, ms, i - 1);
      assert ms[..i][..i - 1] == ms[..i - 1];
    }
  }

  /** The reason read off at the first ended moment. */
  lemma FirstReason(g: Grant, boots: seq<BootStamp>, b: nat, ms: seq<Moment>, i: nat)
    requires FreshBoots(boots) && Forward(boots, ms) && IssuedOn(g, boots, b, ms) && g.closed.None?
    requires FirstEnded(g, boots, ms, i)
    ensures SeenAt(g, boots, ms, i).why ==
              if b < ms[i].boot && boots[ms[i].boot].bootedMs < g.expiresMs then Reboot else Expired
    ensures SeenAt(g, boots, ms, i).atMs ==
              if b < ms[i].boot && boots[ms[i].boot].bootedMs < g.expiresMs
              then (if boots[ms[i].boot].bootedMs < g.issuedMs then g.issuedMs else boots[ms[i].boot].bootedMs)
              else g.expiresMs
  {
    NothingRecordedYet(g, ms, i);
    if b < ms[i].boot { assert boots[b].id != boots[ms[i].boot].id; }
  }

  /**
   It says reboot exactly when the grant was cut short by the machine going down, unless the
   window ran out between the first later boot and the one it is looked at on.
   */
  lemma ReasonIsTrue(g: Grant, boots: seq<BootStamp>, b: nat, ms: seq<Moment>, i: nat)
    requires FreshBoots(boots) && Forward(boots, ms) && IssuedOn(g, boots, b, ms) && g.closed.None?
    requires ReadableBoots(boots, ms) && FirstEnded(g, boots, ms, i)
    ensures (SeenAt(g, boots, ms, i).why == Reboot <==> CutShort(g, boots, b)) <==>
              !(b + 1 < ms[i].boot && boots[b + 1].bootedMs < g.expiresMs <= boots[ms[i].boot].bootedMs)
  {
    FirstReason(g, boots, b, ms, i);
    NothingRecordedYet(g, ms, i);
  }

  /** So on the very next boot it is always right. */
  lemma ReasonIsTrueOnNextBoot(g: Grant, boots: seq<BootStamp>, b: nat, ms: seq<Moment>, i: nat)
    requires FreshBoots(boots) && Forward(boots, ms) && IssuedOn(g, boots, b, ms) && g.closed.None?
    requires ReadableBoots(boots, ms) && FirstEnded(g, boots, ms, i) && ms[i].boot <= b + 1
    ensures SeenAt(g, boots, ms, i).why == Reboot <==> CutShort(g, boots, b)
  {
    ReasonIsTrue(g, boots, b, ms, i);
  }

  /** And after two reboots it can be wrong: cut short at the first, reported as expired at the second. */
  lemma TwoRebootsHideTheFirst() returns (g: Grant, boots: seq<BootStamp>, ms: seq<Moment>)
    ensures FreshBoots(boots) && Forward(boots, ms) && IssuedOn(g, boots, 0, ms) && g.closed.None?
    ensures ReadableBoots(boots, ms) && FirstEnded(g, boots, ms, 0)
    ensures CutShort(g, boots, 0) && SeenAt(g, boots, ms, 0).why == Expired
  {
    boots := [BootStamp("a", 0), BootStamp("b", 200), BootStamp("c", 400)];
    g := Grant(SystemAccess, 100, 300, "a", None);
    ms := [Moment(500, 2, None)];
    assert ms[..0] == [];
  }
}
