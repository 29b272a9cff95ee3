/**
 The breadth-first walk that lists a session's descendant processes. The input is a snapshot
 read without a lock, so it may hold cycles and repeated pids.
 */
module ProcessTree {
  import opened Common
  import opened Text
  import opened Graph

  datatype ProcEntry = ProcEntry(pid: int, ppid: int, comm: string, started: nat)

  const MAX_PROCESS_CHILDREN := 64

  function NodeId(pid: int): string {
    "pid:" + DecimalInt(pid)
  }

  // ---- the walk without its cap ----

  /** One listed process: its entry and id, which queue item listed it, and how far from the root it is. */
  datatype Visit = Visit(entry: ProcEntry, id: string, via: nat, depth: nat)

  /** Queue item 0 is the root; item `k` is the `k`-th process listed. */
  function Item(root: int, order: seq<Visit>, k: nat): int
    requires k <= |order|
  {
    if k == 0 then root else order[k - 1].entry.pid
  }

  function ItemDepth(order: seq<Visit>, k: nat): nat
    requires k <= |order|
  {
    if k == 0 then 0 else order[k - 1].depth
  }

  function Kids(procs: seq<ProcEntry>, pid: int): (r: seq<ProcEntry>)
    ensures forall e :: e in r <==> e in procs && e.ppid == pid
  {
    if procs == [] then []
    else
      var init, last := Kids(procs[..|procs|-1], pid), procs[|procs|-1];
      assert procs == procs[..|procs|-1] + [last];
      if last.ppid == pid then init + [last] else init
  }

  /** Children come in list order, every entry once. */
  lemma {:induction false} KidsConcat(a: seq<ProcEntry>, b: seq<ProcEntry>, pid: int)
    ensures Kids(a + b, pid) == Kids(a, pid) + Kids(b, pid)
    ensures forall e: ProcEntry :: Kids([e], pid) == if e.ppid == pid then [e] else []
    decreases |b|
  {
    forall e: ProcEntry ensures Kids([e], pid) == if e.ppid == pid then [e] else [] {
      assert [e][..0] == [];
    }
    if b == [] {
      assert a + b == a;
    } else {
      assert (a + b)[..|a + b|-1] == a + b[..|b|-1];
      KidsConcat(a, b[..|b|-1], pid);
    }
  }

  predicate Seen(root: int, order: seq<Visit>, pid: int) {
    pid == root || exists k :: 0 <= k < |order| && order[k].entry.pid == pid
  }

  function AddKid(root: int, order: seq<Visit>, via: nat, kid: ProcEntry): seq<Visit>
    requires via <= |order|
  {
    if Seen(root, order, kid.pid) then order else order + [Visit(kid, NodeId(kid.pid), via, ItemDepth(order, via) + 1)]
  }

  function AddKids(root: int, order: seq<Visit>, via: nat, kids: seq<ProcEntry>): (r: seq<Visit>)
    requires via <= |order|
    ensures order <= r
    decreases |kids|
  {
    if kids == [] then order else AddKids(root, AddKid(root, order, via, kids[0]), via, kids[1..])
  }

  function PidSet(procs: seq<ProcEntry>): set<int> {
    set e | e in procs :: e.pid
  }

  ghost predicate Listable(procs: seq<ProcEntry>, root: int, order: seq<Visit>, i: nat)
    requires i < |order|
  {
    order[i].entry in procs && order[i].entry.pid != root && order[i].id == NodeId(order[i].entry.pid)
  }

  ghost predicate Apart(order: seq<Visit>, i: nat, j: nat)
    requires i < |order| && j < |order|
  {
    order[i].entry.pid != order[j].entry.pid
  }

  ghost predicate Distinct(procs: seq<ProcEntry>, root: int, order: seq<Visit>) {
    && (forall i {:trigger Listable(procs, root, order, i)} :: 0 <= i < |order| ==> Listable(procs, root, order, i))
    && (forall i, j {:trigger Apart(order, i, j)} :: 0 <= i < j < |order| ==> Apart(order, i, j))
  }

  /** Distinct pids out of a finite set: at most as many as the set has. */
  lemma {:induction false} DistinctBounded(order: seq<Visit>, pids: set<int>)
    requires forall i :: 0 <= i < |order| ==> order[i].entry.pid in pids
    requires forall i, j {:trigger Apart(order, i, j)} :: 0 <= i < j < |order| ==> Apart(order, i, j)
    ensures |order| <= |pids|
    decreases |order|
  {
    if order != [] {
      var init, last := order[..|order|-1], order[|order|-1].entry.pid;
      forall i, j | 0 <= i < j < |init| ensures Apart(init, i, j) { assert Apart(order, i, j); }
      forall i | 0 <= i < |init| ensures init[i].entry.pid in pids - {last} { assert Apart(order, i, |order| - 1); }
      DistinctBounded(init, pids - {last});
    }
  }

  lemma AddKidDistinct(procs: seq<ProcEntry>, root: int, order: seq<Visit>, via: nat, kid: ProcEntry)
    requires via <= |order| && Distinct(procs, root, order) && kid in procs
    ensures Distinct(procs, root, AddKid(root, order, via, kid))
  {
    var more := AddKid(root, order, via, kid);
    forall i | 0 <= i < |more| ensures Listable(procs, root, more, i) {
      assert i < |order| ==> Listable(procs, root, order, i);
    }
    forall i, j | 0 <= i < j < |more| ensures Apart(more, i, j) {
      assert j < |order| ==> Apart(order, i, j);
    }
  }

  lemma {:induction false} AddKidsDistinct(procs: seq<ProcEntry>, root: int, order: seq<Visit>, via: nat,
                                           kids: seq<ProcEntry>)
    requires via <= |order| && Distinct(procs, root, order) && forall e :: e in kids ==> e in procs
    ensures Distinct(procs, root, AddKids(root, order, via, kids))
    decreases |kids|
  {
    if kids != [] {
      AddKidDistinct(procs, root, order, via, kids[0]);
      AddKidsDistinct(procs, root, AddKid(root, order, via, kids[0]), via, kids[1..]);
    }
  }

  lemma DistinctFits(procs: seq<ProcEntry>, root: int, order: seq<Visit>)
    requires Distinct(procs, root, order)
    ensures |order| <= |PidSet(procs)|
  {
    forall i | 0 <= i < |order| ensures order[i].entry.pid in PidSet(procs) { assert Listable(procs, root, order, i); }
    DistinctBounded(order, PidSet(procs));
  }

  /** Serve one queue item. */
  function Round(procs: seq<ProcEntry>, root: int, order: seq<Visit>, next: nat): seq<Visit>
    requires next <= |order|
  {
    AddKids(root, order, next, Kids(procs, Item(root, order, next)))
  }

  lemma RoundDistinct(procs: seq<ProcEntry>, root: int, order: seq<Visit>, next: nat)
    requires next <= |order| && Distinct(procs, root, order)
    ensures Distinct(procs, root, Round(procs, root, order, next))
  {
    AddKidsDistinct(procs, root, order, next, Kids(procs, Item(root, order, next)));
  }

  /**
   Serve queue items from `next` on until none is left. A list longer than there are pids
   never comes up, as no pid is listed twice; ruling it out here is what makes the walk end.
   */
  function Walk(procs: seq<ProcEntry>, root: int, order: seq<Visit>, next: nat): (r: seq<Visit>)
    requires next <= |order| + 1
    ensures order <= r
    decreases |PidSet(procs)| + 1 - next
  {
    if next > |order| || |order| > |PidSet(procs)| then order
    else Walk(procs, root, Round(procs, root, order, next), next + 1)
  }

  function FullWalk(procs: seq<ProcEntry>, root: int): seq<Visit> {
    Walk(procs, root, [], 0)
  }

  // ---- what holds of it at every step ----

  /** A process hangs off an item listed before it that really is its parent. */
  ghost predicate Hangs(root: int, order: seq<Visit>, k: nat)
    requires k < |order|
  {
    var v := order[k];
    v.via <= k && v.entry.ppid == Item(root, order, v.via) && v.depth == ItemDepth(order, v.via) + 1
  }

  ghost predicate Ordered(order: seq<Visit>) {
    forall i, j :: 0 <= i <= j < |order| ==> order[i].depth <= order[j].depth
  }

  /** Nothing listed is more than one step beyond the item being served. */
  ghost predicate Frontier(order: seq<Visit>, next: nat) {
    next <= |order| ==> forall k :: 0 <= k < |order| ==> order[k].depth <= ItemDepth(order, next) + 1
  }

  ghost predicate Found(root: int, order: seq<Visit>, pid: int, depth: nat) {
    pid == root || exists k :: 0 <= k < |order| && order[k].entry.pid == pid && order[k].depth <= depth
  }

  /** Item `k` has been served: all its children are listed, one step away at most. */
  ghost predicate Served(procs: seq<ProcEntry>, root: int, order: seq<Visit>, k: nat)
    requires k <= |order|
  {
    forall e :: e in procs && e.ppid == Item(root, order, k) ==> Found(root, order, e.pid, ItemDepth(order, k) + 1)
  }

  ghost predicate Inv(procs: seq<ProcEntry>, root: int, order: seq<Visit>, next: nat) {
    && next <= |order| + 1
    && (forall k :: 0 <= k < |order| ==> Hangs(root, order, k))
    && Ordered(order) && Frontier(order, next)
    && (forall k :: 0 <= k < next ==> Served(procs, root, order, k))
  }

  lemma FoundLater(root: int, order: seq<Visit>, more: seq<Visit>, pid: int, depth: nat)
    requires order <= more && Found(root, order, pid, depth)
    ensures Found(root, more, pid, depth)
  {
    if pid != root {
      var k :| 0 <= k < |order| && order[k].entry.pid == pid && order[k].depth <= depth;
      assert more[k] == order[k];
    }
  }

  lemma ServedLater(procs: seq<ProcEntry>, root: int, order: seq<Visit>, more: seq<Visit>, k: nat)
    requires order <= more && k <= |order| && Served(procs, root, order, k)
    ensures Served(procs, root, more, k)
  {
    assert Item(root, more, k) == Item(root, order, k) && ItemDepth(more, k) == ItemDepth(order, k);
    forall e | e in procs && e.ppid == Item(root, more, k) ensures Found(root, more, e.pid, ItemDepth(more, k) + 1) {
      FoundLater(root, order, more, e.pid, ItemDepth(order, k) + 1);
    }
  }

  lemma AddKidKeeps(procs: seq<ProcEntry>, root: int, order: seq<Visit>, next: nat, kid: ProcEntry)
    requires next <= |order| && Inv(procs, root, order, next) && kid.ppid == Item(root, order, next)
    ensures Inv(procs, root, AddKid(root, order, next, kid), next)
    ensures Found(root, AddKid(root, order, next, kid), kid.pid, ItemDepth(order, next) + 1)
  {
    var more := AddKid(root, order, next, kid);
    forall k | 0 <= k < |more| ensures Hangs(root, more, k) {
      assert k < |order| ==> Hangs(root, order, k);
    }
    forall k | 0 <= k < next ensures Served(procs, root, more, k) {
      ServedLater(procs, root, order, more, k);
    }
    if !Seen(root, order, kid.pid) {
      assert more[|order|].entry == kid;
    }
  }

  lemma {:induction false} AddKidsKeeps(procs: seq<ProcEntry>, root: int, order: seq<Visit>, next: nat,
                                        kids: seq<ProcEntry>)
    requires next <= |order| && Inv(procs, root, order, next)
    requires forall e :: e in kids ==> e.ppid == Item(root, order, next)
    ensures var more := AddKids(root, order, next, kids);
            && Inv(procs, root, more, next)
            && forall e :: e in kids ==> Found(root, more, e.pid, ItemDepth(order, next) + 1)
    decreases |kids|
  {
    if kids != [] {
      var one := AddKid(root, order, next, kids[0]);
      assert kids[0] in kids;
      AddKidKeeps(procs, root, order, next, kids[0]);
      assert Item(root, one, next) == Item(root, order, next) && ItemDepth(one, next) == ItemDepth(order, next);
      AddKidsKeeps(procs, root, one, next, kids[1..]);
      FoundLater(root, one, AddKids(root, order, next, kids), kids[0].pid, ItemDepth(order, next) + 1);
      assert forall e :: e in kids ==> e == kids[0] || e in kids[1..];
    }
  }

  lemma RoundKeeps(procs: seq<ProcEntry>, root: int, order: seq<Visit>, next: nat)
    requires next <= |order| && Inv(procs, root, order, next)
    ensures Inv(procs, root, Round(procs, root, order, next), next + 1)
  {
    var kids := Kids(procs, Item(root, order, next));
    var more := AddKids(root, order, next, kids);
    AddKidsKeeps(procs, root, order, next, kids);
    assert Item(root, more, next) == Item(root, order, next) && ItemDepth(more, next) == ItemDepth(order, next);
    assert Served(procs, root, more, next);
    if next + 1 <= |more| {
      assert next > 0 ==> more[next - 1].depth <= more[next].depth;
    }
  }

  ghost predicate KeptAtEnd(kept: (seq<Visit>, nat) -> bool, r: seq<Visit>) {
    kept(r, |r| + 1)
  }

  /** What every round keeps, the whole walk keeps. */
  lemma {:induction false} WalkInduction(procs: seq<ProcEntry>, root: int, order: seq<Visit>, next: nat,
                                         kept: (seq<Visit>, nat) -> bool)
    requires next <= |order| + 1 && kept(order, next)
    requires forall o: seq<Visit>, n: nat :: kept(o, n) ==> |o| <= |PidSet(procs)|
    requires forall o: seq<Visit>, n: nat {:trigger Round(procs, root, o, n)} ::
               n <= |o| && kept(o, n) ==> kept(Round(procs, root, o, n), n + 1)
    ensures KeptAtEnd(kept, Walk(procs, root, order, next))
    decreases |PidSet(procs)| + 1 - next
  {
    if next <= |order| {
      WalkInduction(procs, root, Round(procs, root, order, next), next + 1, kept);
    } else {
      assert Walk(procs, root, order, next) == order;
    }
  }

  lemma FullWalkKeeps(procs: seq<ProcEntry>, root: int)
    ensures var r := FullWalk(procs, root);
            Distinct(procs, root, r) && Inv(procs, root, r, |r| + 1)
  {
    var kept := (o: seq<Visit>, n: nat) => Distinct(procs, root, o) && Inv(procs, root, o, n);
    forall o: seq<Visit>, n: nat | kept(o, n) ensures |o| <= |PidSet(procs)| {
      DistinctFits(procs, root, o);
    }
    forall o: seq<Visit>, n: nat | n <= |o| && kept(o, n) ensures kept(Round(procs, root, o, n), n + 1) {
      RoundDistinct(procs, root, o, n);
      RoundKeeps(procs, root, o, n);
    }
    assert Distinct(procs, root, []) && Inv(procs, root, [], 0);
    WalkInduction(procs, root, [], 0, kept);
  }

  // ---- what the walk means ----

  /** A chain of entries from a child of the root down. */
  ghost predicate Chain(procs: seq<ProcEntry>, root: int, path: seq<ProcEntry>) {
    && path != [] && path[0].ppid == root
    && (forall k :: 0 <= k < |path| ==> path[k] in procs)
    && (forall k :: 0 < k < |path| ==> path[k].ppid == path[k - 1].pid)
  }

  lemma {:induction false} ServedListsAll(procs: seq<ProcEntry>, root: int, order: seq<Visit>, path: seq<ProcEntry>)
    requires Inv(procs, root, order, |order| + 1) && Chain(procs, root, path)
    ensures Found(root, order, path[|path|-1].pid, |path|)
    decreases |path|
  {
    var last := path[|path|-1];
    if |path| == 1 {
      assert Served(procs, root, order, 0);
    } else {
      var shorter := path[..|path|-1];
      ServedListsAll(procs, root, order, shorter);
      var above := shorter[|shorter|-1];
      assert last.ppid == above.pid && last in procs;
      if above.pid == root {
        assert Served(procs, root, order, 0);
      } else {
        var k :| 0 <= k < |order| && order[k].entry.pid == above.pid && order[k].depth <= |shorter|;
        assert Served(procs, root, order, k + 1);
      }
    }
  }

  /** Every descendant is listed, no deeper than any chain that leads to it. */
  lemma DescendantsListed(procs: seq<ProcEntry>, root: int, path: seq<ProcEntry>)
    requires Chain(procs, root, path)
    ensures Found(root, FullWalk(procs, root), path[|path|-1].pid, |path|)
  {
    FullWalkKeeps(procs, root);
    ServedListsAll(procs, root, FullWalk(procs, root), path);
  }

  /** Every listed process has a chain of exactly its depth. */
  lemma {:induction false} ListedAreDescendants(procs: seq<ProcEntry>, root: int, order: seq<Visit>, k: nat)
    returns (path: seq<ProcEntry>)
    requires Distinct(procs, root, order) && (forall i :: 0 <= i < |order| ==> Hangs(root, order, i)) && k < |order|
    ensures Chain(procs, root, path) && path[|path|-1] == order[k].entry && |path| == order[k].depth
    decreases k
  {
    assert Hangs(root, order, k) && Listable(procs, root, order, k);
    var v := order[k];
    if v.via == 0 {
      path := [v.entry];
    } else {
      var above := ListedAreDescendants(procs, root, order, v.via - 1);
      ChainGrows(procs, root, above, v.entry);
      path := above + [v.entry];
    }
  }

  lemma ChainGrows(procs: seq<ProcEntry>, root: int, path: seq<ProcEntry>, e: ProcEntry)
    requires Chain(procs, root, path) && e in procs && e.ppid == path[|path|-1].pid
    ensures Chain(procs, root, path + [e])
  {
  }

  // ---- the walk as it is run ----

  /** The id a queue item carries for its children's `parent`. */
  function ItemId(order: seq<Visit>, k: nat): Option<string>
    requires k <= |order|
  {
    if k == 0 then None else Some(order[k - 1].id)
  }

  function NodeOf(kid: ProcEntry, id: string, parent: Option<string>): ChildInfo {
    ChildInfo(id, Process, ClampProcessLabel(kid.comm), kid.started, None, None, parent, Some(kid.pid), None)
  }

  /** The listed processes as graph nodes. */
  ghost predicate ShownAt(order: seq<Visit>, out: seq<ChildInfo>, k: nat)
    requires k < |order| && k < |out|
  {
    order[k].via <= k && out[k] == NodeOf(order[k].entry, order[k].id, ItemId(order, order[k].via))
  }

  ghost predicate Shows(order: seq<Visit>, out: seq<ChildInfo>) {
    |out| == |order| && forall k {:trigger ShownAt(order, out, k)} :: 0 <= k < |order| ==> ShownAt(order, out, k)
  }

  type Queue = seq<(int, Option<string>)>

  /** The queue holds the items from `next` on. */
  ghost predicate HeldAt(root: int, order: seq<Visit>, next: nat, queue: Queue, k: nat)
    requires k < |queue| && next + k <= |order|
  {
    queue[k] == (Item(root, order, next + k), ItemId(order, next + k))
  }

  ghost predicate Holds(root: int, order: seq<Visit>, next: nat, queue: Queue) {
    && next + |queue| == |order| + 1
    && forall k {:trigger HeldAt(root, order, next, queue, k)} ::
         0 <= k < |queue| ==> HeldAt(root, order, next, queue, k)
  }

  lemma PopHeld(root: int, order: seq<Visit>, next: nat, queue: Queue, k: nat)
    requires k + 1 < |queue| && next + k + 1 <= |order| && HeldAt(root, order, next, queue, k + 1)
    ensures HeldAt(root, order, next + 1, queue[1..], k)
  {
    assert next + 1 + k == next + (k + 1) && queue[1..][k] == queue[k + 1];
  }

  lemma PopHolds(root: int, order: seq<Visit>, next: nat, queue: Queue)
    requires Holds(root, order, next, queue) && queue != []
    ensures next <= |order| && queue[0] == (Item(root, order, next), ItemId(order, next))
    ensures Holds(root, order, next + 1, queue[1..])
  {
    assert HeldAt(root, order, next, queue, 0);
    var rest, after := queue[1..], next + 1;
    forall k | 0 <= k < |rest| ensures HeldAt(root, order, after, rest, k) {
      assert HeldAt(root, order, next, queue, k + 1);
      PopHeld(root, order, next, queue, k);
    }
  }

  ghost predicate SeenIs(root: int, order: seq<Visit>, seen: set<int>) {
    forall pid :: pid in seen <==> Seen(root, order, pid)
  }

  function ChildrenIn(byParent: map<int, seq<ProcEntry>>, pid: int): seq<ProcEntry> {
    if pid in byParent then byParent[pid] else []
  }

  ghost predicate GroupedAt(procs: seq<ProcEntry>, byParent: map<int, seq<ProcEntry>>, pid: int) {
    ChildrenIn(byParent, pid) == Kids(procs, pid)
  }

  /** The map gives every pid its children, in list order. */
  ghost predicate Grouped(procs: seq<ProcEntry>, byParent: map<int, seq<ProcEntry>>) {
    forall pid :: GroupedAt(procs, byParent, pid)
  }

  lemma GroupMore(procs: seq<ProcEntry>, byParent: map<int, seq<ProcEntry>>, p: ProcEntry)
    requires Grouped(procs, byParent)
    ensures Grouped(procs + [p], byParent[p.ppid := ChildrenIn(byParent, p.ppid) + [p]])
  {
    var all, more := procs + [p], byParent[p.ppid := ChildrenIn(byParent, p.ppid) + [p]];
    assert all[..|procs|] == procs;
    forall pid ensures GroupedAt(all, more, pid) {
      assert GroupedAt(procs, byParent, pid);
    }
  }

  method GroupByParent(procs: seq<ProcEntry>) returns (byParent: map<int, seq<ProcEntry>>)
    ensures Grouped(procs, byParent)
  {
    byParent := map[];
    assert forall pid :: GroupedAt(procs[..0], byParent, pid);
    for i := 0 to |procs|
      invariant Grouped(procs[..i], byParent)
    {
      assert procs[..i + 1] == procs[..i] + [procs[i]];
      GroupMore(procs[..i], byParent, procs[i]);
      var p := procs[i];
      byParent := byParent[p.ppid := ChildrenIn(byParent, p.ppid) + [p]];
    }
    assert procs[..|procs|] == procs;
  }

  /** One served item: list its unseen children, unless the cap is reached. */
  method ListKids(root: int, kids: seq<ProcEntry>, parent: Option<string>, ghost order: seq<Visit>, ghost next: nat,
                  out: seq<ChildInfo>, queue: Queue, seen: set<int>)
    returns (out': seq<ChildInfo>, queue': Queue, seen': set<int>, capped: bool, ghost order': seq<Visit>)
    requires next <= |order| && |out| <= MAX_PROCESS_CHILDREN && parent == ItemId(order, next)
    requires Synced(root, order, next + 1, out, queue, seen)
    ensures |out'| <= MAX_PROCESS_CHILDREN && Shows(order', out')
    ensures capped ==> |out'| == MAX_PROCESS_CHILDREN && order' <= AddKids(root, order, next, kids)
    ensures !capped ==> order' == AddKids(root, order, next, kids)
    ensures !capped ==> Synced(root, order', next + 1, out', queue', seen')
  {
    out', queue', seen', order' := out, queue, seen, order;
    for j := 0 to |kids|
      invariant order <= order' && AddKids(root, order', next, kids[j..]) == AddKids(root, order, next, kids)
      invariant |out'| <= MAX_PROCESS_CHILDREN
      invariant Synced(root, order', next + 1, out', queue', seen')
    {
      if |out'| >= MAX_PROCESS_CHILDREN { return out', queue', seen', true, order'; }
      assert kids[j..][0] == kids[j] && kids[j..][1..] == kids[j + 1..];
      out', queue', seen' := ListKid(root, kids[j], parent, order', next, out', queue', seen');
      order' := AddKid(root, order', next, kids[j]);
    }
    assert kids[|kids|..] == [];
    capped := false;
  }

  lemma AddKidIs(root: int, order: seq<Visit>, next: nat, kid: ProcEntry, seen: set<int>)
    requires next <= |order| && SeenIs(root, order, seen)
    ensures AddKid(root, order, next, kid) ==
              if kid.pid in seen then order else order + [Visit(kid, NodeId(kid.pid), next, ItemDepth(order, next) + 1)]
  {
  }

  /** What the loop keeps between children. */
  ghost predicate Synced(root: int, order: seq<Visit>, next: nat, out: seq<ChildInfo>, queue: Queue, seen: set<int>) {
    Shows(order, out) && Holds(root, order, next, queue) && SeenIs(root, order, seen)
  }

  lemma AppendSynced(root: int, order: seq<Visit>, next: nat, out: seq<ChildInfo>, queue: Queue, seen: set<int>,
                     kid: ProcEntry, id: string, parent: Option<string>)
    requires next <= |order| && parent == ItemId(order, next) && kid.pid !in seen && id == NodeId(kid.pid)
    requires Synced(root, order, next + 1, out, queue, seen)
    ensures Synced(root, AddKid(root, order, next, kid), next + 1, out + [NodeOf(kid, id, parent)],
                   queue + [(kid.pid, Some(id))], seen + {kid.pid})
  {
    AddKidIs(root, order, next, kid, seen);
    var v := Visit(kid, NodeId(kid.pid), next, ItemDepth(order, next) + 1);
    AppendShows(order, out, v, parent);
    AppendHolds(root, order, next + 1, queue, v);
    AppendSeen(root, order, seen, v);
  }

  method ListKid(root: int, kid: ProcEntry, parent: Option<string>, ghost order: seq<Visit>, ghost next: nat,
                 out: seq<ChildInfo>, queue: Queue, seen: set<int>)
    returns (out': seq<ChildInfo>, queue': Queue, seen': set<int>)
    requires next <= |order| && |out| < MAX_PROCESS_CHILDREN && parent == ItemId(order, next)
    requires Synced(root, order, next + 1, out, queue, seen)
    ensures |out'| <= MAX_PROCESS_CHILDREN
    ensures Synced(root, AddKid(root, order, next, kid), next + 1, out', queue', seen')
  {
    if kid.pid in seen {
      AddKidIs(root, order, next, kid, seen);
      return out, queue, seen;
    }
    var id := NodeId(kid.pid);
    AppendSynced(root, order, next, out, queue, seen, kid, id, parent);
    seen' := seen + {kid.pid};
    out' := out + [NodeOf(kid, id, parent)];
    queue' := queue + [(kid.pid, Some(id))];
  }

  lemma ItemIdLater(order: seq<Visit>, v: Visit, k: nat)
    requires k <= |order|
    ensures ItemId(order + [v], k) == ItemId(order, k)
  {
  }

  lemma AppendShows(order: seq<Visit>, out: seq<ChildInfo>, v: Visit, parent: Option<string>)
    requires Shows(order, out) && v.via <= |order| && parent == ItemId(order, v.via)
    ensures Shows(order + [v], out + [NodeOf(v.entry, v.id, parent)])
  {
    var order', out' := order + [v], out + [NodeOf(v.entry, v.id, parent)];
    forall k | 0 <= k < |order'| ensures ShownAt(order', out', k) {
      if k < |order| {
        assert ShownAt(order, out, k) && order'[k] == order[k] && out'[k] == out[k];
        ItemIdLater(order, v, order[k].via);
      } else {
        ItemIdLater(order, v, v.via);
      }
    }
  }

  lemma AppendHolds(root: int, order: seq<Visit>, next: nat, queue: Queue, v: Visit)
    requires Holds(root, order, next, queue)
    ensures Holds(root, order + [v], next, queue + [(v.entry.pid, Some(v.id))])
  {
    var order', queue' := order + [v], queue + [(v.entry.pid, Some(v.id))];
    forall k | 0 <= k < |queue'| ensures HeldAt(root, order', next, queue', k) {
      assert k < |queue| ==> HeldAt(root, order, next, queue, k);
    }
  }

  lemma AppendSeen(root: int, order: seq<Visit>, seen: set<int>, v: Visit)
    requires SeenIs(root, order, seen)
    ensures SeenIs(root, order + [v], seen + {v.entry.pid})
  {
    var order' := order + [v];
    assert order'[|order|] == v;
    forall pid ensures Seen(root, order', pid) <==> Seen(root, order, pid) || pid == v.entry.pid {
      if Seen(root, order, pid) && pid != root {
        var k :| 0 <= k < |order| && order[k].entry.pid == pid;
        assert order'[k].entry.pid == pid;
      }
    }
  }

  /** A state of the walk that leads to the same full walk. */
  ghost predicate OnCourse(procs: seq<ProcEntry>, root: int, order: seq<Visit>, next: nat) {
    && next <= |order| + 1 && Distinct(procs, root, order)
    && Walk(procs, root, order, next) == FullWalk(procs, root)
  }

  lemma StaysOnCourse(procs: seq<ProcEntry>, root: int, order: seq<Visit>, next: nat)
    requires OnCourse(procs, root, order, next) && next <= |order|
    ensures var more := AddKids(root, order, next, Kids(procs, Item(root, order, next)));
            OnCourse(procs, root, more, next + 1) && more <= FullWalk(procs, root)
    ensures next <= |PidSet(procs)|
  {
    DistinctFits(procs, root, order);
    RoundDistinct(procs, root, order, next);
  }

  /** Pop one item and list its children. */
  method ServeItem(procs: seq<ProcEntry>, byParent: map<int, seq<ProcEntry>>, root: int,
                   ghost order: seq<Visit>, ghost next: nat,
                   out: seq<ChildInfo>, queue: Queue, seen: set<int>)
    returns (out': seq<ChildInfo>, queue': Queue, seen': set<int>, capped: bool, ghost order': seq<Visit>)
    requires Grouped(procs, byParent)
    requires queue != [] && |out| <= MAX_PROCESS_CHILDREN && OnCourse(procs, root, order, next)
    requires Synced(root, order, next, out, queue, seen)
    ensures |out'| <= MAX_PROCESS_CHILDREN && Shows(order', out') && order' <= FullWalk(procs, root)
    ensures capped ==> |out'| == MAX_PROCESS_CHILDREN
    ensures !capped ==> OnCourse(procs, root, order', next + 1) && next <= |PidSet(procs)|
    ensures !capped ==> Synced(root, order', next + 1, out', queue', seen')
  {
    PopHolds(root, order, next, queue);
    StaysOnCourse(procs, root, order, next);
    var (pid, parent) := queue[0];
    assert GroupedAt(procs, byParent, pid);
    var kids := ChildrenIn(byParent, pid);
    out', queue', seen', capped, order' := ListKids(root, kids, parent, order, next, out, queue[1..], seen);
  }

  lemma CourseStarts(procs: seq<ProcEntry>, root: int)
    ensures OnCourse(procs, root, [], 0)
    ensures Synced(root, [], 0, [], [(root, None)], {root})
  {
    assert HeldAt(root, [], 0, [(root, None)], 0);
  }

  lemma CourseEnds(procs: seq<ProcEntry>, root: int, order: seq<Visit>, next: nat)
    requires OnCourse(procs, root, order, next) && Holds(root, order, next, [])
    ensures order == FullWalk(procs, root)
  {
  }

  /** What is returned is the uncapped walk, cut at the cap. */
  method DescendantTree(procs: seq<ProcEntry>, root: int) returns (out: seq<ChildInfo>, ghost order: seq<Visit>)
    ensures Shows(order, out) && |out| <= 64 && order <= FullWalk(procs, root)
    ensures |out| < 64 ==> order == FullWalk(procs, root)
  {
    var byParent := GroupByParent(procs);
    var queue: Queue := [(root, None)];
    var seen := {root};
    out, order := [], [];
    ghost var next := 0;
    CourseStarts(procs, root);
    while queue != []
      invariant OnCourse(procs, root, order, next) && order <= FullWalk(procs, root)
      invariant |out| <= MAX_PROCESS_CHILDREN
      invariant Synced(root, order, next, out, queue, seen)
      decreases |PidSet(procs)| + 1 - next
    {
      var capped;
      out, queue, seen, capped, order := ServeItem(procs, byParent, root, order, next, out, queue, seen);
      if capped { return; }
      next := next + 1;
    }
    CourseEnds(procs, root, order, next);
  }

  /** Any node of any prefix of the walk: not the root, and under its real parent, listed before it. */
  lemma TreeNode(procs: seq<ProcEntry>, root: int, order: seq<Visit>, out: seq<ChildInfo>, k: nat)
    requires order <= FullWalk(procs, root) && Shows(order, out) && k < |out|
    ensures var v := order[k];
            && out[k] == ChildInfo("pid:" + DecimalInt(v.entry.pid), Process, ClampProcessLabel(v.entry.comm),
                                   v.entry.started, None, None, out[k].parent, Some(v.entry.pid), None)
            && v.entry in procs && v.entry.pid != root
            && (v.via == 0 ==> out[k].parent == None && v.entry.ppid == root && v.depth == 1)
            && (v.via > 0 ==>
                  && v.via - 1 < k && out[k].parent == Some(out[v.via - 1].id)
                  && v.entry.ppid == order[v.via - 1].entry.pid
                  && v.depth == order[v.via - 1].depth + 1)
  {
    FullWalkKeeps(procs, root);
    assert Hangs(root, FullWalk(procs, root), k) && Listable(procs, root, FullWalk(procs, root), k);
    assert ShownAt(order, out, k);
    if order[k].via > 0 {
      assert ShownAt(order, out, order[k].via - 1);
    }
  }

  /** Each process once, nearest first. */
  lemma TreeOrder(procs: seq<ProcEntry>, root: int, order: seq<Visit>, out: seq<ChildInfo>, j: nat, k: nat)
    requires order <= FullWalk(procs, root) && Shows(order, out) && j < k < |out|
    ensures out[j].pid != out[k].pid && out[j].id != out[k].id && order[j].depth <= order[k].depth
  {
    FullWalkKeeps(procs, root);
    var full := FullWalk(procs, root);
    assert order[j] == full[j] && order[k] == full[k] && Apart(full, j, k);
    assert Listable(procs, root, full, j) && Listable(procs, root, full, k);
    assert ShownAt(order, out, j) && ShownAt(order, out, k);
    NodeIdInjective(order[j].entry.pid, order[k].entry.pid);
  }

  lemma NodeIdInjective(p: int, q: int)
    ensures NodeId(p) == NodeId(q) <==> p == q
  {
    assert NodeId(p)[4..] == DecimalInt(p) && NodeId(q)[4..] == DecimalInt(q);
    DecimalIntInjective(p, q);
  }
}
