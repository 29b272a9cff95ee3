/**
 The relay room as a state machine. A state is the list of every socket the room has ever
 accepted, in order of acceptance; the handlers look only at open ones, so it does not matter
 when the platform stops listing a closed one. No handler awaits, so each is one atomic step.
 */
module Relay {
  import opened Common
  import opened Room

  type Uuid = nat

  /** A line is open, was lost by the client or the network, or was closed by the room. */
  datatype Line = Open | Lost | Closed(code: nat)

  /**
   `id`, `role` and `peer` are the attachment. `received` is everything the room ever sent on
   the socket. `offered` is history that no handler reads: the acceptable frames the client
   sent while it had a peer.
   */
  datatype Socket = Socket(
    id: Uuid, role: Role, peer: Option<Uuid>,
    line: Line, received: seq<Frame>, offered: seq<Frame>)

  type Sockets = seq<Socket>

  predicate IsWaiting(s: Socket) {
    s.line.Open? && s.role.Host? && s.peer.None?
  }

  predicate IsLive(s: Socket, id: Uuid) {
    s.line.Open? && s.id == id
  }

  function OpenCount(ss: Sockets): (n: nat)
    ensures n <= |ss|
  {
    if ss == [] then 0
    else OpenCount(ss[..|ss|-1]) + (if ss[|ss|-1].line.Open? then 1 else 0)
  }

  /** The first waiting host. */
  function Waiting(ss: Sockets): (r: Option<nat>)
    ensures r.Some? ==> r.value < |ss| && IsWaiting(ss[r.value]) && forall j :: 0 <= j < r.value ==> !IsWaiting(ss[j])
    ensures r.None? ==> forall j :: 0 <= j < |ss| ==> !IsWaiting(ss[j])
  {
    if ss == [] then None
    else
      var init := Waiting(ss[..|ss|-1]);
      if init.Some? then init
      else if IsWaiting(ss[|ss|-1]) then Some(|ss|-1)
      else None
  }

  /** The first open socket with this id. */
  function SocketFor(ss: Sockets, id: Uuid): (r: Option<nat>)
    ensures r.Some? ==> r.value < |ss| && IsLive(ss[r.value], id) && forall j :: 0 <= j < r.value ==> !IsLive(ss[j], id)
    ensures r.None? ==> forall j :: 0 <= j < |ss| ==> !IsLive(ss[j], id)
  {
    if ss == [] then None
    else
      var init := SocketFor(ss[..|ss|-1], id);
      if init.Some? then init
      else if IsLive(ss[|ss|-1], id) then Some(|ss|-1)
      else None
  }

  // ---- what one handler does to the list of sockets ----

  function Send(ss: Sockets, i: nat, frame: Frame): Sockets
    requires i < |ss|
  {
    ss[i := ss[i].(received := ss[i].received + [frame])]
  }

  function Close(ss: Sockets, i: nat, code: nat): Sockets
    requires i < |ss|
  {
    if ss[i].line.Open? then ss[i := ss[i].(line := Closed(code))] else ss
  }

  function Farewell(ss: Sockets, i: nat): Sockets
    requires i < |ss|
  {
    if ss[i].line.Open? then Close(Send(ss, i, PEER_GONE), i, GOING_AWAY) else ss
  }

  function PartnerLost(ss: Sockets, i: nat): (r: Sockets)
    requires i < |ss|
    ensures |r| == |ss|
  {
    if ss[i].peer.None? then ss
    else
      var peer := SocketFor(ss, ss[i].peer.value);
      if peer.None? then ss else Farewell(ss, peer.value)
  }

  function Offer(ss: Sockets, i: nat, frame: Frame): Sockets
    requires i < |ss|
  {
    ss[i := ss[i].(offered := ss[i].offered + [frame])]
  }

  function Message(ss: Sockets, i: nat, frame: Frame): Sockets
    requires i < |ss|
  {
    var verdict := JudgeFrame(frame);
    if verdict.Drop? then Close(PartnerLost(ss, i), i, verdict.code)
    else if ss[i].peer.None? then ss
    else
      var offered := Offer(ss, i, frame);
      var peer := SocketFor(offered, ss[i].peer.value);
      if peer.None? then Farewell(offered, i) else Send(offered, peer.value, frame)
  }

  datatype Response = Refused(status: nat) | Upgraded

  function Link(ss: Sockets, host: nat, guest: nat): Sockets
    requires host < |ss| && guest < |ss|
  {
    var hosted := ss[host := ss[host].(peer := Some(ss[guest].id))];
    hosted[guest := hosted[guest].(peer := Some(ss[host].id))]
  }

  function Dial(ss: Sockets, role: Role, id: Uuid): (Response, Sockets)
  {
    if !RoomHasSpace(OpenCount(ss)) then (Refused(503), ss)
    else
      var verdict := Decide(role, Waiting(ss).Some?);
      if verdict.Refuse? then (Refused(verdict.status), ss)
      else
        var accepted := ss + [Socket(id, role, None, Open, [], [])];
        var server := |ss|;
        if verdict.Hold? then (Upgraded, Send(accepted, server, WAITING))
        else
          var host := Waiting(accepted);
          if host.None? then (Upgraded, Close(accepted, server, TRY_AGAIN))
          else (Upgraded, Send(Send(Link(accepted, host.value, server), host.value, PAIRED), server, PAIRED))
  }

  // ---- runs ----

  /** A frame may still arrive on a socket the room has closed, so no event asks for an open one. */
  datatype Event =
    | Dialled(role: Role, id: Uuid)
    | Sent(i: nat, frame: Frame)
    | Ended(i: nat)      // the close handler and the error handler
    | Vanished(i: nat)   // the environment: a line stops being open

  predicate Enabled(ss: Sockets, e: Event) {
    match e
    case Dialled(_, id) => forall s :: s in ss ==> s.id != id   // a UUID is never drawn twice
    case Sent(i, _) => i < |ss|
    case Ended(i) => i < |ss|
    case Vanished(i) => i < |ss|
  }

  function Apply(ss: Sockets, e: Event): Sockets
    requires Enabled(ss, e)
  {
    match e
    case Dialled(role, id) => Dial(ss, role, id).1
    case Sent(i, frame) => Message(ss, i, frame)
    case Ended(i) => PartnerLost(ss, i)
    case Vanished(i) => if ss[i].line.Open? then ss[i := ss[i].(line := Lost)] else ss
  }

  predicate Runs(from: Sockets, events: seq<Event>, to: Sockets)
    decreases events
  {
    if events == [] then from == to
    else Enabled(from, events[0]) && Runs(Apply(from, events[0]), events[1..], to)
  }

  // ---- the invariant ----

  /** What the room said before any payload. */
  function Prologue(s: Socket): seq<Frame> {
    (if s.role.Host? then [WAITING] else []) + (if s.peer.Some? then [PAIRED] else [])
  }

  predicate Told(s: Socket) {
    s.line == Closed(GOING_AWAY)
  }

  function Epilogue(s: Socket): seq<Frame> {
    if Told(s) then [PEER_GONE] else []
  }

  /** `payload` is what the socket got between the notices. */
  predicate Carried(s: Socket, payload: seq<Frame>) {
    && s.received == Prologue(s) + payload + Epilogue(s)
    && (s.peer.None? ==> payload == [])
    && forall f :: f in payload ==> JudgeFrame(f).Carry?
  }

  function Payload(s: Socket): seq<Frame> {
    var lo, hi := |Prologue(s)|, |s.received| - |Epilogue(s)|;
    if lo <= hi then s.received[lo..hi] else []
  }

  lemma PayloadIs(s: Socket, payload: seq<Frame>)
    requires Carried(s, payload)
    ensures Payload(s) == payload
  {
    assert s.received[|Prologue(s)|..|s.received| - |Epilogue(s)|] == payload;
  }

  predicate StreamOk(s: Socket) {
    Carried(s, Payload(s))
  }

  ghost predicate Linked(ss: Sockets, i: nat, j: nat) {
    && i < |ss| && j < |ss|
    && ss[i].peer == Some(ss[j].id) && ss[j].peer == Some(ss[i].id)
    && ss[i].role != ss[j].role
  }

  /** An end has exactly what its peer offered while it is open, and a prefix of it for ever. */
  ghost predicate Conveyed(to: Socket, from: Socket) {
    && Payload(to) <= from.offered
    && (to.line.Open? ==> Payload(to) == from.offered)
  }

  ghost predicate UniqueIds(ss: Sockets) {
    forall i, j :: 0 <= i < |ss| && 0 <= j < |ss| && ss[i].id == ss[j].id ==> i == j
  }

  ghost predicate HasPartner(ss: Sockets, i: nat) {
    i < |ss| && ss[i].peer.Some? ==> exists j: nat :: Linked(ss, i, j)
  }

  ghost predicate Matched(ss: Sockets) {
    forall i: nat :: HasPartner(ss, i)
  }

  ghost predicate LoneHost(ss: Sockets) {
    forall i, j :: 0 <= i < |ss| && 0 <= j < |ss| && IsWaiting(ss[i]) && IsWaiting(ss[j]) ==> i == j
  }

  ghost predicate SocketOk(s: Socket) {
    && StreamOk(s)
    && (s.peer.None? ==> s.role.Host? && s.offered == [] && !Told(s))
    && s.line != Closed(TRY_AGAIN)
  }

  ghost predicate AllOk(ss: Sockets) {
    forall i {:trigger SocketOk(ss[i])} :: 0 <= i < |ss| ==> SocketOk(ss[i])
  }

  ghost predicate Flowing(ss: Sockets) {
    forall i: nat, j: nat :: Linked(ss, i, j) ==> Conveyed(ss[i], ss[j])
  }

  ghost predicate Inv(ss: Sockets) {
    && UniqueIds(ss)
    && Matched(ss)
    && LoneHost(ss)
    && AllOk(ss)
    && Flowing(ss)
    && OpenCount(ss) <= MAX_SOCKETS_PER_ROOM
  }

  // ---- every step keeps the invariant ----

  /** The links are as they were and no line has reopened. */
  ghost predicate SameLinks(ss: Sockets, tt: Sockets) {
    && |ss| == |tt|
    && forall k :: 0 <= k < |ss| ==>
         && ss[k].id == tt[k].id && ss[k].role == tt[k].role && ss[k].peer == tt[k].peer
         && (tt[k].line.Open? ==> ss[k].line.Open?)
  }

  lemma {:induction false} OpenCountFalls(ss: Sockets, tt: Sockets)
    requires SameLinks(ss, tt)
    ensures OpenCount(tt) <= OpenCount(ss)
  {
    if ss != [] {
      OpenCountFalls(ss[..|ss|-1], tt[..|ss|-1]);
    }
  }

  lemma Reinstate(ss: Sockets, tt: Sockets)
    requires Inv(ss) && SameLinks(ss, tt) && AllOk(tt) && Flowing(tt)
    ensures Inv(tt)
  {
    OpenCountFalls(ss, tt);
    forall i: nat ensures HasPartner(tt, i) {
      if i < |tt| && tt[i].peer.Some? {
        assert HasPartner(ss, i);
        var j: nat :| Linked(ss, i, j);
        assert Linked(tt, i, j);
      }
    }
    forall i, j | 0 <= i < |tt| && 0 <= j < |tt| && IsWaiting(tt[i]) && IsWaiting(tt[j]) ensures i == j {
      assert IsWaiting(ss[i]) && IsWaiting(ss[j]);
    }
  }

  /** One socket changed, keeping its place in the matching and both flows of its link. */
  lemma UpdateKeeps(ss: Sockets, i: nat, s: Socket)
    requires Inv(ss) && i < |ss| && SameLinks(ss, ss[i := s]) && SocketOk(s)
    requires forall j: nat :: Linked(ss, i, j) ==> Conveyed(s, ss[j]) && Conveyed(ss[j], s)
    ensures Inv(ss[i := s])
  {
    var tt := ss[i := s];
    forall k | 0 <= k < |tt| ensures SocketOk(tt[k]) { assert k == i || SocketOk(ss[k]); }
    forall a: nat, b: nat | Linked(tt, a, b) ensures Conveyed(tt[a], tt[b]) {
      assert Linked(ss, a, b) && Linked(ss, b, a);
      assert a != b;
    }
    Reinstate(ss, tt);
  }

  lemma OnePartner(ss: Sockets, i: nat, j: nat, k: nat)
    requires UniqueIds(ss) && Linked(ss, i, j) && k < |ss|
    ensures ss[i].peer == Some(ss[k].id) <==> k == j
    ensures i != j
  {
  }

  /** The lookup by the stored link finds the partner exactly when it is open. */
  lemma LookupPartner(ss: Sockets, i: nat, j: nat)
    requires UniqueIds(ss) && Linked(ss, i, j)
    ensures SocketFor(ss, ss[i].peer.value) == if ss[j].line.Open? then Some(j) else None
    ensures PartnerLost(ss, i) == Farewell(ss, j)
  {
    var r := SocketFor(ss, ss[i].peer.value);
    if r.Some? {
      OnePartner(ss, i, j, r.value);
    } else {
      assert !IsLive(ss[j], ss[i].peer.value);
    }
  }

  /** Closing or losing a line without saying anything. */
  lemma DropKeeps(ss: Sockets, i: nat, line: Line)
    requires Inv(ss) && i < |ss| && ss[i].line.Open?
    requires line != Open && line != Closed(GOING_AWAY) && line != Closed(TRY_AGAIN)
    ensures Inv(ss[i := ss[i].(line := line)])
  {
    var s := ss[i].(line := line);
    assert SocketOk(ss[i]);
    PayloadIs(s, Payload(ss[i]));
    forall j: nat | Linked(ss, i, j) ensures Conveyed(s, ss[j]) && Conveyed(ss[j], s) {
      assert Linked(ss, j, i);
    }
    UpdateKeeps(ss, i, s);
  }

  lemma FarewellKeeps(ss: Sockets, i: nat)
    requires Inv(ss) && i < |ss| && ss[i].peer.Some?
    ensures Inv(Farewell(ss, i)) && SameLinks(ss, Farewell(ss, i))
    ensures !Farewell(ss, i)[i].line.Open?
  {
    if ss[i].line.Open? {
      assert SocketOk(ss[i]);
      var s := ss[i].(received := ss[i].received + [PEER_GONE], line := Closed(GOING_AWAY));
      assert Farewell(ss, i) == ss[i := s];
      PayloadIs(s, Payload(ss[i]));
      forall j: nat | Linked(ss, i, j) ensures Conveyed(s, ss[j]) && Conveyed(ss[j], s) {
        assert Linked(ss, j, i);
      }
      UpdateKeeps(ss, i, s);
    }
  }

  lemma PartnerLostKeeps(ss: Sockets, i: nat)
    requires Inv(ss) && i < |ss|
    ensures Inv(PartnerLost(ss, i)) && SameLinks(ss, PartnerLost(ss, i))
    ensures PartnerLost(ss, i)[i] == ss[i]
  {
    if ss[i].peer.Some? {
      assert HasPartner(ss, i);
      var j: nat :| Linked(ss, i, j);
      LookupPartner(ss, i, j);
      OnePartner(ss, i, j, i);
      FarewellKeeps(ss, j);
    }
  }

  /** Both ends of one link changed together. */
  lemma LinkUpdateKeeps(ss: Sockets, i: nat, s: Socket, j: nat, t: Socket)
    requires Inv(ss) && Linked(ss, i, j) && i != j
    requires SameLinks(ss, ss[i := s][j := t]) && SocketOk(s) && SocketOk(t)
    requires Conveyed(s, t) && Conveyed(t, s)
    ensures Inv(ss[i := s][j := t])
  {
    var tt := ss[i := s][j := t];
    forall k | 0 <= k < |tt| ensures SocketOk(tt[k]) { assert k == i || k == j || SocketOk(ss[k]); }
    forall a: nat, b: nat | Linked(tt, a, b) ensures Conveyed(tt[a], tt[b]) {
      assert Linked(ss, a, b) && Linked(ss, b, a) && Linked(ss, j, i);
      if a == i || b == i {
        assert a == j || b == j;
      } else {
        assert a != j && b != j;
      }
    }
    Reinstate(ss, tt);
  }

  /** A frame is copied to the open partner: both ends' histories grow by the same frame. */
  lemma CopyKeeps(ss: Sockets, i: nat, j: nat, frame: Frame)
    requires Inv(ss) && Linked(ss, i, j) && ss[j].line.Open? && JudgeFrame(frame).Carry?
    ensures Inv(Send(Offer(ss, i, frame), j, frame))
  {
    OnePartner(ss, i, j, j);
    var s := ss[i].(offered := ss[i].offered + [frame]);
    var t := ss[j].(received := ss[j].received + [frame]);
    assert SocketOk(ss[j]) && SocketOk(ss[i]) && Linked(ss, j, i);
    assert t.received == Prologue(t) + (Payload(ss[j]) + [frame]) + Epilogue(t);
    PayloadIs(t, Payload(ss[j]) + [frame]);
    PayloadIs(s, Payload(ss[i]));
    assert Conveyed(ss[i], ss[j]) && Conveyed(ss[j], ss[i]);
    LinkUpdateKeeps(ss, i, s, j, t);
  }

  /** A frame whose partner is gone is only remembered as offered. */
  lemma LateOfferKeeps(ss: Sockets, i: nat, j: nat, frame: Frame)
    requires Inv(ss) && Linked(ss, i, j) && !ss[j].line.Open?
    ensures Inv(Offer(ss, i, frame))
  {
    var s := ss[i].(offered := ss[i].offered + [frame]);
    assert SocketOk(ss[i]) && Linked(ss, j, i);
    PayloadIs(s, Payload(ss[i]));
    forall k: nat | Linked(ss, i, k) ensures Conveyed(s, ss[k]) && Conveyed(ss[k], s) {
      OnePartner(ss, i, j, k);
    }
    UpdateKeeps(ss, i, s);
  }

  lemma MessageKeeps(ss: Sockets, i: nat, frame: Frame)
    requires Inv(ss) && i < |ss|
    ensures Inv(Message(ss, i, frame))
  {
    var verdict := JudgeFrame(frame);
    if verdict.Drop? {
      PartnerLostKeeps(ss, i);
      if ss[i].line.Open? {
        DropKeeps(PartnerLost(ss, i), i, Closed(verdict.code));
      }
    } else if ss[i].peer.Some? {
      assert HasPartner(ss, i);
      var j: nat :| Linked(ss, i, j);
      LookupPartner(ss, i, j);
      var offered := Offer(ss, i, frame);
      SameLookup(ss, offered, ss[i].peer.value);
      if ss[j].line.Open? {
        CopyKeeps(ss, i, j, frame);
      } else {
        LateOfferKeeps(ss, i, j, frame);
        FarewellKeeps(offered, i);
      }
    }
  }

  /** The lookup depends on ids and lines alone. */
  lemma SameLookup(ss: Sockets, tt: Sockets, id: Uuid)
    requires |ss| == |tt| && forall k :: 0 <= k < |ss| ==> ss[k].id == tt[k].id && ss[k].line == tt[k].line
    ensures SocketFor(ss, id) == SocketFor(tt, id)
  {
    var r, q := SocketFor(ss, id), SocketFor(tt, id);
    if r.Some? { assert IsLive(tt[r.value], id); }
    if q.Some? { assert IsLive(ss[q.value], id); }
  }

  lemma OpenCountAppend(ss: Sockets, s: Socket)
    ensures OpenCount(ss + [s]) == OpenCount(ss) + (if s.line.Open? then 1 else 0)
  {
    assert (ss + [s])[..|ss|] == ss;
  }

  /** A fresh id stays unique whatever happens to the other attachments. */
  lemma FreshId(ss: Sockets, tt: Sockets, s: Socket)
    requires UniqueIds(ss) && |ss| == |tt| && forall k :: 0 <= k < |ss| ==> ss[k].id == tt[k].id
    requires forall t :: t in ss ==> t.id != s.id
    ensures UniqueIds(tt + [s])
  {
    forall k | 0 <= k < |ss| ensures tt[k].id != s.id { assert ss[k] in ss; }
  }

  lemma AppendedOk(ss: Sockets, s: Socket)
    requires AllOk(ss) && SocketOk(s)
    ensures AllOk(ss + [s])
  {
    var tt := ss + [s];
    forall k | 0 <= k < |tt| ensures SocketOk(tt[k]) { assert k < |ss| ==> SocketOk(ss[k]); }
  }

  function NewHost(id: Uuid): Socket {
    Socket(id, Host, None, Open, [WAITING], [])
  }

  lemma HoldLinks(ss: Sockets, id: Uuid)
    requires Inv(ss) && Enabled(ss, Dialled(Host, id))
    ensures Matched(ss + [NewHost(id)]) && Flowing(ss + [NewHost(id)])
  {
    var tt := ss + [NewHost(id)];
    forall k: nat ensures HasPartner(tt, k) {
      if k < |ss| && tt[k].peer.Some? {
        assert HasPartner(ss, k);
        var j: nat :| Linked(ss, k, j);
        assert Linked(tt, k, j);
      }
    }
    forall a: nat, b: nat | Linked(tt, a, b) ensures Conveyed(tt[a], tt[b]) {
      assert Linked(ss, a, b);
    }
  }

  /** A new host waits alone. */
  lemma HoldKeeps(ss: Sockets, id: Uuid)
    requires Inv(ss) && Enabled(ss, Dialled(Host, id))
    requires RoomHasSpace(OpenCount(ss)) && Waiting(ss).None?
    ensures Inv(ss + [NewHost(id)])
  {
    OpenCountAppend(ss, NewHost(id));
    PayloadIs(NewHost(id), []);
    FreshId(ss, ss, NewHost(id));
    AppendedOk(ss, NewHost(id));
    HoldLinks(ss, id);
  }

  function PairedHost(s: Socket, guest: Uuid): Socket {
    s.(peer := Some(guest), received := s.received + [PAIRED])
  }

  function PairedGuest(id: Uuid, host: Uuid): Socket {
    Socket(id, Guest, Some(host), Open, [PAIRED], [])
  }

  lemma JoinCounts(ss: Sockets, h: nat, host: Socket, guest: Socket)
    requires h < |ss| && host.line == ss[h].line && guest.line.Open?
    ensures OpenCount(ss[h := host] + [guest]) == OpenCount(ss) + 1
  {
    OpenCountAppend(ss[h := host], guest);
    SameCount(ss, ss[h := host]);
  }

  lemma {:induction false} SameCount(ss: Sockets, tt: Sockets)
    requires |ss| == |tt| && forall k :: 0 <= k < |ss| ==> ss[k].line == tt[k].line
    ensures OpenCount(ss) == OpenCount(tt)
  {
    if ss != [] {
      SameCount(ss[..|ss|-1], tt[..|ss|-1]);
    }
  }

  function Joined(ss: Sockets, h: nat, id: Uuid): Sockets
    requires h < |ss|
  {
    ss[h := PairedHost(ss[h], id)] + [PairedGuest(id, ss[h].id)]
  }

  /** The only link a join adds is the new one. */
  lemma JoinLinks(ss: Sockets, h: nat, id: Uuid, a: nat, b: nat)
    requires UniqueIds(ss) && h < |ss| && ss[h].peer.None? && HasPartner(ss, a)
    requires forall k :: 0 <= k < |ss| ==> ss[k].id != id
    requires Linked(Joined(ss, h, id), a, b)
    ensures (a == h && b == |ss|) || (a == |ss| && b == h) || (a != h && b != h && Linked(ss, a, b))
  {
    if a < |ss| && a != h {
      var j: nat :| Linked(ss, a, j);
      assert b < |ss|;
    }
  }

  lemma JoinMatched(ss: Sockets, h: nat, id: Uuid)
    requires Matched(ss) && h < |ss| && ss[h].role.Host? && ss[h].peer.None?
    ensures Matched(Joined(ss, h, id))
  {
    var tt := Joined(ss, h, id);
    assert Linked(tt, h, |ss|) && Linked(tt, |ss|, h);
    forall k: nat ensures HasPartner(tt, k) {
      if k < |ss| && k != h && tt[k].peer.Some? {
        assert HasPartner(ss, k);
        var j: nat :| Linked(ss, k, j);
        assert Linked(tt, k, j);
      }
    }
  }

  lemma JoinFlows(ss: Sockets, h: nat, id: Uuid)
    requires UniqueIds(ss) && Matched(ss) && Flowing(ss) && h < |ss| && IsWaiting(ss[h]) && SocketOk(ss[h])
    requires forall k :: 0 <= k < |ss| ==> ss[k].id != id
    ensures Flowing(Joined(ss, h, id))
    ensures SocketOk(PairedHost(ss[h], id)) && SocketOk(PairedGuest(id, ss[h].id))
  {
    var tt := Joined(ss, h, id);
    PayloadIs(tt[h], []);
    PayloadIs(tt[|ss|], []);
    forall a: nat, b: nat | Linked(tt, a, b) ensures Conveyed(tt[a], tt[b]) {
      assert HasPartner(ss, a);
      JoinLinks(ss, h, id, a, b);
    }
  }

  lemma JoinIds(ss: Sockets, h: nat, id: Uuid)
    requires UniqueIds(ss) && h < |ss| && Enabled(ss, Dialled(Guest, id))
    ensures UniqueIds(Joined(ss, h, id))
  {
    FreshId(ss, ss[h := PairedHost(ss[h], id)], PairedGuest(id, ss[h].id));
  }

  lemma JoinOk(ss: Sockets, h: nat, id: Uuid)
    requires AllOk(ss) && h < |ss|
    requires SocketOk(PairedHost(ss[h], id)) && SocketOk(PairedGuest(id, ss[h].id))
    ensures AllOk(Joined(ss, h, id))
  {
    UpdatedOk(ss, h, PairedHost(ss[h], id));
    AppendedOk(ss[h := PairedHost(ss[h], id)], PairedGuest(id, ss[h].id));
  }

  /** A guest takes the waiting host: both get `paired` and nothing else in the room moves. */
  lemma JoinKeeps(ss: Sockets, h: nat, id: Uuid)
    requires Inv(ss) && Enabled(ss, Dialled(Guest, id))
    requires RoomHasSpace(OpenCount(ss)) && h < |ss| && IsWaiting(ss[h])
    ensures Inv(Joined(ss, h, id))
  {
    forall k | 0 <= k < |ss| ensures ss[k].id != id { assert ss[k] in ss; }
    assert SocketOk(ss[h]);
    JoinMatched(ss, h, id);
    JoinFlows(ss, h, id);
    JoinIds(ss, h, id);
    JoinOk(ss, h, id);
    JoinCounts(ss, h, PairedHost(ss[h], id), PairedGuest(id, ss[h].id));
    JoinLeavesNoneWaiting(ss, h, id);
  }

  lemma UpdatedOk(ss: Sockets, i: nat, s: Socket)
    requires AllOk(ss) && i < |ss| && SocketOk(s)
    ensures AllOk(ss[i := s])
  {
    var tt := ss[i := s];
    forall k | 0 <= k < |tt| ensures SocketOk(tt[k]) { assert SocketOk(ss[k]); }
  }

  lemma JoinLeavesNoneWaiting(ss: Sockets, h: nat, id: Uuid)
    requires LoneHost(ss) && h < |ss| && IsWaiting(ss[h])
    ensures LoneHost(Joined(ss, h, id)) && Waiting(Joined(ss, h, id)).None?
  {
    var tt := Joined(ss, h, id);
    forall a | 0 <= a < |tt| ensures !IsWaiting(tt[a]) { assert a < |ss| && a != h ==> !IsWaiting(ss[a]); }
  }

  /** With a waiting host found before the upgrade, the second lookup finds it again. */
  lemma RaceBranchUnreachable(ss: Sockets, id: Uuid)
    requires Waiting(ss).Some?
    ensures Waiting(ss + [Socket(id, Guest, None, Open, [], [])]) == Waiting(ss)
  {
    var tt := ss + [Socket(id, Guest, None, Open, [], [])];
    assert tt[..|ss|] == ss;
  }

  lemma PairingShape(ss: Sockets, h: nat, id: Uuid)
    requires h < |ss|
    ensures var linked := Link(ss + [Socket(id, Guest, None, Open, [], [])], h, |ss|);
            Send(Send(linked, h, PAIRED), |ss|, PAIRED) == Joined(ss, h, id)
  {
    var linked := Link(ss + [Socket(id, Guest, None, Open, [], [])], h, |ss|);
    var tt := Send(Send(linked, h, PAIRED), |ss|, PAIRED);
    assert [] + [PAIRED] == [PAIRED];
    assert tt[|ss|] == PairedGuest(id, ss[h].id);
    assert tt[h] == PairedHost(ss[h], id);
  }

  /** All a dial can do: refuse, add one waiting host, or pair the waiting host with one guest. */
  lemma DialOutcome(ss: Sockets, role: Role, id: Uuid)
    ensures var w := Waiting(ss);
            Dial(ss, role, id) ==
              if OpenCount(ss) >= MAX_SOCKETS_PER_ROOM then (Refused(503), ss)
              else if role.Host? == w.Some? then (Refused(409), ss)
              else if role.Host? then (Upgraded, ss + [NewHost(id)])
              else (Upgraded, Joined(ss, w.value, id))
  {
    if RoomHasSpace(OpenCount(ss)) && role.Host? && Waiting(ss).None? {
      assert [] + [WAITING] == [WAITING];
      assert Send(ss + [Socket(id, Host, None, Open, [], [])], |ss|, WAITING) == ss + [NewHost(id)];
    } else if RoomHasSpace(OpenCount(ss)) && role.Guest? && Waiting(ss).Some? {
      RaceBranchUnreachable(ss, id);
      PairingShape(ss, Waiting(ss).value, id);
    }
  }

  lemma DialKeeps(ss: Sockets, role: Role, id: Uuid)
    requires Inv(ss) && Enabled(ss, Dialled(role, id))
    ensures Inv(Dial(ss, role, id).1)
  {
    DialOutcome(ss, role, id);
    if RoomHasSpace(OpenCount(ss)) {
      var w := Waiting(ss);
      if role.Host? && w.None? {
        HoldKeeps(ss, id);
      } else if role.Guest? && w.Some? {
        JoinKeeps(ss, w.value, id);
      }
    }
  }

  lemma StepKeeps(ss: Sockets, e: Event)
    requires Inv(ss) && Enabled(ss, e)
    ensures Inv(Apply(ss, e))
  {
    match e
    case Dialled(role, id) => DialKeeps(ss, role, id);
    case Sent(i, frame) => MessageKeeps(ss, i, frame);
    case Ended(i) => PartnerLostKeeps(ss, i);
    case Vanished(i) => if ss[i].line.Open? { DropKeeps(ss, i, Lost); }
  }

  // ---- over whole runs ----

  /** What the relay says about itself, as a JSON object with one key. */
  function Notice(what: string): Frame {
    Text("{\"relay\":\"" + what + "\"}")
  }

  lemma NoticesAre()
    ensures Notice("waiting") == WAITING && Notice("paired") == PAIRED && Notice("peer-gone") == PEER_GONE
  {
  }

  lemma {:induction false} RunKeeps(from: Sockets, events: seq<Event>, to: Sockets)
    requires Inv(from) && Runs(from, events, to)
    ensures Inv(to)
    decreases events
  {
    if events != [] {
      StepKeeps(from, events[0]);
      RunKeeps(Apply(from, events[0]), events[1..], to);
    }
  }

  /** The places of the open sockets. */
  ghost function OpenOnes(ss: Sockets): set<nat> {
    set i: nat | i < |ss| && ss[i].line.Open?
  }

  lemma {:induction false} OpenCountIs(ss: Sockets)
    ensures OpenCount(ss) == |OpenOnes(ss)|
  {
    if ss != [] {
      var init, n := ss[..|ss|-1], |ss| - 1;
      OpenCountIs(init);
      assert OpenOnes(ss) == if ss[n].line.Open? then OpenOnes(init) + {n} else OpenOnes(init);
    }
  }

  /** In every reachable state the links are a host-to-guest matching and the room's bounds hold. */
  lemma Occupancy(events: seq<Event>, ss: Sockets)
    requires Runs([], events, ss)
    ensures forall i, j :: 0 <= i < |ss| && 0 <= j < |ss| && ss[i].id == ss[j].id ==> i == j
    ensures forall i: nat :: i < |ss| && ss[i].peer.Some? ==> exists j: nat :: Linked(ss, i, j)
    ensures forall i, j, k :: Linked(ss, i, j) && Linked(ss, i, k) ==> j == k
    ensures forall i :: 0 <= i < |ss| && ss[i].peer.None? ==> ss[i].role.Host?
    ensures forall i, j :: 0 <= i < |ss| && 0 <= j < |ss| && IsWaiting(ss[i]) && IsWaiting(ss[j]) ==> i == j
    ensures forall i :: 0 <= i < |ss| ==> ss[i].line != Closed(1013)
    ensures |OpenOnes(ss)| <= 16
  {
    RunKeeps([], events, ss);
    OpenCountIs(ss);
    forall i: nat | i < |ss| && ss[i].peer.Some? ensures exists j: nat :: Linked(ss, i, j) {
      assert HasPartner(ss, i);
    }
    forall i | 0 <= i < |ss|
      ensures ss[i].line != Closed(1013) && (ss[i].peer.None? ==> ss[i].role.Host?)
    {
      assert SocketOk(ss[i]);
    }
  }

  /**
   Everything a socket ever received, in every reachable state: the notices in their places,
   and between them only acceptable binary frames, a verbatim prefix of what its one peer
   offered and all of it while the socket is open.
   */
  lemma Streams(events: seq<Event>, ss: Sockets, i: nat) returns (j: nat, payload: seq<Frame>)
    requires Runs([], events, ss) && i < |ss|
    ensures ss[i].peer.None? ==> ss[i].role.Host? && ss[i].received == [Notice("waiting")]
    ensures ss[i].peer.Some? ==>
              && Linked(ss, i, j)
              && ss[i].received ==
                   (if ss[i].role.Host? then [Notice("waiting")] else [])
                   + [Notice("paired")]
                   + payload
                   + (if ss[i].line == Closed(1001) then [Notice("peer-gone")] else [])
              && payload <= ss[j].offered
              && (ss[i].line.Open? ==> payload == ss[j].offered)
              && (forall f :: f in payload ==> f.Binary? && |f.bytes| <= 262144)
  {
    RunKeeps([], events, ss);
    NoticesAre();
    assert SocketOk(ss[i]);
    StreamShape(ss[i]);
    payload := Payload(ss[i]);
    j := 0;
    if ss[i].peer.Some? {
      assert HasPartner(ss, i);
      j :| Linked(ss, i, j);
    }
  }

  lemma StreamShape(s: Socket)
    requires SocketOk(s)
    ensures s.peer.None? ==> s.role.Host? && s.received == [WAITING]
    ensures s.peer.Some? ==>
              && s.received ==
                   (if s.role.Host? then [WAITING] else []) + [PAIRED]
                   + Payload(s)
                   + (if s.line == Closed(GOING_AWAY) then [PEER_GONE] else [])
              && (forall f :: f in Payload(s) ==> f.Binary? && |f.bytes| <= MAX_FRAME_BYTES)
  {
    assert Prologue(s) == (if s.role.Host? then [WAITING] else []) + (if s.peer.Some? then [PAIRED] else []);
  }

  /** A binary frame of at most a quarter of a mebibyte. */
  predicate Acceptable(frame: Frame) {
    frame.Binary? && |frame.bytes| <= 262144
  }

  /** What one event adds to the frames `j` offered. */
  function OfferedBy(ss: Sockets, e: Event, j: nat): seq<Frame>
    requires Enabled(ss, e)
  {
    if e.Sent? && e.i == j && ss[j].peer.Some? && Acceptable(e.frame) then [e.frame] else []
  }

  /** The acceptable frames `j` sent in a run at moments when it had a peer. */
  function SentWhilePaired(from: Sockets, events: seq<Event>, to: Sockets, j: nat): seq<Frame>
    requires Runs(from, events, to)
    decreases events
  {
    if events == [] then []
    else OfferedBy(from, events[0], j) + SentWhilePaired(Apply(from, events[0]), events[1..], to, j)
  }

  function Offered(ss: Sockets, j: nat): seq<Frame> {
    if j < |ss| then ss[j].offered else []
  }

  /** `offered` is that history: nothing else ever writes it. */
  lemma {:induction false} OfferedIsHistory(from: Sockets, events: seq<Event>, to: Sockets, j: nat)
    requires Runs(from, events, to)
    ensures Offered(to, j) == Offered(from, j) + SentWhilePaired(from, events, to, j)
    decreases events
  {
    if events != [] {
      var e, next := events[0], Apply(from, events[0]);
      OfferedStep(from, e, j);
      OfferedIsHistory(next, events[1..], to, j);
      Associate(Offered(from, j), OfferedBy(from, e, j), SentWhilePaired(next, events[1..], to, j));
    }
  }

  lemma Associate(a: seq<Frame>, b: seq<Frame>, c: seq<Frame>)
    ensures a + b + c == a + (b + c)
  {
  }

  lemma OfferedStep(ss: Sockets, e: Event, j: nat)
    requires Enabled(ss, e)
    ensures Offered(Apply(ss, e), j) == Offered(ss, j) + OfferedBy(ss, e, j)
  {
    match e
    case Dialled(role, id) => DialEffect(ss, role, id);
    case Sent(i, frame) => MessageEffect(ss, i, frame);
    case Ended(i) => PartnerLostEffect(ss, i);
    case Vanished(i) =>
  }

  /** What no later step takes back: attachments, links once written, and everything received. */
  ghost predicate Evolves(ss: Sockets, tt: Sockets) {
    && |ss| <= |tt|
    && forall k :: 0 <= k < |ss| ==> SocketEvolves(ss[k], tt[k])
  }

  predicate SocketEvolves(s: Socket, t: Socket) {
    && s.id == t.id && s.role == t.role
    && (s.peer.Some? ==> t.peer == s.peer)
    && s.received <= t.received
    && (!s.line.Open? ==> t.line == s.line && t.received == s.received && t.peer == s.peer)
  }

  lemma DialEffect(ss: Sockets, role: Role, id: Uuid)
    ensures Evolves(ss, Dial(ss, role, id).1)
    ensures forall j: nat :: Offered(Dial(ss, role, id).1, j) == Offered(ss, j)
  {
    DialOutcome(ss, role, id);
  }

  lemma PartnerLostEffect(ss: Sockets, i: nat)
    requires i < |ss|
    ensures Evolves(ss, PartnerLost(ss, i))
    ensures forall j: nat :: Offered(PartnerLost(ss, i), j) == Offered(ss, j)
  {
  }

  lemma CloseEffect(ss: Sockets, tt: Sockets, i: nat, code: nat)
    requires i < |ss| && Evolves(ss, tt)
    ensures Evolves(ss, Close(tt, i, code))
    ensures forall j: nat :: Offered(Close(tt, i, code), j) == Offered(tt, j)
  {
  }

  lemma MessageEffect(ss: Sockets, i: nat, frame: Frame)
    requires i < |ss|
    ensures Evolves(ss, Message(ss, i, frame))
    ensures forall j: nat :: Offered(Message(ss, i, frame), j) == Offered(ss, j) + OfferedBy(ss, Sent(i, frame), j)
  {
    var verdict := JudgeFrame(frame);
    if verdict.Drop? {
      PartnerLostEffect(ss, i);
      CloseEffect(ss, PartnerLost(ss, i), i, verdict.code);
    } else if ss[i].peer.Some? {
      CarryEffect(ss, i, frame);
    }
  }

  lemma CarryEffect(ss: Sockets, i: nat, frame: Frame)
    requires i < |ss| && ss[i].peer.Some? && JudgeFrame(frame).Carry?
    ensures Evolves(ss, Message(ss, i, frame))
    ensures forall j: nat :: Offered(Message(ss, i, frame), j) == Offered(ss, j) + OfferedBy(ss, Sent(i, frame), j)
  {
  }

  lemma StepEvolves(ss: Sockets, e: Event)
    requires Enabled(ss, e)
    ensures Evolves(ss, Apply(ss, e))
  {
    match e
    case Dialled(role, id) => DialEffect(ss, role, id);
    case Sent(i, frame) => MessageEffect(ss, i, frame);
    case Ended(i) => PartnerLostEffect(ss, i);
    case Vanished(i) =>
  }

  /** Links are written once, a closed line stays closed, and no sent frame is ever unsent. */
  lemma {:induction false} RunEvolves(from: Sockets, events: seq<Event>, to: Sockets)
    requires Runs(from, events, to)
    ensures Evolves(from, to)
    decreases events
  {
    if events != [] {
      StepEvolves(from, events[0]);
      RunEvolves(Apply(from, events[0]), events[1..], to);
    }
  }

  /** A dial is refused for exactly two reasons, and only a live lone host keeps a host out. */
  lemma RefusedOnlyWhen(ss: Sockets, role: Role, id: Uuid)
    ensures var r := Dial(ss, role, id).0;
            var waiting := exists k :: 0 <= k < |ss| && IsWaiting(ss[k]);
            && (r == Refused(503) <==> |OpenOnes(ss)| >= 16)
            && (r == Refused(409) <==> |OpenOnes(ss)| < 16 && (role.Host? <==> waiting))
            && (r.Refused? ==> Dial(ss, role, id).1 == ss)
  {
    OpenCountIs(ss);
    DialOutcome(ss, role, id);
  }

  /** A bad frame is never copied; it costs the sender and its partner their lines. */
  lemma BadFrameEndsBoth(events: seq<Event>, ss: Sockets, i: nat, j: nat, frame: Frame)
    requires Runs([], events, ss) && Linked(ss, i, j) && JudgeFrame(frame).Drop?
    ensures var tt := Message(ss, i, frame);
            && !tt[i].line.Open? && !tt[j].line.Open?
            && (ss[i].line.Open? ==> tt[i].line == Closed(JudgeFrame(frame).code))
            && tt[i].received == ss[i].received
            && tt[j].received == ss[j].received + (if ss[j].line.Open? then [PEER_GONE] else [])
  {
    UniqueInRuns(events, ss);
    LookupPartner(ss, i, j);
    OnePartner(ss, i, j, i);
  }

  /** A good frame reaches the open partner verbatim and touches no other stream. */
  lemma GoodFrameDelivered(events: seq<Event>, ss: Sockets, i: nat, j: nat, frame: Frame)
    requires Runs([], events, ss) && Linked(ss, i, j) && ss[j].line.Open? && JudgeFrame(frame).Carry?
    ensures var tt := Message(ss, i, frame);
            && |tt| == |ss|
            && tt[j].received == ss[j].received + [frame]
            && forall k :: 0 <= k < |ss| && k != j ==> tt[k].received == ss[k].received && tt[k].line == ss[k].line
  {
    UniqueInRuns(events, ss);
    LookupPartner(ss, i, j);
    SameLookup(ss, Offer(ss, i, frame), ss[i].peer.value);
  }

  // ---- every frame, one by one ----

  /** Any binary frame of at most 262144 bytes reaches the open partner, and nothing else changes for anybody. */
  lemma FrameCarried(events: seq<Event>, ss: Sockets, i: nat, j: nat, bytes: seq<bv8>)
    requires Runs([], events, ss) && Linked(ss, i, j) && ss[j].line.Open? && |bytes| <= 262144
    ensures var tt := Message(ss, i, Binary(bytes));
            && |tt| == |ss|
            && tt[j].received == ss[j].received + [Binary(bytes)]
            && forall k :: 0 <= k < |ss| ==>
                 && tt[k].line == ss[k].line && tt[k].peer == ss[k].peer
                 && (k != j ==> tt[k].received == ss[k].received)
  {
    GoodFrameDelivered(events, ss, i, j, Binary(bytes));
  }

  /** A socket told that its peer is gone, and closed as going away. */
  function TakenLeaveOf(s: Socket): Socket {
    s.(received := s.received + [Notice("peer-gone")], line := Closed(1001))
  }

  /** The close code a frame costs its sender, if any. */
  function CostOf(frame: Frame): Option<nat> {
    match frame
    case Text(_) => Some(1003)
    case Binary(bytes) => if |bytes| > 262144 then Some(1009) else None
  }

  /** A text or a longer frame closes its open sender with 1003 or 1009, and the partner with notice and 1001. */
  lemma FrameRefused(events: seq<Event>, ss: Sockets, i: nat, j: nat, frame: Frame)
    requires Runs([], events, ss) && Linked(ss, i, j) && CostOf(frame).Some?
    ensures var tt := Message(ss, i, frame);
            && |tt| == |ss|
            && tt[i] == (if ss[i].line.Open? then ss[i].(line := Closed(CostOf(frame).value)) else ss[i])
            && tt[j] == (if ss[j].line.Open? then TakenLeaveOf(ss[j]) else ss[j])
            && forall k :: 0 <= k < |ss| && k != i && k != j ==> tt[k] == ss[k]
  {
    NoticesAre();
    UniqueInRuns(events, ss);
    LookupPartner(ss, i, j);
    OnePartner(ss, i, j, i);
  }

  /** Before there is a partner an acceptable frame changes nothing, and any other closes its sender. */
  lemma FrameBeforePairing(ss: Sockets, i: nat, frame: Frame)
    requires i < |ss| && ss[i].peer.None?
    ensures Message(ss, i, frame) ==
              if CostOf(frame).Some? && ss[i].line.Open?
              then ss[i := ss[i].(line := Closed(CostOf(frame).value))] else ss
  {
  }

  /** After the partner is gone an acceptable frame tells the sender so, with 1001. */
  lemma FrameAfterPartner(events: seq<Event>, ss: Sockets, i: nat, j: nat, bytes: seq<bv8>)
    requires Runs([], events, ss) && Linked(ss, i, j) && !ss[j].line.Open? && |bytes| <= 262144
    ensures var tt := Message(ss, i, Binary(bytes));
            && |tt| == |ss|
            && tt[i].line == (if ss[i].line.Open? then Closed(1001) else ss[i].line)
            && tt[i].received ==
                 ss[i].received + (if ss[i].line.Open? then [Notice("peer-gone")] else [])
            && forall k :: 0 <= k < |ss| && k != i ==> tt[k] == ss[k]
  {
    NoticesAre();
    UniqueInRuns(events, ss);
    LookupPartner(ss, i, j);
    OnePartner(ss, i, j, i);
    SameLookup(ss, Offer(ss, i, Binary(bytes)), ss[i].peer.value);
  }

  /** A closing or failing socket tells its open partner with 1001 and changes nothing else. */
  lemma PartnerIsTold(events: seq<Event>, ss: Sockets, i: nat, j: nat)
    requires Runs([], events, ss) && Linked(ss, i, j)
    ensures PartnerLost(ss, i) ==
              if ss[j].line.Open? then ss[j := TakenLeaveOf(ss[j])] else ss
  {
    NoticesAre();
    UniqueInRuns(events, ss);
    LookupPartner(ss, i, j);
  }

  lemma UniqueInRuns(events: seq<Event>, ss: Sockets)
    requires Runs([], events, ss)
    ensures UniqueIds(ss)
  {
    RunKeeps([], events, ss);
  }

  // ---- the room as the object that keeps the sockets ----

  class RelayRoom {
    var sockets: Sockets

    constructor ()
      ensures sockets == []
    {
      sockets := [];
    }

    method CountOpen() returns (n: nat)
      ensures n == OpenCount(sockets)
    {
      n := 0;
      for i := 0 to |sockets|
        invariant n == OpenCount(sockets[..i])
      {
        assert sockets[..i + 1][..i] == sockets[..i];
        if sockets[i].line.Open? { n := n + 1; }
      }
      assert sockets[..|sockets|] == sockets;
    }

    method FindWaiting() returns (ws: Option<nat>)
      ensures ws == Waiting(sockets)
    {
      for i := 0 to |sockets|
        invariant forall j :: 0 <= j < i ==> !IsWaiting(sockets[j])
      {
        if !sockets[i].line.Open? { continue; }
        if sockets[i].role.Host? && sockets[i].peer.None? {
          return Some(i);
        }
      }
      return None;
    }

    method FindSocket(id: Uuid) returns (ws: Option<nat>)
      ensures ws == SocketFor(sockets, id)
    {
      for i := 0 to |sockets|
        invariant forall j :: 0 <= j < i ==> !IsLive(sockets[j], id)
      {
        if !sockets[i].line.Open? { continue; }
        if sockets[i].id == id {
          return Some(i);
        }
      }
      return None;
    }

    /** Sending on a line that is not open throws, so every call site has to rule that out. */
    method SendTo(ws: nat, frame: Frame)
      requires ws < |sockets| && sockets[ws].line.Open?
      modifies this
      ensures sockets == Send(old(sockets), ws, frame)
    {
      sockets := sockets[ws := sockets[ws].(received := sockets[ws].received + [frame])];
    }

    method CloseSocket(ws: nat, code: nat)
      requires ws < |sockets|
      modifies this
      ensures sockets == Close(old(sockets), ws, code)
    {
      if sockets[ws].line.Open? {
        sockets := sockets[ws := sockets[ws].(line := Closed(code))];
      }
    }

    method SayFarewell(ws: nat)
      requires ws < |sockets|
      modifies this
      ensures sockets == Farewell(old(sockets), ws)
    {
      if !sockets[ws].line.Open? { return; }
      SendTo(ws, PEER_GONE);
      CloseSocket(ws, GOING_AWAY);
    }

    method TellPartner(ws: nat)
      requires ws < |sockets|
      modifies this
      ensures sockets == PartnerLost(old(sockets), ws)
    {
      if sockets[ws].peer.None? { return; }
      var peer := FindSocket(sockets[ws].peer.value);
      if peer.Some? {
        SayFarewell(peer.value);
      }
    }

    method Fetch(role: Role, id: Uuid) returns (response: Response)
      requires Inv(sockets) && Enabled(sockets, Dialled(role, id))
      modifies this
      ensures (response, sockets) == Dial(old(sockets), role, id)
      ensures Inv(sockets)
    {
      ghost var before := sockets;
      DialKeeps(before, role, id);
      var open := CountOpen();
      if !RoomHasSpace(open) { return Refused(503); }
      var waiting := FindWaiting();
      var verdict := Decide(role, waiting.Some?);
      if verdict.Refuse? { return Refused(verdict.status); }
      var server := |sockets|;
      sockets := sockets + [Socket(id, role, None, Open, [], [])];
      if verdict.Hold? {
        SendTo(server, WAITING);
      } else {
        var host := FindWaiting();
        RaceBranchUnreachable(before, id);
        if host.None? {
          assert false;
        } else {
          var hostId := sockets[host.value].id;
          sockets := sockets[host.value := sockets[host.value].(peer := Some(id))];
          sockets := sockets[server := sockets[server].(peer := Some(hostId))];
          SendTo(host.value, PAIRED);
          SendTo(server, PAIRED);
        }
      }
      return Upgraded;
    }

    method WebSocketMessage(ws: nat, message: Frame)
      requires Inv(sockets) && ws < |sockets|
      modifies this
      ensures sockets == Message(old(sockets), ws, message) && Inv(sockets)
    {
      MessageKeeps(sockets, ws, message);
      var verdict := JudgeFrame(message);
      if verdict.Drop? {
        TellPartner(ws);
        CloseSocket(ws, verdict.code);
        return;
      }
      if sockets[ws].peer.None? { return; }
      sockets := Offer(sockets, ws, message);  // history only
      var peer := FindSocket(sockets[ws].peer.value);
      if peer.None? {
        SayFarewell(ws);
        return;
      }
      SendTo(peer.value, message);
    }

    /** The close handler and the error handler do the same thing. */
    method WebSocketClose(ws: nat)
      requires Inv(sockets) && ws < |sockets|
      modifies this
      ensures sockets == PartnerLost(old(sockets), ws) && Inv(sockets)
    {
      PartnerLostKeeps(sockets, ws);
      TellPartner(ws);
    }
  }
}
