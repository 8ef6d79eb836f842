/** The chat server of network.c: a table of client sockets and numbers, driven by one event loop. */
module ChatServer {
  import opened CStrings
  import opened Options

  const MAX_CLIENTS: nat := 100
  const MAX_MSG_SIZE: nat := BUFFER_SIZE - 20

  // ----- Specification -----

  /** The two arrays and the two counters; and, as bookkeeping, the log of all broadcasts, what each
      client (by number) has been sent since its welcome, and the length of the log when it was
      accepted and when it was removed. */
  datatype Server = Server(
    socks: seq<int>, ids: seq<int>, connected: int, count: nat,
    log: seq<string>, inbox: map<int, seq<string>>, joined: map<int, nat>, left: map<int, nat>)

  predicate Shaped(s: Server) {
    |s.socks| == MAX_CLIENTS && |s.ids| == MAX_CLIENTS
  }

  function Fresh(count: nat): Server {
    Server(seq(MAX_CLIENTS, _ => -1), seq(MAX_CLIENTS, _ => -1), 0, count, [], map[], map[], map[])
  }

  function Removed(s: Server, i: nat): Server
    requires Shaped(s) && i < MAX_CLIENTS
  {
    s.(socks := s.socks[i := -1], connected := s.connected - 1, left := s.left[s.ids[i] := |s.log|])
  }

  function Sent(s: Server, i: nat, msg: string): Server
    requires Shaped(s) && i < MAX_CLIENTS
  {
    var id := s.ids[i];
    s.(inbox := s.inbox[id := (if id in s.inbox then s.inbox[id] else []) + [msg]])
  }

  type Failures = f: seq<bool> | |f| == MAX_CLIENTS witness seq(MAX_CLIENTS, _ => false)

  /** `broadcast_message` from slot `i` on: a client to which sending fails is removed. */
  function BroadcastFrom(s: Server, msg: string, exclude: int, fails: Failures, i: nat): (r: Server)
    requires Shaped(s) && i <= MAX_CLIENTS
    ensures Shaped(r)
    decreases MAX_CLIENTS - i
  {
    if i == MAX_CLIENTS then s
    else BroadcastFrom(BroadcastAt(s, msg, exclude, fails, i), msg, exclude, fails, i + 1)
  }

  function BroadcastAt(s: Server, msg: string, exclude: int, fails: Failures, i: nat): (r: Server)
    requires Shaped(s) && i < MAX_CLIENTS
    ensures Shaped(r)
  {
    if s.socks[i] < 0 || (exclude != -1 && s.socks[i] == exclude) then s
    else if fails[i] then Removed(s, i)
    else Sent(s, i, msg)
  }

  function Broadcast(s: Server, msg: string, fails: Failures): (r: Server)
    requires Shaped(s)
    ensures Shaped(r)
  {
    var r := BroadcastFrom(s, msg, -1, fails, 0);
    r.(log := r.log + [msg])
  }

  function CheckedAt(s: Server, broken: Failures, i: nat): (r: Server)
    requires Shaped(s) && i < MAX_CLIENTS
    ensures Shaped(r)
  {
    if s.socks[i] >= 0 && broken[i] then Removed(s, i) else s
  }

  /** The periodic check from slot `i` on. */
  function CheckedFrom(s: Server, broken: Failures, i: nat): (r: Server)
    requires Shaped(s) && i <= MAX_CLIENTS
    ensures Shaped(r)
    decreases MAX_CLIENTS - i
  {
    if i == MAX_CLIENTS then s else CheckedFrom(CheckedAt(s, broken, i), broken, i + 1)
  }

  /** The first free slot from `i` on, or MAX_CLIENTS. */
  function FreeSlot(socks: seq<int>, i: nat): (slot: nat)
    requires i <= |socks|
    ensures i <= slot <= |socks| && (slot < |socks| ==> socks[slot] < 0)
    ensures forall j :: i <= j < slot ==> socks[j] >= 0
    decreases |socks| - i
  {
    if i == |socks| || socks[i] < 0 then i else FreeSlot(socks, i + 1)
  }

  /** `handle_new_connection` with what `accept` returned. */
  function Accepted(s: Server, fd: int): (r: Server)
    requires Shaped(s)
    ensures Shaped(r)
  {
    var slot := FreeSlot(s.socks, 0);
    if fd < 0 || slot == MAX_CLIENTS then s
    else
      var id := s.count + 1;
      s.(socks := s.socks[slot := fd], ids := s.ids[slot := id], connected := s.connected + 1, count := id,
         joined := s.joined[id := |s.log|], inbox := s.inbox[id := []])
  }

  /** What reading from a ready client comes to: the socket is unusable or closed, or one message. */
  datatype Outcome = Unusable | Closed | Received(bytes: string, fails: Failures)

  function Payload(bytes: string): string {
    CString(if bytes != "" && bytes[|bytes| - 1] == '\n' then bytes[..|bytes| - 1] else bytes)
  }

  /** The text broadcast for a message from slot `i`. */
  function Formatted(s: Server, i: nat, bytes: string): string
    requires Shaped(s) && i < MAX_CLIENTS
  {
    var client := "client" + DecInt(s.ids[i]) + ": ";
    Cut(BUFFER_SIZE - 1,
        if Payload(bytes) == "\\connected"
        then client + "There are " + DecInt(s.connected) + " clients connected\n"
        else client + Payload(bytes) + "\n")
  }

  /** `%d`. */
  function DecInt(n: int): string {
    if n < 0 then "-" + Dec(-n) else Dec(n)
  }

  /** `handle_client_data`. */
  function Handled(s: Server, i: nat, o: Outcome): (r: Server)
    requires Shaped(s) && i < MAX_CLIENTS
    ensures Shaped(r)
  {
    match o
    case Received(bytes, fails) =>
      if bytes == "" then Removed(s, i) else Broadcast(s, Formatted(s, i, bytes), fails)
    case _ => Removed(s, i)
  }

  function ServedAt(s: Server, ready: set<int>, outcomes: seq<Outcome>, i: nat): (r: Server)
    requires Shaped(s) && |outcomes| == MAX_CLIENTS && i < MAX_CLIENTS
    ensures Shaped(r)
  {
    if s.socks[i] >= 0 && s.socks[i] in ready then Handled(s, i, outcomes[i]) else s
  }

  /** The data half of one turn of the loop, from slot `i` on. */
  function ServedFrom(s: Server, ready: set<int>, outcomes: seq<Outcome>, i: nat): (r: Server)
    requires Shaped(s) && |outcomes| == MAX_CLIENTS && i <= MAX_CLIENTS
    ensures Shaped(r)
    decreases MAX_CLIENTS - i
  {
    if i == MAX_CLIENTS then s else ServedFrom(ServedAt(s, ready, outcomes, i), ready, outcomes, i + 1)
  }

  /** One turn of `run_server`: every hundredth time the periodic check; then, if `select` succeeds,
      a new connection, if any, and the clients that are ready. */
  datatype Turn = Turn(
    check: Option<Failures>, selected: bool, accepted: int, ready: set<int>, outcomes: seq<Outcome>)

  function AfterCheck(s: Server, t: Turn): (r: Server)
    requires Shaped(s)
    ensures Shaped(r)
  {
    if t.check.Some? then CheckedFrom(s, t.check.value, 0) else s
  }

  function Turned(s: Server, t: Turn): (r: Server)
    requires Shaped(s) && |t.outcomes| == MAX_CLIENTS
    ensures Shaped(r)
  {
    var checked := AfterCheck(s, t);
    if t.selected then ServedFrom(Accepted(checked, t.accepted), t.ready, t.outcomes, 0) else checked
  }

  /** `accept` returns a descriptor that is not open. */
  predicate TurnOk(s: Server, t: Turn)
    requires Shaped(s)
  {
    |t.outcomes| == MAX_CLIENTS && (t.accepted >= 0 ==> t.accepted !in AfterCheck(s, t).socks)
  }

  predicate RunOk(s: Server, ts: seq<Turn>)
    requires Shaped(s)
    decreases |ts|
  {
    ts == [] || (TurnOk(s, ts[0]) && RunOk(Turned(s, ts[0]), ts[1..]))
  }

  function After(s: Server, ts: seq<Turn>): (r: Server)
    requires Shaped(s) && RunOk(s, ts)
    ensures Shaped(r)
    decreases |ts|
  {
    if ts == [] then s else After(Turned(s, ts[0]), ts[1..])
  }

  // ----- What every event keeps -----

  function Occupied(socks: seq<int>): nat {
    if socks == [] then 0 else (if socks[|socks| - 1] >= 0 then 1 else 0) + Occupied(socks[..|socks| - 1])
  }

  lemma {:induction false} OccupiedUpdate(socks: seq<int>, i: nat, v: int)
    requires i < |socks|
    ensures Occupied(socks[i := v]) ==
            Occupied(socks) - (if socks[i] >= 0 then 1 else 0) + (if v >= 0 then 1 else 0)
    ensures Occupied(socks) <= |socks|
    decreases |socks|
  {
    var last := |socks| - 1;
    if i < last {
      assert socks[i := v][..last] == socks[..last][i := v];
      OccupiedUpdate(socks[..last], i, v);
    } else {
      assert socks[i := v][..last] == socks[..last];
      OccupiedBound(socks[..last]);
    }
  }

  lemma {:induction false} OccupiedBound(socks: seq<int>)
    ensures Occupied(socks) <= |socks|
    decreases |socks|
  {
    if socks != [] { OccupiedBound(socks[..|socks| - 1]); }
  }

  predicate Live(s: Server, i: nat)
    requires Shaped(s) && i < MAX_CLIENTS
  {
    s.socks[i] >= 0
  }

  /** Some live slot carries number `id`. */
  predicate Seated(socks: seq<int>, ids: seq<int>, id: int)
    requires |socks| == |ids|
  {
    exists i :: 0 <= i < |socks| && socks[i] >= 0 && ids[i] == id
  }

  /** Counters and numbering: live descriptors and numbers are distinct, numbers run from 1 to `count`,
      and a client is either live or has left. */
  ghost predicate Seats(socks: seq<int>, ids: seq<int>, connected: int, count: nat, known: set<int>, left: set<int>)
    requires |socks| == |ids|
  {
    && connected == Occupied(socks)
    && (forall i :: 0 <= i < |socks| && socks[i] >= 0 ==> 1 <= ids[i] <= count && ids[i] !in left)
    && (forall i, j :: 0 <= i < j < |socks| && socks[i] >= 0 && socks[j] >= 0 ==>
          socks[i] != socks[j] && ids[i] != ids[j])
    && (forall id :: id in known <==> 1 <= id <= count)
    && left <= known
    && (forall id :: id in known && id !in left ==> Seated(socks, ids, id))
  }

  ghost predicate TableOk(s: Server) {
    && Shaped(s)
    && s.inbox.Keys == s.joined.Keys
    && Seats(s.socks, s.ids, s.connected, s.count, s.joined.Keys, s.left.Keys)
  }

  /** While `msg` is being broadcast: the clients in slots below `upTo` have it, the others do not. */
  ghost predicate Delivered(s: Server, msg: string, upTo: nat)
    requires TableOk(s)
  {
    && (forall i :: 0 <= i < MAX_CLIENTS && Live(s, i) ==>
          s.joined[s.ids[i]] <= |s.log|
          && s.inbox[s.ids[i]] == s.log[s.joined[s.ids[i]]..] + (if i < upTo then [msg] else []))
    && (forall id :: id in s.left ==>
          s.joined[id] <= s.left[id] <= |s.log| && s.inbox[id] == s.log[s.joined[id]..s.left[id]])
  }

  /** Between events nobody is owed anything. */
  ghost predicate Ordered(s: Server) {
    TableOk(s) && Delivered(s, "", 0)
  }

  lemma RemovedSeats(
      socks: seq<int>, ids: seq<int>, connected: int, count: nat, known: set<int>, left: set<int>, i: nat)
    requires |socks| == |ids| && i < |socks| && socks[i] >= 0
    requires Seats(socks, ids, connected, count, known, left)
    ensures Seats(socks[i := -1], ids, connected - 1, count, known, left + {ids[i]})
  {
    OccupiedUpdate(socks, i, -1);
    assert ids[i] in known;
    forall id | id in known && id !in left + {ids[i]} ensures Seated(socks[i := -1], ids, id) {
      assert Seated(socks, ids, id);
      var j :| 0 <= j < |socks| && socks[j] >= 0 && ids[j] == id;
      assert socks[i := -1][j] >= 0;
    }
  }

  lemma AddedSeats(
      socks: seq<int>, ids: seq<int>, connected: int, count: nat, known: set<int>, left: set<int>, i: nat, fd: int)
    requires |socks| == |ids| && i < |socks| && socks[i] < 0 && fd >= 0 && fd !in socks
    requires Seats(socks, ids, connected, count, known, left)
    ensures Seats(socks[i := fd], ids[i := count + 1], connected + 1, count + 1, known + {count + 1}, left)
  {
    OccupiedUpdate(socks, i, fd);
    var socks', ids' := socks[i := fd], ids[i := count + 1];
    forall id | id in known + {count + 1} && id !in left ensures Seated(socks', ids', id) {
      if id == count + 1 {
        assert socks'[i] >= 0 && ids'[i] == id;
      } else {
        assert Seated(socks, ids, id);
        var j :| 0 <= j < |socks| && socks[j] >= 0 && ids[j] == id;
        assert socks'[j] >= 0 && ids'[j] == id;
      }
    }
  }

  lemma RemovedTable(s: Server, i: nat)
    requires TableOk(s) && i < MAX_CLIENTS && Live(s, i)
    ensures TableOk(Removed(s, i))
  {
    RemovedSeats(s.socks, s.ids, s.connected, s.count, s.joined.Keys, s.left.Keys, i);
    assert Removed(s, i).left.Keys == s.left.Keys + {s.ids[i]};
  }

  lemma RemovedDelivered(s: Server, i: nat, msg: string, upTo: nat)
    requires TableOk(s) && Delivered(s, msg, upTo) && i < MAX_CLIENTS && Live(s, i) && upTo <= i
    ensures TableOk(Removed(s, i)) && Delivered(Removed(s, i), msg, upTo)
  {
    RemovedTable(s, i);
    var r := Removed(s, i);
    assert s.log[s.joined[s.ids[i]]..] + [] == s.log[s.joined[s.ids[i]]..|s.log|];
    forall j | 0 <= j < MAX_CLIENTS && Live(r, j)
      ensures r.joined[r.ids[j]] <= |r.log|
      ensures r.inbox[r.ids[j]] == r.log[r.joined[r.ids[j]]..] + (if j < upTo then [msg] else [])
    {
      assert Live(s, j);
    }
  }

  lemma SentTable(s: Server, i: nat, msg: string)
    requires TableOk(s) && i < MAX_CLIENTS && Live(s, i)
    ensures TableOk(Sent(s, i, msg)) && s.ids[i] in s.inbox
  {
    assert s.ids[i] in s.joined.Keys;
    assert Sent(s, i, msg).inbox.Keys == s.inbox.Keys;
  }

  lemma SentDelivered(s: Server, i: nat, msg: string)
    requires TableOk(s) && Delivered(s, msg, i) && i < MAX_CLIENTS && Live(s, i)
    ensures TableOk(Sent(s, i, msg)) && Delivered(Sent(s, i, msg), msg, i + 1)
  {
    SentTable(s, i, msg);
    var r := Sent(s, i, msg);
    assert s.log[s.joined[s.ids[i]]..] + [] + [msg] == s.log[s.joined[s.ids[i]]..] + [msg];
    forall j | 0 <= j < MAX_CLIENTS && Live(r, j)
      ensures r.joined[r.ids[j]] <= |r.log|
      ensures r.inbox[r.ids[j]] == r.log[r.joined[r.ids[j]]..] + (if j < i + 1 then [msg] else [])
    {
      assert Live(s, j);
      if j != i { assert s.ids[j] != s.ids[i]; }
    }
  }

  /** One slot's part of a broadcast. */
  lemma BroadcastAtDelivers(s: Server, msg: string, fails: Failures, i: nat)
    requires TableOk(s) && Delivered(s, msg, i) && i < MAX_CLIENTS
    ensures var r := BroadcastAt(s, msg, -1, fails, i);
      TableOk(r) && Delivered(r, msg, i + 1) && r.log == s.log && Extends(s, r)
  {
    if Live(s, i) && !fails[i] {
      SentDelivered(s, i, msg);
    } else if Live(s, i) {
      RemovedDelivered(s, i, msg, i);
      assert !Live(Removed(s, i), i);
    }
  }

  /** Nothing issued or said is ever taken back: `r` extends `s`. */
  ghost predicate Extends(s: Server, r: Server) {
    && s.count <= r.count && s.log <= r.log
    && (forall id :: id in s.left ==> id in r.left && r.left[id] == s.left[id])
    && (forall id :: id in s.joined ==> id in r.joined && r.joined[id] == s.joined[id])
  }

  lemma {:induction false} BroadcastDelivers(s: Server, msg: string, fails: Failures, i: nat)
    requires TableOk(s) && Delivered(s, msg, i) && i <= MAX_CLIENTS
    ensures var r := BroadcastFrom(s, msg, -1, fails, i);
      TableOk(r) && Delivered(r, msg, MAX_CLIENTS) && r.log == s.log && Extends(s, r)
    decreases MAX_CLIENTS - i
  {
    if i < MAX_CLIENTS {
      var mid := BroadcastAt(s, msg, -1, fails, i);
      BroadcastAtDelivers(s, msg, fails, i);
      BroadcastDelivers(mid, msg, fails, i + 1);
      ExtendsTwice(s, mid, BroadcastFrom(mid, msg, -1, fails, i + 1));
    }
  }

  lemma LogGrows(s: Server, msg: string)
    requires TableOk(s) && Delivered(s, msg, MAX_CLIENTS)
    ensures Ordered(s.(log := s.log + [msg]))
  {
    var r := s.(log := s.log + [msg]);
    forall j | 0 <= j < MAX_CLIENTS && Live(r, j)
      ensures r.joined[r.ids[j]] <= |r.log| && r.inbox[r.ids[j]] == r.log[r.joined[r.ids[j]]..] + []
    {
      assert Live(s, j);
      LaterLog(s.log, msg, s.joined[s.ids[j]]);
    }
    forall id | id in r.left
      ensures r.joined[id] <= r.left[id] <= |r.log| && r.inbox[id] == r.log[r.joined[id]..r.left[id]]
    {
      assert r.log[r.joined[id]..r.left[id]] == s.log[s.joined[id]..s.left[id]];
    }
  }

  lemma LaterLog(log: seq<string>, msg: string, from: nat)
    requires from <= |log|
    ensures (log + [msg])[from..] + [] == log[from..] + [msg]
  {
  }

  lemma DeliveredToNobodyYet(s: Server, msg: string)
    requires Ordered(s)
    ensures Delivered(s, msg, 0)
  {
  }

  lemma BroadcastOrdered(s: Server, msg: string, fails: Failures)
    requires Ordered(s)
    ensures Ordered(Broadcast(s, msg, fails)) && Broadcast(s, msg, fails).log == s.log + [msg]
  {
    DeliveredToNobodyYet(s, msg);
    BroadcastDelivers(s, msg, fails, 0);
    LogGrows(BroadcastFrom(s, msg, -1, fails, 0), msg);
  }

  lemma AcceptedSeats(s: Server, slot: nat, fd: int)
    requires TableOk(s) && fd >= 0 && fd !in s.socks && slot == FreeSlot(s.socks, 0) < MAX_CLIENTS
    ensures Seats(s.socks[slot := fd], s.ids[slot := s.count + 1], s.connected + 1, s.count + 1,
                  s.joined.Keys + {s.count + 1}, s.left.Keys)
  {
    AddedSeats(s.socks, s.ids, s.connected, s.count, s.joined.Keys, s.left.Keys, slot, fd);
  }

  lemma TableFrom(r: Server, known: set<int>)
    requires Shaped(r) && r.joined.Keys == known && r.inbox.Keys == known
    requires Seats(r.socks, r.ids, r.connected, r.count, known, r.left.Keys)
    ensures TableOk(r)
  {
  }

  lemma AcceptedTable(s: Server, fd: int)
    requires TableOk(s) && (fd >= 0 ==> fd !in s.socks)
    ensures TableOk(Accepted(s, fd))
  {
    var slot := FreeSlot(s.socks, 0);
    if fd >= 0 && slot < MAX_CLIENTS {
      AcceptedKeys(s, slot, fd);
      AcceptedSeats(s, slot, fd);
      TableFrom(Accepted(s, fd), s.joined.Keys + {s.count + 1});
    }
  }

  lemma AcceptedKeys(s: Server, slot: nat, fd: int)
    requires Shaped(s) && fd >= 0 && slot == FreeSlot(s.socks, 0) < MAX_CLIENTS
    ensures var r := Accepted(s, fd);
      && r.socks == s.socks[slot := fd] && r.ids == s.ids[slot := s.count + 1]
      && r.connected == s.connected + 1 && r.count == s.count + 1 && r.left == s.left
      && r.joined.Keys == s.joined.Keys + {s.count + 1} && r.inbox.Keys == s.inbox.Keys + {s.count + 1}
  {
  }

  lemma AcceptedOrdered(s: Server, fd: int)
    requires Ordered(s) && (fd >= 0 ==> fd !in s.socks)
    ensures Ordered(Accepted(s, fd))
  {
    AcceptedTable(s, fd);
    var slot, r := FreeSlot(s.socks, 0), Accepted(s, fd);
    if fd >= 0 && slot < MAX_CLIENTS {
      assert s.count + 1 !in s.joined.Keys && s.count + 1 !in s.left.Keys;
      forall j | 0 <= j < MAX_CLIENTS && Live(r, j)
        ensures r.joined[r.ids[j]] <= |r.log| && r.inbox[r.ids[j]] == r.log[r.joined[r.ids[j]]..] + []
      {
        if j != slot { assert Live(s, j) && s.ids[j] in s.joined.Keys; }
      }
    }
  }

  lemma CheckedAtOrdered(s: Server, broken: Failures, i: nat)
    requires Ordered(s) && i < MAX_CLIENTS
    ensures Ordered(CheckedAt(s, broken, i)) && Extends(s, CheckedAt(s, broken, i))
  {
    if Live(s, i) && broken[i] { RemovedDelivered(s, i, "", 0); }
  }

  lemma {:induction false} CheckedOrdered(s: Server, broken: Failures, i: nat)
    requires Ordered(s) && i <= MAX_CLIENTS
    ensures Ordered(CheckedFrom(s, broken, i)) && Extends(s, CheckedFrom(s, broken, i))
    decreases MAX_CLIENTS - i
  {
    if i < MAX_CLIENTS {
      var mid := CheckedAt(s, broken, i);
      CheckedAtOrdered(s, broken, i);
      CheckedOrdered(mid, broken, i + 1);
      ExtendsTwice(s, mid, CheckedFrom(mid, broken, i + 1));
    }
  }

  lemma HandledOrdered(s: Server, i: nat, o: Outcome)
    requires Ordered(s) && i < MAX_CLIENTS && Live(s, i)
    ensures Ordered(Handled(s, i, o))
  {
    if o.Received? && o.bytes != "" {
      BroadcastOrdered(s, Formatted(s, i, o.bytes), o.fails);
    } else {
      RemovedDelivered(s, i, "", 0);
    }
  }

  lemma ServedAtOrdered(s: Server, ready: set<int>, outcomes: seq<Outcome>, i: nat)
    requires Ordered(s) && |outcomes| == MAX_CLIENTS && i < MAX_CLIENTS
    ensures Ordered(ServedAt(s, ready, outcomes, i)) && Extends(s, ServedAt(s, ready, outcomes, i))
  {
    if s.socks[i] >= 0 && s.socks[i] in ready {
      HandledOrdered(s, i, outcomes[i]);
      HandledExtends(s, i, outcomes[i]);
    }
  }

  lemma {:induction false} ServedOrdered(s: Server, ready: set<int>, outcomes: seq<Outcome>, i: nat)
    requires Ordered(s) && |outcomes| == MAX_CLIENTS && i <= MAX_CLIENTS
    ensures Ordered(ServedFrom(s, ready, outcomes, i)) && Extends(s, ServedFrom(s, ready, outcomes, i))
    decreases MAX_CLIENTS - i
  {
    if i < MAX_CLIENTS {
      var mid := ServedAt(s, ready, outcomes, i);
      ServedAtOrdered(s, ready, outcomes, i);
      ServedOrdered(mid, ready, outcomes, i + 1);
      ExtendsTwice(s, mid, ServedFrom(mid, ready, outcomes, i + 1));
    }
  }

  lemma TurnedOrdered(s: Server, t: Turn)
    requires Ordered(s) && TurnOk(s, t)
    ensures Ordered(Turned(s, t))
  {
    if t.check.Some? { CheckedOrdered(s, t.check.value, 0); }
    if t.selected {
      AcceptedOrdered(AfterCheck(s, t), t.accepted);
      ServedOrdered(Accepted(AfterCheck(s, t), t.accepted), t.ready, t.outcomes, 0);
    }
  }

  lemma {:induction false} RunOrdered(s: Server, ts: seq<Turn>)
    requires Ordered(s) && RunOk(s, ts)
    ensures Ordered(After(s, ts))
    decreases |ts|
  {
    if ts != [] {
      TurnedOrdered(s, ts[0]);
      RunOrdered(Turned(s, ts[0]), ts[1..]);
    }
  }

  // ----- The theorems -----

  lemma {:induction false} NoneOccupied(socks: seq<int>)
    requires forall i :: 0 <= i < |socks| ==> socks[i] < 0
    ensures Occupied(socks) == 0
    decreases |socks|
  {
    if socks != [] { NoneOccupied(socks[..|socks| - 1]); }
  }

  lemma OrderedFromStart(ts: seq<Turn>)
    requires RunOk(Fresh(0), ts)
    ensures Ordered(After(Fresh(0), ts))
  {
    NoneOccupied(Fresh(0).socks);
    assert Ordered(Fresh(0));
    RunOrdered(Fresh(0), ts);
  }

  /** Total-order broadcast, over every run of the server: what a client has been sent since its
      welcome is exactly the stretch of the broadcast log from its acceptance to its removal (or to
      now), so any two clients have seen the same messages in the same order while both were there. */
  lemma TotalOrderBroadcast(ts: seq<Turn>, a: int, b: int, k: nat)
    requires RunOk(Fresh(0), ts)
    requires var s := After(Fresh(0), ts); a in s.joined && b in s.joined
    ensures var s := After(Fresh(0), ts);
      && a in s.inbox && b in s.inbox
      && s.joined[a] <= End(s, a) <= |s.log| && s.inbox[a] == s.log[s.joined[a]..End(s, a)]
      && (s.joined[a] <= k < End(s, a) && s.joined[b] <= k < End(s, b) ==>
            k - s.joined[a] < |s.inbox[a]| && k - s.joined[b] < |s.inbox[b]|
            && s.inbox[a][k - s.joined[a]] == s.inbox[b][k - s.joined[b]] == s.log[k])
  {
    OrderedFromStart(ts);
    ClientSegment(After(Fresh(0), ts), a);
    ClientSegment(After(Fresh(0), ts), b);
  }

  /** Where the part of the log that concerns client `id` ends. */
  function End(s: Server, id: int): nat {
    if id in s.left then s.left[id] else |s.log|
  }

  lemma ClientSegment(s: Server, id: int)
    requires Ordered(s) && id in s.joined
    ensures id in s.inbox && s.joined[id] <= End(s, id) <= |s.log|
    ensures s.inbox[id] == s.log[s.joined[id]..End(s, id)]
  {
    if id !in s.left {
      assert Seated(s.socks, s.ids, id);
      var i :| 0 <= i < MAX_CLIENTS && s.socks[i] >= 0 && s.ids[i] == id;
      assert Live(s, i);
      assert s.log[s.joined[id]..] + [] == s.log[s.joined[id]..|s.log|];
    }
  }

  /** The counter is the number of occupied slots and at most 100; live descriptors and live numbers are
      distinct; exactly the numbers 1 to `count` were ever issued. */
  ghost predicate TableRight(s: Server) {
    && Shaped(s)
    && s.connected == Occupied(s.socks) <= MAX_CLIENTS
    && (forall i, j :: 0 <= i < j < MAX_CLIENTS && Live(s, i) && Live(s, j) ==>
          s.socks[i] != s.socks[j] && s.ids[i] != s.ids[j])
    && (forall id :: id in s.joined <==> 1 <= id <= s.count)
  }

  lemma OrderedMeans(s: Server)
    requires Ordered(s)
    ensures TableRight(s)
  {
    OccupiedBound(s.socks);
  }

  /** The table, over every run. */
  lemma TableInvariant(ts: seq<Turn>)
    requires RunOk(Fresh(0), ts)
    ensures TableRight(After(Fresh(0), ts))
  {
    OrderedFromStart(ts);
    OrderedMeans(After(Fresh(0), ts));
  }

  lemma HandledExtends(s: Server, i: nat, o: Outcome)
    requires Ordered(s) && i < MAX_CLIENTS && Live(s, i)
    ensures Extends(s, Handled(s, i, o))
  {
    if o.Received? && o.bytes != "" {
      DeliveredToNobodyYet(s, Formatted(s, i, o.bytes));
      BroadcastDelivers(s, Formatted(s, i, o.bytes), o.fails, 0);
    }
  }

  lemma AcceptedExtends(s: Server, fd: int)
    requires Ordered(s)
    ensures Extends(s, Accepted(s, fd))
  {
  }

  lemma CheckExtends(s: Server, t: Turn)
    requires Ordered(s)
    ensures Ordered(AfterCheck(s, t)) && Extends(s, AfterCheck(s, t))
  {
    if t.check.Some? { CheckedOrdered(s, t.check.value, 0); }
  }

  lemma TurnedExtends(s: Server, t: Turn)
    requires Ordered(s) && TurnOk(s, t)
    ensures Extends(s, Turned(s, t))
  {
    CheckExtends(s, t);
    if t.selected {
      var checked := AfterCheck(s, t);
      var accepted := Accepted(checked, t.accepted);
      AcceptedOrdered(checked, t.accepted);
      AcceptedExtends(checked, t.accepted);
      ExtendsTwice(s, checked, accepted);
      ServedOrdered(accepted, t.ready, t.outcomes, 0);
      ExtendsTwice(s, accepted, Turned(s, t));
    }
  }

  lemma ExtendsTwice(a: Server, b: Server, c: Server)
    requires Extends(a, b) && Extends(b, c)
    ensures Extends(a, c)
  {
  }

  /** Numbers are issued once, in increasing order, and the log only grows. */
  lemma {:induction false} RunExtends(s: Server, ts: seq<Turn>)
    requires Ordered(s) && RunOk(s, ts)
    ensures Extends(s, After(s, ts))
    decreases |ts|
  {
    if ts != [] {
      TurnedOrdered(s, ts[0]);
      TurnedExtends(s, ts[0]);
      RunExtends(Turned(s, ts[0]), ts[1..]);
      ExtendsTwice(s, Turned(s, ts[0]), After(s, ts));
    }
  }

  // ----- Message texts -----

  function Pow10(k: nat): nat {
    if k == 0 then 1 else 10 * Pow10(k - 1)
  }

  lemma {:induction false} DecLength(n: nat, k: nat)
    requires k >= 1 && n < Pow10(k)
    ensures |Dec(n)| <= k
    decreases k
  {
    if n >= 10 { DecLength(n / 10, k - 1); }
  }

  lemma TenDigits(n: nat)
    requires n < 0x8000_0000
    ensures |Dec(n)| <= 10
  {
    assert Pow10(5) == 100_000;
    assert Pow10(10) == 10_000_000_000;
    DecLength(n, 10);
  }

  lemma {:induction false} CStringLength(s: string)
    ensures |CString(s)| <= |s|
  {
    if s != "" && s[0] != NUL { CStringLength(s[1..]); }
  }

  /** With numbers in the range of a C `int`, no message is cut by the 4096-character buffer, and a
      `\connected` reply carries the true number of occupied slots. */
  lemma MessagesAreWhole(s: Server, i: nat, bytes: string)
    requires Ordered(s) && i < MAX_CLIENTS && Live(s, i)
    requires s.count < 0x8000_0000 && 0 < |bytes| < MAX_MSG_SIZE
    ensures Formatted(s, i, bytes) ==
            "client" + Dec(s.ids[i]) + ": "
            + (if Payload(bytes) == "\\connected" then "There are " + Dec(Occupied(s.socks)) + " clients connected"
               else Payload(bytes)) + "\n"
  {
    OccupiedBound(s.socks);
    TenDigits(s.ids[i]);
    TenDigits(s.connected);
    CStringLength(bytes);
    CStringLength(bytes[..|bytes| - 1]);
  }

  // ----- The event handlers -----

  class ServerState {
    const sockets: array<int>
    const ids: array<int>
    var connected: int
    var count: nat
    ghost var log: seq<string>
    ghost var inbox: map<int, seq<string>>
    ghost var joined: map<int, nat>
    ghost var left: map<int, nat>

    ghost predicate Valid() {
      sockets.Length == MAX_CLIENTS && ids.Length == MAX_CLIENTS && sockets != ids
    }

    ghost function View(): Server
      reads this, sockets, ids
    {
      Server(sockets[..], ids[..], connected, count, log, inbox, joined, left)
    }

    /** A server process starts with `init_client_sockets` and no clients numbered yet. */
    constructor ()
      ensures Valid() && View() == Fresh(0) && fresh(sockets) && fresh(ids)
    {
      sockets, ids := new int[MAX_CLIENTS](_ => -1), new int[MAX_CLIENTS](_ => -1);
      connected, count := 0, 0;
      log, inbox, joined, left := [], map[], map[], map[];
      new;
      assert sockets[..] == Fresh(0).socks && ids[..] == Fresh(0).ids;
    }

    method Remove(i: nat)
      requires Valid() && i < MAX_CLIENTS
      modifies this, sockets
      ensures Valid() && View() == Removed(old(View()), i)
    {
      sockets[i] := -1;
      connected := connected - 1;
      left := left[ids[i] := |log|];
    }

    method BroadcastMessage(message: string, exclude: int, fails: Failures)
      requires Valid()
      modifies this, sockets
      ensures Valid() && View() == BroadcastFrom(old(View()), message, exclude, fails, 0)
    {
      for i := 0 to MAX_CLIENTS
        invariant Valid()
        invariant BroadcastFrom(View(), message, exclude, fails, i)
               == BroadcastFrom(old(View()), message, exclude, fails, 0)
      {
        ghost var v := View();
        if sockets[i] >= 0 && !(exclude != -1 && sockets[i] == exclude) {
          if fails[i] {
            Remove(i);
          } else {
            inbox := inbox[ids[i] := (if ids[i] in inbox then inbox[ids[i]] else []) + [message]];
          }
        }
        assert View() == BroadcastAt(v, message, exclude, fails, i);
      }
    }

    method FindSlot() returns (slot: int)
      requires Valid()
      ensures var f := FreeSlot(sockets[..], 0); slot == if f == MAX_CLIENTS then -1 else f
    {
      for i := 0 to MAX_CLIENTS
        invariant FreeSlot(sockets[..], i) == FreeSlot(sockets[..], 0)
      {
        if sockets[i] < 0 {
          return i;
        }
      }
      slot := -1;
    }

    /** `handle_new_connection`: a connection for which there is no slot is closed at once. */
    method HandleNewConnection(fd: int) returns (welcome: Option<string>)
      requires Valid()
      modifies this, sockets, ids
      ensures Valid() && View() == Accepted(old(View()), fd)
      ensures welcome == if count == old(count) then None
                         else Some("Welcome! You are client" + Dec(old(count) + 1) + "\n")
    {
      welcome := None;
      if fd >= 0 {
        var slot := FindSlot();
        if slot >= 0 {
          count := count + 1;
          sockets[slot] := fd;
          ids[slot] := count;
          connected := connected + 1;
          joined, inbox := joined[count := |log|], inbox[count := []];
          welcome := Some("Welcome! You are client" + Dec(count) + "\n");
        }
      }
    }

    method HandleClientData(i: nat, outcome: Outcome)
      requires Valid() && i < MAX_CLIENTS
      modifies this, sockets
      ensures Valid() && View() == Handled(old(View()), i, outcome)
    {
      if !outcome.Received? || outcome.bytes == "" {
        Remove(i);
        return;
      }
      var payload := Payload(outcome.bytes);
      var client := "client" + DecInt(ids[i]) + ": ";
      var text: string;
      if payload == "\\connected" {
        text := Cut(BUFFER_SIZE - 1, client + "There are " + DecInt(connected) + " clients connected\n");
      } else {
        text := Cut(BUFFER_SIZE - 1, client + payload + "\n");
      }
      BroadcastMessage(text, -1, outcome.fails);
      log := log + [text];
    }

    method PeriodicCheck(broken: Failures)
      requires Valid()
      modifies this, sockets
      ensures Valid() && View() == CheckedFrom(old(View()), broken, 0)
    {
      for i := 0 to MAX_CLIENTS
        invariant Valid() && CheckedFrom(View(), broken, i) == CheckedFrom(old(View()), broken, 0)
      {
        ghost var v := View();
        if sockets[i] >= 0 && broken[i] {
          Remove(i);
        }
        assert View() == CheckedAt(v, broken, i);
      }
    }

    /** One turn of the loop of `run_server`. */
    method RunTurn(t: Turn)
      requires Valid() && |t.outcomes| == MAX_CLIENTS
      modifies this, sockets, ids
      ensures Valid() && View() == Turned(old(View()), t)
    {
      if t.check.Some? {
        PeriodicCheck(t.check.value);
      }
      if t.selected {
        var welcome := HandleNewConnection(t.accepted);
        Serve(t.ready, t.outcomes);
      }
    }

    method Serve(ready: set<int>, outcomes: seq<Outcome>)
      requires Valid() && |outcomes| == MAX_CLIENTS
      modifies this, sockets
      ensures Valid() && View() == ServedFrom(old(View()), ready, outcomes, 0)
    {
      for i := 0 to MAX_CLIENTS
        invariant Valid() && ServedFrom(View(), ready, outcomes, i) == ServedFrom(old(View()), ready, outcomes, 0)
      {
        ServeSlot(i, ready, outcomes);
      }
    }

    method ServeSlot(i: nat, ready: set<int>, outcomes: seq<Outcome>)
      requires Valid() && |outcomes| == MAX_CLIENTS && i < MAX_CLIENTS
      modifies this, sockets
      ensures Valid() && View() == ServedAt(old(View()), ready, outcomes, i)
    {
      if sockets[i] >= 0 && sockets[i] in ready {
        HandleClientData(i, outcomes[i]);
      }
    }
  }
}
