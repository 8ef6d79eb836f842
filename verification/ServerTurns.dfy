/** Turns of the chat server, told slot by slot: who stays, who is told what, what goes into the log. */
module ServerTurns {
  import opened CStrings
  import opened Options
  import opened ChatServer

  // ----- Broadcasts -----

  /** Slot `k` after a broadcast: an occupied one is freed exactly if sending to it fails; an excluded
      client is not sent anything. */
  function SockAfter(s: Server, exclude: int, fails: Failures, k: nat): int
    requires Shaped(s) && k < 100
  {
    if s.socks[k] >= 0 && (exclude == -1 || s.socks[k] != exclude) && fails[k] then -1 else s.socks[k]
  }

  /** A broadcast does to the slots from `i` on what it should, and to the others nothing. */
  lemma {:induction false} BroadcastSlots(s: Server, msg: string, exclude: int, fails: Failures, i: nat)
    requires Shaped(s) && i <= 100
    ensures var r := BroadcastFrom(s, msg, exclude, fails, i);
      && (forall k :: 0 <= k < 100 ==> r.socks[k] == if k < i then s.socks[k] else SockAfter(s, exclude, fails, k))
      && r.ids == s.ids && r.count == s.count && r.log == s.log && r.joined == s.joined
    decreases 100 - i
  {
    if i < 100 {
      BroadcastSlots(BroadcastAt(s, msg, exclude, fails, i), msg, exclude, fails, i + 1);
    }
  }

  /** A client that leaves in a broadcast leaves at the length the log had before. */
  lemma {:induction false} BroadcastLeavers(s: Server, msg: string, fails: Failures, i: nat)
    requires Shaped(s) && i <= 100
    ensures var r := BroadcastFrom(s, msg, -1, fails, i);
      && (forall id :: id in r.left ==> r.left[id] == |s.log| || (id in s.left && r.left[id] == s.left[id]))
      && (forall k :: i <= k < 100 && s.socks[k] >= 0 && fails[k] ==> s.ids[k] in r.left)
    decreases 100 - i
  {
    if i < 100 {
      var mid := BroadcastAt(s, msg, -1, fails, i);
      BroadcastLeavers(mid, msg, fails, i + 1);
      var r := BroadcastFrom(mid, msg, -1, fails, i + 1);
      assert BroadcastFrom(s, msg, -1, fails, i) == r;
      LeaversAt(s, msg, fails, i);
      forall id | id in r.left ensures r.left[id] == |s.log| || (id in s.left && r.left[id] == s.left[id]) {
        assert r.left[id] == |mid.log| || (id in mid.left && r.left[id] == mid.left[id]);
      }
      forall k | i <= k < 100 && s.socks[k] >= 0 && fails[k] ensures s.ids[k] in r.left {
        if k == i {
          BroadcastLeaversStay(mid, msg, fails, i + 1, s.ids[i]);
        } else {
          assert mid.socks[k] >= 0 && fails[k];
          assert mid.ids[k] in r.left;
        }
      }
    }
  }

  lemma LeaversAt(s: Server, msg: string, fails: Failures, i: nat)
    requires Shaped(s) && i < 100
    ensures var mid := BroadcastAt(s, msg, -1, fails, i);
      && mid.ids == s.ids && mid.log == s.log
      && (forall k :: i < k < 100 ==> mid.socks[k] == s.socks[k])
      && mid.left == if s.socks[i] >= 0 && fails[i] then s.left[s.ids[i] := |s.log|] else s.left
  {
  }

  lemma {:induction false} BroadcastLeaversStay(s: Server, msg: string, fails: Failures, i: nat, id: int)
    requires Shaped(s) && i <= 100 && id in s.left
    ensures id in BroadcastFrom(s, msg, -1, fails, i).left
    decreases 100 - i
  {
    if i < 100 {
      LeaversAt(s, msg, fails, i);
      BroadcastLeaversStay(BroadcastAt(s, msg, -1, fails, i), msg, fails, i + 1, id);
    }
  }

  /** One broadcast: exactly the clients to which sending fails are removed; the others have the message
      behind what they had, those removed have not; the log has it. */
  ghost predicate BroadcastDone(s: Server, msg: string, fails: Failures, r: Server)
    requires Shaped(s)
  {
    && Ordered(r) && r.ids == s.ids && r.count == s.count && r.log == s.log + [msg] && r.joined == s.joined
    && (forall k :: 0 <= k < 100 ==> r.socks[k] == if s.socks[k] >= 0 && fails[k] then -1 else s.socks[k])
    && (forall k :: 0 <= k < 100 && s.socks[k] >= 0 ==>
          && s.ids[k] in s.inbox && s.ids[k] in r.inbox
          && r.inbox[s.ids[k]] == if fails[k] then s.inbox[s.ids[k]] else s.inbox[s.ids[k]] + [msg])
  }

  lemma BroadcastExactly(s: Server, msg: string, fails: Failures)
    requires Ordered(s)
    ensures BroadcastDone(s, msg, fails, Broadcast(s, msg, fails))
  {
    var r := Broadcast(s, msg, fails);
    BroadcastOrdered(s, msg, fails);
    BroadcastSlots(s, msg, -1, fails, 0);
    forall k | 0 <= k < 100 && s.socks[k] >= 0
      ensures s.ids[k] in s.inbox && s.ids[k] in r.inbox
      ensures r.inbox[s.ids[k]] == if fails[k] then s.inbox[s.ids[k]] else s.inbox[s.ids[k]] + [msg]
    {
      BroadcastInbox(s, msg, fails, k);
    }
  }

  lemma BroadcastInbox(s: Server, msg: string, fails: Failures, k: nat)
    requires Ordered(s) && k < 100 && s.socks[k] >= 0
    ensures var r := Broadcast(s, msg, fails);
      && s.ids[k] in s.inbox && s.ids[k] in r.inbox
      && r.inbox[s.ids[k]] == if fails[k] then s.inbox[s.ids[k]] else s.inbox[s.ids[k]] + [msg]
  {
    var r, id := Broadcast(s, msg, fails), s.ids[k];
    BroadcastOrdered(s, msg, fails);
    BroadcastSlots(s, msg, -1, fails, 0);
    BroadcastLeavers(s, msg, fails, 0);
    assert id in s.joined.Keys && id !in s.left.Keys && Live(s, k);
    LiveSegment(s, k);
    ClientSegment(r, id);
    if fails[k] {
      assert r.left[id] == |s.log|;
      assert r.log[s.joined[id]..|s.log|] == s.log[s.joined[id]..];
    } else {
      assert Live(r, k);
      LiveSegment(r, k);
      LaterLog(s.log, msg, s.joined[id]);
    }
  }

  lemma LiveSegment(s: Server, k: nat)
    requires Ordered(s) && k < 100 && s.socks[k] >= 0
    ensures s.ids[k] in s.inbox && s.ids[k] in s.joined && s.joined[s.ids[k]] <= |s.log|
    ensures s.inbox[s.ids[k]] == s.log[s.joined[s.ids[k]]..]
  {
    assert Live(s, k) && s.ids[k] in s.joined.Keys;
    var rest := s.log[s.joined[s.ids[k]]..];
    assert rest + [] == rest;
  }

  // ----- The parts of a turn -----

  /** The periodic check frees exactly the occupied slots whose sockets are broken, and does nothing
      else. */
  lemma {:induction false} CheckExactly(s: Server, broken: Failures, i: nat)
    requires Shaped(s) && i <= 100
    ensures var r := CheckedFrom(s, broken, i);
      && (forall k :: 0 <= k < 100 ==>
            r.socks[k] == if k >= i && s.socks[k] >= 0 && broken[k] then -1 else s.socks[k])
      && r.ids == s.ids && r.count == s.count && r.log == s.log && r.inbox == s.inbox && r.joined == s.joined
    decreases 100 - i
  {
    if i < 100 { CheckExactly(CheckedAt(s, broken, i), broken, i + 1); }
  }

  /** A connection takes the first free slot, if there is one, and the next number, with nothing sent to it
      yet; otherwise nothing happens. */
  lemma AcceptExactly(s: Server, fd: int)
    requires Shaped(s)
    ensures var r := Accepted(s, fd);
      if fd < 0 || (forall k :: 0 <= k < 100 ==> s.socks[k] >= 0) then r == s
      else exists slot ::
        && 0 <= slot < 100 && s.socks[slot] < 0 && (forall k :: 0 <= k < slot ==> s.socks[k] >= 0)
        && r.socks == s.socks[slot := fd] && r.ids == s.ids[slot := s.count + 1]
        && r.count == s.count + 1 && r.connected == s.connected + 1
        && r.log == s.log && r.left == s.left
        && r.joined == s.joined[s.count + 1 := |s.log|] && r.inbox == s.inbox[s.count + 1 := []]
  {
    var slot := FreeSlot(s.socks, 0);
    if !(fd < 0 || (forall k :: 0 <= k < 100 ==> s.socks[k] >= 0)) {
      assert 0 <= slot < 100 && s.socks[slot] < 0;
    }
  }

  // ----- What a client's bytes come to -----

  /** What was read is `text`, with or without a newline behind it; a NUL ends it, too. */
  predicate Says(bytes: string, text: string) {
    && 0 < |bytes| < 4076 && text <= bytes && (forall c :: c in text ==> c != '\0')
    && var rest := bytes[|text|..];
       || rest == "\n"
       || (rest == "" && text[|text| - 1] != '\n')
       || (rest != "" && rest[0] == '\0')
  }

  lemma SaysPayload(bytes: string, text: string)
    requires Says(bytes, text)
    ensures Payload(bytes) == text
  {
    var rest := bytes[|text|..];
    assert bytes == text + rest;
    if rest == "\n" {
      assert bytes[..|bytes| - 1] == text && text + "" == text;
      CStringEnds(text, "");
    } else if rest == "" {
      assert text + "" == text;
      CStringEnds(text, "");
    } else {
      CStringEnds(text, rest);
      if bytes[|bytes| - 1] == '\n' {
        assert bytes[..|bytes| - 1] == text + rest[..|rest| - 1] && rest[..|rest| - 1][0] == '\0';
        CStringEnds(text, rest[..|rest| - 1]);
      }
    }
  }

  /** Whatever was read says something. */
  lemma EverythingSays(bytes: string)
    requires 0 < |bytes| < 4076
    ensures exists text :: Says(bytes, text)
  {
    var body := if bytes[|bytes| - 1] == '\n' then bytes[..|bytes| - 1] else bytes;
    CStringPrefix(body);
    var text := CString(body);
    assert bytes[..|text|] == body[..|text|] == text;
    if |text| < |body| { assert bytes[|text|..][0] == body[|text|]; }
    assert Says(bytes, text);
  }

  /** What goes to the clients when number `id` says `text`: the text, or the number of clients. */
  function Said(id: int, text: string, clients: nat): string {
    "client" + (if id >= 0 then Dec(id) else "") + ": "
    + (if text == "\\connected" then "There are " + Dec(clients) + " clients connected" else text) + "\n"
  }

  lemma SaidFits(s: Server, i: nat, bytes: string, text: string)
    requires Ordered(s) && i < 100 && s.socks[i] >= 0 && s.count < 0x8000_0000 && Says(bytes, text)
    ensures Formatted(s, i, bytes) == Said(s.ids[i], text, Occupied(s.socks))
  {
    assert Live(s, i) && s.ids[i] >= 1;
    SaysPayload(bytes, text);
    MessagesAreWhole(s, i, bytes);
  }

  // ----- One slot -----

  /** The state in which a turn comes to slot `i`. */
  function StateAt(s: Server, t: Turn, i: nat): (r: Server)
    requires Shaped(s) && |t.outcomes| == 100 && i <= 100
    ensures Shaped(r)
  {
    if i == 0 then Accepted(AfterCheck(s, t), t.accepted)
    else ServedAt(StateAt(s, t, i - 1), t.ready, t.outcomes, i - 1)
  }

  /** The slots are served one after the other, to the last. */
  lemma {:induction false} ServedAfter(s: Server, t: Turn, i: nat)
    requires Shaped(s) && |t.outcomes| == 100 && i <= 100 && t.selected
    ensures ServedFrom(StateAt(s, t, i), t.ready, t.outcomes, i) == Turned(s, t)
    decreases i
  {
    if i > 0 { ServedAfter(s, t, i - 1); }
  }

  lemma StartOrdered(s: Server, t: Turn)
    requires Ordered(s) && TurnOk(s, t)
    ensures Ordered(StateAt(s, t, 0))
  {
    CheckExtends(s, t);
    AcceptedOrdered(AfterCheck(s, t), t.accepted);
  }

  lemma {:induction false} StateAtOrdered(s: Server, t: Turn, i: nat)
    requires Ordered(s) && TurnOk(s, t) && i <= 100
    ensures Ordered(StateAt(s, t, i))
    decreases i
  {
    if i == 0 {
      StartOrdered(s, t);
    } else {
      StateAtOrdered(s, t, i - 1);
      ServedAtOrdered(StateAt(s, t, i - 1), t.ready, t.outcomes, i - 1);
    }
  }

  /** Slot `i` is freed, and nothing is said. */
  ghost predicate Freed(a: Server, i: nat, b: Server)
    requires Shaped(a) && i < 100
  {
    && b.socks == a.socks[i := -1] && b.connected == a.connected - 1
    && b.ids == a.ids && b.count == a.count && b.log == a.log && b.inbox == a.inbox && b.joined == a.joined
  }

  /** Over a whole turn, slot by slot: who is not there or not ready does nothing... */
  lemma QuietSlot(s: Server, t: Turn, i: nat)
    requires Shaped(s) && |t.outcomes| == 100 && i < 100
    requires var a := StateAt(s, t, i); a.socks[i] < 0 || a.socks[i] !in t.ready
    ensures StateAt(s, t, i + 1) == StateAt(s, t, i)
  {
  }

  /** ...a socket that is unusable or closed, or from which nothing can be read, is dropped... */
  lemma LeavingSlot(s: Server, t: Turn, i: nat)
    requires Shaped(s) && |t.outcomes| == 100 && i < 100
    requires var a := StateAt(s, t, i); a.socks[i] >= 0 && a.socks[i] in t.ready
    requires var o := t.outcomes[i]; o == Unusable || o == Closed || (o.Received? && o.bytes == "")
    ensures Freed(StateAt(s, t, i), i, StateAt(s, t, i + 1))
  {
  }

  /** ...and who sends a text, with or without a newline behind it, has it broadcast under its number. */
  lemma SpeakingSlot(s: Server, t: Turn, i: nat, text: string)
    requires Ordered(s) && TurnOk(s, t) && i < 100
    requires var a := StateAt(s, t, i); a.socks[i] >= 0 && a.socks[i] in t.ready && a.count < 0x8000_0000
    requires t.outcomes[i].Received? && Says(t.outcomes[i].bytes, text)
    ensures var a, b := StateAt(s, t, i), StateAt(s, t, i + 1);
      BroadcastDone(a, Said(a.ids[i], text, Occupied(a.socks)), t.outcomes[i].fails, b)
  {
    var a, o := StateAt(s, t, i), t.outcomes[i];
    StateAtOrdered(s, t, i);
    SaidFits(a, i, o.bytes, text);
    BroadcastExactly(a, Formatted(a, i, o.bytes), o.fails);
    SpokenNext(s, t, i);
  }

  lemma SpokenNext(s: Server, t: Turn, i: nat)
    requires Shaped(s) && |t.outcomes| == 100 && i < 100
    requires var a := StateAt(s, t, i); a.socks[i] >= 0 && a.socks[i] in t.ready
    requires t.outcomes[i].Received? && t.outcomes[i].bytes != ""
    ensures var a, o := StateAt(s, t, i), t.outcomes[i];
      StateAt(s, t, i + 1) == Broadcast(a, Formatted(a, i, o.bytes), o.fails)
  {
  }

  // ----- A whole turn -----

  /** Before the slots: check and accept; after the last one the turn is over. */
  lemma TurnBegins(s: Server, t: Turn)
    requires Shaped(s) && |t.outcomes| == 100
    ensures StateAt(s, t, 0) ==
      Accepted(if t.check == None then s else CheckedFrom(s, t.check.value, 0), t.accepted)
    ensures Turned(s, t) ==
      if t.selected then StateAt(s, t, 100) else if t.check == None then s else CheckedFrom(s, t.check.value, 0)
  {
    if t.selected { ServedAfter(s, t, 100); }
  }

  lemma {:induction false} QuietSlots(s: Server, t: Turn, from: nat, i: nat)
    requires Shaped(s) && |t.outcomes| == 100 && from <= i <= 100
    requires forall k :: from <= k < i ==>
      var a := StateAt(s, t, from); a.socks[k] < 0 || a.socks[k] !in t.ready
    ensures StateAt(s, t, i) == StateAt(s, t, from)
    decreases i - from
  {
    if i > from {
      QuietSlots(s, t, from, i - 1);
      QuietSlot(s, t, i - 1);
    }
  }

  /** A turn in which one client speaks and nothing else happens: it is one broadcast. */
  lemma OneSpeaks(s: Server, t: Turn, i: nat, text: string)
    requires Ordered(s) && TurnOk(s, t) && i < 100 && s.socks[i] >= 0 && s.count < 0x8000_0000
    requires t.selected && t.check == None && t.accepted < 0 && t.ready == {s.socks[i]}
    requires t.outcomes[i].Received? && Says(t.outcomes[i].bytes, text)
    ensures BroadcastDone(s, Said(s.ids[i], text, Occupied(s.socks)), t.outcomes[i].fails, Turned(s, t))
  {
    TurnBegins(s, t);
    forall k | 0 <= k < 100 && k != i ensures s.socks[k] < 0 || s.socks[k] !in t.ready {
      if s.socks[k] >= 0 { assert Live(s, k) && Live(s, i); }
    }
    assert StateAt(s, t, 0) == s;
    QuietSlots(s, t, 0, i);
    SpeakingSlot(s, t, i, text);
    var b := StateAt(s, t, i + 1);
    forall k | i + 1 <= k < 100 ensures b.socks[k] < 0 || b.socks[k] !in t.ready {
      assert s.socks[k] < 0 || s.socks[k] !in t.ready;
    }
    QuietSlots(s, t, i + 1, 100);
  }

  /** And one in which nothing happens changes nothing. */
  lemma NothingHappens(s: Server, t: Turn)
    requires Shaped(s) && |t.outcomes| == 100
    requires t.check == None && t.accepted < 0 && t.ready == {}
    ensures Turned(s, t) == s
  {
    TurnBegins(s, t);
    assert StateAt(s, t, 0) == s;
    QuietSlots(s, t, 0, 100);
  }
}
