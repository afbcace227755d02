/** What every run of the socket slots keeps. */
module SocketTheorems {
  import opened Bytes
  import opened Sockets

  // Slot shapes.

  /** Every connection that ended really closed its socket. */
  ghost predicate AllClosed(moves: seq<Move>) {
    forall m | m in moves :: m.Cut? ==> m.closed
  }

  lemma ClosedOne(m: Move)
    ensures AllClosed([m]) <==> (m.Cut? ==> m.closed)
  {
    assert m in [m];
  }

  lemma ClosedConcat(a: seq<Move>, b: seq<Move>)
    ensures AllClosed(a + b) <==> AllClosed(a) && AllClosed(b)
  {
    assert forall m :: m in a + b <==> m in a || m in b;
  }

  /** Replacing one slot keeps the shapes exactly when the new slot has one. */
  lemma ReplaceShape(st: State, idx: nat, s: Slot)
    requires st.Strict() && idx < MAX_CLIENTS && s.Valid()
    ensures st.(info := st.info[idx := s]).Strict() <==> !s.Stuck()
  {
    var st' := st.(info := st.info[idx := s]);
    assert st'.info[idx] == s;
  }

  lemma {:induction false} WriteShape(st: State, idx: nat, data: seq<byte>)
    requires st.Strict() && idx <= MAX_CLIENTS
    ensures var o := WriteFrom(st, idx, data); o.st.Strict() && AllClosed(o.moves)
    decreases MAX_CLIENTS - idx
  {
    if idx < MAX_CLIENTS {
      var s := st.info[idx];
      if ToServe(s) && |s.tx| + |data| < BUFF_LEN {
        WriteShape(st.(info := st.info[idx := s.(tx := s.tx + data)]), idx + 1, data);
      } else {
        WriteShape(st, idx + 1, data);
      }
    }
  }

  lemma {:induction false} PollShape(st: State, idx: nat, p: Pass)
    requires st.Strict() && p.Valid() && idx <= MAX_CLIENTS
    ensures var o := PollFrom(st, idx, p); o.st.Strict() <==> AllClosed(o.moves)
    decreases MAX_CLIENTS - idx
  {
    if idx < MAX_CLIENTS {
      var s := st.info[idx];
      if ToPoll(s, p.ready[idx]) {
        var (s', res, cut) := CheckConnection(s, p.polls[idx]);
        var moves := if cut then [Ended(idx, s, p.polls[idx].closeWorks)] else [];
        ClosedOne(Ended(idx, s, p.polls[idx].closeWorks));
        ReplaceShape(st, idx, s');
        if res == OK {
          var st' := st.(info := st.info[idx := s']);
          PollShape(st', idx + 1, p);
          ClosedConcat(moves, PollFrom(st', idx + 1, p).moves);
        }
      } else {
        PollShape(st, idx + 1, p);
      }
    }
  }

  lemma {:induction false} ServeShape(st: State, idx: nat, p: Pass)
    requires st.Strict() && p.Valid() && idx <= MAX_CLIENTS
    ensures var o := ServeFrom(st, idx, p); o.st.Strict() <==> AllClosed(o.moves)
    decreases MAX_CLIENTS - idx
  {
    if idx < MAX_CLIENTS {
      var s := st.info[idx];
      if ToServe(s) {
        ClientShape(s, idx, p.activity[idx]);
        var (s', res, moves) := CheckClient(s, idx, p.activity[idx]);
        hide CheckClient;
        ReplaceShape(st, idx, s');
        if res == OK {
          var st' := st.(info := st.info[idx := s']);
          ServeShape(st', idx + 1, p);
          ClosedConcat(moves, ServeFrom(st', idx + 1, p).moves);
        }
      } else {
        ServeShape(st, idx + 1, p);
      }
    }
  }

  lemma ClientShape(s: Slot, id: nat, a: Activity)
    requires s.Valid() && s.Connected() && a.Valid()
    ensures var (s', res, moves) := CheckClient(s, id, a);
            (s'.Stuck() <==> !AllClosed(moves)) && (res == OK ==> !s'.Stuck())
  {
    ClosedOne(Ended(id, s, a.closeWorks));
    ClosedConcat([Received(id, a.chunk)], [Ended(id, s, a.closeWorks)]);
  }

  lemma {:induction false} ResetShape(st: State, idx: nat, closeWorks: seq<bool>)
    requires st.Strict() && |closeWorks| == MAX_CLIENTS && idx <= MAX_CLIENTS
    ensures var o := ResetFrom(st, idx, closeWorks); o.st.Strict() && AllClosed(o.moves)
    decreases MAX_CLIENTS - idx
  {
    if idx < MAX_CLIENTS {
      if st.info[idx].Open() && closeWorks[idx] {
        ResetShape(st.(info := st.info[idx := FREE]), idx + 1, closeWorks);
      } else {
        ResetShape(st, idx + 1, closeWorks);
      }
    }
  }

  /** From slots that are each exactly one of free, connecting and connected, a step keeps them so if and only if no
      socket that the step had to close stayed open. */
  lemma StepShape(st: State, e: Event)
    requires st.Strict() && e.Valid()
    ensures var o := Step(st, e); o.st.Strict() <==> AllClosed(o.moves)
  {
    match e
    case RunnerPass(pass) =>
      RunnerShape(st, pass);
    case SessionReset(closes) =>
      ResetShape(st, 0, closes);
    case WriteToAllRequest(data, answered) =>
      WriteShape(st, 0, data);
    case CloseRequest(id, closeWorks, _) =>
      if id < MAX_CLIENTS {
        CloseAtShape(st, id, closeWorks);
      }
    case ConnectRequest(connecting) =>
      ConnectShape(st, connecting);
    case _ =>
  }

  lemma CloseAtShape(st: State, id: nat, closeWorks: bool)
    requires st.Strict() && id < MAX_CLIENTS
    ensures var o := CloseAt(st, id, closeWorks); o.st.Strict() <==> AllClosed(o.moves)
  {
    ClosedOne(Ended(id, st.info[id], closeWorks));
    ReplaceShape(st, id, CloseClient(st.info[id], closeWorks).0);
  }

  /** The socket that connect opened has no flag yet when the cleanup drops it. */
  lemma ConnectShape(st: State, c: Connecting)
    requires st.Strict()
    ensures var o := Connect(st, c); o.st.Strict() <==> AllClosed(o.moves)
  {
    var (tried, res) := TryConnect(st, c);
    ClosedOne(Ended(tried.nextId, tried.info[tried.nextId], c.closeWorks));
    if tried.Strict() {
      CloseAtShape(tried, tried.nextId, c.closeWorks);
    } else {
      assert tried.nextId == st.nextId && tried.info == st.info[st.nextId := tried.info[st.nextId]];
      var s := CloseClient(tried.info[st.nextId], c.closeWorks).0;
      assert tried.info[st.nextId := s] == st.info[st.nextId := s];
      ReplaceShape(st, st.nextId, s);
    }
  }

  lemma RunnerShape(st: State, p: Pass)
    requires st.Strict() && p.Valid()
    ensures var o := Runner(st, p); o.st.Strict() <==> AllClosed(o.moves)
  {
    PollShape(st, 0, p);
    var first := Poll(st, p);
    if first.st.Strict() {
      ServeShape(first.st, 0, p);
      ClosedConcat(first.moves, Serve(first.st, p).moves);
    } else {
      PollStops(st, 0, p);
    }
  }

  /** A pass that leaves a socket behind reports an error, so it ends there. */
  lemma {:induction false} PollStops(st: State, idx: nat, p: Pass)
    requires st.Strict() && p.Valid() && idx <= MAX_CLIENTS
    ensures var o := PollFrom(st, idx, p); o.res == OK ==> o.st.Strict()
    decreases MAX_CLIENTS - idx
  {
    if idx < MAX_CLIENTS {
      var s := st.info[idx];
      if ToPoll(s, p.ready[idx]) {
        var (s', res, _) := CheckConnection(s, p.polls[idx]);
        if res == OK {
          PollStops(st.(info := st.info[idx := s']), idx + 1, p);
        }
      } else {
        PollStops(st, idx + 1, p);
      }
    }
  }

  /** A run in which every socket that had to be closed was closed keeps every slot exactly one of free, connecting
      and connected, with a free slot empty and the lengths in their bounds. */
  lemma {:induction false} RunClosedShape(st: State, events: seq<Event>)
    requires st.Strict() && forall k :: 0 <= k < |events| ==> events[k].Valid()
    requires AllClosed(Run(st, events).1)
    ensures Run(st, events).0.Strict()
    decreases |events|
  {
    if events != [] {
      var first := Step(st, events[0]);
      var rest := Run(first.st, events[1..]);
      ClosedConcat(first.moves, rest.1);
      StepShape(st, events[0]);
      RunClosedShape(first.st, events[1..]);
    }
  }

  // The same from what is known before a step: the results of `close` in its event.

  /** No `close` of a client in this event fails. A reset may: it then stops and leaves that client as it was. */
  ghost predicate NoRefusal(e: Event)
    requires e.Valid()
  {
    match e
    case ConnectRequest(connecting) => connecting.closeWorks
    case CloseRequest(_, closeWorks, _) => closeWorks
    case RunnerPass(pass) =>
      forall k :: 0 <= k < |pass.polls| ==> pass.polls[k].closeWorks && pass.activity[k].closeWorks
    case _ => true
  }

  lemma {:induction false} PollCloses(st: State, idx: nat, p: Pass)
    requires st.Valid() && p.Valid() && idx <= MAX_CLIENTS && NoRefusal(RunnerPass(p))
    ensures AllClosed(PollFrom(st, idx, p).moves)
    decreases MAX_CLIENTS - idx
  {
    if idx < MAX_CLIENTS {
      var s := st.info[idx];
      if ToPoll(s, p.ready[idx]) {
        var (s', res, _) := CheckConnection(s, p.polls[idx]);
        ClosedOne(Ended(idx, s, p.polls[idx].closeWorks));
        if res == OK {
          PollCloses(st.(info := st.info[idx := s']), idx + 1, p);
        }
      } else {
        PollCloses(st, idx + 1, p);
      }
    }
  }

  lemma ClientCloses(s: Slot, id: nat, a: Activity)
    requires s.Valid() && s.Connected() && a.Valid() && a.closeWorks
    ensures AllClosed(CheckClient(s, id, a).2)
  {
    ClosedOne(Ended(id, s, a.closeWorks));
    if !a.err && a.readable && a.recvFails >= 0 && |s.rx| + |a.chunk| <= BUFF_LEN {
      ClosedConcat([Received(id, a.chunk)], SendSome(s.(rx := s.rx + a.chunk), id, a).2);
    }
  }

  lemma {:induction false} ServeCloses(st: State, idx: nat, p: Pass)
    requires st.Valid() && p.Valid() && idx <= MAX_CLIENTS && NoRefusal(RunnerPass(p))
    ensures AllClosed(ServeFrom(st, idx, p).moves)
    decreases MAX_CLIENTS - idx
  {
    if idx < MAX_CLIENTS {
      var s := st.info[idx];
      if ToServe(s) {
        ClientCloses(s, idx, p.activity[idx]);
        var (s', res, moves) := CheckClient(s, idx, p.activity[idx]);
        hide CheckClient;
        if res == OK {
          var st' := st.(info := st.info[idx := s']);
          ServeCloses(st', idx + 1, p);
          ClosedConcat(moves, ServeFrom(st', idx + 1, p).moves);
        }
      } else {
        ServeCloses(st, idx + 1, p);
      }
    }
  }

  lemma {:induction false} WriteCloses(st: State, idx: nat, data: seq<byte>)
    requires st.Valid() && idx <= MAX_CLIENTS
    ensures AllClosed(WriteFrom(st, idx, data).moves)
    decreases MAX_CLIENTS - idx
  {
    if idx < MAX_CLIENTS {
      var s := st.info[idx];
      if ToServe(s) && |s.tx| + |data| < BUFF_LEN {
        WriteCloses(st.(info := st.info[idx := s.(tx := s.tx + data)]), idx + 1, data);
      } else {
        WriteCloses(st, idx + 1, data);
      }
    }
  }

  lemma {:induction false} ResetCloses(st: State, idx: nat, closeWorks: seq<bool>)
    requires st.Valid() && |closeWorks| == MAX_CLIENTS && idx <= MAX_CLIENTS
    ensures AllClosed(ResetFrom(st, idx, closeWorks).moves)
    decreases MAX_CLIENTS - idx
  {
    if idx < MAX_CLIENTS {
      if st.info[idx].Open() && closeWorks[idx] {
        ResetCloses(st.(info := st.info[idx := FREE]), idx + 1, closeWorks);
      } else {
        ResetCloses(st, idx + 1, closeWorks);
      }
    }
  }

  /** When no `close` in an event fails, every client it drops has its socket closed. */
  lemma StepCloses(st: State, e: Event)
    requires st.Valid() && e.Valid() && NoRefusal(e)
    ensures AllClosed(Step(st, e).moves)
  {
    match e
    case RunnerPass(pass) =>
      PollCloses(st, 0, pass);
      var first := Poll(st, pass);
      ServeCloses(first.st, 0, pass);
      ClosedConcat(first.moves, Serve(first.st, pass).moves);
    case SessionReset(closes) => ResetCloses(st, 0, closes);
    case WriteToAllRequest(data, _) => WriteCloses(st, 0, data);
    case CloseRequest(id, closeWorks, _) =>
    case ConnectRequest(connecting) =>
    case _ =>
  }

  /** Over every run in which no `close` fails, every slot stays exactly one of free, connecting and connected, with a
      free slot empty and the lengths in their bounds. */
  lemma {:induction false} RunShape(st: State, events: seq<Event>)
    requires st.Strict() && forall k :: 0 <= k < |events| ==> events[k].Valid() && NoRefusal(events[k])
    ensures Run(st, events).0.Strict()
    decreases |events|
  {
    if events != [] {
      StepCloses(st, events[0]);
      StepShape(st, events[0]);
      RunShape(Step(st, events[0]).st, events[1..]);
    }
  }

  /** A close request keeps the shapes unless its client is open and `close` fails. */
  lemma CloseKeepsShape(st: State, id: nat, closeWorks: bool, answered: bool)
    requires st.Strict()
    ensures Close(st, id, closeWorks, answered).st.Strict() <==> !(id < MAX_CLIENTS && st.info[id].Open() && !closeWorks)
  {
    if id < MAX_CLIENTS && st.info[id].Open() {
      ClosedOne(Ended(id, st.info[id], closeWorks));
      CloseAtShape(st, id, closeWorks);
    }
  }

  // Which client a connect drops.

  /** The calls of a connect up to the answer all work. */
  predicate Starts(c: Connecting) { c.newFd >= 0 && c.fcntlResult >= 0 && c.resolved.Address? && c.connects }

  /** The slot a connect drops an open socket from: the next slot if it is in use or got a socket that does not start,
      the one after it if the answer fails. */
  predicate DropsOpen(st: State, c: Connecting)
    requires st.nextId < |st.info| == MAX_CLIENTS
  {
    st.info[st.nextId].Open()
    || (c.newFd >= 0 && !Starts(c))
    || (Starts(c) && !c.answered && st.info[After(st.nextId)].Open())
  }

  /** A connect keeps the shapes unless it drops an open socket and `close` fails. */
  lemma ConnectKeepsShape(st: State, c: Connecting)
    requires st.Strict()
    ensures Connect(st, c).st.Strict() <==> !(DropsOpen(st, c) && !c.closeWorks)
  {
    ConnectShape(st, c);
    var (tried, res) := TryConnect(st, c);
    ClosedOne(Ended(tried.nextId, tried.info[tried.nextId], c.closeWorks));
  }

  /** A drop leaves a slot as it was when the slot is not in use, or when an earlier refused `close` has left nothing
      of it and the socket is refused again. */
  predicate NothingToDrop(s: Slot, closeWorks: bool) { !s.Open() || (s.Stuck() && s.tx == [] && !closeWorks) }

  /** The next slot is not in use, and neither is the one after it when the connection starts and the answer fails. */
  predicate Spares(st: State, c: Connecting)
    requires st.nextId < |st.info| == MAX_CLIENTS
  {
    var next, behind := st.info[st.nextId], st.info[After(st.nextId)];
    NothingToDrop(next, c.closeWorks)
    && (!next.Open() && Starts(c) && !c.answered ==> NothingToDrop(behind, c.closeWorks))
  }

  /** Exactly when a connect leaves all clients in use alone. */
  lemma ConnectSparesOthers(st: State, c: Connecting)
    requires st.Valid()
    ensures (forall k :: 0 <= k < MAX_CLIENTS && st.info[k].Open() ==> Connect(st, c).st.info[k] == st.info[k])
       <==> Spares(st, c)
  {
    var tried := TryConnect(st, c).0;
    if Connect(st, c).res != OK {
      DropChanges(tried.info[tried.nextId], c.closeWorks);
    }
    if st.info[st.nextId].Open() {
      assert Connect(st, c).st.info[st.nextId] == CloseClient(st.info[st.nextId], c.closeWorks).0;
    } else if Starts(c) && !c.answered {
      var next := After(st.nextId);
      assert Connect(st, c).st.info[next] == CloseClient(st.info[next], c.closeWorks).0;
    }
  }

  lemma DropChanges(s: Slot, closeWorks: bool)
    requires s.Valid()
    ensures CloseClient(s, closeWorks).0 == s <==> NothingToDrop(s, closeWorks)
  {
  }

  /** A connect while the next slot is in use is refused, and the cleanup drops the client of that slot. */
  lemma RefusedConnectDropsTheClient(st: State, c: Connecting)
    requires st.Valid() && st.info[st.nextId].Open() && c.closeWorks
    ensures var o := Connect(st, c);
            o.res == EINVAL && o.st == st.(info := st.info[st.nextId := FREE]) && o.moves == [Cut(st.nextId, true)]
  {
  }

  /** A refused `close` does leave a slot that is none of the three. */
  lemma RefusedCloseLeavesStuckSlot()
    ensures var connect := ConnectRequest(Connecting(7, 0, Address, true, true, true));
            var (st, moves) := Run(Initial(), [connect, CloseRequest(0, false, true)]);
            st.info[0].Stuck() && !st.Strict() && !AllClosed(moves)
  {
    var connect := ConnectRequest(Connecting(7, 0, Address, true, true, true));
    var close := CloseRequest(0, false, true);
    var first := Step(Initial(), connect);
    var second := Step(first.st, close);
    assert [connect, close][1..] == [close] && [close][1..] == [];
    assert second.moves == [Cut(0, false)];
    assert Run(first.st, [close]) == (second.st, second.moves + []);
  }

  /** When the answer to a successful connect cannot be sent, the cleanup drops the slot after the new one. */
  lemma UnansweredConnectDropsTheNextSlot(st: State, c: Connecting)
    requires st.Valid() && st.info[st.nextId].Free() && c.newFd >= 0 && c.fcntlResult >= 0
    requires c.resolved.Address? && c.connects && !c.answered && c.closeWorks
    ensures var o, next := Connect(st, c), After(st.nextId);
            o.st.info[st.nextId].Connecting() && o.st.info[next].Free() && Cut(next, true) in o.moves
  {
  }

  // Conservation.

  /** What has moved through a slot since its last connection ended. */
  datatype Tally = Tally(received: seq<byte>, taken: seq<byte>, accepted: seq<byte>, sent: seq<byte>)

  const NOTHING := Tally([], [], [], [])

  function Count(t: Tally, m: Move, id: nat): Tally {
    if m.id != id then t
    else
      match m
      case Received(_, bytes) => t.(received := t.received + bytes)
      case Taken(_, bytes) => t.(taken := t.taken + bytes)
      case Accepted(_, bytes) => t.(accepted := t.accepted + bytes)
      case Sent(_, bytes) => t.(sent := t.sent + bytes)
      case Dropped(_, _) => t
      case Cut(_, _) => NOTHING
  }

  function Total(t: Tally, moves: seq<Move>, id: nat): Tally
    decreases |moves|
  {
    if moves == [] then t else Total(Count(t, moves[0], id), moves[1..], id)
  }

  lemma {:induction false} TotalConcat(t: Tally, a: seq<Move>, b: seq<Move>, id: nat)
    ensures Total(t, a + b, id) == Total(Total(t, a, id), b, id)
    decreases |a|
  {
    if a == [] {
      assert a + b == b;
    } else {
      assert (a + b)[1..] == a[1..] + b;
      TotalConcat(Count(t, a[0], id), a[1..], b, id);
    }
  }

  lemma TotalOne(t: Tally, m: Move, id: nat)
    ensures Total(t, [m], id) == Count(t, m, id)
  {
    assert [m][1..] == [];
  }

  /** Nothing is lost, repeated or reordered: what came in is what was taken and then what is still there. */
  ghost predicate Balanced(s: Slot, t: Tally) {
    t.received == t.taken + s.rx && t.accepted == t.sent + s.tx
  }

  lemma SendBalanced(s: Slot, at: nat, a: Activity, t: Tally)
    requires s.Valid() && s.Connected() && Balanced(s, t)
    ensures var (s', _, moves) := SendSome(s, at, a); Balanced(s', Total(t, moves, at))
  {
    if !a.writable || s.tx == [] {
      TotalNone(t, at);
    } else if a.sendRes < 0 {
      TotalOne(t, Ended(at, s, a.closeWorks), at);
    } else {
      var n := Taking(s, a);
      hide Taking;
      TotalOne(t, Sent(at, s.tx[..n]), at);
      Moved(t.sent, s.tx, n);
    }
  }

  /** Bytes moved from the front of a buffer to the end of what left it. */
  lemma Moved(out: seq<byte>, buffer: seq<byte>, n: nat)
    requires n <= |buffer|
    ensures out + buffer[..n] + buffer[n..] == out + buffer
  {
    assert buffer == buffer[..n] + buffer[n..];
  }

  lemma ClientBalanced(s: Slot, at: nat, a: Activity, t: Tally)
    requires s.Valid() && s.Connected() && a.Valid() && Balanced(s, t)
    ensures var (s', _, moves) := CheckClient(s, at, a); Balanced(s', Total(t, moves, at))
  {
    hide SendSome;
    TotalOne(t, Ended(at, s, a.closeWorks), at);
    TotalOne(t, Dropped(at, a.chunk), at);
    SendBalanced(s, at, a, t);
    if |s.rx| + |a.chunk| <= BUFF_LEN {
      var m := Received(at, a.chunk);
      var s1 := s.(rx := s.rx + a.chunk);
      assert t.taken + s.rx + a.chunk == t.taken + (s.rx + a.chunk);
      TotalOne(t, m, at);
      SendBalanced(s1, at, a, Count(t, m, at));
      TotalConcat(t, [m], SendSome(s1, at, a).2, at);
    }
  }

  lemma SendLeavesOthers(s: Slot, at: nat, a: Activity, t: Tally, id: nat)
    requires s.Valid() && s.Connected() && id != at
    ensures Total(t, SendSome(s, at, a).2, id) == t
  {
    TotalOne(t, Ended(at, s, a.closeWorks), id);
    TotalOne(t, Sent(at, s.tx[..Taking(s, a)]), id);
  }

  lemma ClientLeavesOthers(s: Slot, at: nat, a: Activity, t: Tally, id: nat)
    requires s.Valid() && s.Connected() && a.Valid() && id != at
    ensures Total(t, CheckClient(s, at, a).2, id) == t
  {
    hide SendSome;
    TotalOne(t, Ended(at, s, a.closeWorks), id);
    TotalOne(t, Dropped(at, a.chunk), id);
    SendLeavesOthers(s, at, a, t, id);
    if |s.rx| + |a.chunk| <= BUFF_LEN {
      var m := Received(at, a.chunk);
      var s1 := s.(rx := s.rx + a.chunk);
      TotalOne(t, m, id);
      SendLeavesOthers(s1, at, a, t, id);
      TotalConcat(t, [m], SendSome(s1, at, a).2, id);
    }
  }

  lemma {:induction false} ServeBalanced(st: State, idx: nat, p: Pass, id: nat, t: Tally)
    requires st.Valid() && p.Valid() && idx <= MAX_CLIENTS && id < MAX_CLIENTS && Balanced(st.info[id], t)
    ensures var o := ServeFrom(st, idx, p); Balanced(o.st.info[id], Total(t, o.moves, id))
    decreases MAX_CLIENTS - idx
  {
    if idx < MAX_CLIENTS {
      var s := st.info[idx];
      if ToServe(s) {
        hide CheckClient, Balanced, Total;
        var (s', res, moves) := CheckClient(s, idx, p.activity[idx]);
        if id == idx {
          ClientBalanced(s, idx, p.activity[idx], t);
        } else {
          ClientLeavesOthers(s, idx, p.activity[idx], t, id);
        }
        if res == OK {
          var st' := st.(info := st.info[idx := s']);
          ServeBalanced(st', idx + 1, p, id, Total(t, moves, id));
          TotalConcat(t, moves, ServeFrom(st', idx + 1, p).moves, id);
        }
      } else {
        ServeBalanced(st, idx + 1, p, id, t);
      }
    }
  }

  lemma {:induction false} PollBalanced(st: State, idx: nat, p: Pass, id: nat, t: Tally)
    requires st.Valid() && p.Valid() && idx <= MAX_CLIENTS && id < MAX_CLIENTS && Balanced(st.info[id], t)
    ensures var o := PollFrom(st, idx, p); Balanced(o.st.info[id], Total(t, o.moves, id))
    decreases MAX_CLIENTS - idx
  {
    if idx < MAX_CLIENTS {
      var s := st.info[idx];
      if ToPoll(s, p.ready[idx]) {
        var (s', res, cut) := CheckConnection(s, p.polls[idx]);
        var moves := if cut then [Ended(idx, s, p.polls[idx].closeWorks)] else [];
        TotalOne(t, Ended(idx, s, p.polls[idx].closeWorks), id);
        if res == OK {
          var st' := st.(info := st.info[idx := s']);
          PollBalanced(st', idx + 1, p, id, Total(t, moves, id));
          TotalConcat(t, moves, PollFrom(st', idx + 1, p).moves, id);
        }
      } else {
        PollBalanced(st, idx + 1, p, id, t);
      }
    }
  }

  lemma {:induction false} WriteBalanced(st: State, idx: nat, data: seq<byte>, id: nat, t: Tally)
    requires st.Valid() && idx <= MAX_CLIENTS && id < MAX_CLIENTS && Balanced(st.info[id], t)
    ensures var o := WriteFrom(st, idx, data); Balanced(o.st.info[id], Total(t, o.moves, id))
    decreases MAX_CLIENTS - idx
  {
    if idx < MAX_CLIENTS {
      var s := st.info[idx];
      if ToServe(s) && |s.tx| + |data| < BUFF_LEN {
        var st' := st.(info := st.info[idx := s.(tx := s.tx + data)]);
        var m := Accepted(idx, data);
        TotalOne(t, m, id);
        if id == idx {
          assert t.sent + s.tx + data == t.sent + (s.tx + data);
        }
        WriteBalanced(st', idx + 1, data, id, Count(t, m, id));
        TotalConcat(t, [m], WriteFrom(st', idx + 1, data).moves, id);
      } else {
        WriteBalanced(st, idx + 1, data, id, t);
      }
    }
  }

  lemma {:induction false} ResetBalanced(st: State, idx: nat, closeWorks: seq<bool>, id: nat, t: Tally)
    requires st.Valid() && |closeWorks| == MAX_CLIENTS && idx <= MAX_CLIENTS && id < MAX_CLIENTS
    requires Balanced(st.info[id], t)
    ensures var o := ResetFrom(st, idx, closeWorks); Balanced(o.st.info[id], Total(t, o.moves, id))
    decreases MAX_CLIENTS - idx
  {
    if idx < MAX_CLIENTS {
      if st.info[idx].Open() && closeWorks[idx] {
        var st' := st.(info := st.info[idx := FREE]);
        var m := Cut(idx, true);
        TotalOne(t, m, id);
        ResetBalanced(st', idx + 1, closeWorks, id, Count(t, m, id));
        TotalConcat(t, [m], ResetFrom(st', idx + 1, closeWorks).moves, id);
      } else {
        ResetBalanced(st, idx + 1, closeWorks, id, t);
      }
    }
  }

  lemma CloseAtBalanced(st: State, at: nat, closeWorks: bool, id: nat, t: Tally)
    requires st.Valid() && at < MAX_CLIENTS && id < MAX_CLIENTS && Balanced(st.info[id], t)
    ensures var o := CloseAt(st, at, closeWorks); Balanced(o.st.info[id], Total(t, o.moves, id))
  {
    TotalOne(t, Ended(at, st.info[at], closeWorks), id);
  }

  lemma ReadBalanced(st: State, at: nat, len: nat, answered: bool, id: nat, t: Tally)
    requires st.Valid() && id < MAX_CLIENTS && Balanced(st.info[id], t)
    ensures var o := Read(st, at, len, answered); Balanced(o.st.info[id], Total(t, o.moves, id))
  {
    hide Total, Balanced, Slot.Valid;
    TotalNone(t, id);
    if at < MAX_CLIENTS {
      var s := st.info[at];
      var n := if |s.rx| < len then |s.rx| else len;
      TotalOne(t, Taken(at, s.rx[..n]), id);
      if at == id {
        TakeBalanced(s, t, n);
      }
    }
  }

  lemma TakeBalanced(s: Slot, t: Tally, n: nat)
    requires Balanced(s, t) && n <= |s.rx|
    ensures Balanced(s.(rx := s.rx[n..]), t.(taken := t.taken + s.rx[..n]))
  {
    Moved(t.taken, s.rx, n);
  }

  lemma WriteOneBalanced(st: State, at: nat, data: seq<byte>, answered: bool, id: nat, t: Tally)
    requires st.Valid() && id < MAX_CLIENTS && Balanced(st.info[id], t)
    ensures var o := Write(st, at, data, answered); Balanced(o.st.info[id], Total(t, o.moves, id))
  {
    TotalOne(t, Accepted(at, data), id);
    if at < MAX_CLIENTS {
      var tx := st.info[at].tx;
      assert t.sent + tx + data == t.sent + (tx + data);
    }
  }

  lemma RunnerBalanced(st: State, p: Pass, id: nat, t: Tally)
    requires st.Valid() && p.Valid() && id < MAX_CLIENTS && Balanced(st.info[id], t)
    ensures var o := Runner(st, p); Balanced(o.st.info[id], Total(t, o.moves, id))
  {
    hide PollFrom, ServeFrom;
    PollBalanced(st, 0, p, id, t);
    var first := Poll(st, p);
    var t1 := Total(t, first.moves, id);
    assert Balanced(first.st.info[id], t1);
    ServeBalanced(first.st, 0, p, id, t1);
    TotalConcat(t, first.moves, Serve(first.st, p).moves, id);
  }

  lemma StepBalanced(st: State, e: Event, id: nat, t: Tally)
    requires st.Valid() && e.Valid() && id < MAX_CLIENTS && Balanced(st.info[id], t)
    ensures var o := Step(st, e); Balanced(o.st.info[id], Total(t, o.moves, id))
  {
    hide Read, Write, WriteFrom, CloseAt, Runner, ResetFrom, Total, Balanced;
    TotalNone(t, id);
    match e
    case AcceptRequest(accepting) => AcceptBalanced(st, accepting, id, t);
    case ConnectRequest(connecting) => ConnectBalanced(st, connecting, id, t);
    case ReadRequest(at, len, answered) => ReadBalanced(st, at, len, answered, id, t);
    case WriteRequest(at, data, answered) => WriteOneBalanced(st, at, data, answered, id, t);
    case WriteToAllRequest(data, answered) => WriteBalanced(st, 0, data, id, t);
    case CloseRequest(at, closeWorks, answered) =>
      if at < MAX_CLIENTS {
        CloseAtBalanced(st, at, closeWorks, id, t);
      }
    case RunnerPass(pass) => RunnerBalanced(st, pass, id, t);
    case SessionReset(closes) => ResetBalanced(st, 0, closes, id, t);
  }

  lemma TotalNone(t: Tally, id: nat)
    ensures Total(t, [], id) == t
  {
  }

  lemma AcceptBalanced(st: State, a: Accepting, id: nat, t: Tally)
    requires st.Valid() && id < MAX_CLIENTS && Balanced(st.info[id], t)
    ensures var o := Accept(st, a); Balanced(o.st.info[id], Total(t, o.moves, id))
  {
  }

  lemma ConnectBalanced(st: State, c: Connecting, id: nat, t: Tally)
    requires st.Valid() && id < MAX_CLIENTS && Balanced(st.info[id], t)
    ensures var o := Connect(st, c); Balanced(o.st.info[id], Total(t, o.moves, id))
  {
    hide CloseAt;
    var tried := TryConnect(st, c).0;
    TotalNone(t, id);
    CloseAtBalanced(tried, tried.nextId, c.closeWorks, id, t);
  }

  /** Over every run, under any interleaving of requests, arrivals, partial sends and failures: what slot `id` received
      since its last connection ended is what reads took from it followed by its receive buffer, and what it accepted
      to send is what was sent followed by its transmit buffer. */
  lemma {:induction false} RunBalanced(st: State, events: seq<Event>, id: nat, t: Tally)
    requires st.Valid() && (forall k :: 0 <= k < |events| ==> events[k].Valid())
    requires id < MAX_CLIENTS && Balanced(st.info[id], t)
    ensures var (final, moves) := Run(st, events); Balanced(final.info[id], Total(t, moves, id))
    decreases |events|
  {
    if events == [] {
      TotalNone(t, id);
    } else {
      hide Step;
      var first := Step(st, events[0]);
      StepBalanced(st, events[0], id, t);
      RunBalanced(first.st, events[1..], id, Total(t, first.moves, id));
      TotalConcat(t, first.moves, Run(first.st, events[1..]).1, id);
    }
  }

  /** A bridge that has just started owes nothing to any slot. */
  lemma InitialBalanced(id: nat)
    requires id < MAX_CLIENTS
    ensures Balanced(Initial().info[id], NOTHING)
  {
  }
}
