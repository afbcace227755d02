/** What every request and every pass does to the slots and to the log, in terms of what the request asks for and of
    what the operating system reports. */
module SocketEffects {
  import opened Bytes
  import opened Sockets

  const ROOM: nat := 8192

  function Least(a: int, b: int): int { if a < b then a else b }

  /** Nothing but slot `id` differs. */
  ghost predicate OnlySlot(st: State, st': State, id: nat) {
    && |st.info| == |st'.info| == 10 && st'.nextId == st.nextId
    && forall k :: 0 <= k < 10 && k != id ==> st'.info[k] == st.info[k]
  }

  /** A read answers with the front of what is buffered, as much as was asked for, and keeps the rest. */
  lemma ReadTakes(st: State, id: nat, len: nat, answered: bool)
    requires st.Valid() && id < 10
    ensures var o, s := Read(st, id, len, answered), st.info[id];
            && OnlySlot(st, o.st, id) && o.res == (if answered then 0 else -19)
            && |o.moves| == 1 && o.moves[0].Taken? && o.moves[0].id == id
            && |o.moves[0].bytes| == Least(len, |s.rx|) && o.moves[0].bytes + o.st.info[id].rx == s.rx
            && o.st.info[id] == s.(rx := o.st.info[id].rx)
  {
  }

  /** A write is appended whole, when the slot is open and has room; otherwise nothing changes. */
  lemma WriteAppends(st: State, id: nat, data: seq<byte>, answered: bool)
    requires st.Valid() && id < 10
    ensures var o, s := Write(st, id, data, answered), st.info[id];
            if s.fd != -1 && |s.tx| + |data| < ROOM then
              && OnlySlot(st, o.st, id) && o.res == (if answered then 0 else -19) && o.moves == [Accepted(id, data)]
              && o.st.info[id] == s.(tx := s.tx + data)
            else o == Outcome(st, if s.fd == -1 then -16 else -9, [])
  {
  }

  /** Requests for slots there are not. */
  lemma NoSuchSlot(st: State, id: nat, len: nat, data: seq<byte>, closeWorks: bool, answered: bool)
    requires st.Valid() && id >= 10
    ensures Read(st, id, len, answered) == Outcome(st, -22, [])
    ensures Write(st, id, data, answered) == Outcome(st, -15, [])
    ensures Close(st, id, closeWorks, answered) == Outcome(st, -15, [])
  {
  }

  // Writing to all.

  predicate Live(s: Slot) { s.fd != -1 && s.connected }

  /** What a log says of slot `id`. */
  function Only(moves: seq<Move>, id: nat): seq<Move>
    decreases |moves|
  {
    if moves == [] then [] else (if moves[0].id == id then [moves[0]] else []) + Only(moves[1..], id)
  }

  lemma {:induction false} OnlyConcat(a: seq<Move>, b: seq<Move>, id: nat)
    ensures Only(a + b, id) == Only(a, id) + Only(b, id)
    decreases |a|
  {
    if a == [] {
      assert a + b == b;
    } else {
      assert (a + b)[0] == a[0] && (a + b)[1..] == a[1..] + b;
      OnlyConcat(a[1..], b, id);
      var first := if a[0].id == id then [a[0]] else [];
      assert (first + Only(a[1..], id)) + Only(b, id) == first + (Only(a[1..], id) + Only(b, id));
    }
  }

  lemma OnlyOne(m: Move, id: nat)
    ensures Only([m], id) == if m.id == id then [m] else []
  {
    assert [m][1..] == [];
  }

  /** The first connected slot from `idx` on that lacks room, or ten. */
  ghost predicate FirstFull(st: State, data: seq<byte>, idx: nat, j: nat) {
    && |st.info| == 10 && idx <= j <= 10
    && (forall k :: idx <= k < j && Live(st.info[k]) ==> |st.info[k].tx| + |data| < ROOM)
    && (j < 10 ==> Live(st.info[j]) && |st.info[j].tx| + |data| >= ROOM)
  }

  predicate Gets(st: State, idx: nat, j: nat, k: nat)
    requires |st.info| == 10
  {
    idx <= k < j && k < 10 && Live(st.info[k])
  }

  /** Connected slots from `idx` up to `j` get the data once, the others nothing. */
  ghost predicate WroteTo(st: State, data: seq<byte>, idx: nat, j: nat, o: Outcome) {
    && |st.info| == |o.st.info| == 10 && o.st.nextId == st.nextId && o.res == (if j < 10 then -9 else 0)
    && (forall k :: 0 <= k < 10 ==>
          o.st.info[k] == if Gets(st, idx, j, k) then st.info[k].(tx := st.info[k].tx + data) else st.info[k])
    && forall k: nat :: Only(o.moves, k) == if Gets(st, idx, j, k) then [Accepted(k, data)] else []
  }

  lemma OnlyCons(m: Move, moves: seq<Move>, k: nat)
    ensures Only([m] + moves, k) == (if m.id == k then [m] else []) + Only(moves, k)
  {
    OnlyConcat([m], moves, k);
    OnlyOne(m, k);
  }

  lemma WriteStep(st: State, idx: nat, data: seq<byte>)
    requires st.Valid() && idx < 10
    ensures var s := st.info[idx];
            var st1 := st.(info := st.info[idx := s.(tx := s.tx + data)]);
            if !Live(s) then WriteFrom(st, idx, data) == WriteFrom(st, idx + 1, data)
            else if |s.tx| + |data| >= ROOM then WriteFrom(st, idx, data) == Outcome(st, -9, [])
            else st1.Valid() && WriteFrom(st, idx, data) == Before([Accepted(idx, data)], WriteFrom(st1, idx + 1, data))
  {
  }

  lemma {:induction false} WritesFrom(st: State, idx: nat, data: seq<byte>, j: nat)
    requires st.Valid() && FirstFull(st, data, idx, j)
    ensures WroteTo(st, data, idx, j, WriteFrom(st, idx, data))
    decreases 10 - idx
  {
    hide WriteFrom, Slot.Valid, Only;
    if idx < j {
      var s := st.info[idx];
      WriteStep(st, idx, data);
      if Live(s) {
        var st1 := st.(info := st.info[idx := s.(tx := s.tx + data)]);
        var rest := WriteFrom(st1, idx + 1, data);
        WritesFrom(st1, idx + 1, data, j);
        forall k: nat ensures Only([Accepted(idx, data)] + rest.moves, k)
                              == if Gets(st, idx, j, k) then [Accepted(k, data)] else [] {
          OnlyCons(Accepted(idx, data), rest.moves, k);
          assert Only(rest.moves, k) == if Gets(st1, idx + 1, j, k) then [Accepted(k, data)] else [];
        }
      } else {
        WritesFrom(st, idx + 1, data, j);
      }
    } else {
      OnlyNone();
      if idx < 10 {
        WriteStep(st, idx, data);
      } else {
        WriteEnds(st, data);
      }
    }
  }

  lemma OnlyNone()
    ensures forall k: nat :: Only([], k) == []
  {
  }

  lemma WriteEnds(st: State, data: seq<byte>)
    requires st.Valid()
    ensures WriteFrom(st, 10, data) == Outcome(st, 0, [])
  {
  }

  /** Writing to all: each connected slot gets the data exactly once, up to the first that lacks room. */
  lemma WriteToAllWrites(st: State, data: seq<byte>, answered: bool, j: nat)
    requires st.Valid() && FirstFull(st, data, 0, j)
    ensures var o := WriteToAll(st, data, answered);
            WroteTo(st, data, 0, j, o.(res := if j < 10 then -9 else 0))
            && o.res == if j < 10 then -9 else if answered then 0 else -19
  {
    hide WriteFrom;
    WritesFrom(st, 0, data, j);
  }

  // Ending a connection.

  /** A slot whose socket could be closed is empty; otherwise it keeps its socket and nothing else. */
  function Emptied(s: Slot, closed: bool): Slot {
    if closed then Slot(-1, false, false, [], []) else Slot(s.fd, false, false, [], [])
  }

  lemma CloseEmpties(st: State, id: nat, closeWorks: bool, answered: bool)
    requires st.Valid() && id < 10
    ensures var o, s := Close(st, id, closeWorks, answered), st.info[id];
            if s.fd == -1 then o == Outcome(st, if answered then 0 else -19, [])
            else
              OnlySlot(st, o.st, id) && o.st.info[id] == Emptied(s, closeWorks) && o.moves == [Cut(id, closeWorks)]
              && o.res == if closeWorks && answered then 0 else -19
  {
  }

  predicate Goes(st: State, idx: nat, j: nat, k: nat)
    requires |st.info| == 10
  {
    idx <= k < j && k < 10 && st.info[k].fd != -1
  }

  /** A reset empties the open slots in order, up to the first whose socket cannot be closed. */
  lemma {:induction false} ResetEmpties(st: State, idx: nat, closes: seq<bool>, j: nat)
    requires st.Valid() && |closes| == 10 && idx <= j <= 10
    requires (forall k :: idx <= k < j && st.info[k].fd != -1 ==> closes[k])
    requires j < 10 ==> st.info[j].fd != -1 && !closes[j]
    ensures var o := ResetFrom(st, idx, closes);
            && |o.st.info| == 10 && o.st.nextId == st.nextId && o.res == (if j < 10 then -19 else 0)
            && (forall k :: 0 <= k < 10 ==>
                  o.st.info[k] == if Goes(st, idx, j, k) then Slot(-1, false, false, [], []) else st.info[k])
            && forall k: nat :: Only(o.moves, k) == if Goes(st, idx, j, k) then [Cut(k, true)] else []
    decreases 10 - idx
  {
    hide ResetFrom, Slot.Valid, Only;
    if idx < j {
      ResetStep(st, idx, closes);
      if st.info[idx].fd != -1 {
        FreeIsValid();
        var st1 := st.(info := st.info[idx := FREE]);
        var rest := ResetFrom(st1, idx + 1, closes);
        ResetEmpties(st1, idx + 1, closes, j);
        forall k: nat ensures Only([Cut(idx, true)] + rest.moves, k) == if Goes(st, idx, j, k) then [Cut(k, true)] else [] {
          OnlyCons(Cut(idx, true), rest.moves, k);
          assert Only(rest.moves, k) == if Goes(st1, idx + 1, j, k) then [Cut(k, true)] else [];
        }
      } else {
        ResetEmpties(st, idx + 1, closes, j);
      }
    } else {
      OnlyNone();
      if idx < 10 {
        ResetStep(st, idx, closes);
      } else {
        ResetDone(st, closes);
      }
    }
  }

  lemma FreeIsValid()
    ensures FREE.Valid()
  {
  }

  // New connections.

  function Next(id: nat): nat { if id == 9 then 0 else id + 1 }

  /** A pending connection gets the next slot when that is free, and the turn goes to the slot behind it; in every other
      case no slot changes. */
  lemma AcceptTakesNext(st: State, a: Accepting)
    requires st.Valid()
    ensures var o := Accept(st, a);
            && o.moves == []
            && if a.listening && a.selectWorks && a.pending && a.newFd >= 0 && a.fcntlWorks && st.info[st.nextId].fd == -1
               then
                 o.st == State(st.info[st.nextId := Slot(a.newFd, true, false, [], [])], Next(st.nextId))
                 && o.res == if a.answered then 0 else -19
               else
                 o.st == st
                 && o.res == if !a.listening then -22
                             else if !a.selectWorks then -19
                             else if !a.pending then if a.answered then 0 else -19
                             else if a.newFd < 0 then -19
                             else if !a.fcntlWorks then -6
                             else if a.closeWorks then -15 else -19
  {
  }

  /** A connect to a free slot that starts and is answered takes it as a pending connection. */
  lemma ConnectTakesNext(st: State, c: Connecting)
    requires st.Valid() && st.info[st.nextId].fd == -1 && c.newFd >= 0 && c.fcntlResult >= 0 && c.resolved.Address?
    requires c.connects && c.answered
    ensures var next := Slot(c.newFd, false, true, [], []);
            Connect(st, c) == Outcome(State(st.info[st.nextId := next], Next(st.nextId)), 0, [])
  {
  }

  /** One that does not start leaves the slot free again, when the new socket can be closed, and says why. */
  lemma ConnectGivesBack(st: State, c: Connecting)
    requires st.Valid() && st.info[st.nextId].fd == -1
    requires c.newFd >= 0 ==> c.closeWorks && !(c.fcntlResult >= 0 && c.resolved.Address? && c.connects)
    ensures Connect(st, c) == Outcome(st, if c.newFd < 0 then -1
                                          else if c.fcntlResult < 0 then c.fcntlResult
                                          else if c.resolved.TryAgain? then -7
                                          else if c.resolved.NoAddress? then -6
                                          else -19, [Cut(st.nextId, true)])
  {
    assert st.info[st.nextId] == FREE;
    assert st.info[st.nextId := FREE] == st.info;
  }

  // One pass.

  /** How much of the transmit buffer a `send` took. */
  function Front(tx: seq<byte>, a: Activity): (n: nat)
    ensures n <= |tx|
  {
    if a.sendRes < 0 then 0 else Least(a.sendRes, |tx|)
  }

  predicate Sends(tx: seq<byte>, a: Activity) { a.writable && |tx| > 0 }

  /** Nothing fails for this client: no error, what arrives fits, and what is sent is taken. */
  predicate Quiet(s: Slot, a: Activity) {
    && !a.err && (a.readable ==> a.recvFails == 0 && |s.rx| + |a.chunk| <= ROOM)
    && (Sends(s.tx, a) ==> a.sendRes >= 0)
  }

  /** A chunk that arrived goes behind what was received; of what is to be sent exactly the front that `send` took goes. */
  function Traffic(s: Slot, a: Activity): Slot {
    s.(rx := s.rx + (if a.readable then a.chunk else []), tx := if Sends(s.tx, a) then s.tx[Front(s.tx, a)..] else s.tx)
  }

  function Logged(s: Slot, id: nat, a: Activity): seq<Move> {
    (if a.readable then [Received(id, a.chunk)] else [])
    + if Sends(s.tx, a) then [Sent(id, s.tx[..Front(s.tx, a)])] else []
  }

  lemma ClientServed(s: Slot, id: nat, a: Activity)
    requires s.Valid() && s.Connected() && a.Valid() && Quiet(s, a)
    ensures CheckClient(s, id, a) == (Traffic(s, a), 0, Logged(s, id, a))
  {
    assert s.rx + [] == s.rx;
    var moves := CheckClient(s, id, a).2;
    assert [] + moves == moves && moves + [] == moves;
  }

  /** A socket that is in error, whose `recv` fails, or, with nothing to receive, whose `send` fails, ends. */
  lemma ClientEnds(s: Slot, id: nat, a: Activity)
    requires s.Valid() && s.Connected() && a.Valid()
    requires a.err || (a.readable && a.recvFails < 0) || (!a.readable && Sends(s.tx, a) && a.sendRes < 0)
    ensures CheckClient(s, id, a)
         == (Emptied(s, a.closeWorks),
             if !a.closeWorks then -19 else if a.err then 0 else if a.readable then a.recvFails else -19,
             [Cut(id, a.closeWorks)])
  {
  }

  /** A chunk that was received although `send` then fails is logged before the end. */
  lemma ClientEndsSending(s: Slot, id: nat, a: Activity)
    requires s.Valid() && s.Connected() && a.Valid() && !a.err && a.readable && a.recvFails == 0
    requires |s.rx| + |a.chunk| <= ROOM && Sends(s.tx, a) && a.sendRes < 0
    ensures CheckClient(s, id, a)
         == (Emptied(s, a.closeWorks), -19, [Received(id, a.chunk)] + [Cut(id, a.closeWorks)])
  {
  }

  /** A chunk that does not fit is dropped whole, and nothing is sent. */
  lemma ClientOverflows(s: Slot, id: nat, a: Activity)
    requires s.Valid() && s.Connected() && a.Valid() && !a.err && a.readable && a.recvFails == 0
    requires |s.rx| + |a.chunk| > ROOM
    ensures CheckClient(s, id, a) == (s, -9, [Dropped(id, a.chunk)])
  {
  }

  /** The four cases are all there are. */
  lemma ClientCases(s: Slot, a: Activity)
    requires s.Valid() && s.Connected() && a.Valid()
    ensures a.err || (a.readable && a.recvFails < 0) || (!a.readable && Sends(s.tx, a) && a.sendRes < 0)
         || (a.readable && |s.rx| + |a.chunk| > ROOM) || (a.readable && Sends(s.tx, a) && a.sendRes < 0)
         || Quiet(s, a)
  {
  }

  ghost predicate LogOf(moves: seq<Move>, id: nat) { forall k :: 0 <= k < |moves| ==> moves[k].id == id }

  lemma ClientLogs(s: Slot, id: nat, a: Activity)
    requires s.Valid() && s.Connected() && a.Valid()
    ensures LogOf(CheckClient(s, id, a).2, id)
  {
  }

  lemma {:induction false} OnlyOwn(moves: seq<Move>, id: nat, k: nat)
    requires LogOf(moves, id)
    ensures Only(moves, k) == if k == id then moves else []
    decreases |moves|
  {
    if moves != [] {
      assert moves[0].id == id;
      OnlyOwn(moves[1..], id, k);
      assert [moves[0]] + moves[1..] == moves;
    }
  }

  predicate Checked(st: State, idx: nat, j: nat, k: nat)
    requires |st.info| == 10
  {
    idx <= k <= j && k < 10 && Live(st.info[k])
  }

  /** What the pass over one client does to it. */
  function Check(st: State, p: Pass, k: nat): (Slot, int, seq<Move>)
    requires st.Valid() && p.Valid() && k < 10 && Live(st.info[k])
  {
    assert st.info[k].Valid();
    CheckClient(st.info[k], k, p.activity[k])
  }

  /** The first connected client from `idx` on with which a pass stops, or ten. */
  ghost predicate FirstFailing(st: State, p: Pass, idx: nat, j: nat)
    requires st.Valid() && p.Valid()
  {
    && idx <= j <= 10
    && (forall k :: idx <= k < j && Live(st.info[k]) ==> Check(st, p, k).1 == 0)
    && (j < 10 ==> Live(st.info[j]) && Check(st, p, j).1 != 0)
  }

  /** Exactly the connected clients up to that one are served, each on its own and once. */
  ghost predicate ServedTo(st: State, p: Pass, idx: nat, j: nat, o: Outcome)
    requires st.Valid() && p.Valid() && (j < 10 ==> Live(st.info[j]))
  {
    && |o.st.info| == 10 && o.st.nextId == st.nextId && o.res == (if j < 10 then Check(st, p, j).1 else 0)
    && (forall k :: 0 <= k < 10 ==>
          o.st.info[k] == if Checked(st, idx, j, k) then Check(st, p, k).0 else st.info[k])
    && forall k: nat :: Only(o.moves, k) == if Checked(st, idx, j, k) then Check(st, p, k).2 else []
  }

  lemma ServeStep(st: State, idx: nat, p: Pass)
    requires st.Valid() && p.Valid() && idx < 10
    ensures !Live(st.info[idx]) ==> ServeFrom(st, idx, p) == ServeFrom(st, idx + 1, p)
    ensures Live(st.info[idx]) ==>
              var (s', res, moves) := Check(st, p, idx);
              var st1 := st.(info := st.info[idx := s']);
              st1.Valid() && LogOf(moves, idx)
              && ServeFrom(st, idx, p) == if res != 0 then Outcome(st1, res, moves)
                                          else Before(moves, ServeFrom(st1, idx + 1, p))
  {
    hide CheckClient;
    if Live(st.info[idx]) {
      assert st.info[idx].Valid();
      ClientLogs(st.info[idx], idx, p.activity[idx]);
    }
  }

  lemma ServeEnds(st: State, p: Pass)
    requires st.Valid() && p.Valid()
    ensures ServeFrom(st, 10, p) == Outcome(st, 0, [])
  {
  }

  lemma {:induction false} ServesFrom(st: State, idx: nat, p: Pass, j: nat)
    requires st.Valid() && p.Valid() && FirstFailing(st, p, idx, j)
    ensures ServedTo(st, p, idx, j, ServeFrom(st, idx, p))
    decreases 10 - idx
  {
    hide ServeFrom, Slot.Valid, Only, CheckClient, LogOf;
    if idx == 10 {
      OnlyNone();
      ServeEnds(st, p);
      return;
    }
    ServeStep(st, idx, p);
    if !Live(st.info[idx]) {
      ServesFrom(st, idx + 1, p, j);
    } else {
      var (s', res, moves) := Check(st, p, idx);
      var st1 := st.(info := st.info[idx := s']);
      forall k: nat ensures Only(moves, k) == if k == idx then moves else [] {
        OnlyOwn(moves, idx, k);
      }
      if idx < j {
        assert forall k :: idx < k < 10 ==> st1.info[k] == st.info[k];
        ServesFrom(st1, idx + 1, p, j);
        var rest := ServeFrom(st1, idx + 1, p);
        forall k: nat ensures Only(moves + rest.moves, k) == if Checked(st, idx, j, k) then Check(st, p, k).2 else [] {
          OnlyConcat(moves, rest.moves, k);
          assert Only(rest.moves, k) == if Checked(st1, idx + 1, j, k) then Check(st1, p, k).2 else [];
        }
      }
    }
  }

  // Pending connections.

  /** A pending connection about which `select` has news. */
  predicate Ripe(st: State, p: Pass, k: nat)
    requires |st.info| == |p.ready| == 10 && k < 10
  {
    st.info[k].fd != -1 && st.info[k].connecting && p.ready[k]
  }

  predicate Good(p: Polled) { p.works && p.error == 0 }

  /** It becomes a connection, or ends. */
  function Settled(s: Slot, p: Polled): Slot {
    if Good(p) then Slot(s.fd, true, false, s.rx, s.tx) else Emptied(s, p.closeWorks)
  }

  predicate Settles(st: State, p: Pass, idx: nat, j: nat, k: nat)
    requires |st.info| == |p.ready| == 10
  {
    idx <= k <= j && k < 10 && Ripe(st, p, k)
  }

  predicate Refused(p: Polled) { !Good(p) && !p.closeWorks }

  /** The first one from `idx` on that fails and whose socket cannot be closed, or ten. */
  ghost predicate FirstRefused(st: State, p: Pass, idx: nat, j: nat)
    requires st.Valid() && p.Valid()
  {
    && idx <= j <= 10 && (forall k :: idx <= k < j && Ripe(st, p, k) ==> !Refused(p.polls[k]))
    && (j < 10 ==> Ripe(st, p, j) && Refused(p.polls[j]))
  }

  ghost predicate PolledTo(st: State, p: Pass, idx: nat, j: nat, o: Outcome)
    requires st.Valid() && p.Valid()
  {
    && |o.st.info| == 10 && o.st.nextId == st.nextId && o.res == (if j < 10 then -19 else 0)
    && (forall k :: 0 <= k < 10 ==>
          o.st.info[k] == if Settles(st, p, idx, j, k) then Settled(st.info[k], p.polls[k]) else st.info[k])
    && forall k: nat :: Only(o.moves, k) == if Settles(st, p, idx, j, k) then Ending(k, p) else []
  }

  function Ending(k: nat, p: Pass): seq<Move>
    requires k < |p.polls|
  {
    if Good(p.polls[k]) then [] else [Cut(k, p.polls[k].closeWorks)]
  }

  lemma PollStep(st: State, idx: nat, p: Pass)
    requires st.Valid() && p.Valid() && idx < 10
    ensures !Ripe(st, p, idx) ==> PollFrom(st, idx, p) == PollFrom(st, idx + 1, p)
    ensures Ripe(st, p, idx) ==>
              var st1 := st.(info := st.info[idx := Settled(st.info[idx], p.polls[idx])]);
              st1.Valid() && LogOf(Ending(idx, p), idx)
              && PollFrom(st, idx, p) == if Refused(p.polls[idx]) then Outcome(st1, -19, Ending(idx, p))
                                         else Before(Ending(idx, p), PollFrom(st1, idx + 1, p))
  {
    assert st.info[idx].Valid();
  }

  lemma PollEnds(st: State, p: Pass)
    requires st.Valid() && p.Valid()
    ensures PollFrom(st, 10, p) == Outcome(st, 0, [])
  {
  }

  /** Exactly the ripe connections up to `j` are settled, each by its own socket's error. */
  lemma {:induction false} PollsFrom(st: State, idx: nat, p: Pass, j: nat)
    requires st.Valid() && p.Valid() && FirstRefused(st, p, idx, j)
    ensures PolledTo(st, p, idx, j, PollFrom(st, idx, p))
    decreases 10 - idx
  {
    hide PollFrom, Slot.Valid, Only, Settled, LogOf, Good;
    if idx == 10 {
      OnlyNone();
      PollEnds(st, p);
      return;
    }
    PollStep(st, idx, p);
    if !Ripe(st, p, idx) {
      PollsFrom(st, idx + 1, p, j);
    } else {
      var moves := Ending(idx, p);
      var st1 := st.(info := st.info[idx := Settled(st.info[idx], p.polls[idx])]);
      forall k: nat ensures Only(moves, k) == if k == idx then moves else [] {
        OnlyOwn(moves, idx, k);
      }
      if idx < j {
        PollsFrom(st1, idx + 1, p, j);
        var rest := PollFrom(st1, idx + 1, p);
        forall k: nat ensures Only(moves + rest.moves, k) == if Settles(st, p, idx, j, k) then Ending(k, p) else [] {
          OnlyConcat(moves, rest.moves, k);
          assert Only(rest.moves, k) == if Settles(st1, p, idx + 1, j, k) then Ending(k, p) else [];
        }
      }
    }
  }

  // A whole pass.

  /** What a pass makes of a slot before the traffic: a ripe connection is a connection. */
  function Promoted(st: State, p: Pass, k: nat): Slot
    requires |st.info| == |p.ready| == 10 && k < 10
  {
    if Ripe(st, p, k) then Slot(st.info[k].fd, true, false, st.info[k].rx, st.info[k].tx) else st.info[k]
  }

  ghost predicate AnyLive(st: State) { exists k :: 0 <= k < |st.info| && Live(st.info[k]) }

  ghost predicate AnyPending(st: State) { exists k :: 0 <= k < |st.info| && st.info[k].fd != -1 && st.info[k].connecting }

  /** A pass whose `select` fails does nothing more. */
  lemma PassFails(st: State, p: Pass)
    requires st.Valid() && p.Valid()
    ensures AnyPending(st) && p.select1 < 0 ==> Runner(st, p) == Outcome(st, -19, [])
    ensures !AnyPending(st) && AnyLive(st) && p.select2 < 0 ==> Runner(st, p) == Outcome(st, -19, [])
    ensures !AnyPending(st) && !AnyLive(st) ==> Runner(st, p) == Outcome(st, 0, [])
  {
    hide PollFrom, ServeFrom, Slot.Valid;
    PendingIs(st);
    LiveIs(st);
  }

  lemma PendingIs(st: State)
    ensures AnyConnecting(st) <==> AnyPending(st)
  {
    if AnyPending(st) {
      var k :| 0 <= k < |st.info| && st.info[k].fd != -1 && st.info[k].connecting;
      assert st.info[k].Open();
    }
  }

  lemma LiveIs(st: State)
    ensures AnyConnected(st) <==> AnyLive(st)
  {
    if AnyLive(st) {
      var k :| 0 <= k < |st.info| && Live(st.info[k]);
      assert ToServe(st.info[k]);
    }
    if AnyConnected(st) {
      var k :| 0 <= k < |st.info| && ToServe(st.info[k]);
      assert Live(st.info[k]);
    }
  }

  /** The first half of a pass: it settles the ripe connections, up to one that fails and cannot be closed. */
  lemma PassPolls(st: State, p: Pass, j: nat)
    requires st.Valid() && p.Valid() && (AnyPending(st) ==> p.select1 >= 0) && FirstRefused(st, p, 0, j)
    ensures PolledTo(st, p, 0, j, Poll(st, p))
    ensures j < 10 ==> Runner(st, p) == Poll(st, p)
  {
    hide PollFrom, Slot.Valid, Settled, Only, Good;
    PendingIs(st);
    PollsFrom(st, 0, p, j);
    if !AnyConnecting(st) {
      assert forall k :: 0 <= k < 10 ==> !Ripe(st, p, k);
      OnlyNone();
    }
  }

  /** The second half: with all ripe connections settled, it serves the connected clients, the new ones included, up to
      the first that fails. */
  lemma PassServes(st: State, p: Pass, j: nat)
    requires st.Valid() && p.Valid() && (AnyPending(st) ==> p.select1 >= 0) && FirstRefused(st, p, 0, 10)
    requires AnyLive(Poll(st, p).st) && p.select2 >= 0 && FirstFailing(Poll(st, p).st, p, 0, j)
    ensures var mid, o := Poll(st, p), Runner(st, p);
            var served := ServeFrom(mid.st, 0, p);
            ServedTo(mid.st, p, 0, j, served) && o == Before(mid.moves, served)
  {
    hide PollFrom, ServeFrom, Slot.Valid, Settled, Only, Good, Poll, CheckClient;
    PassPolls(st, p, 10);
    LiveIs(Poll(st, p).st);
    ServesFrom(Poll(st, p).st, 0, p, j);
  }

  /** What a quiet pass leaves of a slot. */
  function Later(st: State, p: Pass, k: nat): Slot
    requires |st.info| == |p.ready| == |p.activity| == 10 && k < 10
  {
    var s := Promoted(st, p, k);
    if Live(s) then Traffic(s, p.activity[k]) else s
  }

  ghost predicate QuietAt(st: State, p: Pass, k: nat)
    requires st.Valid() && p.Valid() && k < 10
  {
    (Ripe(st, p, k) ==> Good(p.polls[k])) && (Live(Promoted(st, p, k)) ==> Quiet(Promoted(st, p, k), p.activity[k]))
  }

  /** A pass in which nothing fails: ripe connections are connections, and of each connection exactly what arrived is
      received, and exactly what `send` took of its front is sent. */
  lemma QuietPass(st: State, p: Pass)
    requires st.Valid() && p.Valid() && p.select1 >= 0 && p.select2 >= 0
    requires forall k :: 0 <= k < 10 ==> QuietAt(st, p, k)
    ensures var o := Runner(st, p);
            && |o.st.info| == 10 && o.st.nextId == st.nextId && (forall k :: 0 <= k < 10 ==> o.st.info[k] == Later(st, p, k))
            && (forall k: nat :: Only(o.moves, k)
                                 == if k < 10 && Live(Promoted(st, p, k)) then Logged(Promoted(st, p, k), k, p.activity[k])
                                    else [])
            && (AnyLive(o.st) ==> o.res == 0)
  {
    hide PollFrom, ServeFrom, Slot.Valid, Only, Poll, CheckClient, Runner, Traffic, Logged, Quiet;
    forall k | 0 <= k < 10 && Ripe(st, p, k) ensures Good(p.polls[k]) {
      assert QuietAt(st, p, k);
    }
    PassPolls(st, p, 10);
    var mid := Poll(st, p);
    forall k | 0 <= k < 10 ensures mid.st.info[k] == Promoted(st, p, k) {
      assert QuietAt(st, p, k);
    }
    forall k: nat ensures Only(mid.moves, k) == [] {
      assert k < 10 ==> QuietAt(st, p, k);
    }
    forall k: nat | k < 10 && Live(mid.st.info[k])
      ensures Check(mid.st, p, k) == (Later(st, p, k), 0, Logged(Promoted(st, p, k), k, p.activity[k]))
    {
      assert QuietAt(st, p, k);
      ServedIs(mid.st, p, k);
    }
    if AnyLive(mid.st) {
      PassServes(st, p, 10);
      var served := ServeFrom(mid.st, 0, p);
      forall k: nat ensures Only(mid.moves + served.moves, k) == Only(served.moves, k) {
        OnlyConcat(mid.moves, served.moves, k);
        assert [] + Only(served.moves, k) == Only(served.moves, k);
      }
    } else {
      PassEnds(st, p);
    }
  }

  lemma ServedIs(st: State, p: Pass, k: nat)
    requires st.Valid() && p.Valid() && k < 10 && Live(st.info[k]) && Quiet(st.info[k], p.activity[k])
    ensures Check(st, p, k) == (Traffic(st.info[k], p.activity[k]), 0, Logged(st.info[k], k, p.activity[k]))
  {
    assert st.info[k].Valid();
    ClientServed(st.info[k], k, p.activity[k]);
  }

  lemma PassEnds(st: State, p: Pass)
    requires st.Valid() && p.Valid() && Poll(st, p).res == 0 && !AnyLive(Poll(st, p).st)
    ensures Runner(st, p).st == Poll(st, p).st && Runner(st, p).moves == Poll(st, p).moves
  {
    hide Poll, ServeFrom, Slot.Valid;
    LiveIs(Poll(st, p).st);
  }

  lemma NoMoves(moves: seq<Move>)
    requires forall k: nat :: Only(moves, k) == []
    ensures moves == []
  {
    if moves != [] {
      OnlyFirst(moves);
    }
  }

  lemma OnlyFirst(moves: seq<Move>)
    requires moves != []
    ensures Only(moves, moves[0].id) != []
  {
  }

  /** A pass that only waits for connections changes nothing, and its result is the count that `select` returned. */
  lemma PassWaits(st: State, p: Pass)
    requires st.Valid() && p.Valid() && AnyPending(st) && !AnyLive(st) && p.select1 >= 0
    requires forall k :: 0 <= k < 10 ==> !Ripe(st, p, k)
    ensures Runner(st, p) == Outcome(st, p.select1, [])
  {
    hide PollFrom, ServeFrom, Slot.Valid, Settled, Only, Good;
    PassPolls(st, p, 10);
    var mid := Poll(st, p);
    NoMoves(mid.moves);
    assert mid.st.info == st.info;
    LiveIs(st);
    PendingIs(st);
    RipeIs(st, p);
  }

  lemma RipeIs(st: State, p: Pass)
    requires |st.info| == |p.ready| == 10
    ensures AnyToPoll(st, p.ready) ==> exists k :: 0 <= k < 10 && Ripe(st, p, k)
  {
    if AnyToPoll(st, p.ready) {
      var k :| 0 <= k < |st.info| && ToPoll(st.info[k], p.ready[k]);
      assert Ripe(st, p, k);
    }
  }
}
