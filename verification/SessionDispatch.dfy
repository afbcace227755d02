/** What every frame causes: the observations, the bytes sent and the state behind one event on a clean line, in terms
    of the payload that was sent. */
module SessionDispatch {
  import opened Bytes
  import opened Crc
  import opened Packet
  import opened Session
  import opened SessionStream
  import opened SessionSafety

  // Sending.

  /** No `write` fails. */
  predicate Leaves(writes: seq<int>) { forall k :: 0 <= k < |writes| ==> writes[k] >= 0 }

  predicate AllLeave(calls: SendCalls) { Leaves(calls.header) && Leaves(calls.body) && Leaves(calls.trailer) }

  lemma {:induction false} SentAll(n: nat, writes: seq<int>)
    requires Leaves(writes)
    ensures Sent(n, writes) == n
    decreases |writes|
  {
    if n != 0 && writes != [] {
      SentAll(n - (if writes[0] > n then n else writes[0]), writes[1..]);
    }
  }

  function Sum(parts: seq<int>): int
    decreases |parts|
  {
    if parts == [] then 0 else parts[0] + Sum(parts[1..])
  }

  lemma {:induction false} SumNotNegative(parts: seq<int>)
    requires Leaves(parts)
    ensures Sum(parts) >= 0
    decreases |parts|
  {
    if parts != [] {
      SumNotNegative(parts[1..]);
    }
  }

  /** Up to the first `write` that fails, what left is what the ones before it took. */
  lemma {:induction false} SentUpTo(n: nat, done: seq<int>, failure: int, more: seq<int>)
    requires Leaves(done) && Sum(done) < n && failure < 0
    ensures Sent(n, done + [failure] + more) == Sum(done)
    decreases |done|
  {
    var writes := done + [failure] + more;
    if done == [] {
      assert writes[0] == failure;
    } else {
      assert writes[0] == done[0] && writes[1..] == done[1..] + [failure] + more;
      SumNotNegative(done[1..]);
      SentUpTo(n - done[0], done[1..], failure, more);
    }
  }

  /** Reads put together what arrives until one of them gets nothing. */
  lemma {:induction false} CollectedUpTo(rx: seq<byte>, n: nat, parts: seq<int>, failure: int, more: seq<int>)
    requires (forall k :: 0 <= k < |parts| ==> parts[k] > 0) && Sum(parts) < n && Sum(parts) <= |rx| && failure <= 0
    ensures Collected(rx, n, parts + [failure] + more) == Sum(parts)
    decreases |parts|
  {
    var chunks := parts + [failure] + more;
    if parts == [] {
      assert chunks[0] == failure;
    } else {
      assert chunks[0] == parts[0] && chunks[1..] == parts[1..] + [failure] + more;
      SumNotNegative(parts[1..]);
      CollectedUpTo(rx[parts[0]..], n - parts[0], parts[1..], failure, more);
    }
  }

  /** A read that is cut short stores what came before the failure; the port is then restarted, unless it cannot even
      be closed. */
  lemma ReadCutShort(rx: seq<byte>, n: nat, calls: ReadCalls, parts: seq<int>, failure: int, more: seq<int>)
    requires calls.select > 0 && calls.chunks == parts + [failure] + more && failure <= 0
    requires (forall k :: 0 <= k < |parts| ==> parts[k] > 0) && 0 <= Sum(parts) < n && Sum(parts) <= |rx|
    ensures var o := Read(rx, n, calls);
            o.got == rx[..Sum(parts)] && o.restarted == (calls.closeError == 0)
            && o.res == if calls.closeError != 0 then calls.closeError else if calls.reopened then -19 else -6
  {
    CollectedUpTo(rx, n, parts, failure, more);
  }

  /** A send of which every `write` works puts the frame on the line. */
  lemma SendWorks(st: State, payload: seq<byte>, calls: SendCalls)
    requires st.Valid() && |payload| <= DATA_SIZE && AllLeave(calls)
    ensures var o := SendPayload(st, payload, calls);
            o.res == 0 && o.seen == [Response(st.packet.idx, payload)] && o.st.tx == st.tx + Frame(st.packet.idx, payload)
            && o.st.closed == st.closed
  {
    hide FrameCrc, LengthBytes, High, Low;
    SentAll(4, calls.header);
    SentAll(|payload|, calls.body);
    SentAll(2, calls.trailer);
  }

  /** Three writes in sequence put a beginning of all their bytes on the line. */
  lemma TransmitCut(head: seq<byte>, body: seq<byte>, tail: seq<byte>, calls: SendCalls) returns (sent: nat)
    ensures var all := head + body + tail;
            sent <= |all| && Transmit(head, body, tail, calls) == (all[..sent], sent == |all|)
  {
    hide Sent;
    var h, m, t := Sent(|head|, calls.header), Sent(|body|, calls.body), Sent(|tail|, calls.trailer);
    var all := head + body + tail;
    if h < |head| {
      sent := h;
      assert all[..sent] == head[..h];
    } else if m < |body| {
      sent := |head| + m;
      assert all[..sent] == head + body[..m];
    } else {
      sent := |head| + |body| + t;
      assert all[..sent] == head + body + tail[..t];
    }
  }

  /** Any send puts a beginning of the frame on the line; it is a response when that is all of it. */
  lemma SendCut(st: State, payload: seq<byte>, calls: SendCalls) returns (sent: nat)
    requires st.Valid() && |payload| <= DATA_SIZE
    ensures sent <= |Frame(st.packet.idx, payload)|
    ensures var o := SendPayload(st, payload, calls);
            o.st.tx == st.tx + Frame(st.packet.idx, payload)[..sent] && o.st.closed == st.closed
            && (if sent == |payload| + 6 then o.res == 0 && o.seen == [Response(st.packet.idx, payload)]
                else o.res == -19 && o.seen == [])
  {
    hide FrameCrc, LengthBytes, High, Low, Transmit, Sent;
    var n, crc := |payload|, FrameCrc(st.packet.idx, payload);
    sent := TransmitCut([START, st.packet.idx] + LengthBytes(n), payload, [High(crc), Low(crc)], calls);
  }

  // Receiving.

  /** A good frame is received and dispatched with its index, its length and, in front of zeros, its payload. */
  lemma Dispatched(cfg: Config, st: State, idx: byte, p: seq<byte>, rest: seq<byte>, e: Event) returns (s: State)
    requires cfg.Valid() && st.Valid() && CleanEvent(e) && |p| <= DATA_SIZE && st.rx == Frame(idx, p) + rest
    ensures s.Valid() && s.packet.idx == idx && s.packet.len == |p| && s.packet.data == Stored(st.packet.data, p)
    ensures s.rx == rest && s.tx == st.tx && s.closed == st.closed
    ensures var o, d := HandleEvent(cfg, st, e), ProcessPayload(cfg, s, e);
            o == d.(seen := [Accepted(idx, p)] + d.seen)
  {
    hide Receive, ProcessPayload, Covered, FrameCrc, High, Low, Update, Stored;
    var item := Good(idx, p);
    var first, more := item.Wire()[..1], item.Wire()[1..] + rest;
    FirstByte(item);
    assert st.rx == first + more;
    CleanRead(st.rx, first, more, e.start);
    assert Overwrite([st.packet.start], first) == first;
    var st1 := st.(rx := more, packet := st.packet.(start := START));
    FrameTail(idx, p, FrameCrc(idx, p), rest);
    FrameReceived(st1, idx, p, FrameCrc(idx, p), rest, e);
    s := Receive(st1, e).st;
    var d := ProcessPayload(cfg, s, e);
    assert s.packet.data[..|p|] == p;
    assert [] + [Accepted(idx, p)] == [Accepted(idx, p)];
    assert ProcessMsg(cfg, st1, e) == d.(seen := [Accepted(idx, p)] + d.seen);
    assert [] + ([Accepted(idx, p)] + d.seen) == [Accepted(idx, p)] + d.seen;
  }

  /** What an event did: its result, the state it leaves, what an observer saw, and what was put on the line. */
  ghost predicate Caused(o: Outcome, st: State, rest: seq<byte>, res: int, closed: bool, seen: seq<Observation>,
                         sent: seq<byte>)
  {
    o.res == res && o.st.closed == closed && o.seen == seen && o.st.tx == st.tx + sent && o.st.rx == rest
  }

  // `XX100`: reset.

  const RESET_FRAME: seq<byte> := [0x58, 0x58, 0x31, 0x30, 0x30]
  const RESET_ANSWER: seq<byte> := [0x00, 0x31, 0x30, 0x30]

  function ResetResult(results: seq<int>, k: nat): int { if k < |results| then results[k] else 0 }

  /** Resets run in order; all of them when all succeed, otherwise up to the first that does not. */
  lemma {:induction false} ResetsRun(resets: seq<nat>, results: seq<int>, k: nat)
    requires k <= |resets| && forall j :: 0 <= j < k ==> ResetResult(results, j) == 0
    requires k < |resets| ==> ResetResult(results, k) != 0
    ensures var res := if k < |resets| then ResetResult(results, k) else 0;
            ExecuteResets(resets, results)
            == (res, AllSucceeded(resets[..k]) + if k < |resets| then [ResetCalled(resets[k], res)] else [])
    decreases |resets|
  {
    var last := if k < |resets| then [ResetCalled(resets[k], ResetResult(results, k))] else [];
    if resets != [] {
      var rest := if results == [] then [] else results[1..];
      assert ResetResult(results, 0) == if results == [] then 0 else results[0];
      if k > 0 {
        forall j | 0 <= j < |resets| ensures ResetResult(rest, j) == ResetResult(results, j + 1) {
        }
        ResetsRun(resets[1..], rest, k - 1);
        assert resets[..k][1..] == resets[1..][..k - 1];
        var call, others := [ResetCalled(resets[0], 0)], AllSucceeded(resets[1..][..k - 1]);
        assert AllSucceeded(resets[..k]) == call + others;
        assert call + (others + last) == (call + others) + last;
      }
    }
    if k == 0 {
      assert AllSucceeded(resets[..k]) == [];
      assert [] + last == last;
    }
  }

  predicate Begins(p: seq<byte>, mark: seq<byte>) { |mark| <= |p| && p[..|mark|] == mark }

  const X: byte := 0x58

  /** The dispatch looks at the payload alone. */
  lemma Marks(data: seq<byte>, p: seq<byte>)
    requires p != [] && |p| <= DATA_SIZE && |data| == DATA_SIZE
    ensures var d := Stored(data, p);
            && |d| == DATA_SIZE && d[0] == p[0] && d[1..][..|p| - 1] == p[1..]
            && (d[..2] == RESET_MARK <==> Begins(p, [X, X])) && (d[..5] == CLOSE_MARK <==> Begins(p, [X, X, X, X, X]))
            && (|p| == 5 && Begins(p, [X, X]) ==> (d[2..5] == VERSION <==> p == RESET_FRAME))
  {
    var d := Stored(data, p);
    assert forall k :: 0 <= k < |p| ==> d[k] == p[k];
    assert forall k :: |p| <= k < DATA_SIZE ==> d[k] == 0;
    assert |p| == 5 ==> d[2..5] == p[2..5] && p == p[..2] + p[2..5];
    assert RESET_FRAME == RESET_MARK + VERSION;
    MarkIs(d, p, RESET_MARK);
    MarkIs(d, p, CLOSE_MARK);
  }

  lemma MarkIs(d: seq<byte>, p: seq<byte>, mark: seq<byte>)
    requires |p| <= |d| && |mark| <= |d| && (forall k :: 0 <= k < |p| ==> d[k] == p[k])
    requires (forall k :: |p| <= k < |d| ==> d[k] == 0) && forall k :: 0 <= k < |mark| ==> mark[k] != 0
    ensures d[..|mark|] == mark <==> Begins(p, mark)
  {
    if d[..|mark|] == mark {
      assert forall k :: 0 <= k < |mark| ==> d[k] == mark[k];
      var k := if |p| < |mark| then |p| else 0;
      assert mark != [] ==> mark[k] == d[k] != 0;
      assert |mark| <= |p|;
      assert p[..|mark|] == d[..|mark|];
    }
    if Begins(p, mark) {
      assert d[..|mark|] == p[..|mark|];
    }
  }

  /** In either state, a reset with the right version runs all registered resets, answers, and opens the bridge. */
  lemma ResetOpens(cfg: Config, st: State, idx: byte, rest: seq<byte>, e: Event)
    requires cfg.Valid() && st.Valid() && CleanEvent(e) && st.rx == Frame(idx, RESET_FRAME) + rest
    requires (forall j :: 0 <= j < |cfg.resets| ==> ResetResult(e.resetResults, j) == 0) && AllLeave(e.answer)
    ensures Caused(HandleEvent(cfg, st, e), st, rest, 0, false,
                   [Accepted(idx, RESET_FRAME)] + (AllSucceeded(cfg.resets) + [Response(idx, RESET_ANSWER)] + [Opened]),
                   Frame(idx, RESET_ANSWER))
  {
    hide HandleEvent, SendPayload, ExecuteResets, AllSucceeded, Frame, Stored;
    var s := Dispatched(cfg, st, idx, RESET_FRAME, rest, e);
    assert RESET_FRAME[..5][2] != X && [X, X, X, X, X][2] == X && RESET_FRAME[..2] == [X, X];
    ResetDispatched(cfg, s, st.packet.data, RESET_FRAME, e);
    ResetsRun(cfg.resets, e.resetResults, |cfg.resets|);
    assert cfg.resets[..|cfg.resets|] == cfg.resets && AllSucceeded(cfg.resets) + [] == AllSucceeded(cfg.resets);
    SendWorks(s, RESET_ANSWER, e.answer);
    assert [OK as byte] + VERSION == RESET_ANSWER;
  }

  lemma ResetDispatched(cfg: Config, s: State, data: seq<byte>, p: seq<byte>, e: Event)
    requires cfg.Valid() && s.Valid() && Sendable(e.run) && p != [] && |p| <= DATA_SIZE && |data| == DATA_SIZE
    requires s.packet.len == |p| && s.packet.data == Stored(data, p) && Begins(p, [X, X])
    requires s.closed || !Begins(p, [X, X, X, X, X])
    ensures ProcessPayload(cfg, s, e) == Reset(cfg, s, e)
    ensures p == RESET_FRAME <==> s.packet.len == |RESET_MARK| + |VERSION| && s.packet.data[2..5] == VERSION
  {
    hide Reset, Close, ProcessCmd, Stored;
    Marks(data, p);
  }

  /** A reset that fails ends the attempt: nothing is answered and the state stays. */
  lemma ResetFails(cfg: Config, st: State, idx: byte, rest: seq<byte>, e: Event, k: nat)
    requires cfg.Valid() && st.Valid() && CleanEvent(e) && st.rx == Frame(idx, RESET_FRAME) + rest && k < |cfg.resets|
    requires (forall j :: 0 <= j < k ==> ResetResult(e.resetResults, j) == 0) && ResetResult(e.resetResults, k) != 0
    ensures var res := ResetResult(e.resetResults, k);
            Caused(HandleEvent(cfg, st, e), st, rest, res, st.closed,
                   [Accepted(idx, RESET_FRAME)] + (AllSucceeded(cfg.resets[..k]) + [ResetCalled(cfg.resets[k], res)]), [])
  {
    hide HandleEvent, SendPayload, ExecuteResets, AllSucceeded, Frame, Stored;
    var s := Dispatched(cfg, st, idx, RESET_FRAME, rest, e);
    assert RESET_FRAME[..5][2] != X && [X, X, X, X, X][2] == X && RESET_FRAME[..2] == [X, X];
    ResetDispatched(cfg, s, st.packet.data, RESET_FRAME, e);
    ResetsRun(cfg.resets, e.resetResults, k);
  }

  /** Anything else that starts with the reset mark is refused, and the state stays. */
  lemma ResetRefused(cfg: Config, st: State, idx: byte, p: seq<byte>, rest: seq<byte>, e: Event)
    requires cfg.Valid() && st.Valid() && CleanEvent(e) && |p| <= DATA_SIZE && st.rx == Frame(idx, p) + rest
    requires Begins(p, [X, X]) && (st.closed || !Begins(p, [X, X, X, X, X])) && p != RESET_FRAME && AllLeave(e.answer)
    ensures Caused(HandleEvent(cfg, st, e), st, rest, -15, st.closed, [Accepted(idx, p)] + [Response(idx, [0xFF])],
                   Frame(idx, [0xFF]))
  {
    hide HandleEvent, SendPayload, ExecuteResets, Frame, Stored;
    var s := Dispatched(cfg, st, idx, p, rest, e);
    ResetDispatched(cfg, s, st.packet.data, p, e);
    SendWorks(s, [NACK], e.answer);
  }

  // `XXXXX`: close.

  /** A close frame to an open bridge is acknowledged, and closes it. */
  lemma CloseCloses(cfg: Config, st: State, idx: byte, rest: seq<byte>, e: Event)
    requires cfg.Valid() && st.Valid() && CleanEvent(e) && !st.closed && AllLeave(e.answer)
    requires st.rx == Frame(idx, [X, X, X, X, X]) + rest
    ensures Caused(HandleEvent(cfg, st, e), st, rest, 0, true,
                   [Accepted(idx, [X, X, X, X, X])] + ([Response(idx, [0x00])] + [Closed]), Frame(idx, [0x00]))
  {
    hide HandleEvent, SendPayload, Frame, Stored, Reset, ProcessCmd;
    var p := [X, X, X, X, X];
    var s := Dispatched(cfg, st, idx, p, rest, e);
    Marks(st.packet.data, p);
    SendWorks(s, [ACK], e.answer);
  }

  /** A longer one is not answered. */
  lemma CloseRefused(cfg: Config, st: State, idx: byte, p: seq<byte>, rest: seq<byte>, e: Event)
    requires cfg.Valid() && st.Valid() && CleanEvent(e) && |p| <= DATA_SIZE && st.rx == Frame(idx, p) + rest
    requires !st.closed && Begins(p, [X, X, X, X, X]) && |p| != 5
    ensures Caused(HandleEvent(cfg, st, e), st, rest, -15, false, [Accepted(idx, p)] + [], [])
  {
    hide HandleEvent, Frame, Stored, Reset, ProcessCmd;
    var s := Dispatched(cfg, st, idx, p, rest, e);
    Marks(st.packet.data, p);
  }

  /** Without the answer there is no change: a close or a reset whose answer does not leave completely changes no state. */
  lemma UnansweredChangesNothing(cfg: Config, st: State, idx: byte, p: seq<byte>, rest: seq<byte>, e: Event)
    requires p == RESET_FRAME || (p == [X, X, X, X, X] && !st.closed)
    requires cfg.Valid() && st.Valid() && CleanEvent(e) && st.rx == Frame(idx, p) + rest
    ensures var o := HandleEvent(cfg, st, e);
            o.res != 0 ==> o.st.closed == st.closed && Opened !in o.seen && Closed !in o.seen
  {
    hide HandleEvent, SendPayload, ExecuteResets, Frame, Stored, AllSucceeded;
    var s := Dispatched(cfg, st, idx, p, rest, e);
    Marks(st.packet.data, p);
    if p == RESET_FRAME {
      assert RESET_FRAME[..5][2] != X && [X, X, X, X, X][2] == X && RESET_FRAME[..2] == [X, X];
      ResetDispatched(cfg, s, st.packet.data, p, e);
      ResetsOnlyCall(cfg.resets, e.resetResults);
      var cut := SendCut(s, [OK as byte] + VERSION, e.answer);
    } else {
      var cut := SendCut(s, [ACK], e.answer);
    }
  }

  lemma {:induction false} ResetsOnlyCall(resets: seq<nat>, results: seq<int>)
    ensures forall o | o in ExecuteResets(resets, results).1 :: o.ResetCalled?
    decreases |resets|
  {
    if resets != [] {
      ResetsOnlyCall(resets[1..], if results == [] then [] else results[1..]);
    }
  }

  // Everything else.

  /** A closed bridge does nothing with a frame that is no reset. */
  lemma ClosedIgnores(cfg: Config, st: State, idx: byte, p: seq<byte>, rest: seq<byte>, e: Event)
    requires cfg.Valid() && st.Valid() && CleanEvent(e) && 0 < |p| <= DATA_SIZE && st.rx == Frame(idx, p) + rest
    requires st.closed && !Begins(p, [X, X])
    ensures Caused(HandleEvent(cfg, st, e), st, rest, -15, true, [Accepted(idx, p)] + [], [])
  {
    hide HandleEvent, Frame, Stored, Reset, ProcessCmd, Close;
    var s := Dispatched(cfg, st, idx, p, rest, e);
    Marks(st.packet.data, p);
  }

  predicate IsCommand(p: seq<byte>) { p != [] && !Begins(p, [X, X]) }

  /** A command nobody registered for is refused. */
  lemma CommandRefused(cfg: Config, st: State, idx: byte, p: seq<byte>, rest: seq<byte>, e: Event)
    requires cfg.Valid() && st.Valid() && CleanEvent(e) && |p| <= DATA_SIZE && st.rx == Frame(idx, p) + rest
    requires !st.closed && IsCommand(p) && !cfg.processors[p[0] as nat].Usable() && AllLeave(e.answer)
    ensures Caused(HandleEvent(cfg, st, e), st, rest, -15, false, [Accepted(idx, p)] + [Response(idx, [0xFF])],
                   Frame(idx, [0xFF]))
  {
    hide HandleEvent, SendPayload, Frame, Stored, Reset, Close;
    var s := Dispatched(cfg, st, idx, p, rest, e);
    Marks(st.packet.data, p);
    SendWorks(s, [NACK], e.answer);
  }

  /** The responses of a processor all of whose writes work. */
  function Responses(idx: byte, sends: seq<(seq<byte>, SendCalls)>): seq<Observation>
    decreases |sends|
  {
    if sends == [] then [] else [Response(idx, sends[0].0)] + Responses(idx, sends[1..])
  }

  function Frames(idx: byte, sends: seq<(seq<byte>, SendCalls)>): seq<byte>
    requires forall k :: 0 <= k < |sends| ==> |sends[k].0| <= DATA_SIZE
    decreases |sends|
  {
    if sends == [] then [] else Frame(idx, sends[0].0) + Frames(idx, sends[1..])
  }

  lemma {:induction false} ProcessorSends(st: State, sends: seq<(seq<byte>, SendCalls)>)
    requires st.Valid() && forall k :: 0 <= k < |sends| ==> |sends[k].0| <= DATA_SIZE && AllLeave(sends[k].1)
    ensures RunProcessor(st, sends).seen == Responses(st.packet.idx, sends)
    ensures RunProcessor(st, sends).st.tx == st.tx + Frames(st.packet.idx, sends)
    decreases |sends|
  {
    hide SendPayload, RunProcessor, Frame, AllLeave;
    if sends != [] {
      var first := SendPayload(st, sends[0].0, sends[0].1);
      RunCons(st, sends);
      SendWorks(st, sends[0].0, sends[0].1);
      ProcessorSends(first.st, sends[1..]);
      var a, b := Frame(st.packet.idx, sends[0].0), Frames(st.packet.idx, sends[1..]);
      assert st.tx + a + b == st.tx + (a + b);
    } else {
      NoSends(st);
    }
  }

  /** A command with a registered processor calls it once, with the command byte, the bytes behind it and their number;
      what follows are the processor's responses, and its result is the result. */
  lemma CommandCalls(cfg: Config, st: State, idx: byte, p: seq<byte>, rest: seq<byte>, e: Event)
      returns (args: seq<byte>)
    requires cfg.Valid() && st.Valid() && CleanEvent(e) && |p| <= DATA_SIZE && st.rx == Frame(idx, p) + rest
    requires !st.closed && IsCommand(p) && cfg.processors[p[0] as nat].Usable()
    requires forall k :: 0 <= k < |e.run.sends| ==> AllLeave(e.run.sends[k].1)
    ensures |p| - 1 <= |args| && args[..|p| - 1] == p[1..]
    ensures Caused(HandleEvent(cfg, st, e), st, rest, e.run.res, false,
                   [Accepted(idx, p)] + ([ProcessorCalled(cfg.processors[p[0] as nat], p[0], args, |p| - 1)]
                                         + Responses(idx, e.run.sends)),
                   Frames(idx, e.run.sends))
  {
    hide HandleEvent, RunProcessor, Frame, Stored, Reset, Close;
    var s := Dispatched(cfg, st, idx, p, rest, e);
    Marks(st.packet.data, p);
    ProcessorSends(s, e.run.sends);
    args := s.packet.data[1..];
  }

  /** What is dispatched depends on what the packet held before exactly when the frame is empty. */
  lemma OwnPayloadExactly(p: seq<byte>)
    requires |p| <= DATA_SIZE
    ensures (forall d, e: seq<byte> :: |d| == |e| == DATA_SIZE ==> Stored(d, p) == Stored(e, p)) <==> p != []
  {
    if p == [] {
      var d, e: seq<byte> := seq(DATA_SIZE, _ => 0), seq(DATA_SIZE, _ => 1);
      assert d[0] != e[0];
      assert Stored(d, p) != Stored(e, p);
    }
  }

  /** An empty frame is dispatched on what an earlier frame left in the packet: the processor of its first byte is called
      with the number of bytes behind a command byte that is not there, which wraps. */
  lemma EmptyFrameCallsStaleCommand(cfg: Config, st: State, idx: byte, rest: seq<byte>, e: Event)
    requires cfg.Valid() && st.Valid() && CleanEvent(e) && st.rx == Frame(idx, []) + rest && !st.closed
    requires st.packet.data[0] != X && cfg.processors[st.packet.data[0] as nat].Usable()
    ensures var o, cmd := HandleEvent(cfg, st, e), st.packet.data[0];
            |o.seen| >= 2 && o.seen[0] == Accepted(idx, [])
            && o.seen[1] == ProcessorCalled(cfg.processors[cmd as nat], cmd, st.packet.data[1..], 0xFFFF_FFFF)
  {
    hide HandleEvent, RunProcessor, Frame, Reset, Close;
    var s := Dispatched(cfg, st, idx, [], rest, e);
    assert s.packet.data[..2][0] != X && s.packet.data[..5][0] != X;
  }

  /** What is no good frame causes nothing: no observation, no byte sent, no change of state. */
  lemma OthersCauseNothing(cfg: Config, st: State, item: Item, rest: seq<byte>, e: Event)
    requires cfg.Valid() && st.Valid() && CleanEvent(e) && item.Valid() && !item.Good? && st.rx == item.Wire() + rest
    ensures Caused(HandleEvent(cfg, st, e), st, rest, if item.Noise? then 1 else if item.Damaged? then -15 else -3,
                   st.closed, [], [])
  {
    hide Receive, Covered, FrameCrc, High, Low, LengthBytes, Update;
    var first, more := item.Wire()[..1], item.Wire()[1..] + rest;
    FirstByte(item);
    assert st.rx == first + more;
    CleanRead(st.rx, first, more, e.start);
    assert Overwrite([st.packet.start], first) == first;
    assert st.tx + [] == st.tx;
    var st1 := st.(rx := more, packet := st.packet.(start := START));
    match item
    case Noise(_) =>
    case Oversized(idx, len) =>
      assert more == [idx] + (LengthBytes(len) + rest);
      OversizedReceived(st1, idx, len, rest, e);
    case Damaged(idx, payload, crc) =>
      FrameTail(idx, payload, crc, rest);
      FrameReceived(st1, idx, payload, crc, rest, e);
  }

  /** Nothing at the line: no byte is taken and nothing happens; a line that fails restarts the port, which opens the
      bridge. */
  lemma NoStart(cfg: Config, st: State, e: Event)
    requires cfg.Valid() && st.Valid() && Sendable(e.run)
    ensures e.start.select == 0 ==> Caused(HandleEvent(cfg, st, e), st, st.rx, 0, st.closed, [], [])
    ensures e.start.select < 0 ==> Caused(HandleEvent(cfg, st, e), st, st.rx, -19, st.closed, [], [])
    ensures e.start.select > 0 && e.start.chunks != [] && e.start.chunks[0] <= 0 && e.start.closeError == 0
        ==> Caused(HandleEvent(cfg, st, e), st, st.rx, if e.start.reopened then -19 else -6, false, [Restarted], [])
  {
    hide ProcessMsg;
    assert st.tx + [] == st.tx && st.rx[0..] == st.rx;
  }
}
