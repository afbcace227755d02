/** Safety of the bridge session over whole runs, whatever the operating system and the command processors do. */
module SessionSafety {
  import opened Bytes
  import Crc
  import opened Packet
  import opened Session

  /** Whether the bridge is closed after an observation. */
  function ClosedAfter(closed: bool, o: Observation): bool {
    match o
    case Closed => true
    case Opened => false
    case Restarted => false
    case _ => closed
  }

  /** Whether the bridge is closed after a log that started in the state `closed`. */
  function Replay(closed: bool, log: seq<Observation>): bool
    decreases |log|
  {
    if log == [] then closed else Replay(ClosedAfter(closed, log[0]), log[1..])
  }

  /** The log up to k ends with an accepted close frame of exactly five bytes and its acknowledgement. */
  ghost predicate AcknowledgedClose(log: seq<Observation>, k: nat)
    requires k <= |log|
  {
    k >= 2 && log[k - 2].Accepted? && log[k - 2].payload == CLOSE_MARK
    && log[k - 1] == Response(log[k - 2].idx, [ACK])
  }

  function AllSucceeded(resets: seq<nat>): (calls: seq<Observation>)
    ensures |calls| == |resets|
  {
    seq(|resets|, k requires 0 <= k < |resets| => ResetCalled(resets[k], OK))
  }

  /** The log up to k ends with an accepted reset frame carrying the bridge's version, every registered reset called
      in order and successful, and the response. */
  ghost predicate AnsweredReset(cfg: Config, log: seq<Observation>, k: nat)
    requires k <= |log|
  {
    var n := |cfg.resets|;
    k >= n + 2 && log[k - n - 2].Accepted? && log[k - n - 2].payload == RESET_MARK + VERSION
    && log[k - n - 1..k - 1] == AllSucceeded(cfg.resets)
    && log[k - 1] == Response(log[k - n - 2].idx, [OK as byte] + VERSION)
  }

  /** What has to be true just before an observation. */
  ghost predicate SafeAt(cfg: Config, closed: bool, log: seq<Observation>, k: nat)
    requires cfg.Valid() && k < |log|
  {
    match log[k]
    case ProcessorCalled(processor, cmd, _, _) =>
      !Replay(closed, log[..k]) && processor == cfg.ProcessorOf(cmd) && processor.Usable()
    case Closed => AcknowledgedClose(log, k)
    case Opened => AnsweredReset(cfg, log, k)
    case _ => true
  }

  ghost predicate Safe(cfg: Config, closed: bool, log: seq<Observation>)
    requires cfg.Valid()
  {
    forall k :: 0 <= k < |log| ==> SafeAt(cfg, closed, log, k)
  }

  lemma {:induction false} ReplayConcat(closed: bool, a: seq<Observation>, b: seq<Observation>)
    ensures Replay(closed, a + b) == Replay(Replay(closed, a), b)
    decreases |a|
  {
    if a == [] {
      assert a + b == b;
    } else {
      assert (a + b)[1..] == a[1..] + b;
      ReplayConcat(ClosedAfter(closed, a[0]), a[1..], b);
    }
  }

  lemma SafeLeft(cfg: Config, closed: bool, a: seq<Observation>, b: seq<Observation>, k: nat)
    requires cfg.Valid() && k < |a| && SafeAt(cfg, closed, a, k)
    ensures SafeAt(cfg, closed, a + b, k)
  {
    var n := |cfg.resets|;
    assert (a + b)[..k] == a[..k];
    if k >= n + 2 {
      assert (a + b)[k - n - 1..k - 1] == a[k - n - 1..k - 1];
    }
  }

  lemma SafeRight(cfg: Config, closed: bool, a: seq<Observation>, b: seq<Observation>, k: nat)
    requires cfg.Valid() && k < |b| && SafeAt(cfg, Replay(closed, a), b, k)
    ensures SafeAt(cfg, closed, a + b, |a| + k)
  {
    var n, j := |cfg.resets|, |a| + k;
    assert (a + b)[..j] == a + b[..k];
    ReplayConcat(closed, a, b[..k]);
    if k >= n + 2 {
      assert (a + b)[j - n - 1..j - 1] == b[k - n - 1..k - 1];
    }
  }

  /** Safe logs in sequence are a safe log. */
  lemma SafeConcat(cfg: Config, closed: bool, a: seq<Observation>, b: seq<Observation>)
    requires cfg.Valid() && Safe(cfg, closed, a) && Safe(cfg, Replay(closed, a), b)
    ensures Safe(cfg, closed, a + b)
  {
    hide SafeAt;
    forall k | 0 <= k < |a + b|
      ensures SafeAt(cfg, closed, a + b, k)
    {
      if k < |a| {
        SafeLeft(cfg, closed, a, b, k);
      } else {
        SafeRight(cfg, closed, a, b, k - |a|);
      }
    }
  }

  /** Observations that never change or depend on the state. */
  ghost predicate Quiet(log: seq<Observation>) {
    forall o | o in log :: o.Accepted? || o.ResetCalled? || o.Response?
  }

  lemma {:induction false} QuietReplay(closed: bool, log: seq<Observation>)
    requires Quiet(log)
    ensures Replay(closed, log) == closed
    decreases |log|
  {
    if log != [] {
      assert log[0] in log;
      QuietReplay(closed, log[1..]);
    }
  }

  /** A quiet log followed by one observation that is safe after it. */
  lemma QuietThen(cfg: Config, closed: bool, log: seq<Observation>, last: Observation)
    requires cfg.Valid() && Quiet(log) && SafeAt(cfg, closed, log + [last], |log|)
    ensures Safe(cfg, closed, log + [last]) && Replay(closed, log + [last]) == ClosedAfter(closed, last)
  {
    ReplayConcat(closed, log, [last]);
    QuietReplay(closed, log);
    assert [last][1..] == [];
  }

  /** A send either completes and is seen, or fails and is not. */
  lemma SendSeen(st: State, payload: seq<byte>, calls: SendCalls)
    requires st.Valid() && |payload| <= DATA_SIZE
    ensures var o := SendPayload(st, payload, calls);
            o.seen == if o.res == OK then [Response(st.packet.idx, payload)] else []
  {
    hide FrameCrc, Sent;
  }

  lemma {:induction false} RunProcessorQuiet(st: State, sends: seq<(seq<byte>, SendCalls)>)
    requires st.Valid() && forall k :: 0 <= k < |sends| ==> |sends[k].0| <= DATA_SIZE
    ensures Quiet(RunProcessor(st, sends).seen)
    decreases |sends|
  {
    if sends != [] {
      hide SendPayload;
      SendSeen(st, sends[0].0, sends[0].1);
      RunProcessorQuiet(SendPayload(st, sends[0].0, sends[0].1).st, sends[1..]);
    }
  }

  lemma {:induction false} ResetsQuiet(resets: seq<nat>, results: seq<int>)
    ensures var r := ExecuteResets(resets, results);
            Quiet(r.1) && (r.0 == OK ==> r.1 == AllSucceeded(resets))
    decreases |resets|
  {
    if resets != [] {
      ResetsQuiet(resets[1..], if results == [] then [] else results[1..]);
      assert AllSucceeded(resets) == [ResetCalled(resets[0], OK)] + AllSucceeded(resets[1..]);
    }
  }

  /** The state of the bridge is what its log says, and the log is safe. */
  ghost predicate Explained(cfg: Config, before: bool, after: bool, log: seq<Observation>)
    requires cfg.Valid()
  {
    Safe(cfg, before, log) && after == Replay(before, log)
  }

  lemma QuietExplained(cfg: Config, closed: bool, log: seq<Observation>)
    requires cfg.Valid() && Quiet(log)
    ensures Explained(cfg, closed, closed, log)
  {
    QuietReplay(closed, log);
  }

  lemma CmdSafe(cfg: Config, st: State, e: Event, a: Observation)
    requires cfg.Valid() && st.Valid() && Sendable(e.run) && !st.closed && a.Accepted?
    ensures var o := ProcessCmd(cfg, st, e); Explained(cfg, st.closed, o.st.closed, [a] + o.seen)
  {
    var o := ProcessCmd(cfg, st, e);
    hide SendPayload;
    SendSeen(st, [NACK], e.answer);
    var processor := cfg.ProcessorOf(st.packet.data[0]);
    if processor.Usable() {
      var ran := RunProcessor(st, e.run.sends).seen;
      var call := o.seen[0];
      RunProcessorQuiet(st, e.run.sends);
      assert [a] + o.seen == ([a] + [call]) + ran;
      QuietThen(cfg, st.closed, [a], call);
      QuietExplained(cfg, st.closed, ran);
      SafeConcat(cfg, st.closed, [a] + [call], ran);
      ReplayConcat(st.closed, [a] + [call], ran);
    } else {
      QuietExplained(cfg, st.closed, [a] + o.seen);
    }
  }

  lemma CloseSafe(cfg: Config, st: State, e: Event)
    requires cfg.Valid() && st.Valid() && st.packet.len <= DATA_SIZE && st.packet.data[..5] == CLOSE_MARK
    ensures var o := Close(st, e);
            Explained(cfg, st.closed, o.st.closed, [Accepted(st.packet.idx, st.packet.data[..st.packet.len])] + o.seen)
  {
    var a := Accepted(st.packet.idx, st.packet.data[..st.packet.len]);
    hide SendPayload;
    SendSeen(st, [ACK], e.answer);
    var o := Close(st, e);
    if o.res == OK {
      var ack := SendPayload(st, [ACK], e.answer).seen;
      assert [a] + o.seen == ([a] + ack) + [Closed];
      QuietThen(cfg, st.closed, [a] + ack, Closed);
    } else {
      QuietExplained(cfg, st.closed, [a] + o.seen);
    }
  }

  lemma ResetSafe(cfg: Config, st: State, e: Event)
    requires cfg.Valid() && st.Valid() && st.packet.len <= DATA_SIZE && st.packet.data[..2] == RESET_MARK
    ensures var o := Reset(cfg, st, e);
            Explained(cfg, st.closed, o.st.closed, [Accepted(st.packet.idx, st.packet.data[..st.packet.len])] + o.seen)
  {
    var a := Accepted(st.packet.idx, st.packet.data[..st.packet.len]);
    var o := Reset(cfg, st, e);
    hide SendPayload;
    SendSeen(st, [NACK], e.answer);
    SendSeen(st, [OK as byte] + VERSION, e.answer);
    ResetsQuiet(cfg.resets, e.resetResults);
    if o.res == OK {
      var rsp := Response(st.packet.idx, [OK as byte] + VERSION);
      assert st.packet.data[..5] == st.packet.data[..2] + st.packet.data[2..5];
      assert o.seen == AllSucceeded(cfg.resets) + [rsp] + [Opened];
      OpenedSafe(cfg, st.closed, a, rsp);
      assert [a] + o.seen == [a] + AllSucceeded(cfg.resets) + [rsp] + [Opened];
    } else {
      hide Explained;
      QuietExplained(cfg, st.closed, [a] + o.seen);
    }
  }

  lemma OpenedSafe(cfg: Config, closed: bool, a: Observation, rsp: Observation)
    requires cfg.Valid() && a.Accepted? && a.payload == RESET_MARK + VERSION && rsp == Response(a.idx, [OK as byte] + VERSION)
    ensures Explained(cfg, closed, false, [a] + AllSucceeded(cfg.resets) + [rsp] + [Opened])
  {
    var log := [a] + AllSucceeded(cfg.resets) + [rsp];
    assert (log + [Opened])[1..|cfg.resets| + 1] == AllSucceeded(cfg.resets);
    QuietThen(cfg, closed, log, Opened);
  }

  lemma PayloadSafe(cfg: Config, st: State, e: Event)
    requires cfg.Valid() && st.Valid() && Sendable(e.run) && st.packet.len <= DATA_SIZE
    ensures var o := ProcessPayload(cfg, st, e);
            Explained(cfg, st.closed, o.st.closed, [Accepted(st.packet.idx, st.packet.data[..st.packet.len])] + o.seen)
  {
    var a := Accepted(st.packet.idx, st.packet.data[..st.packet.len]);
    if st.packet.data[..2] == RESET_MARK && (st.closed || st.packet.data[..5] != CLOSE_MARK) {
      ResetSafe(cfg, st, e);
    } else if st.closed {
      QuietExplained(cfg, st.closed, [a]);
      assert [a] + [] == [a];
    } else if st.packet.data[..5] == CLOSE_MARK {
      CloseSafe(cfg, st, e);
    } else {
      CmdSafe(cfg, st, e, a);
    }
  }

  lemma ReadSafe(cfg: Config, st: State, n: nat, calls: ReadCalls)
    requires cfg.Valid()
    ensures var r := Read(st.rx, n, calls);
            Explained(cfg, st.closed, AfterRead(st, r).closed, SeenRead(r)) && (r.res == n > 0 ==> SeenRead(r) == [])
  {
    assert [Restarted][1..] == [];
  }

  lemma ExplainedConcat(cfg: Config, c0: bool, c1: bool, c2: bool, a: seq<Observation>, b: seq<Observation>)
    requires cfg.Valid() && Explained(cfg, c0, c1, a) && Explained(cfg, c1, c2, b)
    ensures Explained(cfg, c0, c2, a + b)
  {
    SafeConcat(cfg, c0, a, b);
    ReplayConcat(c0, a, b);
  }

  lemma StagesSafe(cfg: Config, st: State, calls: ReadCalls)
    requires cfg.Valid() && st.Valid()
    ensures Explained(cfg, st.closed, ReadIdx(st, calls).st.closed, ReadIdx(st, calls).seen)
    ensures Explained(cfg, st.closed, ReadLength(st, calls).st.closed, ReadLength(st, calls).seen)
    ensures Explained(cfg, st.closed, ReadCrc(st, calls).st.closed, ReadCrc(st, calls).seen)
  {
    ReadSafe(cfg, st, 1, calls);
    ReadSafe(cfg, st, 2, calls);
    hide Explained, Overwrite, Read, Crc.Update;
  }

  lemma PayloadStageSafe(cfg: Config, st: State, calls: ReadCalls)
    requires cfg.Valid() && st.Valid() && st.packet.len <= DATA_SIZE
    ensures Explained(cfg, st.closed, ReadPayload(st, calls).st.closed, ReadPayload(st, calls).seen)
  {
    QuietExplained(cfg, st.closed, []);
    ReadSafe(cfg, st, st.packet.len, calls);
    hide Explained, Overwrite, Read, Crc.Update;
  }

  lemma ThenSafe(cfg: Config, closed: bool, first: Outcome, second: Outcome)
    requires cfg.Valid() && Explained(cfg, closed, first.st.closed, first.seen)
    requires first.res == OK ==> Explained(cfg, first.st.closed, second.st.closed, second.seen)
    ensures Explained(cfg, closed, Then(first, second).st.closed, Then(first, second).seen)
  {
    if first.res == OK {
      ExplainedConcat(cfg, closed, first.st.closed, second.st.closed, first.seen, second.seen);
    }
  }

  lemma LengthAndPayloadSafe(cfg: Config, st: State, e: Event)
    requires cfg.Valid() && st.Valid()
    ensures var o := ReadLengthAndPayload(st, e); Explained(cfg, st.closed, o.st.closed, o.seen)
  {
    hide Explained, ReadLength, ReadPayload, Then;
    var length := ReadLength(st, e.len);
    StagesSafe(cfg, st, e.len);
    if length.res == OK {
      PayloadStageSafe(cfg, length.st, e.payload);
      ThenSafe(cfg, st.closed, length, ReadPayload(length.st, e.payload));
    }
  }

  lemma ReceiveSafe(cfg: Config, st: State, e: Event)
    requires cfg.Valid() && st.Valid()
    ensures var o := Receive(st, e); Explained(cfg, st.closed, o.st.closed, o.seen)
  {
    hide Explained, ReadIdx, ReadLengthAndPayload, ReadCrc, Then;
    var s0 := st.(packet := st.packet.(crc := Crc.Update(Crc.RESET, [st.packet.start])));
    StagesSafe(cfg, s0, e.idx);
    var o1 := ReadIdx(s0, e.idx);
    if o1.res == OK {
      var second := ReadLengthAndPayload(o1.st, e);
      LengthAndPayloadSafe(cfg, o1.st, e);
      ThenSafe(cfg, st.closed, o1, second);
      ThenResult(o1, second);
      var o2 := Then(o1, second);
      if o2.res == OK {
        StagesSafe(cfg, o2.st, e.crc);
        ThenSafe(cfg, st.closed, o2, ReadCrc(o2.st, e.crc));
      }
    }
  }

  lemma ThenResult(first: Outcome, second: Outcome)
    requires first.res == OK
    ensures Then(first, second).res == second.res && Then(first, second).st == second.st
  {
  }

  lemma EventSafe(cfg: Config, st: State, e: Event)
    requires cfg.Valid() && st.Valid() && Sendable(e.run)
    ensures var o := HandleEvent(cfg, st, e); Explained(cfg, st.closed, o.st.closed, o.seen)
  {
    hide Explained, Receive, ProcessPayload, Read;
    var r := Read(st.rx, 1, e.start);
    var st1 := AfterRead(st, r).(packet := st.packet.(start := Overwrite([st.packet.start], r.got)[0]));
    ReadSafe(cfg, st, 1, e.start);
    if r.res > 0 && st1.packet.start == START {
      var received := Receive(st1, e);
      var done := ProcessMsg(cfg, st1, e);
      ReceiveSafe(cfg, st1, e);
      if received.res == OK {
        var p := received.st.packet;
        PayloadSafe(cfg, received.st, e);
        var handled := [Accepted(p.idx, p.data[..p.len])] + ProcessPayload(cfg, received.st, e).seen;
        ExplainedConcat(cfg, st1.closed, received.st.closed, done.st.closed, received.seen, handled);
        assert done.seen == received.seen + handled;
      }
      ExplainedConcat(cfg, st.closed, st1.closed, done.st.closed, SeenRead(r), done.seen);
    }
  }

  /** Over a whole run from any state: a command processor is called only while the bridge is open, and it is the
      registered one; the bridge closes only after an acknowledged close frame of five bytes; apart from a restart
      of the port it opens only after a reset frame with the right version whose registered resets all succeeded in
      order and whose response was sent. */
  lemma {:induction false} RunSafe(cfg: Config, st: State, events: seq<Event>)
    requires cfg.Valid() && st.Valid() && forall k :: 0 <= k < |events| ==> Sendable(events[k].run)
    ensures var (final, log) := Run(cfg, st, events);
            Safe(cfg, st.closed, log) && final.closed == Replay(st.closed, log)
    decreases |events|
  {
    if events != [] {
      var first := HandleEvent(cfg, st, events[0]);
      var (final, log) := Run(cfg, first.st, events[1..]);
      EventSafe(cfg, st, events[0]);
      RunSafe(cfg, first.st, events[1..]);
      ExplainedConcat(cfg, st.closed, first.st.closed, final.closed, first.seen, log);
    }
  }
}
