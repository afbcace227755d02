/** What a whole byte stream decodes to, and what the bridge answers. */
module SessionStream {
  import opened Bytes
  import opened Crc
  import opened Packet
  import opened Session

  // Requests and answers of a log.

  datatype Request = Request(idx: byte, payload: seq<byte>)

  /** The frames a log says were accepted, in order. */
  function Requests(log: seq<Observation>): seq<Request>
    decreases |log|
  {
    if log == [] then []
    else (if log[0].Accepted? then [Request(log[0].idx, log[0].payload)] else []) + Requests(log[1..])
  }

  /** The indices under which a log says responses were sent, in order. */
  function Answers(log: seq<Observation>): seq<byte>
    decreases |log|
  {
    if log == [] then [] else (if log[0].Response? then [log[0].idx] else []) + Answers(log[1..])
  }

  lemma {:induction false} RequestsConcat(a: seq<Observation>, b: seq<Observation>)
    ensures Requests(a + b) == Requests(a) + Requests(b)
    decreases |a|
  {
    if a == [] {
      assert a + b == b;
    } else {
      assert (a + b)[1..] == a[1..] + b;
      RequestsConcat(a[1..], b);
      var first := if a[0].Accepted? then [Request(a[0].idx, a[0].payload)] else [];
      assert (first + Requests(a[1..])) + Requests(b) == first + (Requests(a[1..]) + Requests(b));
    }
  }

  lemma {:induction false} AnswersConcat(a: seq<Observation>, b: seq<Observation>)
    ensures Answers(a + b) == Answers(a) + Answers(b)
    decreases |a|
  {
    if a == [] {
      assert a + b == b;
    } else {
      assert (a + b)[1..] == a[1..] + b;
      AnswersConcat(a[1..], b);
      var first := if a[0].Response? then [a[0].idx] else [];
      assert (first + Answers(a[1..])) + Answers(b) == first + (Answers(a[1..]) + Answers(b));
    }
  }

  lemma FiltersConcat(a: seq<Observation>, b: seq<Observation>)
    ensures Requests(a + b) == Requests(a) + Requests(b) && Answers(a + b) == Answers(a) + Answers(b)
  {
    RequestsConcat(a, b);
    AnswersConcat(a, b);
  }

  lemma FiltersOne(o: Observation)
    ensures Requests([o]) == if o.Accepted? then [Request(o.idx, o.payload)] else []
    ensures Answers([o]) == if o.Response? then [o.idx] else []
  {
    assert [o][1..] == [];
  }

  // Clean reads: the line delivers what is there, in chunks of any size.

  ghost predicate Clean(calls: ReadCalls) {
    calls.select > 0 && forall k :: 0 <= k < |calls.chunks| ==> calls.chunks[k] > 0
  }

  ghost predicate CleanEvent(e: Event) {
    Clean(e.start) && Clean(e.idx) && Clean(e.len) && Clean(e.payload) && Clean(e.crc) && Sendable(e.run)
  }

  lemma {:induction false} AllCollected(rx: seq<byte>, n: nat, chunks: seq<int>)
    requires n <= |rx| && forall k :: 0 <= k < |chunks| ==> chunks[k] > 0
    ensures Collected(rx, n, chunks) == n
    decreases n
  {
    if n > 0 {
      var m := ReadResult(rx, n, chunks);
      AllCollected(rx[m..], n - m, if chunks == [] then [] else chunks[1..]);
    }
  }

  /** Partial reads put together what one read would have returned. */
  lemma CleanRead(rx: seq<byte>, got: seq<byte>, rest: seq<byte>, calls: ReadCalls)
    requires rx == got + rest && Clean(calls)
    ensures Read(rx, |got|, calls) == ReadOutcome(|got|, got, false) && rx[|got|..] == rest
  {
    AllCollected(rx, |got|, calls.chunks);
  }

  // The stages of a reception on a clean line.

  lemma IdxStage(st: State, idx: byte, rest: seq<byte>, calls: ReadCalls)
    requires st.Valid() && st.rx == [idx] + rest && Clean(calls)
    ensures ReadIdx(st, calls) ==
            Outcome(st.(rx := rest, packet := st.packet.(idx := idx, crc := Update(st.packet.crc, [idx]))), OK, [])
  {
    hide Update;
    CleanRead(st.rx, [idx], rest, calls);
    assert Overwrite([st.packet.idx], [idx]) == [idx];
  }

  lemma LengthStage(st: State, n: nat, rest: seq<byte>, calls: ReadCalls)
    requires st.Valid() && n < 0x1_0000 && st.rx == LengthBytes(n) + rest && Clean(calls)
    ensures ReadLength(st, calls) ==
            Outcome(st.(rx := rest, packet := st.packet.(len := n, crc := Update(st.packet.crc, LengthBytes(n)))),
                    if n > DATA_SIZE then OUT_OF_RANGE else OK, [])
  {
    hide Update, LengthBytes, LengthOf;
    CleanRead(st.rx, LengthBytes(n), rest, calls);
    LengthRoundTrip(n);
    assert Overwrite(Reverse(LengthBytes(st.packet.len)), LengthBytes(n)) == LengthBytes(n);
  }

  /** What the data field holds behind a reception: the payload and zeros, or, behind an empty payload, what it held
      before. */
  function Stored(data: seq<byte>, payload: seq<byte>): seq<byte>
    requires |payload| <= DATA_SIZE
  {
    if payload == [] then data else payload + seq(DATA_SIZE - |payload|, _ => 0)
  }

  lemma PayloadStage(st: State, payload: seq<byte>, rest: seq<byte>, calls: ReadCalls)
    requires st.Valid() && st.packet.len == |payload| <= DATA_SIZE && st.rx == payload + rest && Clean(calls)
    ensures var o := ReadPayload(st, calls);
            && o.res == OK && o.seen == [] && o.st.rx == rest && o.st.closed == st.closed
            && o.st.tx == st.tx && o.st.packet.data == Stored(st.packet.data, payload)
            && o.st.packet.data[..|payload|] == payload
            && o.st.packet == st.packet.(data := o.st.packet.data, crc := Update(st.packet.crc, payload))
  {
    hide Update;
    if |payload| > 0 {
      CleanRead(st.rx, payload, rest, calls);
    } else {
      assert payload == [];
    }
  }

  lemma CrcStage(st: State, crc: bv16, rest: seq<byte>, calls: ReadCalls)
    requires st.Valid() && st.rx == [High(crc), Low(crc)] + rest && Clean(calls)
    ensures ReadCrc(st, calls) == Outcome(st.(rx := rest, packet := st.packet.(rxCrc := crc)),
                                          if st.packet.crc != crc then BAD_PARAMETER else OK, [])
  {
    CleanRead(st.rx, [High(crc), Low(crc)], rest, calls);
    JoinSplit(crc);
    hide Join, High, Low;
    assert Overwrite([Low(st.packet.rxCrc), High(st.packet.rxCrc)], [High(crc), Low(crc)]) == [High(crc), Low(crc)];
  }

  lemma CoveredCrc(idx: byte, payload: seq<byte>)
    requires |payload| < 0x1_0000
    ensures Update(Update(Update(Update(RESET, [START]), [idx]), LengthBytes(|payload|)), payload) == FrameCrc(idx, payload)
  {
    hide Update, LengthBytes;
    var b := LengthBytes(|payload|);
    UpdateConcat(RESET, [START], [idx]);
    assert [START] + [idx] == [START, idx];
    UpdateConcat(RESET, [START, idx], b);
    UpdateConcat(RESET, [START, idx] + b, payload);
  }

  /** A frame whose start byte has been read, with any CRC: it is received exactly when the CRC is right, and in
      both cases all of it, and nothing else, has left the stream. */
  lemma FrameReceived(st: State, idx: byte, payload: seq<byte>, crc: bv16, rest: seq<byte>, e: Event)
    requires st.Valid() && CleanEvent(e) && st.packet.start == START && |payload| <= DATA_SIZE
    requires st.rx == [idx] + (LengthBytes(|payload|) + (payload + ([High(crc), Low(crc)] + rest)))
    ensures var o := Receive(st, e);
            && o.seen == [] && o.st.rx == rest && o.st.closed == st.closed && o.st.tx == st.tx
            && (o.res == OK <==> crc == FrameCrc(idx, payload)) && (o.res == OK || o.res == BAD_PARAMETER)
            && o.st.packet.data == Stored(st.packet.data, payload)
            && o.st.packet.idx == idx && o.st.packet.len == |payload| && o.st.packet.data[..|payload|] == payload
  {
    hide Update, LengthBytes, ReadIdx, ReadLength, ReadPayload, ReadCrc, FrameCrc, High, Low;
    var s0 := st.(packet := st.packet.(crc := Update(RESET, [st.packet.start])));
    IdxStage(s0, idx, LengthBytes(|payload|) + (payload + ([High(crc), Low(crc)] + rest)), e.idx);
    var s1 := ReadIdx(s0, e.idx).st;
    LengthStage(s1, |payload|, payload + ([High(crc), Low(crc)] + rest), e.len);
    var s2 := ReadLength(s1, e.len).st;
    PayloadStage(s2, payload, [High(crc), Low(crc)] + rest, e.payload);
    var s3 := ReadPayload(s2, e.payload).st;
    CrcStage(s3, crc, rest, e.crc);
    CoveredCrc(idx, payload);
  }

  // Streams.

  /** What the line carries: noise, a frame, a frame with a wrong CRC, a header with an impossible length. */
  datatype Item =
    | Noise(b: byte)
    | Good(idx: byte, payload: seq<byte>)
    | Damaged(idx: byte, payload: seq<byte>, crc: bv16)
    | Oversized(idx: byte, len: nat)
  {
    ghost predicate Valid() {
      match this
      case Noise(b) => b != START
      case Good(_, payload) => |payload| <= DATA_SIZE
      case Damaged(idx, payload, crc) => |payload| <= DATA_SIZE && crc != FrameCrc(idx, payload)
      case Oversized(_, len) => DATA_SIZE < len < 0x1_0000
    }

    ghost function Wire(): seq<byte>
      requires Valid()
    {
      match this
      case Noise(b) => [b]
      case Good(idx, payload) => Frame(idx, payload)
      case Damaged(idx, payload, crc) => Covered(idx, payload) + [High(crc), Low(crc)]
      case Oversized(idx, len) => [START, idx] + LengthBytes(len)
    }

    ghost function Meaning(): seq<Request> {
      if Good? then [Request(idx, payload)] else []
    }
  }

  ghost function Wire(items: seq<Item>): seq<byte>
    requires forall item | item in items :: item.Valid()
    decreases |items|
  {
    if items == [] then [] else items[0].Wire() + Wire(items[1..])
  }

  ghost function Meaning(items: seq<Item>): seq<Request>
    decreases |items|
  {
    if items == [] then [] else items[0].Meaning() + Meaning(items[1..])
  }

  /** A log that accepts nothing and answers only under `idx`. */
  ghost predicate Answering(o: Outcome, idx: byte) {
    Requests(o.seen) == [] && forall a | a in Answers(o.seen) :: a == idx
  }

  /** A send completes, and is one answer with the index of the packet, or fails, and is none. */
  lemma SendOutcome(st: State, payload: seq<byte>, calls: SendCalls)
    requires st.Valid() && |payload| <= DATA_SIZE
    ensures var o := SendPayload(st, payload, calls);
            Requests(o.seen) == [] && Answers(o.seen) == if o.res == OK then [st.packet.idx] else []
  {
    hide FrameCrc, Sent;
    FiltersOne(Response(st.packet.idx, payload));
  }

  lemma {:induction false} ResetsHaveNeither(resets: seq<nat>, results: seq<int>)
    ensures var called := ExecuteResets(resets, results).1; Requests(called) == [] && Answers(called) == []
    decreases |resets|
  {
    if resets != [] {
      var tail := if results == [] then [] else results[1..];
      ResetsHaveNeither(resets[1..], tail);
      var call := ResetCalled(resets[0], if results == [] then OK else results[0]);
      FiltersOne(call);
      FiltersConcat([call], ExecuteResets(resets[1..], tail).1);
    }
  }

  lemma ResetAnswers(cfg: Config, st: State, e: Event)
    requires cfg.Valid() && st.Valid()
    ensures var o := Reset(cfg, st, e);
            Answering(o, st.packet.idx) && (o.res == OK ==> Answers(o.seen) == [st.packet.idx])
  {
    hide SendPayload, Requests, Answers;
    SendOutcome(st, [NACK], e.answer);
    SendOutcome(st, [OK as byte] + VERSION, e.answer);
    ResetsHaveNeither(cfg.resets, e.resetResults);
    FiltersOne(Opened);
    var called := ExecuteResets(cfg.resets, e.resetResults).1;
    var rsp := SendPayload(st, [OK as byte] + VERSION, e.answer);
    FiltersConcat(called, rsp.seen);
    FiltersConcat(called + rsp.seen, [Opened]);
  }

  lemma CloseAnswers(st: State, e: Event)
    requires st.Valid()
    ensures var o := Close(st, e);
            Answering(o, st.packet.idx) && (o.res == OK ==> Answers(o.seen) == [st.packet.idx])
  {
    hide SendPayload;
    SendOutcome(st, [ACK], e.answer);
    FiltersOne(Closed);
    FiltersConcat(SendPayload(st, [ACK], e.answer).seen, [Closed]);
  }

  /** What the bridge asks of a command processor: when it reports success it has sent one response. */
  ghost predicate AnswersOnce(st: State, run: ProcessorRun)
    requires st.Valid() && Sendable(run)
  {
    run.res == OK ==> |run.sends| == 1 && SendPayload(st, run.sends[0].0, run.sends[0].1).res == OK
  }

  lemma RunCons(st: State, sends: seq<(seq<byte>, SendCalls)>)
    requires st.Valid() && sends != [] && forall k :: 0 <= k < |sends| ==> |sends[k].0| <= DATA_SIZE
    ensures var first := SendPayload(st, sends[0].0, sends[0].1);
            var more := RunProcessor(first.st, sends[1..]);
            first.st.packet.idx == st.packet.idx
            && RunProcessor(st, sends) == Outcome(more.st, OK, first.seen + more.seen)
  {
    hide SendPayload;
  }

  lemma NoSends(st: State)
    requires st.Valid()
    ensures RunProcessor(st, []) == Outcome(st, OK, []) && st.tx + [] == st.tx
  {
  }

  lemma {:induction false} ProcessorAnswers(st: State, sends: seq<(seq<byte>, SendCalls)>)
    requires st.Valid() && forall k :: 0 <= k < |sends| ==> |sends[k].0| <= DATA_SIZE
    ensures Answering(RunProcessor(st, sends), st.packet.idx)
    decreases |sends|
  {
    hide SendPayload, RunProcessor, Requests, Answers;
    if sends != [] {
      var first := SendPayload(st, sends[0].0, sends[0].1);
      RunCons(st, sends);
      SendOutcome(st, sends[0].0, sends[0].1);
      ProcessorAnswers(first.st, sends[1..]);
      FiltersConcat(first.seen, RunProcessor(first.st, sends[1..]).seen);
    } else {
      NoSends(st);
      FiltersNone();
    }
  }

  lemma FiltersNone()
    ensures Requests([]) == [] && Answers([]) == []
  {
  }

  lemma OneSend(st: State, sends: seq<(seq<byte>, SendCalls)>)
    requires st.Valid() && |sends| == 1 && |sends[0].0| <= DATA_SIZE
    requires SendPayload(st, sends[0].0, sends[0].1).res == OK
    ensures Answers(RunProcessor(st, sends).seen) == [st.packet.idx]
  {
    hide SendPayload;
    SendOutcome(st, sends[0].0, sends[0].1);
    assert sends[1..] == [];
    var first := SendPayload(st, sends[0].0, sends[0].1).seen;
    assert first + [] == first;
  }

  lemma CmdAnswers(cfg: Config, st: State, e: Event)
    requires cfg.Valid() && st.Valid() && Sendable(e.run)
    ensures var o := ProcessCmd(cfg, st, e);
            Answering(o, st.packet.idx)
            && (AnswersOnce(st, e.run) && o.res == OK ==> Answers(o.seen) == [st.packet.idx])
  {
    hide SendPayload, RunProcessor;
    SendOutcome(st, [NACK], e.answer);
    var processor := cfg.ProcessorOf(st.packet.data[0]);
    if processor.Usable() {
      var call := ProcessCmd(cfg, st, e).seen[0];
      FiltersOne(call);
      FiltersConcat([call], RunProcessor(st, e.run.sends).seen);
      ProcessorAnswers(st, e.run.sends);
      if AnswersOnce(st, e.run) && e.run.res == OK {
        OneSend(st, e.run.sends);
      }
    }
  }

  lemma PayloadAnswers(cfg: Config, st: State, e: Event)
    requires cfg.Valid() && st.Valid() && Sendable(e.run)
    ensures var o := ProcessPayload(cfg, st, e);
            Answering(o, st.packet.idx)
            && (AnswersOnce(st, e.run) && o.res == OK ==> Answers(o.seen) == [st.packet.idx])
  {
    hide Reset, Close, ProcessCmd;
    ResetAnswers(cfg, st, e);
    CloseAnswers(st, e);
    CmdAnswers(cfg, st, e);
    FiltersConcat([], []);
  }

  ghost predicate Neither(log: seq<Observation>) { Requests(log) == [] && Answers(log) == [] }

  lemma StagesHaveNeither(st: State, calls: ReadCalls)
    requires st.Valid()
    ensures Neither(ReadIdx(st, calls).seen) && Neither(ReadLength(st, calls).seen) && Neither(ReadCrc(st, calls).seen)
    ensures st.packet.len <= DATA_SIZE ==> Neither(ReadPayload(st, calls).seen)
  {
    hide Update, Overwrite, Read;
    FiltersOne(Restarted);
  }

  lemma ThenHasNeither(first: Outcome, second: Outcome)
    requires Neither(first.seen) && (first.res == OK ==> Neither(second.seen))
    ensures Neither(Then(first, second).seen)
    ensures first.res == OK ==> Then(first, second).res == second.res && Then(first, second).st == second.st
  {
    FiltersConcat(first.seen, second.seen);
  }

  lemma LengthAndPayloadHaveNeither(st: State, e: Event)
    requires st.Valid()
    ensures Neither(ReadLengthAndPayload(st, e).seen)
  {
    hide Neither, ReadLength, ReadPayload, Then;
    var length := ReadLength(st, e.len);
    StagesHaveNeither(st, e.len);
    if length.res == OK {
      StagesHaveNeither(length.st, e.payload);
      ThenHasNeither(length, ReadPayload(length.st, e.payload));
    }
  }

  lemma ReceiveHasNeither(st: State, e: Event)
    requires st.Valid()
    ensures Neither(Receive(st, e).seen)
  {
    hide Neither, ReadIdx, ReadLengthAndPayload, ReadCrc, Then, Update;
    var s0 := st.(packet := st.packet.(crc := Update(RESET, [st.packet.start])));
    StagesHaveNeither(s0, e.idx);
    var o1 := ReadIdx(s0, e.idx);
    if o1.res == OK {
      LengthAndPayloadHaveNeither(o1.st, e);
      ThenHasNeither(o1, ReadLengthAndPayload(o1.st, e));
      var o2 := Then(o1, ReadLengthAndPayload(o1.st, e));
      if o2.res == OK {
        StagesHaveNeither(o2.st, e.crc);
        ThenHasNeither(o2, ReadCrc(o2.st, e.crc));
      }
    }
  }

  /** A frame that reaches the dispatch is one request, whatever the environment does. Its answers, if any, all carry
      its index; if it is processed with success by a processor that answers once, it is answered exactly once. */
  lemma OneAnswer(cfg: Config, st: State, e: Event)
    requires cfg.Valid() && st.Valid() && Sendable(e.run) && Receive(st, e).res == OK
    ensures var o, p := ProcessMsg(cfg, st, e), Receive(st, e).st.packet;
            && Requests(o.seen) == [Request(p.idx, p.data[..p.len])]
            && (forall a | a in Answers(o.seen) :: a == p.idx)
            && (AnswersOnce(Receive(st, e).st, e.run) && o.res == OK ==> Answers(o.seen) == [p.idx])
  {
    hide ProcessPayload, Receive, AnswersOnce, Requests, Answers;
    ReceiveHasNeither(st, e);
    var received := Receive(st, e);
    var p := received.st.packet;
    var a := Accepted(p.idx, p.data[..p.len]);
    PayloadAnswers(cfg, received.st, e);
    FiltersOne(a);
    FiltersConcat(received.seen, [a]);
    FiltersConcat(received.seen + [a], ProcessPayload(cfg, received.st, e).seen);
  }

  /** One event on a clean line takes one item off the stream and understands it. */
  lemma ItemHandled(cfg: Config, st: State, item: Item, rest: seq<byte>, e: Event)
    requires cfg.Valid() && st.Valid() && CleanEvent(e) && item.Valid() && st.rx == item.Wire() + rest
    ensures var o := HandleEvent(cfg, st, e); o.st.rx == rest && Requests(o.seen) == item.Meaning()
  {
    hide Receive, ProcessMsg, Frame, Covered, Update;
    var first, more := item.Wire()[..1], item.Wire()[1..] + rest;
    FirstByte(item);
    assert st.rx == first + more;
    CleanRead(st.rx, first, more, e.start);
    assert Overwrite([st.packet.start], first) == first;
    if !item.Noise? {
      var st1 := st.(rx := more, packet := st.packet.(start := START));
      RestHandled(cfg, st1, item, rest, e);
      var o := ProcessMsg(cfg, st1, e);
      assert [] + o.seen == o.seen;
    }
  }

  lemma FirstByte(item: Item)
    requires item.Valid()
    ensures |item.Wire()| >= 1 && item.Wire()[..1] == [if item.Noise? then item.b else START]
  {
  }

  lemma FrameTail(idx: byte, payload: seq<byte>, crc: bv16, rest: seq<byte>)
    requires |payload| <= DATA_SIZE
    ensures (Covered(idx, payload) + [High(crc), Low(crc)])[1..] + rest ==
            [idx] + (LengthBytes(|payload|) + (payload + ([High(crc), Low(crc)] + rest)))
  {
    hide High, Low, LengthBytes;
  }

  lemma RestHandled(cfg: Config, st: State, item: Item, rest: seq<byte>, e: Event)
    requires cfg.Valid() && st.Valid() && CleanEvent(e) && item.Valid() && !item.Noise? && st.packet.start == START
    requires st.rx == item.Wire()[1..] + rest
    ensures var o := ProcessMsg(cfg, st, e); o.st.rx == rest && Requests(o.seen) == item.Meaning()
  {
    hide Update, Receive, ProcessPayload, FrameCrc, Covered, LengthBytes, High, Low, Requests, Answers, AnswersOnce;
    match item
    case Oversized(idx, len) =>
      assert item.Wire()[1..] + rest == [idx] + (LengthBytes(len) + rest);
      OversizedReceived(st, idx, len, rest, e);
      NoRequests();
    case Good(idx, payload) =>
      FrameTail(idx, payload, FrameCrc(idx, payload), rest);
      FrameReceived(st, idx, payload, FrameCrc(idx, payload), rest, e);
      OneAnswer(cfg, st, e);
    case Damaged(idx, payload, crc) =>
      FrameTail(idx, payload, crc, rest);
      FrameReceived(st, idx, payload, crc, rest, e);
      NoRequests();
  }

  lemma NoRequests()
    ensures Requests([]) == []
  {
  }

  lemma OversizedReceived(st: State, idx: byte, n: nat, rest: seq<byte>, e: Event)
    requires st.Valid() && CleanEvent(e) && DATA_SIZE < n < 0x1_0000
    requires st.rx == [idx] + (LengthBytes(n) + rest)
    ensures var o := Receive(st, e);
            o.res == OUT_OF_RANGE && o.seen == [] && o.st.rx == rest && o.st.tx == st.tx && o.st.closed == st.closed
  {
    hide Update, LengthBytes, ReadIdx, ReadLength;
    var s0 := st.(packet := st.packet.(crc := Update(RESET, [st.packet.start])));
    IdxStage(s0, idx, LengthBytes(n) + rest, e.idx);
    LengthStage(ReadIdx(s0, e.idx).st, n, rest, e.len);
  }

  /** Repeated event handling over a stream of frames, damaged frames, impossible headers and noise accepts exactly
      the undamaged frames, with their index and payload, in order, and leaves what follows the stream untouched.
      Nothing the resets, the command processors or the writes do changes that. */
  lemma {:induction false} StreamDecoded(cfg: Config, st: State, items: seq<Item>, tail: seq<byte>, events: seq<Event>)
    requires cfg.Valid() && st.Valid() && |events| == |items|
    requires forall k :: 0 <= k < |events| ==> CleanEvent(events[k]) && Sendable(events[k].run)
    requires (forall item | item in items :: item.Valid()) && st.rx == Wire(items) + tail
    ensures var (final, log) := Run(cfg, st, events);
            final.rx == tail && Requests(log) == Meaning(items)
    decreases |items|
  {
    if items != [] {
      hide HandleEvent;
      assert items[0] in items;
      var rest := Wire(items[1..]) + tail;
      assert st.rx == items[0].Wire() + rest;
      ItemHandled(cfg, st, items[0], rest, events[0]);
      var first := HandleEvent(cfg, st, events[0]);
      StreamDecoded(cfg, first.st, items[1..], tail, events[1..]);
      FiltersConcat(first.seen, Run(cfg, first.st, events[1..]).1);
    }
  }

  /** A frame whose index or payload is damaged inside 16 consecutive bits is a damaged item: it is not accepted. */
  lemma BurstIsDamage(idx: byte, payload: seq<byte>, badIdx: byte, badPayload: seq<byte>, first: int)
    requires |badPayload| == |payload| <= DATA_SIZE && (badIdx != idx || badPayload != payload)
    requires var good, bad := Bits(Covered(idx, payload)), Bits(Covered(badIdx, badPayload));
             forall k :: 0 <= k < 8 * (|payload| + 4) && good[k] != bad[k] ==> first <= k < first + 16
    ensures Damaged(badIdx, badPayload, FrameCrc(idx, payload)).Valid()
  {
    var good, bad := Covered(idx, payload), Covered(badIdx, badPayload);
    assert good[1] == idx && bad[1] == badIdx && good[4..] == payload && bad[4..] == badPayload;
    BurstDetected(RESET, good, bad, first);
  }

  /** What a completed `mangoh_bridge_sendResult` puts on the line is the frame of the current index and of the
      first n bytes of data: n + 6 bytes, which the other side decodes to what was sent. */
  lemma SendIsFrame(st: State, n: nat, calls: SendCalls)
    requires st.Valid() && n <= DATA_SIZE && SendResult(st, n, calls).res == OK
    ensures SendResult(st, n, calls).st.tx == st.tx + Good(st.packet.idx, st.packet.data[..n]).Wire()
    ensures |Good(st.packet.idx, st.packet.data[..n]).Wire()| == n + 6
  {
    hide Update, High, Low, LengthBytes;
  }
}
