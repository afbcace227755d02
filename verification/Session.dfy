/** What one event of bridge.c does to the bridge: reading a frame, dispatching it, answering it. Operating system
    results are parameters; whatever they are, the functions below say what the code does with them. */
module Session {
  import opened Bytes
  import opened Crc
  import opened Packet

  // legato.h is not part of this model: its error codes are negative and distinct.
  const OK := 0
  const OUT_OF_RANGE := -3
  const FAULT := -6
  const BAD_PARAMETER := -15
  const IO_ERROR := -19

  const ACK: byte := 0x00
  const NACK: byte := 0xFF
  const VERSION: seq<byte> := [0x31, 0x30, 0x30]
  const RESET_MARK: seq<byte> := [0x58, 0x58]
  const CLOSE_MARK: seq<byte> := [0x58, 0x58, 0x58, 0x58, 0x58]

  // The serial port.

  /** Results of the calls behind one `mangoh_bridge_read`: `select`, each `read` (at most that many bytes; a result
      below 1 is a failure; when the list runs out a `read` gets all that is asked for), and, after a failure,
      the error of `close` (0 if it worked) and whether the port could be configured again. */
  datatype ReadCalls = ReadCalls(select: int, chunks: seq<int>, closeError: nat, reopened: bool)

  /** How many of the `n` bytes asked for arrive before a read fails. */
  function Collected(rx: seq<byte>, n: nat, chunks: seq<int>): (got: nat)
    ensures got <= n && got <= |rx|
    decreases n
  {
    if n == 0 then 0
    else
      var m := ReadResult(rx, n, chunks);
      if m <= 0 then 0 else m + Collected(rx[m..], n - m, if chunks == [] then [] else chunks[1..])
  }

  /** The result of one `read` of at most `n` bytes. */
  function ReadResult(rx: seq<byte>, n: nat, chunks: seq<int>): (m: int)
    ensures m <= n && m <= |rx|
  {
    var most := if |rx| < n then |rx| else n;
    if chunks == [] || chunks[0] > most then most else chunks[0]
  }

  /** The outcome of `mangoh_bridge_read`: its result, the bytes it stored, and whether the port was restarted. */
  datatype ReadOutcome = ReadOutcome(res: int, got: seq<byte>, restarted: bool)

  function Read(rx: seq<byte>, n: nat, calls: ReadCalls): (o: ReadOutcome)
    ensures |o.got| <= n && |o.got| <= |rx|
  {
    if calls.select < 0 then ReadOutcome(IO_ERROR, [], false)
    else if calls.select == 0 then ReadOutcome(0, [], false)
    else
      var got := rx[..Collected(rx, n, calls.chunks)];
      if |got| == n then ReadOutcome(n, got, false)
      else if calls.closeError != 0 then ReadOutcome(calls.closeError, got, false)
      else ReadOutcome(if calls.reopened then IO_ERROR else FAULT, got, true)
  }

  /** How many of the `n` bytes to send leave before a `write` fails. */
  function Sent(n: nat, writes: seq<int>): (sent: nat)
    ensures sent <= n
    decreases |writes|
  {
    if n == 0 || writes == [] then n
    else if writes[0] < 0 then 0
    else
      var m := if writes[0] > n then n else writes[0];
      m + Sent(n - m, writes[1..])
  }

  lemma SentNothing(writes: seq<int>)
    ensures Sent(0, writes) == 0
  {
  }

  /** Results of the writes behind one `mangoh_bridge_sendResult`: header, payload, CRC. */
  datatype SendCalls = SendCalls(header: seq<int>, body: seq<int>, trailer: seq<int>)

  // The bridge.

  /** A registered command processor; 0 stands for NULL. */
  datatype Processor = Processor(fcn: nat, module_: nat) {
    predicate Usable() { fcn != 0 && module_ != 0 }
  }

  const NO_PROCESSOR := Processor(0, 0)

  const COMMANDS := 256

  /** What registration fixed: the processor of each command byte, and the resets in the order they were registered. */
  datatype Config = Config(processors: seq<Processor>, resets: seq<nat>) {
    ghost predicate Valid() { |processors| == COMMANDS }

    function ProcessorOf(cmd: byte): Processor
      requires Valid()
    {
      processors[cmd as nat]
    }
  }

  datatype State = State(packet: PacketState, closed: bool, rx: seq<byte>, tx: seq<byte>) {
    ghost predicate Valid() { packet.Valid() }
  }

  /** What an observer of the bridge sees. */
  datatype Observation =
    | Accepted(idx: byte, payload: seq<byte>)
    | ResetCalled(reset: nat, res: int)
    | ProcessorCalled(processor: Processor, cmd: byte, args: seq<byte>, size: nat)
    | Response(idx: byte, payload: seq<byte>)
    | Closed
    | Opened
    | Restarted

  datatype Outcome = Outcome(st: State, res: int, seen: seq<Observation>)

  /** What a command processor does: the payloads it sends, in order, and its result. */
  datatype ProcessorRun = ProcessorRun(sends: seq<(seq<byte>, SendCalls)>, res: int)

  ghost predicate Sendable(run: ProcessorRun) {
    forall k :: 0 <= k < |run.sends| ==> |run.sends[k].0| <= DATA_SIZE
  }

  /** Everything the environment decides about one event. */
  datatype Event = Event(start: ReadCalls, idx: ReadCalls, len: ReadCalls, payload: ReadCalls, crc: ReadCalls,
                         resetResults: seq<int>, answer: SendCalls, run: ProcessorRun)

  // Sending.

  /** `mangoh_bridge_packet_initResponse`. */
  function InitResponse(p: PacketState, n: nat): (r: PacketState)
    requires p.Valid() && n <= DATA_SIZE
    ensures r.Valid() && r.start == START && r.idx == p.idx && r.data == p.data
  {
    var b := LengthBytes(n);
    var crc := FrameCrc(p.idx, p.data[..n]);
    p.(start := START, len := LengthOf(b[1], b[0]), rxCrc := Join(Low(crc), High(crc)))
  }

  /** The bytes that three writes in sequence put on the line, and whether all of them left: a failing write ends
      the transmission. */
  function Transmit(head: seq<byte>, body: seq<byte>, tail: seq<byte>, calls: SendCalls): (r: (seq<byte>, bool)) {
    var sentHead, sentBody := Sent(|head|, calls.header), Sent(|body|, calls.body);
    var sentTail := Sent(|tail|, calls.trailer);
    if sentHead < |head| then (head[..sentHead], false)
    else if sentBody < |body| then (head + body[..sentBody], false)
    else (head + body + tail[..sentTail], sentTail == |tail|)
  }

  function SendResult(st: State, n: nat, calls: SendCalls): (o: Outcome)
    requires st.Valid() && n <= DATA_SIZE
    ensures o.st.Valid() && o.st.closed == st.closed && o.st.rx == st.rx
    ensures o.st.packet.idx == st.packet.idx && o.st.packet.data == st.packet.data
  {
    var p := InitResponse(st.packet, n);
    var payload := p.data[..n];
    var crc := FrameCrc(p.idx, payload);
    var (sent, done) := Transmit([START, p.idx] + LengthBytes(n), payload, [High(crc), Low(crc)], calls);
    Outcome(st.(packet := p, tx := st.tx + sent), if done then OK else IO_ERROR,
            if done then [Response(p.idx, payload)] else [])
  }

  /** A payload stored at the start of the data field, then sent. */
  function SendPayload(st: State, payload: seq<byte>, calls: SendCalls): (o: Outcome)
    requires st.Valid() && |payload| <= DATA_SIZE
    ensures o.st.Valid() && o.st.closed == st.closed && o.st.rx == st.rx && o.st.packet.idx == st.packet.idx
  {
    SendResult(st.(packet := st.packet.(data := Overwrite(st.packet.data, payload))), |payload|, calls)
  }

  // Dispatch.

  function RunProcessor(st: State, sends: seq<(seq<byte>, SendCalls)>): (o: Outcome)
    requires st.Valid() && forall k :: 0 <= k < |sends| ==> |sends[k].0| <= DATA_SIZE
    ensures o.st.Valid() && o.st.closed == st.closed && o.st.rx == st.rx && o.st.packet.idx == st.packet.idx
    decreases |sends|
  {
    if sends == [] then Outcome(st, OK, [])
    else
      var first := SendPayload(st, sends[0].0, sends[0].1);
      var rest := RunProcessor(first.st, sends[1..]);
      Outcome(rest.st, OK, first.seen + rest.seen)
  }

  function ProcessCmd(cfg: Config, st: State, e: Event): (o: Outcome)
    requires cfg.Valid() && st.Valid() && Sendable(e.run)
    ensures o.st.Valid() && o.st.closed == st.closed && o.st.rx == st.rx
  {
    var cmd := st.packet.data[0];
    var processor := cfg.ProcessorOf(cmd);
    if !processor.Usable() then
      var nack := SendPayload(st, [NACK], e.answer);
      if nack.res != OK then nack else nack.(res := BAD_PARAMETER)
    else
      var size := if st.packet.len == 0 then 0xFFFF_FFFF else st.packet.len - 1;
      var ran := RunProcessor(st, e.run.sends);
      Outcome(ran.st, e.run.res, [ProcessorCalled(processor, cmd, st.packet.data[1..], size)] + ran.seen)
  }

  function Close(st: State, e: Event): (o: Outcome)
    requires st.Valid()
    ensures o.st.Valid() && o.st.rx == st.rx
  {
    if st.packet.len != |CLOSE_MARK| then Outcome(st, BAD_PARAMETER, [])
    else
      var ack := SendPayload(st, [ACK], e.answer);
      if ack.res != OK then ack else Outcome(ack.st.(closed := true), OK, ack.seen + [Closed])
  }

  /** The registered resets, in order, up to the first that fails. */
  function ExecuteResets(resets: seq<nat>, results: seq<int>): (r: (int, seq<Observation>))
    decreases |resets|
  {
    if resets == [] then (OK, [])
    else
      var res := if results == [] then OK else results[0];
      if res != OK then (res, [ResetCalled(resets[0], res)])
      else
        var rest := ExecuteResets(resets[1..], if results == [] then [] else results[1..]);
        (rest.0, [ResetCalled(resets[0], res)] + rest.1)
  }

  function Reset(cfg: Config, st: State, e: Event): (o: Outcome)
    requires st.Valid()
    ensures o.st.Valid() && o.st.rx == st.rx
  {
    if st.packet.len != |RESET_MARK| + |VERSION| || st.packet.data[2..5] != VERSION then
      var nack := SendPayload(st, [NACK], e.answer);
      if nack.res != OK then nack else nack.(res := BAD_PARAMETER)
    else
      var (res, called) := ExecuteResets(cfg.resets, e.resetResults);
      if res != OK then Outcome(st, res, called)
      else
        var rsp := SendPayload(st, [OK as byte] + VERSION, e.answer);
        if rsp.res != OK then rsp.(seen := called + rsp.seen)
        else Outcome(rsp.st.(closed := false), OK, called + rsp.seen + [Opened])
  }

  function ProcessPayload(cfg: Config, st: State, e: Event): (o: Outcome)
    requires cfg.Valid() && st.Valid() && Sendable(e.run)
    ensures o.st.Valid() && o.st.rx == st.rx
  {
    if st.closed then
      if st.packet.data[..2] == RESET_MARK then Reset(cfg, st, e) else Outcome(st, BAD_PARAMETER, [])
    else if st.packet.data[..5] == CLOSE_MARK then Close(st, e)
    else if st.packet.data[..2] == RESET_MARK then Reset(cfg, st, e)
    else ProcessCmd(cfg, st, e)
  }

  // Receiving.

  /** The bridge after a read: what was stored left the stream, and a restart of the port opened the bridge. */
  function AfterRead(st: State, o: ReadOutcome): (r: State)
    requires |o.got| <= |st.rx|
  {
    st.(rx := st.rx[|o.got|..], closed := st.closed && !o.restarted)
  }

  function SeenRead(o: ReadOutcome): seq<Observation> {
    if o.restarted then [Restarted] else []
  }

  function ReadIdx(st: State, calls: ReadCalls): (o: Outcome)
    requires st.Valid()
    ensures o.st.Valid()
  {
    var r := Read(st.rx, 1, calls);
    var idx := Overwrite([st.packet.idx], r.got)[0];
    var crc := if r.res < 0 then st.packet.crc else Update(st.packet.crc, [idx]);
    Outcome(AfterRead(st, r).(packet := st.packet.(idx := idx, crc := crc)), if r.res < 0 then r.res else OK, SeenRead(r))
  }

  function ReadLength(st: State, calls: ReadCalls): (o: Outcome)
    requires st.Valid()
    ensures o.st.Valid() && (o.res == OK ==> o.st.packet.len <= DATA_SIZE)
  {
    var r := Read(st.rx, 2, calls);
    var memory := Overwrite(Reverse(LengthBytes(st.packet.len)), r.got);
    if r.res < 0 then
      Outcome(AfterRead(st, r).(packet := st.packet.(len := LengthOf(memory[1], memory[0]))), r.res, SeenRead(r))
    else
      var p := st.packet.(len := LengthOf(memory[0], memory[1]), crc := Update(st.packet.crc, memory));
      Outcome(AfterRead(st, r).(packet := p), if p.len > DATA_SIZE then OUT_OF_RANGE else OK, SeenRead(r))
  }

  function ReadPayload(st: State, calls: ReadCalls): (o: Outcome)
    requires st.Valid() && st.packet.len <= DATA_SIZE
    ensures o.st.Valid()
  {
    if st.packet.len == 0 then
      Outcome(st.(packet := st.packet.(crc := Update(st.packet.crc, []))), OK, [])
    else
      var r := Read(st.rx, st.packet.len, calls);
      var data := Overwrite(seq(DATA_SIZE, _ => 0), r.got);
      var crc := if r.res < 0 then st.packet.crc else Update(st.packet.crc, data[..st.packet.len]);
      Outcome(AfterRead(st, r).(packet := st.packet.(data := data, crc := crc)), if r.res < 0 then r.res else OK, SeenRead(r))
  }

  function ReadCrc(st: State, calls: ReadCalls): (o: Outcome)
    requires st.Valid()
    ensures o.st.Valid()
  {
    var r := Read(st.rx, 2, calls);
    var memory := Overwrite([Low(st.packet.rxCrc), High(st.packet.rxCrc)], r.got);
    if r.res < 0 then
      Outcome(AfterRead(st, r).(packet := st.packet.(rxCrc := Join(memory[1], memory[0]))), r.res, SeenRead(r))
    else
      var p := st.packet.(rxCrc := Join(memory[0], memory[1]));
      Outcome(AfterRead(st, r).(packet := p), if p.crc != p.rxCrc then BAD_PARAMETER else OK, SeenRead(r))
  }

  /** Two stages in sequence: the second runs only when the first succeeded. */
  function Then(first: Outcome, second: Outcome): Outcome {
    if first.res != OK then first else second.(seen := first.seen + second.seen)
  }

  /** `mangoh_bridge_process_payload_len`. */
  function ReadLengthAndPayload(st: State, e: Event): (o: Outcome)
    requires st.Valid()
    ensures o.st.Valid() && (o.res == OK ==> o.st.packet.len <= DATA_SIZE)
  {
    var length := ReadLength(st, e.len);
    if length.res != OK then length else Then(length, ReadPayload(length.st, e.payload))
  }

  /** `mangoh_bridge_process_msg` up to the dispatch: a frame whose start byte has been read. */
  function Receive(st: State, e: Event): (o: Outcome)
    requires st.Valid()
    ensures o.st.Valid() && (o.res == OK ==> o.st.packet.len <= DATA_SIZE)
  {
    var o1 := ReadIdx(st.(packet := st.packet.(crc := Update(RESET, [st.packet.start]))), e.idx);
    if o1.res != OK then o1 else
    var o2 := Then(o1, ReadLengthAndPayload(o1.st, e));
    if o2.res != OK then o2 else
    Then(o2, ReadCrc(o2.st, e.crc))
  }

  function ProcessMsg(cfg: Config, st: State, e: Event): (o: Outcome)
    requires cfg.Valid() && st.Valid() && Sendable(e.run)
    ensures o.st.Valid()
  {
    var o := Receive(st, e);
    if o.res != OK then o
    else
      var p := o.st.packet;
      var done := ProcessPayload(cfg, o.st, e);
      done.(seen := o.seen + [Accepted(p.idx, p.data[..p.len])] + done.seen)
  }

  /** `mangoh_bridge_eventHandler`, after the runners. */
  function HandleEvent(cfg: Config, st: State, e: Event): (o: Outcome)
    requires cfg.Valid() && st.Valid() && Sendable(e.run)
    ensures o.st.Valid()
  {
    var r := Read(st.rx, 1, e.start);
    var start := Overwrite([st.packet.start], r.got)[0];
    var st1 := AfterRead(st, r).(packet := st.packet.(start := start));
    if r.res > 0 && start == START then
      var o := ProcessMsg(cfg, st1, e);
      o.(seen := SeenRead(r) + o.seen)
    else
      Outcome(st1, r.res, SeenRead(r))
  }

  /** A whole run. */
  function Run(cfg: Config, st: State, events: seq<Event>): (o: (State, seq<Observation>))
    requires cfg.Valid() && st.Valid() && forall k :: 0 <= k < |events| ==> Sendable(events[k].run)
    ensures o.0.Valid()
    decreases |events|
  {
    if events == [] then (st, [])
    else
      var first := HandleEvent(cfg, st, events[0]);
      var rest := Run(cfg, first.st, events[1..]);
      (rest.0, first.seen + rest.1)
  }
}
