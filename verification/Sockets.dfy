/** The ten connection slots of sockets.c as values: what every handler, the runner and the reset do to them. */
module Sockets {
  import opened Bytes

  // legato.h and errno.h are not part of this model: their codes are distinct and not zero.
  const OK := 0
  const FAULT := -6
  const COMM_ERROR := -7
  const OVERFLOW := -9
  const BAD_PARAMETER := -15
  const CLOSED := -16
  const IO_ERROR := -19
  const EINVAL := -22

  const INVALID := -1
  const MAX_CLIENTS := 10
  const BUFF_LEN := 8192

  datatype Slot = Slot(fd: int, connected: bool, connecting: bool, rx: seq<byte>, tx: seq<byte>) {
    predicate Open() { fd != INVALID }

    // What a slot can be.
    predicate Free() { fd == INVALID && !connected && !connecting && rx == [] && tx == [] }
    predicate Connecting() { fd >= 0 && connecting && !connected && rx == [] }
    predicate Connected() { fd >= 0 && connected && !connecting }
    /** Left behind when the operating system refuses to close the socket of a client that is being dropped. */
    predicate Stuck() { fd >= 0 && !connected && !connecting && rx == [] }

    predicate Fits() { |rx| <= BUFF_LEN && |tx| < BUFF_LEN }
    ghost predicate Valid() { Fits() && (Free() || Connecting() || Connected() || Stuck()) }
  }

  const FREE := Slot(INVALID, false, false, [], [])

  datatype State = State(info: seq<Slot>, nextId: nat) {
    ghost predicate Valid() {
      |info| == MAX_CLIENTS && nextId < MAX_CLIENTS && forall k :: 0 <= k < |info| ==> info[k].Valid()
    }

    /** Every slot is exactly one of free, connecting and connected. */
    ghost predicate Strict() {
      Valid() && forall k :: 0 <= k < |info| ==> !info[k].Stuck()
    }
  }

  /** Bytes that move through a slot, and the end of its connection; `closed` is false when its socket stays open. */
  datatype Move =
    | Received(id: nat, bytes: seq<byte>)
    | Taken(id: nat, bytes: seq<byte>)
    | Accepted(id: nat, bytes: seq<byte>)
    | Sent(id: nat, bytes: seq<byte>)
    | Dropped(id: nat, bytes: seq<byte>)
    | Cut(id: nat, closed: bool)

  datatype Outcome = Outcome(st: State, res: int, moves: seq<Move>)

  /** An outcome with what happened before it. */
  function Before(moves: seq<Move>, o: Outcome): Outcome { o.(moves := moves + o.moves) }

  lemma BeforeAll(o: Outcome)
    ensures Before([], o) == o
  {
    assert [] + o.moves == o.moves;
  }

  lemma BeforeNothing(moves: seq<Move>, st: State, res: int)
    ensures Before(moves, Outcome(st, res, [])) == Outcome(st, res, moves)
  {
    assert moves + [] == moves;
  }

  lemma BeforeMore(a: seq<Move>, b: seq<Move>, o: Outcome)
    ensures Before(a, Before(b, o)) == Before(a + b, o)
  {
    assert a + (b + o.moves) == a + b + o.moves;
  }

  // One slot.

  /** `mangoh_bridge_sockets_closeClient`. */
  function CloseClient(s: Slot, closeWorks: bool): (r: (Slot, int))
    requires s.Valid()
    ensures r.0.Valid()
  {
    if s.Open() && !closeWorks then (s.(rx := [], tx := [], connected := false, connecting := false), IO_ERROR)
    else (FREE, OK)
  }

  /** The end of the connection of slot `id`, and whether its socket, if it had one, was really closed. */
  function Ended(id: nat, s: Slot, closeWorks: bool): Move { Cut(id, s.Open() ==> closeWorks) }

  /** Results of `getsockopt`: its own, the socket error it reports, and the result of a `close` that follows. */
  datatype Polled = Polled(works: bool, error: int, closeWorks: bool)

  /** `mangoh_bridge_sockets_checkConnections`. */
  function CheckConnection(s: Slot, p: Polled): (r: (Slot, int, bool))
    requires s.Valid() && s.Connecting()
    ensures r.0.Valid()
  {
    if !p.works || p.error != 0 then
      var (closed, res) := CloseClient(s, p.closeWorks);
      (closed, res, true)
    else (s.(connecting := false, connected := true), OK, false)
  }

  /** What one pass finds on a connected socket: an error; data (`recv` fails, or gives at most a buffer, or nothing);
      room to send (`send` fails, or takes a prefix); and the result of a `close` that follows. */
  datatype Activity = Activity(err: bool, readable: bool, recvFails: int, chunk: seq<byte>, writable: bool, sendRes: int,
                               closeWorks: bool)
  {
    ghost predicate Valid() { |chunk| <= BUFF_LEN && recvFails <= 0 }
  }

  /** How much of the transmit buffer a `send` that did not fail took. */
  function Taking(s: Slot, a: Activity): (n: nat)
    ensures n <= |s.tx|
  {
    if a.sendRes < 0 then 0 else if a.sendRes > |s.tx| then |s.tx| else a.sendRes
  }

  /** The second half of `mangoh_bridge_sockets_checkClients`: one `send`. */
  function SendSome(s: Slot, id: nat, a: Activity): (r: (Slot, int, seq<Move>))
    requires s.Valid() && s.Connected()
    ensures r.0.Valid()
  {
    if !a.writable || s.tx == [] then (s, OK, [])
    else if a.sendRes < 0 then
      var (closed, res) := CloseClient(s, a.closeWorks);
      (closed, if res != OK then res else IO_ERROR, [Ended(id, s, a.closeWorks)])
    else
      var n := Taking(s, a);
      (s.(tx := s.tx[n..]), OK, [Sent(id, s.tx[..n])])
  }

  /** `mangoh_bridge_sockets_checkClients` on slot `id`. */
  function CheckClient(s: Slot, id: nat, a: Activity): (r: (Slot, int, seq<Move>))
    requires s.Valid() && s.Connected() && a.Valid()
    ensures r.0.Valid()
  {
    if a.err then
      var (closed, res) := CloseClient(s, a.closeWorks);
      (closed, res, [Ended(id, s, a.closeWorks)])
    else if !a.readable then SendSome(s, id, a)
    else if a.recvFails < 0 then
      var (closed, res) := CloseClient(s, a.closeWorks);
      (closed, if res != OK then res else a.recvFails, [Ended(id, s, a.closeWorks)])
    else if |s.rx| + |a.chunk| > BUFF_LEN then
      (s, OVERFLOW, [Dropped(id, a.chunk)])
    else
      var (sent, res, moves) := SendSome(s.(rx := s.rx + a.chunk), id, a);
      (sent, res, [Received(id, a.chunk)] + moves)
  }

  // The handlers. `answered` says whether `mangoh_bridge_sendResult` worked.

  function Answer(answered: bool): int { if answered then OK else IO_ERROR }

  /** `mangoh_bridge_sockets_read`. */
  function Read(st: State, id: nat, len: nat, answered: bool): (o: Outcome)
    requires st.Valid()
    ensures o.st.Valid()
  {
    if id >= MAX_CLIENTS then Outcome(st, EINVAL, [])
    else
      var s := st.info[id];
      var n := if |s.rx| < len then |s.rx| else len;
      Outcome(st.(info := st.info[id := s.(rx := s.rx[n..])]), Answer(answered), [Taken(id, s.rx[..n])])
  }

  /** `mangoh_bridge_sockets_write`. */
  function Write(st: State, id: nat, data: seq<byte>, answered: bool): (o: Outcome)
    requires st.Valid()
    ensures o.st.Valid()
  {
    if id >= MAX_CLIENTS then Outcome(st, BAD_PARAMETER, [])
    else
      var s := st.info[id];
      if !s.Open() then Outcome(st, CLOSED, [])
      else if |s.tx| + |data| >= BUFF_LEN then Outcome(st, OVERFLOW, [])
      else Outcome(st.(info := st.info[id := s.(tx := s.tx + data)]), Answer(answered), [Accepted(id, data)])
  }

  /** The loop of `mangoh_bridge_sockets_writeToAll`: it stops at the first connected slot without room. */
  function WriteFrom(st: State, idx: nat, data: seq<byte>): (o: Outcome)
    requires st.Valid() && idx <= MAX_CLIENTS
    ensures o.st.Valid()
    decreases MAX_CLIENTS - idx
  {
    if idx == MAX_CLIENTS then Outcome(st, OK, [])
    else
      var s := st.info[idx];
      if !(s.Open() && s.connected) then WriteFrom(st, idx + 1, data)
      else if |s.tx| + |data| >= BUFF_LEN then Outcome(st, OVERFLOW, [])
      else
        var rest := WriteFrom(st.(info := st.info[idx := s.(tx := s.tx + data)]), idx + 1, data);
        rest.(moves := [Accepted(idx, data)] + rest.moves)
  }

  function WriteToAll(st: State, data: seq<byte>, answered: bool): (o: Outcome)
    requires st.Valid()
    ensures o.st.Valid()
  {
    var o := WriteFrom(st, 0, data);
    if o.res != OK then o else o.(res := Answer(answered))
  }

  /** A client dropped in place. */
  function CloseAt(st: State, id: nat, closeWorks: bool): (o: Outcome)
    requires st.Valid() && id < MAX_CLIENTS
    ensures o.st.Valid()
  {
    var (s, res) := CloseClient(st.info[id], closeWorks);
    Outcome(st.(info := st.info[id := s]), res, [Ended(id, st.info[id], closeWorks)])
  }

  /** `mangoh_bridge_sockets_close`. */
  function Close(st: State, id: nat, closeWorks: bool, answered: bool): (o: Outcome)
    requires st.Valid()
    ensures o.st.Valid()
  {
    if id >= MAX_CLIENTS then Outcome(st, BAD_PARAMETER, [])
    else if !st.info[id].Open() then Outcome(st, Answer(answered), [])
    else
      var o := CloseAt(st, id, closeWorks);
      if o.res != OK then o else o.(res := Answer(answered))
  }

  function After(id: nat): (r: nat)
    ensures r < MAX_CLIENTS
  {
    (id + 1) % MAX_CLIENTS
  }

  /** Results of `select`, `accept`, `fcntl` and, for a socket that is not kept, `close`. */
  datatype Accepting = Accepting(listening: bool, selectWorks: bool, pending: bool, newFd: int, fcntlWorks: bool,
                                 closeWorks: bool, answered: bool)

  /** `mangoh_bridge_sockets_accept`. */
  function Accept(st: State, a: Accepting): (o: Outcome)
    requires st.Valid()
    ensures o.st.Valid()
  {
    if !a.listening then Outcome(st, EINVAL, [])
    else if !a.selectWorks then Outcome(st, IO_ERROR, [])
    else if !a.pending then Outcome(st, Answer(a.answered), [])
    else if a.newFd < 0 then Outcome(st, IO_ERROR, [])
    else if !a.fcntlWorks then Outcome(st, FAULT, [])
    else if st.info[st.nextId].Open() then Outcome(st, if a.closeWorks then BAD_PARAMETER else IO_ERROR, [])
    else
      Outcome(State(st.info[st.nextId := st.info[st.nextId].(fd := a.newFd, connected := true)], After(st.nextId)),
              Answer(a.answered), [])
  }

  /** Results of `socket`, `fcntl`, `getaddrinfo` (0, EAI_AGAIN or another error), `connect` on one of the addresses,
      and, on the way out of a failure, `close`. */
  datatype Connecting = Connecting(newFd: int, fcntlResult: int, resolved: Resolved, connects: bool, answered: bool,
                                   closeWorks: bool)
  datatype Resolved = Address | TryAgain | NoAddress

  /** `mangoh_bridge_sockets_connect`. On any failure it drops the client of the slot that is next by then. */
  function Connect(st: State, c: Connecting): (o: Outcome)
    requires st.Valid()
    ensures o.st.Valid()
  {
    var (tried, res) := TryConnect(st, c);
    if res == OK then Outcome(tried, OK, [])
    else CloseAt(tried, tried.nextId, c.closeWorks).(res := res)
  }

  /** The part before the cleanup. */
  function TryConnect(st: State, c: Connecting): (r: (State, int))
    requires st.Valid()
    ensures r.0.Valid()
  {
    var s := st.info[st.nextId];
    if s.Open() then (st, EINVAL)
    else if c.newFd < 0 then (st, INVALID)
    else
      // a socket without a flag: the cleanup drops it unless the connection starts
      var unlinked := st.(info := st.info[st.nextId := s.(fd := c.newFd)]);
      if c.fcntlResult < 0 then (unlinked, c.fcntlResult)
      else if c.resolved.TryAgain? then (unlinked, COMM_ERROR)
      else if c.resolved.NoAddress? then (unlinked, FAULT)
      else if !c.connects then (unlinked, IO_ERROR)
      else (State(st.info[st.nextId := s.(fd := c.newFd, connecting := true)], After(st.nextId)), Answer(c.answered))
  }

  // The runner.

  /** Everything one pass of the runner finds out. */
  datatype Pass = Pass(select1: int, ready: seq<bool>, polls: seq<Polled>, select2: int, activity: seq<Activity>) {
    ghost predicate Valid() {
      |ready| == |polls| == |activity| == MAX_CLIENTS && forall k :: 0 <= k < MAX_CLIENTS ==> activity[k].Valid()
    }
  }

  predicate ToPoll(s: Slot, ready: bool) { s.Open() && ready && s.connecting }

  predicate ToServe(s: Slot) { s.Open() && s.connected }

  /** The loop over connecting slots whose socket has become writable, up to the first that fails. */
  function PollFrom(st: State, idx: nat, p: Pass): (o: Outcome)
    requires st.Valid() && p.Valid() && idx <= MAX_CLIENTS
    ensures o.st.Valid()
    decreases MAX_CLIENTS - idx
  {
    if idx == MAX_CLIENTS then Outcome(st, OK, [])
    else
      var s := st.info[idx];
      if !ToPoll(s, p.ready[idx]) then PollFrom(st, idx + 1, p)
      else
        var (s', res, cut) := CheckConnection(s, p.polls[idx]);
        var moves := if cut then [Ended(idx, s, p.polls[idx].closeWorks)] else [];
        var st' := st.(info := st.info[idx := s']);
        if res != OK then Outcome(st', res, moves)
        else
          var rest := PollFrom(st', idx + 1, p);
          rest.(moves := moves + rest.moves)
  }

  /** The loop over connected slots, up to the first that fails. */
  function ServeFrom(st: State, idx: nat, p: Pass): (o: Outcome)
    requires st.Valid() && p.Valid() && idx <= MAX_CLIENTS
    ensures o.st.Valid()
    decreases MAX_CLIENTS - idx
  {
    if idx == MAX_CLIENTS then Outcome(st, OK, [])
    else
      var s := st.info[idx];
      if !ToServe(s) then ServeFrom(st, idx + 1, p)
      else
        var (s', res, moves) := CheckClient(s, idx, p.activity[idx]);
        var st' := st.(info := st.info[idx := s']);
        if res != OK then Outcome(st', res, moves)
        else
          var rest := ServeFrom(st', idx + 1, p);
          rest.(moves := moves + rest.moves)
  }

  predicate AnyConnecting(st: State) { exists k :: 0 <= k < |st.info| && st.info[k].Open() && st.info[k].connecting }

  predicate AnyConnected(st: State) { exists k :: 0 <= k < |st.info| && ToServe(st.info[k]) }

  predicate AnyToPoll(st: State, ready: seq<bool>)
    requires |ready| == |st.info|
  {
    exists k :: 0 <= k < |st.info| && ToPoll(st.info[k], ready[k])
  }

  function Poll(st: State, p: Pass): (o: Outcome)
    requires st.Valid() && p.Valid()
    ensures o.st.Valid()
  {
    if !AnyConnecting(st) then Outcome(st, OK, [])
    else if p.select1 < 0 then Outcome(st, IO_ERROR, [])
    else PollFrom(st, 0, p)
  }

  function Serve(st: State, p: Pass): (o: Outcome)
    requires st.Valid() && p.Valid()
    ensures o.st.Valid()
  {
    if p.select2 < 0 then Outcome(st, IO_ERROR, []) else ServeFrom(st, 0, p)
  }

  /** `mangoh_bridge_sockets_runner`. When no check replaces it, the count `select` returned is the result. */
  function Runner(st: State, p: Pass): (o: Outcome)
    requires st.Valid() && p.Valid()
    ensures o.st.Valid()
  {
    var first := Poll(st, p);
    if first.res != OK then first
    else if !AnyConnected(first.st) then
      first.(res := if AnyConnecting(st) && !AnyToPoll(st, p.ready) then p.select1 else OK)
    else
      var second := Serve(first.st, p);
      second.(moves := first.moves + second.moves)
  }

  /** `mangoh_bridge_sockets_reset`, the slots: in order, up to the first socket that cannot be closed. */
  function ResetFrom(st: State, idx: nat, closeWorks: seq<bool>): (o: Outcome)
    requires st.Valid() && |closeWorks| == MAX_CLIENTS && idx <= MAX_CLIENTS
    ensures o.st.Valid()
    decreases MAX_CLIENTS - idx
  {
    if idx == MAX_CLIENTS then Outcome(st, OK, [])
    else if !st.info[idx].Open() then ResetFrom(st, idx + 1, closeWorks)
    else if !closeWorks[idx] then Outcome(st, IO_ERROR, [])
    else
      var rest := ResetFrom(st.(info := st.info[idx := FREE]), idx + 1, closeWorks);
      rest.(moves := [Cut(idx, true)] + rest.moves)
  }

  lemma ResetDone(st: State, closeWorks: seq<bool>)
    requires st.Valid() && |closeWorks| == MAX_CLIENTS
    ensures ResetFrom(st, MAX_CLIENTS, closeWorks) == Outcome(st, OK, [])
  {
  }

  /** One slot of a reset. */
  lemma ResetStep(st: State, idx: nat, closeWorks: seq<bool>)
    requires st.Valid() && |closeWorks| == MAX_CLIENTS && idx < MAX_CLIENTS
    ensures var o := ResetFrom(st, idx, closeWorks);
            && (!st.info[idx].Open() ==> o == ResetFrom(st, idx + 1, closeWorks))
            && (st.info[idx].Open() && !closeWorks[idx] ==> o == Outcome(st, IO_ERROR, []))
            && (st.info[idx].Open() && closeWorks[idx] ==>
                  o == Before([Cut(idx, true)], ResetFrom(st.(info := st.info[idx := FREE]), idx + 1, closeWorks)))
  {
    hide Slot.Valid;
  }

  // Runs.

  datatype Event =
    | AcceptRequest(accepting: Accepting)
    | ConnectRequest(connecting: Connecting)
    | ReadRequest(id: nat, len: nat, answered: bool)
    | WriteRequest(id: nat, data: seq<byte>, answered: bool)
    | WriteToAllRequest(data: seq<byte>, answered: bool)
    | CloseRequest(id: nat, closeWorks: bool, answered: bool)
    | RunnerPass(pass: Pass)
    | SessionReset(closes: seq<bool>)
  {
    ghost predicate Valid() {
      match this
      case RunnerPass(pass) => pass.Valid()
      case SessionReset(closes) => |closes| == MAX_CLIENTS
      case _ => true
    }
  }

  function Step(st: State, e: Event): (o: Outcome)
    requires st.Valid() && e.Valid()
    ensures o.st.Valid()
  {
    match e
    case AcceptRequest(accepting) => Accept(st, accepting)
    case ConnectRequest(connecting) => Connect(st, connecting)
    case ReadRequest(id, len, answered) => Read(st, id, len, answered)
    case WriteRequest(id, data, answered) => Write(st, id, data, answered)
    case WriteToAllRequest(data, answered) => WriteToAll(st, data, answered)
    case CloseRequest(id, closeWorks, answered) => Close(st, id, closeWorks, answered)
    case RunnerPass(pass) => Runner(st, pass)
    case SessionReset(closes) => ResetFrom(st, 0, closes)
  }

  function Run(st: State, events: seq<Event>): (o: (State, seq<Move>))
    requires st.Valid() && forall k :: 0 <= k < |events| ==> events[k].Valid()
    ensures o.0.Valid()
    decreases |events|
  {
    if events == [] then (st, [])
    else
      var first := Step(st, events[0]);
      var rest := Run(first.st, events[1..]);
      (rest.0, first.moves + rest.1)
  }

  /** `mangoh_bridge_sockets_init`. */
  function Initial(): (st: State)
    ensures st.Strict()
  {
    State(seq(MAX_CLIENTS, _ => FREE), 0)
  }
}
