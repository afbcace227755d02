/** The slot table of sockets.c, updated in place: fixed arrays, flags, descriptors; proved against the slot values. */
module SocketObjects {
  import opened Bytes
  import S = Sockets

  /** `mangoh_bridge_sockets_buff_t`. */
  class Buffer {
    const data: array<byte>
    var len: nat

    ghost predicate Valid()
      reads this
    {
      data.Length == S.BUFF_LEN && len <= S.BUFF_LEN
    }

    ghost function Contents(): seq<byte>
      requires Valid()
      reads this, data
    {
      data[..len]
    }

    constructor ()
      ensures Valid() && fresh(data) && Contents() == []
    {
      data := new byte[S.BUFF_LEN](_ => 0);
      len := 0;
    }

    /** `memcpy` behind the contents. */
    method Append(bytes: seq<byte>)
      requires Valid() && len + |bytes| <= S.BUFF_LEN
      modifies this, data
      ensures Valid() && Contents() == old(Contents()) + bytes
    {
      forall k | 0 <= k < |bytes| {
        data[len + k] := bytes[k];
      }
      len := len + |bytes|;
    }

    /** `memmove` of what is left to the front. */
    method Drop(n: nat)
      requires Valid() && n <= len
      modifies this, data
      ensures Valid() && Contents() == old(Contents())[n..]
    {
      forall k | 0 <= k < len - n {
        data[k] := data[k + n];
      }
      len := len - n;
    }
  }

  /** `mangoh_bridge_sockets_client_info_t`. */
  class Client {
    var sockFd: int
    var connected: bool
    var connecting: bool
    const rxBuff: Buffer
    const txBuff: Buffer

    ghost const Repr: set<object>

    ghost predicate Valid()
      reads this, Repr
    {
      && Repr == {this, rxBuff, rxBuff.data, txBuff, txBuff.data}
      && rxBuff != txBuff && rxBuff.data != txBuff.data
      && rxBuff.Valid() && txBuff.Valid() && View().Valid()
    }

    ghost function View(): S.Slot
      requires rxBuff.Valid() && txBuff.Valid()
      reads this, rxBuff, rxBuff.data, txBuff, txBuff.data
    {
      S.Slot(sockFd, connected, connecting, rxBuff.Contents(), txBuff.Contents())
    }

    constructor ()
      ensures Valid() && fresh(Repr) && View() == S.FREE
    {
      sockFd, connected, connecting := S.INVALID, false, false;
      var rx := new Buffer();
      var tx := new Buffer();
      rxBuff, txBuff := rx, tx;
      Repr := {this, rx, rx.data, tx, tx.data};
    }

    /** `mangoh_bridge_sockets_closeClient`. The flags need not make sense yet: connect drops a bare socket. */
    method CloseClient(closeWorks: bool) returns (res: int)
      requires Valid()
      modifies Repr
      ensures Valid() && (View(), res) == S.CloseClient(old(View()), closeWorks)
    {
      rxBuff.len := 0;
      txBuff.len := 0;
      connected := false;
      connecting := false;
      if sockFd != S.INVALID && !closeWorks {
        return S.IO_ERROR;
      }
      sockFd := S.INVALID;
      return S.OK;
    }

    /** `mangoh_bridge_sockets_checkConnections`. */
    method CheckConnection(p: S.Polled) returns (res: int, ghost cut: bool)
      requires Valid() && View().Connecting()
      modifies Repr
      ensures Valid() && (View(), res, cut) == S.CheckConnection(old(View()), p)
    {
      cut := !p.works || p.error != 0;
      if !p.works {
        res := CloseClient(p.closeWorks);
        return;
      }
      if p.error != 0 {
        res := CloseClient(p.closeWorks);
        return;
      }
      connecting := false;
      connected := true;
      res := S.OK;
    }

    /** The `send` half of `mangoh_bridge_sockets_checkClients`. */
    method SendSome(ghost id: nat, a: S.Activity) returns (res: int, ghost moves: seq<S.Move>)
      requires Valid() && View().Connected()
      modifies Repr
      ensures Valid() && (View(), res, moves) == S.SendSome(old(View()), id, a)
    {
      moves := [];
      res := S.OK;
      if a.writable && txBuff.len > 0 {
        if a.sendRes < 0 {
          moves := [S.Ended(id, View(), a.closeWorks)];
          res := CloseClient(a.closeWorks);
          if res == S.OK {
            res := S.IO_ERROR;
          }
          return;
        }
        var bytesTx := if a.sendRes > txBuff.len then txBuff.len else a.sendRes;
        moves := [S.Sent(id, txBuff.Contents()[..bytesTx])];
        txBuff.Drop(bytesTx);
      }
    }

    /** `mangoh_bridge_sockets_checkClients`. */
    method CheckClient(ghost id: nat, a: S.Activity) returns (res: int, ghost moves: seq<S.Move>)
      requires Valid() && View().Connected() && a.Valid()
      modifies Repr
      ensures Valid() && (View(), res, moves) == S.CheckClient(old(View()), id, a)
    {
      hide S.SendSome;
      moves := [S.Ended(id, View(), a.closeWorks)];
      if a.err {
        res := CloseClient(a.closeWorks);
        return;
      }
      if a.readable {
        if a.recvFails < 0 {
          res := CloseClient(a.closeWorks);
          if res == S.OK {
            res := a.recvFails;
          }
          return;
        }
        if rxBuff.len + |a.chunk| > S.BUFF_LEN {
          return S.OVERFLOW, [S.Dropped(id, a.chunk)];
        }
        rxBuff.Append(a.chunk);
        res, moves := SendSome(id, a);
        moves := [S.Received(id, a.chunk)] + moves;
        return;
      }
      res, moves := SendSome(id, a);
    }

    /** What `mangoh_bridge_sockets_read` does to a client: at most `len` bytes leave the receive buffer. */
    method Take(len: nat) returns (bytes: seq<byte>)
      requires Valid()
      modifies Repr
      ensures var rx, n := old(View()).rx, if |old(View()).rx| < len then |old(View()).rx| else len;
              Valid() && bytes == rx[..n] && View() == old(View()).(rx := rx[n..])
    {
      var n := if rxBuff.len < len then rxBuff.len else len;
      bytes := rxBuff.data[..n];
      assert bytes == rxBuff.Contents()[..n];
      rxBuff.Drop(n);
    }

    /** What a write does to a client with room. */
    method Put(bytes: seq<byte>)
      requires Valid() && sockFd != S.INVALID && txBuff.len + |bytes| < S.BUFF_LEN
      modifies Repr
      ensures Valid() && View() == old(View()).(tx := old(View()).tx + bytes)
    {
      txBuff.Append(bytes);
    }

    /** The fields that accept, connect and reset assign. */
    method Assign(fd: int, isConnected: bool, isConnecting: bool)
      requires Valid() && View().(fd := fd, connected := isConnected, connecting := isConnecting).Valid()
      modifies this
      ensures Valid()
      ensures View() == old(View()).(fd := fd, connected := isConnected, connecting := isConnecting)
    {
      sockFd, connected, connecting := fd, isConnected, isConnecting;
    }

    /** What reset does to a client whose socket it closed. */
    method Clear()
      requires Valid()
      modifies Repr
      ensures Valid() && View() == S.FREE
    {
      sockFd := S.INVALID;
      rxBuff.len := 0;
      txBuff.len := 0;
      connecting := false;
      connected := false;
    }
  }

  /** `mangoh_bridge_sockets_t`, the clients. `mangoh_bridge_sendResult` is a parameter: whether it worked. */
  class Table {
    const info: seq<Client>
    var nextId: nat

    /** Ten clients that share no memory. */
    ghost predicate Separate()
    {
      && |info| == S.MAX_CLIENTS
      && (forall k :: 0 <= k < |info| ==> this !in info[k].Repr && info[k] in info[k].Repr)
      && (forall j, k :: 0 <= j < k < |info| ==> info[j].Repr !! info[k].Repr)
    }

    ghost function Footprint(): set<object>
    {
      set k, o | 0 <= k < |info| && o in info[k].Repr :: o
    }

    ghost predicate Valid()
      reads this, Footprint()
    {
      Separate() && nextId < S.MAX_CLIENTS && forall k :: 0 <= k < |info| ==> info[k].Valid()
    }

    ghost function View(): (st: S.State)
      requires Valid()
      reads this, Footprint()
      ensures st.Valid()
    {
      S.State(seq(|info|, k requires 0 <= k < |info| reads this, Footprint() requires Valid() => info[k].View()), nextId)
    }

    /** `mangoh_bridge_sockets_init`. */
    constructor ()
      ensures Valid() && fresh(Footprint()) && View() == S.Initial()
    {
      nextId := 0;
      var clients: seq<Client> := [];
      while |clients| < S.MAX_CLIENTS
        invariant |clients| <= S.MAX_CLIENTS
        invariant forall k :: 0 <= k < |clients| ==> clients[k].Valid() && clients[k].View() == S.FREE
        invariant forall k :: 0 <= k < |clients| ==> fresh(clients[k].Repr) && clients[k] in clients[k].Repr
        invariant forall j, k :: 0 <= j < k < |clients| ==> clients[j].Repr !! clients[k].Repr
      {
        var client := new Client();
        clients := clients + [client];
      }
      info := clients;
    }

    /** Only client k changed. */
    twostate lemma Replaced(k: nat)
      requires old(Valid()) && k < |info| && nextId == old(nextId)
      requires info[k].Valid() && forall j :: 0 <= j < |info| && j != k ==> unchanged(info[j].Repr)
      ensures Valid() && View() == old(View()).(info := old(View()).info[k := info[k].View()])
    {
    }

    /** `mangoh_bridge_sockets_read`: `response` is the payload of the answer. */
    method Read(id: nat, len: nat, answered: bool) returns (res: int, response: seq<byte>)
      requires Valid()
      modifies Footprint()
      ensures Valid()
      ensures var moves := if id < S.MAX_CLIENTS then [S.Taken(id, response)] else [];
              S.Outcome(View(), res, moves) == S.Read(old(View()), id, len, answered)
    {
      response := [];
      if id >= S.MAX_CLIENTS {
        return S.EINVAL, [];
      }
      response := info[id].Take(len);
      Replaced(id);
      res := S.Answer(answered);
    }

    /** `mangoh_bridge_sockets_write`. */
    method Write(id: nat, bytes: seq<byte>, answered: bool) returns (res: int, ghost moves: seq<S.Move>)
      requires Valid()
      modifies Footprint()
      ensures Valid() && S.Outcome(View(), res, moves) == S.Write(old(View()), id, bytes, answered)
    {
      moves := [];
      if id >= S.MAX_CLIENTS {
        return S.BAD_PARAMETER, [];
      }
      if info[id].sockFd == S.INVALID {
        return S.CLOSED, [];
      }
      if info[id].txBuff.len + |bytes| >= S.BUFF_LEN {
        return S.OVERFLOW, [];
      }
      PutAt(id, bytes);
      moves := [S.Accepted(id, bytes)];
      res := S.Answer(answered);
    }

    // What the conditions of the handlers look at.

    predicate IsOpen(id: nat)
      requires Valid() && id < S.MAX_CLIENTS
      reads this, Footprint()
      ensures IsOpen(id) == View().info[id].Open()
    {
      info[id].sockFd != S.INVALID
    }

    predicate IsConnected(id: nat)
      requires Valid() && id < S.MAX_CLIENTS
      reads this, Footprint()
      ensures IsConnected(id) == View().info[id].connected
    {
      info[id].connected
    }

    predicate IsConnecting(id: nat)
      requires Valid() && id < S.MAX_CLIENTS
      reads this, Footprint()
      ensures IsConnecting(id) == View().info[id].connecting
    {
      info[id].connecting
    }

    predicate HasRoom(id: nat, n: nat)
      requires Valid() && id < S.MAX_CLIENTS
      reads this, Footprint()
      ensures HasRoom(id, n) == (|View().info[id].tx| + n < S.BUFF_LEN)
    {
      info[id].txBuff.len + n < S.BUFF_LEN
    }

    /** `memcpy` to the transmit buffer of client `id`. */
    method PutAt(id: nat, bytes: seq<byte>)
      requires Valid() && id < S.MAX_CLIENTS && View().info[id].Open() && |View().info[id].tx| + |bytes| < S.BUFF_LEN
      modifies Footprint()
      ensures Valid()
      ensures var st := old(View()); View() == st.(info := st.info[id := st.info[id].(tx := st.info[id].tx + bytes)])
    {
      info[id].Put(bytes);
      Replaced(id);
    }

    /** `mangoh_bridge_sockets_writeToAll`. */
    method WriteToAll(bytes: seq<byte>, answered: bool) returns (res: int, ghost moves: seq<S.Move>)
      requires Valid()
      modifies Footprint()
      ensures Valid() && S.Outcome(View(), res, moves) == S.WriteToAll(old(View()), bytes, answered)
    {
      hide Valid, View, Separate, Footprint, S.State.Valid, S.Slot.Valid;
      ghost var all := S.WriteFrom(View(), 0, bytes);
      moves := [];
      var idx := 0;
      while idx < S.MAX_CLIENTS
        invariant 0 <= idx <= S.MAX_CLIENTS && Valid()
        invariant S.Before(moves, S.WriteFrom(View(), idx, bytes)) == all
      {
        if IsOpen(idx) && IsConnected(idx) {
          if !HasRoom(idx, |bytes|) {
            S.BeforeNothing(moves, View(), S.OVERFLOW);
            return S.OVERFLOW, moves;
          }
          PutAt(idx, bytes);
          S.BeforeMore(moves, [S.Accepted(idx, bytes)], S.WriteFrom(View(), idx + 1, bytes));
          moves := moves + [S.Accepted(idx, bytes)];
        }
        idx := idx + 1;
      }
      S.BeforeNothing(moves, View(), S.OK);
      res := S.Answer(answered);
    }

    /** `mangoh_bridge_sockets_closeClient` on client `id`. */
    method CloseAt(id: nat, closeWorks: bool) returns (res: int, ghost moves: seq<S.Move>)
      requires Valid() && id < S.MAX_CLIENTS
      modifies Footprint()
      ensures Valid() && S.Outcome(View(), res, moves) == S.CloseAt(old(View()), id, closeWorks)
    {
      moves := [S.Ended(id, View().info[id], closeWorks)];
      res := info[id].CloseClient(closeWorks);
      Replaced(id);
    }

    /** `mangoh_bridge_sockets_close`. */
    method Close(id: nat, closeWorks: bool, answered: bool) returns (res: int, ghost moves: seq<S.Move>)
      requires Valid()
      modifies Footprint()
      ensures Valid() && S.Outcome(View(), res, moves) == S.Close(old(View()), id, closeWorks, answered)
    {
      hide S.CloseAt;
      moves := [];
      if id >= S.MAX_CLIENTS {
        return S.BAD_PARAMETER, [];
      }
      if info[id].sockFd != S.INVALID {
        res, moves := CloseAt(id, closeWorks);
        if res != S.OK {
          return;
        }
      }
      res := S.Answer(answered);
    }

    /** `mangoh_bridge_sockets_accept`. */
    method Accept(a: S.Accepting) returns (res: int)
      requires Valid()
      modifies this`nextId, Footprint()
      ensures Valid()
      ensures S.Outcome(View(), res, []) == S.Accept(old(View()), a)
    {
      if !a.listening {
        return S.EINVAL;
      }
      if !a.selectWorks {
        return S.IO_ERROR;
      }
      if !a.pending {
        return S.Answer(a.answered);
      }
      if a.newFd < 0 {
        return S.IO_ERROR;
      }
      if !a.fcntlWorks {
        return S.FAULT;
      }
      if info[nextId].sockFd != S.INVALID {
        return if a.closeWorks then S.BAD_PARAMETER else S.IO_ERROR;
      }
      Link(a.newFd, true, info[nextId].connecting);
      res := S.Answer(a.answered);
    }

    /** Only the next slot number changed. */
    twostate lemma Advanced()
      requires old(Valid()) && nextId < S.MAX_CLIENTS && forall j :: 0 <= j < |info| ==> unchanged(info[j].Repr)
      ensures Valid() && View() == old(View()).(nextId := nextId)
    {
    }

    /** A new socket for the next client, and the calls up to `connect`. */
    method OpenNext(c: S.Connecting) returns (res: int)
      requires Valid() && View().info[View().nextId].Free() && c.newFd >= 0
      modifies Footprint()
      ensures Valid() && nextId == old(nextId)
      ensures var st := old(View()); View() == st.(info := st.info[st.nextId := S.FREE.(fd := c.newFd)])
      ensures res == if c.fcntlResult < 0 then c.fcntlResult else if c.resolved.TryAgain? then S.COMM_ERROR
                     else if c.resolved.NoAddress? then S.FAULT else if !c.connects then S.IO_ERROR else S.OK
    {
      AssignNext(c.newFd, false, false);
      if c.fcntlResult < 0 {
        return c.fcntlResult;
      }
      if c.resolved.TryAgain? {
        return S.COMM_ERROR;
      }
      if c.resolved.NoAddress? {
        return S.FAULT;
      }
      res := if c.connects then S.OK else S.IO_ERROR;
    }

    /** The connecting flag of the next client, which has just got its socket, and the turn of the one after it. */
    method StartConnecting(fd: int)
      requires Valid() && fd >= 0 && View().info[View().nextId] == S.FREE.(fd := fd)
      modifies this`nextId, Footprint()
      ensures Valid()
      ensures var st := old(View());
              View() == S.State(st.info[st.nextId := S.FREE.(fd := fd, connecting := true)], S.After(st.nextId))
    {
      Link(fd, false, true);
    }

    /** `mangoh_bridge_sockets_connect` before its cleanup. */
    method TryConnect(c: S.Connecting) returns (res: int)
      requires Valid()
      modifies this`nextId, Footprint()
      ensures Valid() && (View(), res) == S.TryConnect(old(View()), c)
    {
      ghost var st := View();
      assert st.nextId == nextId;
      assert st.info[st.nextId].Open() || st.info[st.nextId] == S.FREE;
      hide Valid, View, Separate, Footprint, S.State.Valid, S.Slot.Valid;
      if IsOpen(nextId) {
        return S.EINVAL;
      }
      if c.newFd < 0 {
        // the slot keeps the -1 that `socket` returned
        return S.INVALID;
      }
      res := OpenNext(c);
      if res == S.OK {
        StartConnecting(c.newFd);
        UpdatedTwice(st.info, st.nextId, S.FREE.(fd := c.newFd), S.FREE.(fd := c.newFd, connecting := true));
        res := S.Answer(c.answered);
      }
    }

    /** `mangoh_bridge_sockets_connect`. */
    method Connect(c: S.Connecting) returns (res: int, ghost moves: seq<S.Move>)
      requires Valid()
      modifies this`nextId, Footprint()
      ensures Valid() && S.Outcome(View(), res, moves) == S.Connect(old(View()), c)
    {
      hide S.TryConnect, S.CloseAt;
      res := TryConnect(c);
      moves := [];
      if res != S.OK {
        var err;
        err, moves := CloseAt(nextId, c.closeWorks);
      }
    }

    /** One connecting client. */
    method PollAt(id: nat, p: S.Polled) returns (res: int, ghost moves: seq<S.Move>)
      requires Valid() && id < S.MAX_CLIENTS && View().info[id].Connecting()
      modifies Footprint()
      ensures Valid()
      ensures var was := old(View()).info[id]; var (s, r, cut) := S.CheckConnection(was, p);
              View() == old(View()).(info := old(View()).info[id := s]) && res == r
              && moves == if cut then [S.Ended(id, was, p.closeWorks)] else []
    {
      ghost var cut, was := false, View().info[id];
      res, cut := info[id].CheckConnection(p);
      Replaced(id);
      moves := if cut then [S.Ended(id, was, p.closeWorks)] else [];
    }

    /** One connected client. */
    method ServeAt(id: nat, a: S.Activity) returns (res: int, ghost moves: seq<S.Move>)
      requires Valid() && id < S.MAX_CLIENTS && View().info[id].Connected() && a.Valid()
      modifies Footprint()
      ensures Valid()
      ensures var (s, r, m) := S.CheckClient(old(View()).info[id], id, a);
              View() == old(View()).(info := old(View()).info[id := s]) && res == r && moves == m
    {
      res, moves := info[id].CheckClient(id, a);
      Replaced(id);
    }

    /** One client whose socket has been closed. */
    method ClearAt(id: nat)
      requires Valid() && id < S.MAX_CLIENTS
      modifies Footprint()
      ensures Valid() && View() == old(View()).(info := old(View()).info[id := S.FREE])
    {
      info[id].Clear();
      Replaced(id);
    }

    /** The socket and the flags of the next client. */
    method AssignNext(fd: int, isConnected: bool, isConnecting: bool)
      requires Valid() && View().info[View().nextId].(fd := fd, connected := isConnected, connecting := isConnecting).Valid()
      modifies Footprint()
      ensures Valid() && nextId == old(nextId)
      ensures var st := old(View());
              View() == st.(info := st.info[st.nextId := st.info[st.nextId].(fd := fd, connected := isConnected,
                                                                             connecting := isConnecting)])
    {
      info[nextId].Assign(fd, isConnected, isConnecting);
      Replaced(nextId);
    }

    method Advance()
      requires Valid()
      modifies this`nextId
      ensures Valid() && View() == old(View()).(nextId := S.After(old(View()).nextId))
    {
      nextId := (nextId + 1) % S.MAX_CLIENTS;
      Advanced();
    }

    /** The socket and the flags of the next client, and then the turn of the one after it. */
    method Link(fd: int, isConnected: bool, isConnecting: bool)
      requires Valid() && View().info[View().nextId].(fd := fd, connected := isConnected, connecting := isConnecting).Valid()
      modifies this`nextId, Footprint()
      ensures Valid()
      ensures var st := old(View());
              View() == S.State(st.info[st.nextId := st.info[st.nextId].(fd := fd, connected := isConnected,
                                                                         connecting := isConnecting)], S.After(st.nextId))
    {
      AssignNext(fd, isConnected, isConnecting);
      Advance();
    }

    /** The first loop of `mangoh_bridge_sockets_runner`. */
    method Poll(p: S.Pass) returns (res: int, ghost moves: seq<S.Move>)
      requires Valid() && p.Valid()
      modifies Footprint()
      ensures Valid() && S.Outcome(View(), res, moves) == S.PollFrom(old(View()), 0, p)
    {
      hide Valid, View, Separate, Footprint, S.CheckConnection;
      ghost var all := S.PollFrom(View(), 0, p);
      moves := [];
      var idx := 0;
      while idx < S.MAX_CLIENTS
        invariant 0 <= idx <= S.MAX_CLIENTS && Valid()
        invariant S.Before(moves, S.PollFrom(View(), idx, p)) == all
      {
        if IsOpen(idx) && p.ready[idx] && IsConnecting(idx) {
          ghost var more;
          res, more := PollAt(idx, p.polls[idx]);
          if res != S.OK {
            moves := moves + more;
            return;
          }
          S.BeforeMore(moves, more, S.PollFrom(View(), idx + 1, p));
          moves := moves + more;
        }
        idx := idx + 1;
      }
      S.BeforeNothing(moves, View(), S.OK);
      res := S.OK;
    }

    /** The second loop of `mangoh_bridge_sockets_runner`. */
    method Serve(p: S.Pass) returns (res: int, ghost moves: seq<S.Move>)
      requires Valid() && p.Valid()
      modifies Footprint()
      ensures Valid() && S.Outcome(View(), res, moves) == S.ServeFrom(old(View()), 0, p)
    {
      hide Valid, View, Separate, Footprint, S.CheckClient;
      ghost var all := S.ServeFrom(View(), 0, p);
      moves := [];
      var idx := 0;
      while idx < S.MAX_CLIENTS
        invariant 0 <= idx <= S.MAX_CLIENTS && Valid()
        invariant S.Before(moves, S.ServeFrom(View(), idx, p)) == all
      {
        if IsOpen(idx) && IsConnected(idx) {
          ghost var more;
          res, more := ServeAt(idx, p.activity[idx]);
          if res != S.OK {
            moves := moves + more;
            return;
          }
          S.BeforeMore(moves, more, S.ServeFrom(View(), idx + 1, p));
          moves := moves + more;
        }
        idx := idx + 1;
      }
      S.BeforeNothing(moves, View(), S.OK);
      res := S.OK;
    }

    /** The loops that fill the descriptor sets: what they find. */
    method AnyConnecting() returns (found: bool)
      requires Valid()
      ensures found == S.AnyConnecting(View())
    {
      found := false;
      for idx := 0 to S.MAX_CLIENTS
        invariant found <==> exists k :: 0 <= k < idx && View().info[k].Open() && View().info[k].connecting
      {
        found := found || (IsOpen(idx) && IsConnecting(idx));
      }
    }

    method AnyConnected() returns (found: bool)
      requires Valid()
      ensures found == S.AnyConnected(View())
    {
      found := false;
      for idx := 0 to S.MAX_CLIENTS
        invariant found <==> exists k :: 0 <= k < idx && S.ToServe(View().info[k])
      {
        found := found || (IsOpen(idx) && IsConnected(idx));
      }
    }

    /** Whether the loop over connecting clients will check any. */
    method AnyToPoll(ready: seq<bool>) returns (found: bool)
      requires Valid() && |ready| == S.MAX_CLIENTS
      ensures found == S.AnyToPoll(View(), ready)
    {
      found := false;
      for idx := 0 to S.MAX_CLIENTS
        invariant found <==> exists k :: 0 <= k < idx && S.ToPoll(View().info[k], ready[k])
      {
        found := found || (IsOpen(idx) && ready[idx] && IsConnecting(idx));
      }
    }

    /** The first half of `mangoh_bridge_sockets_runner`; `count` is the result when no check replaced it. */
    method PollPhase(p: S.Pass) returns (res: int, count: int, ghost moves: seq<S.Move>)
      requires Valid() && p.Valid()
      modifies Footprint()
      ensures Valid()
      ensures var st, o := old(View()), S.Poll(old(View()), p);
              && S.Outcome(View(), res, moves) == o
              && count == if S.AnyConnecting(st) && !S.AnyToPoll(st, p.ready) then p.select1 else S.OK
    {
      hide S.PollFrom, S.AnyConnecting, S.AnyConnected, S.AnyToPoll;
      var connecting := AnyConnecting();
      var polled := AnyToPoll(p.ready);
      res, count, moves := S.OK, if connecting && !polled then p.select1 else S.OK, [];
      if connecting {
        if p.select1 < 0 {
          return S.IO_ERROR, count, [];
        }
        res, moves := Poll(p);
      }
    }

    /** The second half of `mangoh_bridge_sockets_runner`. */
    method ServePhase(p: S.Pass) returns (res: int, ghost moves: seq<S.Move>)
      requires Valid() && p.Valid()
      modifies Footprint()
      ensures Valid() && S.Outcome(View(), res, moves) == S.Serve(old(View()), p)
    {
      if p.select2 < 0 {
        return S.IO_ERROR, [];
      }
      res, moves := Serve(p);
    }

    /** `mangoh_bridge_sockets_runner`. */
    method Runner(p: S.Pass) returns (res: int, ghost moves: seq<S.Move>)
      requires Valid() && p.Valid()
      modifies Footprint()
      ensures Valid() && S.Outcome(View(), res, moves) == S.Runner(old(View()), p)
    {
      hide S.Poll, S.Serve, S.AnyConnecting, S.AnyConnected, S.AnyToPoll;
      var count;
      res, count, moves := PollPhase(p);
      if res != S.OK {
        return;
      }
      var connected := AnyConnected();
      if !connected {
        return count, moves;
      }
      ghost var more;
      res, more := ServePhase(p);
      moves := moves + more;
    }

    /** `mangoh_bridge_sockets_reset`, the slots. */
    method Reset(closes: seq<bool>) returns (res: int, ghost moves: seq<S.Move>)
      requires Valid() && |closes| == S.MAX_CLIENTS
      modifies Footprint()
      ensures Valid() && S.Outcome(View(), res, moves) == S.ResetFrom(old(View()), 0, closes)
    {
      hide Valid, View, Separate, Footprint, S.State.Valid, S.Slot.Valid;
      hide S.ResetFrom, S.Before;
      ghost var all := S.ResetFrom(View(), 0, closes);
      moves := [];
      S.BeforeAll(all);
      var idx := 0;
      while idx < S.MAX_CLIENTS
        invariant 0 <= idx <= S.MAX_CLIENTS && Valid()
        invariant S.Before(moves, S.ResetFrom(View(), idx, closes)) == all
      {
        S.ResetStep(View(), idx, closes);
        if IsOpen(idx) {
          if !closes[idx] {
            S.BeforeNothing(moves, View(), S.IO_ERROR);
            return S.IO_ERROR, moves;
          }
          ClearAt(idx);
          S.BeforeMore(moves, [S.Cut(idx, true)], S.ResetFrom(View(), idx + 1, closes));
          moves := moves + [S.Cut(idx, true)];
        }
        idx := idx + 1;
      }
      S.ResetDone(View(), closes);
      S.BeforeNothing(moves, View(), S.OK);
      res := S.OK;
    }
  }

  lemma UpdatedTwice<T>(s: seq<T>, k: nat, a: T, b: T)
    requires k < |s|
    ensures s[k := a][k := b] == s[k := b]
  {
  }
}
