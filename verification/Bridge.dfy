/** The bridge object of bridge.c, updated in place, proved against the session functions. */
module BridgeObject {
  import opened Bytes
  import Crc
  import opened Packet
  import S = Session
  import opened SessionStream

  class Bridge {
    // packet.msg and packet.crc
    var start: byte
    var idx: byte
    var len: nat
    const data: array<byte>
    var rxCrc: bv16
    var crc: bv16
    // the rest of the bridge
    var closed: bool
    const cmdHdlrs: array<S.Processor>
    var resets: seq<nat>
    // the serial line: bytes still to come, bytes sent
    var rx: seq<byte>
    var tx: seq<byte>
    ghost var log: seq<S.Observation>

    ghost predicate Valid()
      reads this, data
    {
      data.Length == DATA_SIZE && len < 0x1_0000 && cmdHdlrs.Length == S.COMMANDS
    }

    ghost function View(): (st: S.State)
      requires Valid()
      reads this, data
      ensures st.Valid()
    {
      S.State(PacketState(start, idx, len, data[..], rxCrc, crc), closed, rx, tx)
    }

    ghost function Cfg(): S.Config
      reads this, cmdHdlrs
    {
      S.Config(cmdHdlrs[..], resets)
    }

    /** The object is in the state an outcome describes, has seen what it describes, and kept its registrations. */
    twostate predicate Became(o: S.Outcome)
      reads this, data, cmdHdlrs
    {
      Valid() && View() == o.st && log == old(log) + o.seen && Cfg() == old(Cfg())
    }

    /** `mangoh_bridge_init`: an open bridge with nothing registered. */
    constructor (line: seq<byte>)
      ensures Valid() && fresh(data) && fresh(cmdHdlrs) && !closed && rx == line && tx == [] && log == []
      ensures Cfg() == S.Config(seq(S.COMMANDS, _ => S.NO_PROCESSOR), [])
    {
      start, idx, len, rxCrc, crc := 0, 0, 0, Crc.RESET, Crc.RESET;
      data := new byte[DATA_SIZE](_ => 0);
      cmdHdlrs := new S.Processor[S.COMMANDS](_ => S.NO_PROCESSOR);
      closed, resets, rx, tx, log := false, [], line, [], [];
    }

    /** The first registration of a command wins; a later one is refused and changes nothing. */
    method RegisterCommandProcessor(cmd: byte, processor: S.Processor) returns (res: int)
      requires Valid()
      modifies cmdHdlrs
      ensures var before := old(Cfg());
              if before.ProcessorOf(cmd) == S.NO_PROCESSOR
              then res == S.OK && cmdHdlrs[..] == before.processors[cmd as nat := processor]
              else res == S.BAD_PARAMETER && cmdHdlrs[..] == before.processors
    {
      if cmdHdlrs[cmd as nat].module_ != 0 || cmdHdlrs[cmd as nat].fcn != 0 {
        return S.BAD_PARAMETER;
      }
      cmdHdlrs[cmd as nat] := processor;
      return S.OK;
    }

    method RegisterReset(reset: nat)
      modifies this`resets
      ensures resets == old(resets) + [reset]
    {
      resets := resets + [reset];
    }

    /** The loop over partial reads: how many bytes arrive before one fails. */
    method Collect(n: nat, results: seq<int>) returns (ptr: nat)
      modifies this`rx
      ensures ptr == S.Collected(old(rx), n, results) && rx == old(rx)[ptr..]
    {
      var count, chunks := n, results;
      ptr := 0;
      while count > 0
        invariant 0 <= count == n - ptr && ptr <= |old(rx)| && rx == old(rx)[ptr..]
        invariant ptr + S.Collected(rx, count, chunks) == S.Collected(old(rx), n, results)
      {
        var bytesRead := S.ReadResult(rx, count, chunks);
        if bytesRead <= 0 {
          assert S.Collected(rx, count, chunks) == 0;
          return;
        }
        ptr, rx, count := ptr + bytesRead, rx[bytesRead..], count - bytesRead;
        chunks := if chunks == [] then [] else chunks[1..];
      }
    }

    /** `mangoh_bridge_read`: the bytes, or the restart of the port when a read fails. */
    method Read(n: nat, calls: S.ReadCalls) returns (res: int, got: seq<byte>)
      modifies this`rx, this`closed, this`log
      ensures var o := S.Read(old(rx), n, calls);
              && res == o.res && got == o.got && rx == old(rx)[|got|..]
              && closed == (old(closed) && !o.restarted) && log == old(log) + S.SeenRead(o)
    {
      hide S.Collected, S.ReadResult;
      if calls.select < 0 {
        return S.IO_ERROR, [];
      }
      if calls.select == 0 {
        return 0, [];
      }
      var line := rx;
      var ptr := Collect(n, calls.chunks);
      got := line[..ptr];
      if ptr == n {
        return n, got;
      }
      if calls.closeError != 0 {
        return calls.closeError, got;
      }
      closed := false;
      log := log + [S.Restarted];
      return if calls.reopened then S.IO_ERROR else S.FAULT, got;
    }

    /** `mangoh_bridge_write`: everything is sent, or a prefix and an error. */
    method Write(bytes: seq<byte>, writes: seq<int>) returns (res: int)
      modifies this`tx
      ensures var sent := S.Sent(|bytes|, writes);
              tx == old(tx) + bytes[..sent] && res == if sent == |bytes| then S.OK else S.IO_ERROR
    {
      var sent, left := 0, writes;
      while sent < |bytes|
        invariant sent <= |bytes| && tx == old(tx) + bytes[..sent]
        invariant sent + S.Sent(|bytes| - sent, left) == S.Sent(|bytes|, writes)
        decreases |left|, |bytes| - sent
      {
        var msgLen := |bytes| - sent;
        var bytesWrite := if left == [] || left[0] > msgLen then msgLen else left[0];
        if bytesWrite < 0 {
          return S.IO_ERROR;
        }
        tx := tx + bytes[sent..sent + bytesWrite];
        assert bytes[..sent + bytesWrite] == bytes[..sent] + bytes[sent..sent + bytesWrite];
        sent := sent + bytesWrite;
        left := if left == [] then [] else left[1..];
      }
      return S.OK;
    }

    /** `mangoh_bridge_packet_initResponse`. */
    method InitResponse(n: nat)
      requires Valid() && n <= DATA_SIZE
      modifies this`start, this`len, this`rxCrc
      ensures Valid() && Became(S.Outcome(old(View()).(packet := S.InitResponse(old(View()).packet, n)), S.OK, []))
    {
      hide Join, Low, High, Crc.Update, LengthOf, LengthBytes;
      start := START;
      var network := LengthBytes(n);
      len := LengthOf(network[1], network[0]);
      var value := Crc.CrcUpdate(Crc.RESET, [start]);
      value := Crc.CrcUpdate(value, [idx]);
      value := Crc.CrcUpdate(value, network);
      value := Crc.CrcUpdate(value, data[..n]);
      CoveredCrc(idx, data[..n]);
      rxCrc := Join(Low(value), High(value));
    }

    /** Three writes in sequence; the first that fails is the last. */
    method Transmit(head: seq<byte>, body: seq<byte>, tail: seq<byte>, calls: S.SendCalls) returns (res: int)
      modifies this`tx
      ensures var (sent, done) := S.Transmit(head, body, tail, calls);
              tx == old(tx) + sent && res == if done then S.OK else S.IO_ERROR
    {
      hide S.Sent;
      S.SentNothing(calls.body);
      res := Write(head, calls.header);
      if res != S.OK {
        return;
      }
      if |body| > 0 {
        res := Write(body, calls.body);
        if res != S.OK {
          return;
        }
      }
      assert tx == old(tx) + head + body;
      res := Write(tail, calls.trailer);
    }

    /** `mangoh_bridge_sendResult`. */
    method SendResult(n: nat, calls: S.SendCalls) returns (res: int)
      requires Valid() && n <= DATA_SIZE
      modifies this`start, this`len, this`rxCrc, this`tx, this`log
      ensures Became(S.SendResult(old(View()), n, calls)) && res == S.SendResult(old(View()), n, calls).res
    {
      hide FrameCrc, High, Low, LengthBytes, S.InitResponse, S.Transmit;
      ghost var p := S.InitResponse(View().packet, n);
      InitResponse(n);
      assert View() == old(View()).(packet := p);
      Trailer(old(View()).packet, n);
      res := Transmit([start, idx] + LengthBytes(n), data[..n], [Low(rxCrc), High(rxCrc)], calls);
      if res == S.OK {
        log := log + [S.Response(idx, data[..n])];
      }
    }

    /** A payload stored at the start of `packet.msg.data`, then sent: acknowledgements, refusals, answers. */
    method SendPayload(payload: seq<byte>, calls: S.SendCalls) returns (res: int)
      requires Valid() && |payload| <= DATA_SIZE
      modifies this`start, this`len, this`rxCrc, this`tx, this`log, data
      ensures Became(S.SendPayload(old(View()), payload, calls)) && res == S.SendPayload(old(View()), payload, calls).res
    {
      hide S.SendResult;
      forall k | 0 <= k < |payload| {
        data[k] := payload[k];
      }
      assert data[..] == Overwrite(old(data[..]), payload);
      assert View() == old(View()).(packet := old(View()).packet.(data := Overwrite(old(data[..]), payload)));
      res := SendResult(|payload|, calls);
    }

    /** What the environment says a command processor does: it stores and sends each of its payloads. */
    method RunProcessor(run: S.ProcessorRun) returns (res: int)
      requires Valid() && S.Sendable(run)
      modifies this`start, this`len, this`rxCrc, this`tx, this`log, data
      ensures Became(S.RunProcessor(old(View()), run.sends)) && res == run.res
    {
      hide S.SendPayload;
      var k := 0;
      ghost var all := S.RunProcessor(View(), run.sends);
      assert run.sends[0..] == run.sends;
      while k < |run.sends|
        invariant k <= |run.sends| && Valid() && Cfg() == old(Cfg())
        invariant S.RunProcessor(View(), run.sends[k..]).st == all.st
        invariant log + S.RunProcessor(View(), run.sends[k..]).seen == old(log) + all.seen
      {
        var _ := SendPayload(run.sends[k].0, run.sends[k].1);
        assert run.sends[k..][1..] == run.sends[k + 1..];
        k := k + 1;
      }
      return run.res;
    }

    /** The table entry of a command. */
    method Lookup(cmd: byte) returns (processor: S.Processor)
      requires Valid()
      ensures processor == Cfg().ProcessorOf(cmd)
    {
      processor := cmdHdlrs[cmd as nat];
    }

    /** `mangoh_bridge_process_cmd`. */
    method ProcessCmd(e: S.Event) returns (res: int)
      requires Valid() && S.Sendable(e.run)
      modifies this`start, this`len, this`rxCrc, this`tx, this`log, data
      ensures Became(S.ProcessCmd(old(Cfg()), old(View()), e))
      ensures res == S.ProcessCmd(old(Cfg()), old(View()), e).res
    {
      hide S.SendPayload, S.RunProcessor, S.Sendable, S.Config.ProcessorOf, S.Processor.Usable;
      var cmd := data[0];
      var processor := Lookup(cmd);
      if !processor.Usable() {
        res := SendPayload([S.NACK], e.answer);
        if res == S.OK {
          res := S.BAD_PARAMETER;
        }
      } else {
        var size := if len == 0 then 0xFFFF_FFFF else len - 1;
        res := CallProcessor(S.ProcessorCalled(processor, cmd, data[1..], size), e.run);
      }
    }

    /** A command processor called with what the frame carries. */
    method CallProcessor(ghost call: S.Observation, run: S.ProcessorRun) returns (res: int)
      requires Valid() && S.Sendable(run)
      modifies this`start, this`len, this`rxCrc, this`tx, this`log, data
      ensures Became(S.RunProcessor(old(View()), run.sends).(seen := [call] + S.RunProcessor(old(View()), run.sends).seen))
      ensures res == run.res
    {
      hide S.RunProcessor;
      log := log + [call];
      res := RunProcessor(run);
      ghost var seen := S.RunProcessor(old(View()), run.sends).seen;
      assert old(log) + [call] + seen == old(log) + ([call] + seen);
    }

    /** `mangoh_bridge_close`. */
    method Close(e: S.Event) returns (res: int)
      requires Valid()
      modifies this`start, this`len, this`rxCrc, this`tx, this`log, this`closed, data
      ensures Became(S.Close(old(View()), e)) && res == S.Close(old(View()), e).res
    {
      hide S.SendPayload;
      if len != |S.CLOSE_MARK| {
        return S.BAD_PARAMETER;
      }
      res := SendPayload([S.ACK], e.answer);
      if res == S.OK {
        closed := true;
        log := log + [S.Closed];
      }
    }

    /** `mangoh_bridge_excute_resets`: the list in order, up to the first failure. */
    method ExecuteResets(results: seq<int>) returns (res: int)
      requires Valid()
      modifies this`log
      ensures var r := S.ExecuteResets(old(resets), results); res == r.0 && log == old(log) + r.1
    {
      ghost var all := S.ExecuteResets(resets, results);
      var link, left := 0, results;
      assert resets[0..] == resets;
      while link < |resets|
        invariant link <= |resets|
        invariant S.ExecuteResets(resets[link..], left).0 == all.0
        invariant log + S.ExecuteResets(resets[link..], left).1 == old(log) + all.1
      {
        res := if left == [] then S.OK else left[0];
        log := log + [S.ResetCalled(resets[link], res)];
        if res != S.OK {
          return;
        }
        assert resets[link..][1..] == resets[link + 1..];
        left := if left == [] then [] else left[1..];
        link := link + 1;
      }
      return S.OK;
    }

    /** `mangoh_bridge_reset`. */
    method Reset(e: S.Event) returns (res: int)
      requires Valid()
      modifies this`start, this`len, this`rxCrc, this`tx, this`log, this`closed, data
      ensures Became(S.Reset(old(Cfg()), old(View()), e)) && res == S.Reset(old(Cfg()), old(View()), e).res
    {
      hide S.SendPayload, S.ExecuteResets;
      if len != |S.RESET_MARK| + |S.VERSION| || data[2..5] != S.VERSION {
        res := SendPayload([S.NACK], e.answer);
        if res == S.OK {
          res := S.BAD_PARAMETER;
        }
        return;
      }
      res := ExecuteResets(e.resetResults);
      if res != S.OK {
        return;
      }
      res := SendPayload([S.OK as byte] + S.VERSION, e.answer);
      if res == S.OK {
        closed := false;
        log := log + [S.Opened];
      }
    }

    /** `mangoh_bridge_process_payload`. */
    method ProcessPayload(e: S.Event) returns (res: int)
      requires Valid() && S.Sendable(e.run)
      modifies this`start, this`len, this`rxCrc, this`tx, this`log, this`closed, data
      ensures Became(S.ProcessPayload(old(Cfg()), old(View()), e))
      ensures res == S.ProcessPayload(old(Cfg()), old(View()), e).res
    {
      hide S.Reset, S.Close, S.ProcessCmd;
      if closed {
        if data[..2] == S.RESET_MARK {
          res := Reset(e);
        } else {
          res := S.BAD_PARAMETER;
        }
      } else if data[..5] == S.CLOSE_MARK {
        res := Close(e);
      } else if data[..2] == S.RESET_MARK {
        res := Reset(e);
      } else {
        res := ProcessCmd(e);
      }
    }

    /** `mangoh_bridge_process_msg_idx`. */
    method ProcessMsgIdx(calls: S.ReadCalls) returns (res: int)
      requires Valid()
      modifies this`idx, this`crc, this`rx, this`closed, this`log
      ensures Became(S.ReadIdx(old(View()), calls)) && res == S.ReadIdx(old(View()), calls).res
    {
      hide Crc.Update, S.Read;
      var got;
      res, got := Read(1, calls);
      idx := Overwrite([idx], got)[0];
      if res < 0 {
        return;
      }
      crc := Crc.CrcUpdate(crc, [idx]);
      return S.OK;
    }

    /** `mangoh_bridge_process_payload_len`, the length. */
    method ProcessLength(calls: S.ReadCalls) returns (res: int)
      requires Valid()
      modifies this`len, this`crc, this`rx, this`closed, this`log
      ensures Became(S.ReadLength(old(View()), calls)) && res == S.ReadLength(old(View()), calls).res
    {
      hide Crc.Update, S.Read, LengthBytes, LengthOf;
      var got;
      res, got := Read(2, calls);
      var memory := Overwrite(Reverse(LengthBytes(len)), got);
      if res < 0 {
        len := LengthOf(memory[1], memory[0]);
        return;
      }
      crc := Crc.CrcUpdate(crc, memory);
      len := LengthOf(memory[0], memory[1]);
      return if len > DATA_SIZE then S.OUT_OF_RANGE else S.OK;
    }

    /** `mangoh_bridge_process_payload_len`, the payload. */
    method ProcessBody(calls: S.ReadCalls) returns (res: int)
      requires Valid() && len <= DATA_SIZE
      modifies this`crc, this`rx, this`closed, this`log, data
      ensures Became(S.ReadPayload(old(View()), calls)) && res == S.ReadPayload(old(View()), calls).res
    {
      hide Crc.Update, S.Read;
      if len != 0 {
        forall k | 0 <= k < DATA_SIZE {
          data[k] := 0;
        }
        assert data[..] == seq(DATA_SIZE, _ => 0);
        var got;
        res, got := Read(len, calls);
        forall k | 0 <= k < |got| {
          data[k] := got[k];
        }
        assert data[..] == Overwrite(seq(DATA_SIZE, _ => 0), got);
        if res < 0 {
          return;
        }
      }
      crc := Crc.CrcUpdate(crc, data[..len]);
      return S.OK;
    }

    /** `mangoh_bridge_process_crc`. */
    method ProcessCrc(calls: S.ReadCalls) returns (res: int)
      requires Valid()
      modifies this`rxCrc, this`rx, this`closed, this`log
      ensures Became(S.ReadCrc(old(View()), calls)) && res == S.ReadCrc(old(View()), calls).res
    {
      hide S.Read, Join, High, Low;
      var got;
      res, got := Read(2, calls);
      var memory := Overwrite([Low(rxCrc), High(rxCrc)], got);
      if res < 0 {
        rxCrc := Join(memory[1], memory[0]);
        return;
      }
      rxCrc := Join(memory[0], memory[1]);
      return if crc != rxCrc then S.BAD_PARAMETER else S.OK;
    }

    /** `mangoh_bridge_process_payload_len`. */
    method ProcessPayloadLen(e: S.Event) returns (res: int)
      requires Valid()
      modifies this`len, this`crc, this`rx, this`closed, this`log, data
      ensures Became(S.ReadLengthAndPayload(old(View()), e)) && res == S.ReadLengthAndPayload(old(View()), e).res
    {
      hide S.ReadLength, S.ReadPayload;
      res := ProcessLength(e.len);
      if res == S.OK {
        res := ProcessBody(e.payload);
      }
    }

    /** The stages of `mangoh_bridge_process_msg` before the dispatch. */
    method Receive(e: S.Event) returns (res: int)
      requires Valid()
      modifies this`idx, this`len, this`rxCrc, this`crc, this`rx, this`closed, this`log, data
      ensures Became(S.Receive(old(View()), e)) && res == S.Receive(old(View()), e).res
    {
      hide Crc.Update, S.ReadIdx, S.ReadLengthAndPayload, S.ReadCrc, S.State.Valid;
      crc := Crc.CrcUpdate(Crc.RESET, [start]);
      ghost var st0, seen := View(), log;
      res := ProcessMsgIdx(e.idx);
      if res != S.OK {
        return;
      }
      ghost var o1 := S.ReadIdx(st0, e.idx);
      res := ProcessPayloadLen(e);
      if res != S.OK {
        return;
      }
      ghost var o2 := S.Then(o1, S.ReadLengthAndPayload(o1.st, e));
      assert View() == o2.st && log == seen + o2.seen;
      res := ProcessCrc(e.crc);
    }

    /** `mangoh_bridge_process_msg`. */
    method ProcessMsg(e: S.Event) returns (res: int)
      requires Valid() && S.Sendable(e.run)
      modifies this, data
      ensures Became(S.ProcessMsg(old(Cfg()), old(View()), e)) && res == S.ProcessMsg(old(Cfg()), old(View()), e).res
    {
      hide S.Receive, S.ProcessPayload;
      res := Receive(e);
      if res == S.OK {
        log := log + [S.Accepted(idx, data[..len])];
        res := ProcessPayload(e);
      }
    }

    /** `mangoh_bridge_eventHandler`, after the runners: one event is one step of the session. */
    method HandleEvent(e: S.Event) returns (res: int)
      requires Valid() && S.Sendable(e.run)
      modifies this, data
      ensures Became(S.HandleEvent(old(Cfg()), old(View()), e))
      ensures res == S.HandleEvent(old(Cfg()), old(View()), e).res
    {
      hide S.ProcessMsg, S.Read;
      var got;
      res, got := Read(1, e.start);
      start := Overwrite([start], got)[0];
      if res > 0 && start == START {
        res := ProcessMsg(e);
      }
    }
  }

  /** The CRC field in memory is the big-endian CRC. */
  lemma Trailer(p: PacketState, n: nat)
    requires p.Valid() && n <= DATA_SIZE
    ensures var crc, field := FrameCrc(p.idx, p.data[..n]), S.InitResponse(p, n).rxCrc;
            [Low(field), High(field)] == [High(crc), Low(crc)]
  {
    hide FrameCrc, LengthBytes;
    Swap(FrameCrc(p.idx, p.data[..n]));
    hide Join, High, Low;
  }

  lemma Swap(n: bv16)
    ensures Low(Join(Low(n), High(n))) == High(n) && High(Join(Low(n), High(n))) == Low(n)
  {
  }
}
