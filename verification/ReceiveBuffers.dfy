/** The receive buffers of airVantage.c and mailbox.c: messages go in at the back, the board drains 128 bytes a time. */
module ReceiveBuffers {
  import opened Bytes
  import opened Packet

  const SIZE: nat := 0x4000
  const NUL: char := '\0'

  predicate IsText(s: string) { forall k :: 0 <= k < |s| ==> s[k] != NUL }

  // The queue as a value.

  predicate Fits(queue: string, message: string) { |queue| + |message| <= SIZE }

  /** How much one response takes. */
  function Portion(queue: string): (n: nat)
    ensures n <= |queue| && n <= DATA_SIZE && (n == 0 <==> queue == "")
  {
    if DATA_SIZE > |queue| then |queue| else DATA_SIZE
  }

  datatype Event =
    | Arrive(message: string)
    | Recv

  datatype Result = Result(queue: string, responses: seq<string>)

  function Step(queue: string, e: Event): (r: Result)
    requires |queue| <= SIZE
    ensures |r.queue| <= SIZE
  {
    match e
    case Arrive(message) => Result(if Fits(queue, message) then queue + message else queue, [])
    case Recv => Result(queue[Portion(queue)..], [queue[..Portion(queue)]])
  }

  function Run(queue: string, events: seq<Event>): (r: Result)
    requires |queue| <= SIZE
    ensures |r.queue| <= SIZE
    decreases |events|
  {
    if events == [] then Result(queue, [])
    else
      var first := Step(queue, events[0]);
      var rest := Run(first.queue, events[1..]);
      Result(rest.queue, first.responses + rest.responses)
  }

  /** The messages of a run that were not dropped, one after the other. */
  function Kept(queue: string, events: seq<Event>): string
    requires |queue| <= SIZE
    decreases |events|
  {
    if events == [] then ""
    else
      var e := events[0];
      (if e.Arrive? && Fits(queue, e.message) then e.message else "") + Kept(Step(queue, e).queue, events[1..])
  }

  function Flatten(parts: seq<string>): string
    decreases |parts|
  {
    if parts == [] then "" else parts[0] + Flatten(parts[1..])
  }

  lemma {:induction false} FlattenConcat(a: seq<string>, b: seq<string>)
    ensures Flatten(a + b) == Flatten(a) + Flatten(b)
    decreases |a|
  {
    if a == [] {
      assert a + b == b;
    } else {
      assert (a + b)[1..] == a[1..] + b;
      FlattenConcat(a[1..], b);
    }
  }

  lemma FlattenOne(s: string)
    ensures Flatten([s]) == s
  {
    assert [s][1..] == [];
  }

  lemma FlattenNone()
    ensures Flatten([]) == ""
  {
  }

  lemma TakeConserves(queue: string, n: nat)
    requires n <= |queue|
    ensures queue + "" == Flatten([queue[..n]]) + queue[n..]
  {
    FlattenOne(queue[..n]);
  }

  lemma KeptOne(queue: string, e: Event)
    requires |queue| <= SIZE
    ensures Kept(queue, [e]) == if e.Arrive? && Fits(queue, e.message) then e.message else ""
  {
    assert Kept(Step(queue, e).queue, [e][1..]) == "";
  }

  /** One event: what was there and what came in is what went out and what is there. */
  lemma StepConserves(queue: string, e: Event)
    requires |queue| <= SIZE
    ensures var r := Step(queue, e); queue + Kept(queue, [e]) == Flatten(r.responses) + r.queue
  {
    hide Kept, Flatten;
    KeptOne(queue, e);
    if e.Recv? {
      TakeConserves(queue, Portion(queue));
    } else {
      KeepConserves(queue, e.message);
    }
  }

  lemma KeepConserves(queue: string, message: string)
    ensures queue + message == Flatten([]) + (queue + message) && queue + "" == Flatten([]) + queue
  {
    FlattenNone();
  }

  /** The queue law of a first part and of a rest give the law of both. */
  lemma Chain(q0: string, in0: string, out0: string, q1: string, in1: string, out1: string, q2: string)
    requires q0 + in0 == out0 + q1 && q1 + in1 == out1 + q2
    ensures q0 + (in0 + in1) == (out0 + out1) + q2
  {
    assert q0 + (in0 + in1) == (q0 + in0) + in1;
    assert (out0 + q1) + in1 == out0 + (q1 + in1);
    assert out0 + (out1 + q2) == (out0 + out1) + q2;
  }

  lemma KeptCons(queue: string, events: seq<Event>)
    requires |queue| <= SIZE && events != []
    ensures Kept(queue, events) == Kept(queue, [events[0]]) + Kept(Step(queue, events[0]).queue, events[1..])
  {
    hide Step;
    KeptOne(queue, events[0]);
  }

  /** A message is kept whole exactly when it and what is buffered are together at most 16384 bytes; otherwise nothing
      of it is. */
  lemma KeptExactly(queue: string, message: string)
    requires |queue| <= 16384
    ensures var r := Step(queue, Arrive(message));
            && r.responses == [] && r.queue == (if |queue| + |message| <= 0x4000 then queue + message else queue)
            && Kept(queue, [Arrive(message)]) == if |queue| + |message| <= 0x4000 then message else ""
  {
    KeptOne(queue, Arrive(message));
  }

  /** A request returns the front of the buffer, up to 128 bytes of it, and leaves the rest. */
  lemma ReturnsFront(queue: string)
    requires |queue| <= 16384
    ensures var r := Step(queue, Recv);
            && |r.responses| == 1 && r.responses[0] + r.queue == queue
            && |r.responses[0]| == (if |queue| < 128 then |queue| else 128) && Kept(queue, [Recv]) == ""
  {
    KeptOne(queue, Recv);
  }

  /** Over every run, the responses followed by the buffer are the messages that fitted, in order. */
  lemma {:induction false} RunConserves(queue: string, events: seq<Event>)
    requires |queue| <= SIZE
    ensures var r := Run(queue, events); queue + Kept(queue, events) == Flatten(r.responses) + r.queue
    decreases |events|
  {
    if events == [] {
      assert queue + "" == "" + queue;
    } else {
      hide Kept, Flatten, Step;
      var first := Step(queue, events[0]);
      var rest := Run(first.queue, events[1..]);
      StepConserves(queue, events[0]);
      KeptCons(queue, events);
      RunConserves(first.queue, events[1..]);
      FlattenConcat(first.responses, rest.responses);
      Chain(queue, Kept(queue, [events[0]]), Flatten(first.responses), first.queue,
            Kept(first.queue, events[1..]), Flatten(rest.responses), rest.queue);
    }
  }

  function Recvs(n: nat): seq<Event> { seq(n, _ => Recv) }

  /** A board that asks as often as the length divided by the packet size, rounded up, gets everything. */
  lemma {:induction false} DrainsAll(queue: string, n: nat)
    requires |queue| <= SIZE && |queue| <= DATA_SIZE * n
    ensures var r := Run(queue, Recvs(n)); r.queue == "" && Flatten(r.responses) == queue
    decreases n
  {
    if n == 0 {
      assert Recvs(0) == [];
    } else {
      var p := Portion(queue);
      assert Recvs(n)[1..] == Recvs(n - 1);
      DrainsAll(queue[p..], n - 1);
      FlattenConcat([queue[..p]], Run(queue[p..], Recvs(n - 1)).responses);
      FlattenOne(queue[..p]);
      assert queue[..p] + queue[p..] == queue;
    }
  }

  /** It takes that many: with fewer requests something is left. */
  lemma {:induction false} DrainsNoEarlier(queue: string, n: nat)
    requires |queue| <= SIZE && DATA_SIZE * n < |queue|
    ensures |Run(queue, Recvs(n)).queue| == |queue| - DATA_SIZE * n
    decreases n
  {
    if n > 0 {
      assert Recvs(n)[1..] == Recvs(n - 1);
      DrainsNoEarlier(queue[Portion(queue)..], n - 1);
    }
  }

  // What the board makes of the answer to `available`.

  /** `dataAvailable` on the board. */
  function Announced(high: byte, low: byte): nat { ((high as nat) * 0x100) + low as nat }

  lemma AnnouncedIsLength(n: nat)
    requires n <= SIZE
    ensures Announced(LengthBytes(n)[0], LengthBytes(n)[1]) == n
  {
    LengthRoundTrip(n);
  }

  // The array.

  /** `rxBuffer` and `rxBuffLen`, the same in `mangoh_bridge_air_vantage_t` and `mangoh_bridge_mailbox_t`. */
  class ReceiveBuffer {
    const rxBuffer: array<char>
    var rxBuffLen: nat

    ghost predicate Valid()
      reads this, rxBuffer
    {
      && rxBuffer.Length == SIZE && rxBuffLen <= SIZE
      && forall k :: rxBuffLen <= k < SIZE ==> rxBuffer[k] == NUL
    }

    ghost function Queue(): (s: string)
      requires Valid()
      reads this, rxBuffer
      ensures |s| <= SIZE
    {
      rxBuffer[..rxBuffLen]
    }

    constructor ()
      ensures Valid() && fresh(rxBuffer) && Queue() == ""
    {
      rxBuffer := new char[SIZE](_ => NUL);
      rxBuffLen := 0;
    }

    /** The end of `mangoh_bridge_air_vantage_dataUpdateHdlr`: `strncpy` fills the rest with zeros. */
    method AppendText(message: string)
      requires Valid() && IsText(message)
      modifies this, rxBuffer
      ensures Valid() && Queue() == Step(old(Queue()), Arrive(message)).queue
    {
      if |message| + rxBuffLen > SIZE {
        return;
      }
      forall k | rxBuffLen <= k < SIZE {
        rxBuffer[k] := if k - rxBuffLen < |message| then message[k - rxBuffLen] else NUL;
      }
      rxBuffLen := rxBuffLen + |message|;
      assert Queue() == old(Queue()) + message;
    }

    /** The end of `mangoh_bridge_mailbox_processRawCommand`: false is `LE_OVERFLOW`. */
    method AppendBytes(message: string) returns (ok: bool)
      requires Valid()
      modifies this, rxBuffer
      ensures Valid() && Queue() == Step(old(Queue()), Arrive(message)).queue
      ensures ok == Fits(old(Queue()), message)
    {
      if rxBuffLen + |message| > SIZE {
        return false;
      }
      forall k | 0 <= k < |message| {
        rxBuffer[rxBuffLen + k] := message[k];
      }
      rxBuffLen := rxBuffLen + |message|;
      assert Queue() == old(Queue()) + message;
      return true;
    }

    /** `mangoh_bridge_air_vantage_recv` and `mangoh_bridge_mailbox_recv`: the payload of the response. */
    method Recv() returns (response: string)
      requires Valid()
      modifies this, rxBuffer
      ensures Valid()
      ensures Result(Queue(), [response]) == Step(old(Queue()), Event.Recv)
    {
      if rxBuffLen == 0 {
        assert ""[..0] == "" && ""[0..] == "";
        response := "";
        return;
      }
      ghost var queue := Queue();
      var rdLen := if DATA_SIZE > rxBuffLen then rxBuffLen else DATA_SIZE;
      response := rxBuffer[..rdLen];
      assert rdLen == Portion(queue) && response == queue[..rdLen];
      forall k | 0 <= k < rxBuffLen - rdLen {
        rxBuffer[k] := rxBuffer[k + rdLen];
      }
      assert rxBuffer[..rxBuffLen - rdLen] == queue[rdLen..];
      forall k | rxBuffLen - rdLen <= k < rxBuffLen {
        rxBuffer[k] := NUL;
      }
      rxBuffLen := rxBuffLen - rdLen;
      assert Queue() == queue[rdLen..];
      assert Step(queue, Event.Recv) == Result(queue[rdLen..], [queue[..rdLen]]);
    }

    /** `mangoh_bridge_air_vantage_available` and `mangoh_bridge_mailbox_available`: the two bytes of the response. */
    method Available() returns (response: seq<byte>)
      requires Valid()
      ensures |response| == 2 && Announced(response[0], response[1]) == |Queue()|
    {
      var field := Reverse(LengthBytes(rxBuffLen)); // as a little-endian host stores it
      response := Reverse(field);                    // htons
      AnnouncedIsLength(rxBuffLen);
    }
  }
}
