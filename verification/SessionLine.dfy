/** Every byte string on the line is items and the beginning of one more, in exactly one way. */
module SessionLine {
  import opened Bytes
  import opened Crc
  import opened Packet
  import opened Session
  import opened SessionStream

  /** The beginning of an item: a frame or header of which something is still to come. */
  predicate Partial(line: seq<byte>) {
    line == [] || (line[0] == START && |line| < Needed(line))
  }

  /** How many bytes the item needs that starts like this, as far as it shows. */
  function Needed(line: seq<byte>): nat {
    if |line| < 4 then 4
    else
      var n := LengthOf(line[2], line[3]);
      if n > DATA_SIZE then 4 else 6 + n
  }

  /** The item a line starts with. */
  ghost function First(line: seq<byte>): Item
    requires !Partial(line)
  {
    if line[0] != START then Noise(line[0])
    else
      var idx, n := line[1], LengthOf(line[2], line[3]);
      if n > DATA_SIZE then Oversized(idx, n)
      else
        var payload, crc := line[4..4 + n], Join(line[4 + n], line[5 + n]);
        if crc == FrameCrc(idx, payload) then Good(idx, payload) else Damaged(idx, payload, crc)
  }

  lemma SplitJoin(high: byte, low: byte)
    ensures High(Join(high, low)) == high && Low(Join(high, low)) == low
  {
  }

  lemma BytesOfLength(high: byte, low: byte)
    ensures LengthBytes(LengthOf(high, low)) == [high, low]
  {
    var n := LengthOf(high, low);
    assert n / 256 == high as nat && n % 256 == low as nat;
    ByteOf(high);
    ByteOf(low);
  }

  /** The bytes of a header, and of a frame. */
  lemma HeaderBytes(line: seq<byte>)
    requires |line| >= 4 && line[0] == START
    ensures line[..4] == [START, line[1]] + LengthBytes(LengthOf(line[2], line[3]))
  {
    hide LengthBytes, LengthOf;
    BytesOfLength(line[2], line[3]);
  }

  lemma FrameBytes(line: seq<byte>, n: nat)
    requires |line| >= 6 + n && line[0] == START && LengthOf(line[2], line[3]) == n
    ensures line[..6 + n] == Covered(line[1], line[4..4 + n])
                             + [High(Join(line[4 + n], line[5 + n])), Low(Join(line[4 + n], line[5 + n]))]
  {
    hide LengthBytes, LengthOf, High, Low, Join;
    HeaderBytes(line);
    SplitJoin(line[4 + n], line[5 + n]);
    assert line[..6 + n] == line[..4] + line[4..4 + n] + [line[4 + n], line[5 + n]];
  }

  /** It is there. */
  lemma FirstIs(line: seq<byte>)
    requires !Partial(line)
    ensures var item := First(line);
            item.Valid() && 1 <= |item.Wire()| <= |line| && line == item.Wire() + line[|item.Wire()|..]
  {
    hide FrameCrc, LengthBytes, LengthOf, High, Low, Join, Covered;
    var item := First(line);
    if line[0] == START {
      var n := LengthOf(line[2], line[3]);
      if n <= DATA_SIZE {
        FrameBytes(line, n);
        assert item.Wire() == line[..6 + n];
      } else {
        HeaderBytes(line);
        assert item.Wire() == line[..4];
      }
    }
  }

  /** It is the only one the line can start with. */
  lemma FirstUnique(item: Item, rest: seq<byte>)
    requires item.Valid()
    ensures !Partial(item.Wire() + rest) && First(item.Wire() + rest) == item
  {
    hide FrameCrc, LengthBytes, LengthOf, High, Low, Join;
    var line := item.Wire() + rest;
    match item
    case Noise(_) =>
    case Oversized(idx, n) =>
      LengthRoundTrip(n);
      assert line[2] == LengthBytes(n)[0] && line[3] == LengthBytes(n)[1];
    case Good(idx, payload) => FrameFirst(idx, payload, FrameCrc(idx, payload), rest);
    case Damaged(idx, payload, crc) => FrameFirst(idx, payload, crc, rest);
  }

  lemma FrameFirst(idx: byte, payload: seq<byte>, crc: bv16, rest: seq<byte>)
    requires |payload| <= DATA_SIZE
    ensures var line := Covered(idx, payload) + [High(crc), Low(crc)] + rest;
            !Partial(line) && First(line) == if crc == FrameCrc(idx, payload) then Good(idx, payload) else Damaged(idx, payload, crc)
  {
    hide FrameCrc, LengthBytes, LengthOf, High, Low, Join;
    var line, n := Covered(idx, payload) + [High(crc), Low(crc)] + rest, |payload|;
    LengthRoundTrip(n);
    JoinSplit(crc);
    assert line[1] == idx && line[2] == LengthBytes(n)[0] && line[3] == LengthBytes(n)[1];
    assert line[4..4 + n] == payload && line[4 + n] == High(crc) && line[5 + n] == Low(crc);
  }

  ghost predicate AllValid(items: seq<Item>) { forall item | item in items :: item.Valid() }

  /** All items of a line, and the beginning of the one that is not complete. */
  ghost function Split(line: seq<byte>): (parts: (seq<Item>, seq<byte>))
    decreases |line|
  {
    if Partial(line) then ([], line)
    else
      FirstIs(line);
      var item := First(line);
      var (items, tail) := Split(line[|item.Wire()|..]);
      ([item] + items, tail)
  }

  /** They make up the line. */
  lemma {:induction false} SplitIs(line: seq<byte>)
    ensures var (items, tail) := Split(line); AllValid(items) && Partial(tail) && Wire(items) + tail == line
    decreases |line|
  {
    hide Partial, First;
    if Partial(line) {
      assert [] + line == line;
    } else {
      FirstIs(line);
      var item := First(line);
      var rest := line[|item.Wire()|..];
      SplitIs(rest);
      var (items, tail) := Split(rest);
      WireMore(item, items, tail);
    }
  }

  lemma WireMore(item: Item, items: seq<Item>, tail: seq<byte>)
    requires item.Valid() && AllValid(items)
    ensures AllValid([item] + items) && Wire([item] + items) + tail == item.Wire() + (Wire(items) + tail)
  {
    assert ([item] + items)[1..] == items;
  }

  /** No other items and beginning of an item do. */
  lemma {:induction false} SplitUnique(items: seq<Item>, tail: seq<byte>)
    requires AllValid(items) && Partial(tail)
    ensures Split(Wire(items) + tail) == (items, tail)
    decreases |items|
  {
    hide Partial, First;
    if items == [] {
      assert [] + tail == tail;
    } else {
      var item, more := items[0], items[1..];
      assert item in items && items == [item] + more;
      var rest := Wire(more) + tail;
      WireMore(item, more, tail);
      FirstUnique(item, rest);
      assert (item.Wire() + rest)[|item.Wire()|..] == rest;
      SplitUnique(more, tail);
    }
  }

  /** Whatever is on the line: as many events on it as it has items accept exactly the undamaged frames among them, in
      order, and leave the beginning of the next item on the line. */
  lemma LineDecoded(cfg: Config, st: State, events: seq<Event>)
    requires cfg.Valid() && st.Valid() && |events| == |Split(st.rx).0|
    requires forall k :: 0 <= k < |events| ==> CleanEvent(events[k]) && Sendable(events[k].run)
    ensures var (items, tail) := Split(st.rx);
            var (final, log) := Run(cfg, st, events);
            final.rx == tail && Requests(log) == Meaning(items)
  {
    hide Split, Run;
    SplitIs(st.rx);
    StreamDecoded(cfg, st, Split(st.rx).0, Split(st.rx).1, events);
  }
}
