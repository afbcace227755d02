/** The frame of packet.h on the wire: start, index, big-endian length, payload, big-endian CRC. */
module Packet {
  import opened Bytes
  import opened Crc

  const START: byte := 0xFF
  const DATA_SIZE: nat := 128

  /** A 16-bit number as two bytes, high byte first, and back. */
  function LengthBytes(n: nat): (b: seq<byte>)
    requires n < 0x1_0000
    ensures |b| == 2
  {
    [(n / 256) as byte, (n % 256) as byte]
  }

  function LengthOf(high: byte, low: byte): (n: nat)
    ensures n < 0x1_0000
  {
    256 * (high as nat) + low as nat
  }

  lemma Successor(b: byte)
    requires b < 255
    ensures (b + 1) as nat == b as nat + 1
  {
  }

  lemma ByteOf(b: byte)
    ensures b as nat as byte == b
  {
  }

  /** Every number below 256 is that of a byte. */
  lemma {:induction false} Counted(n: nat) returns (b: byte)
    requires n < 256
    ensures b as nat == n
    decreases n
  {
    b := 0;
    if n > 0 {
      var a := Counted(n - 1);
      Successor(a);
      b := a + 1;
    }
  }

  lemma ByteRoundTrip(n: nat)
    requires n < 256
    ensures n as byte as nat == n
  {
    var b := Counted(n);
    ByteOf(b);
  }

  lemma LengthRoundTrip(n: nat)
    requires n < 0x1_0000
    ensures LengthOf(LengthBytes(n)[0], LengthBytes(n)[1]) == n
  {
    ByteRoundTrip(n / 256);
    ByteRoundTrip(n % 256);
  }

  /** The bytes the CRC covers. */
  function Covered(idx: byte, payload: seq<byte>): (b: seq<byte>)
    requires |payload| < 0x1_0000
    ensures |b| == |payload| + 4
  {
    [START, idx] + LengthBytes(|payload|) + payload
  }

  function FrameCrc(idx: byte, payload: seq<byte>): bv16
    requires |payload| < 0x1_0000
  {
    Update(RESET, Covered(idx, payload))
  }

  /** A whole frame. */
  function Frame(idx: byte, payload: seq<byte>): (b: seq<byte>)
    requires |payload| < 0x1_0000
    ensures |b| == |payload| + 6
  {
    Covered(idx, payload) + [High(FrameCrc(idx, payload)), Low(FrameCrc(idx, payload))]
  }

  /** The fields of `mangoh_bridge_packet_t` that change; `len` and `rxCrc` are what the two bytes of their field
      mean to a little-endian host. */
  datatype PacketState = PacketState(start: byte, idx: byte, len: nat, data: seq<byte>, rxCrc: bv16, crc: bv16) {
    ghost predicate Valid() { |data| == DATA_SIZE && len < 0x1_0000 }
  }

  /** The memory of a 16-bit field on a little-endian host is its two bytes, low byte first; `htons` and `ntohs`
      reverse it. */
  function Reverse(m: seq<byte>): (r: seq<byte>)
    requires |m| == 2
    ensures |r| == 2
  {
    [m[1], m[0]]
  }

  /** What a field holds after `got` was written over its first bytes. */
  function Overwrite(field: seq<byte>, got: seq<byte>): (r: seq<byte>)
    requires |got| <= |field|
    ensures |r| == |field| && r[..|got|] == got && r[|got|..] == field[|got|..]
  {
    got + field[|got|..]
  }

  /** What is where in a frame: the start byte, the index, the length and, behind the payload, the CRC, both of these
      with the high byte first. */
  lemma FrameLayout(idx: byte, payload: seq<byte>)
    requires |payload| <= 128
    ensures var f, n := Frame(idx, payload), |payload|;
            && |f| == n + 6 && f[0] == 0xFF && f[1] == idx && (f[2] as nat) * 256 + f[3] as nat == n && f[4..4 + n] == payload
            && ((f[4 + n] as bv16) << 8) | (f[5 + n] as bv16) == Update(0xFFFF, f[..4 + n])
  {
    hide Update;
    var f, n, crc := Frame(idx, payload), |payload|, FrameCrc(idx, payload);
    LengthRoundTrip(n);
    JoinSplit(crc);
    assert f[..4 + n] == Covered(idx, payload);
  }
}
