/** A linear feedback shift register over any type of word. A word has a low bit and a half (what is left when
    the low bit falls out); `taps` is XORed in when the bit that falls out differs from the message bit. */
module ShiftRegister {
  datatype Register<!R> = Register(xor: (R, R) -> R, half: R -> R, low: R -> bool, taps: R) {
    function Step(r: R, bit: bool): R {
      if low(r) != bit then xor(half(r), taps) else half(r)
    }

    function Run(r: R, bits: seq<bool>): R
      decreases |bits|
    {
      if bits == [] then r else Run(Step(r, bits[0]), bits[1..])
    }

    /** The first `n` bits of a word, lowest first, and what is left of it. */
    function LowBits(word: R, n: nat): (bits: seq<bool>)
      ensures |bits| == n
      decreases n
    {
      if n == 0 then [] else [low(word)] + LowBits(half(word), n - 1)
    }

    function Rest(word: R, n: nat): R
      decreases n
    {
      if n == 0 then word else Rest(half(word), n - 1)
    }
  }

  /** What makes the register linear: half and low distribute over XOR, and the taps cancel in pairs. */
  ghost predicate LinearAt<R>(g: Register<R>, x: R, y: R) {
    && g.half(g.xor(x, y)) == g.xor(g.half(x), g.half(y))
    && g.low(g.xor(x, y)) == (g.low(x) != g.low(y))
    && g.xor(g.xor(x, g.taps), y) == g.xor(g.xor(x, y), g.taps)
    && g.xor(x, g.xor(y, g.taps)) == g.xor(g.xor(x, y), g.taps)
    && g.xor(g.xor(x, g.taps), g.xor(y, g.taps)) == g.xor(x, y)
  }

  ghost predicate Linear<R(!new)>(g: Register<R>) {
    forall x, y :: LinearAt(g, x, y)
  }

  lemma {:induction false} RunConcat<R>(g: Register<R>, r: R, a: seq<bool>, b: seq<bool>)
    ensures g.Run(r, a + b) == g.Run(g.Run(r, a), b)
    decreases |a|
  {
    if a == [] {
      assert a + b == b;
    } else {
      assert (a + b)[1..] == a[1..] + b;
      RunConcat(g, g.Step(r, a[0]), a[1..], b);
    }
  }

  function Differences(a: seq<bool>, b: seq<bool>): (d: seq<bool>)
    requires |a| == |b|
    ensures |d| == |a| && forall k :: 0 <= k < |d| ==> d[k] == (a[k] != b[k])
  {
    seq(|a|, k requires 0 <= k < |a| => a[k] != b[k])
  }

  function Zeros(n: nat): (bits: seq<bool>)
    ensures |bits| == n && forall k :: 0 <= k < n ==> !bits[k]
  {
    seq(n, _ => false)
  }

  lemma StepLinear<R(!new)>(g: Register<R>, r: R, a: bool, s: R, b: bool)
    requires Linear(g)
    ensures g.xor(g.Step(r, a), g.Step(s, b)) == g.Step(g.xor(r, s), a != b)
  {
    assert LinearAt(g, r, s) && LinearAt(g, g.half(r), g.half(s));
  }

  lemma StepJoins<R(!new)>(g: Register<R>, r: R, word: R)
    requires Linear(g)
    ensures g.xor(g.Step(r, g.low(word)), g.half(word)) == g.Step(g.xor(r, word), false)
  {
    assert LinearAt(g, r, word) && LinearAt(g, g.half(r), g.half(word));
  }

  /** The XOR of two runs is the run of the XOR. */
  lemma {:induction false} RunLinear<R(!new)>(g: Register<R>, r: R, a: seq<bool>, s: R, b: seq<bool>)
    requires |a| == |b| && Linear(g)
    ensures g.xor(g.Run(r, a), g.Run(s, b)) == g.Run(g.xor(r, s), Differences(a, b))
    decreases |a|
  {
    if a != [] {
      StepLinear(g, r, a[0], s, b[0]);
      RunLinear(g, g.Step(r, a[0]), a[1..], g.Step(s, b[0]), b[1..]);
      assert Differences(a, b)[1..] == Differences(a[1..], b[1..]);
    }
  }

  /** Feeding a word bit by bit is XORing it into the register and then feeding zeros. */
  lemma {:induction false} RunFeeds<R(!new)>(g: Register<R>, r: R, word: R, n: nat)
    requires Linear(g)
    ensures g.xor(g.Run(r, g.LowBits(word, n)), g.Rest(word, n)) == g.Run(g.xor(r, word), Zeros(n))
    decreases n
  {
    if n > 0 {
      StepJoins(g, r, word);
      RunFeeds(g, g.Step(r, g.low(word)), g.half(word), n - 1);
      assert g.LowBits(word, n)[1..] == g.LowBits(g.half(word), n - 1);
      assert Zeros(n)[1..] == Zeros(n - 1);
    }
  }

  lemma RunFourZeros<R>(g: Register<R>, r: R)
    ensures g.Run(r, Zeros(4)) == g.Step(g.Step(g.Step(g.Step(r, false), false), false), false)
  {
    var four := Zeros(4);
    assert four == [false, false, false, false];
    assert four[1..] == [false, false, false] && four[1..][1..] == [false, false] && four[1..][1..][1..] == [false];
  }

  /** A word is determined by its first bits and by what is left of it. */
  lemma {:induction false} WordInjective<R(!new)>(g: Register<R>, w: R, v: R, n: nat)
    requires forall x, y :: g.half(x) == g.half(y) && g.low(x) == g.low(y) ==> x == y
    requires g.LowBits(w, n) == g.LowBits(v, n) && g.Rest(w, n) == g.Rest(v, n)
    ensures w == v
    decreases n
  {
    if n > 0 {
      assert g.LowBits(w, n)[0] == g.LowBits(v, n)[0];
      assert g.LowBits(w, n)[1..] == g.LowBits(v, n)[1..];
      WordInjective(g, g.half(w), g.half(v), n - 1);
    }
  }

  /** A property with levels: a step takes one level off it, and at level zero only a zero bit keeps it. It holds
      after any run whose bits are all zero from `level` on. */
  lemma {:induction false} RunKeeps<R(!new)>(g: Register<R>, holds: (R, nat) -> bool, r: R, bits: seq<bool>, level: nat)
    requires holds(r, level)
    requires forall x, bit, n: nat {:trigger g.Step(x, bit), holds(x, n)} ::
               0 < n && holds(x, n) ==> holds(g.Step(x, bit), n - 1)
    requires forall x :: holds(x, 0) ==> holds(g.Step(x, false), 0)
    requires forall k :: level <= k < |bits| ==> !bits[k]
    ensures exists n: nat :: n <= level && holds(g.Run(r, bits), n)
    decreases |bits|
  {
    if bits == [] {
      assert holds(g.Run(r, bits), level);
    } else {
      var next, left := g.Step(r, bits[0]), if level == 0 then 0 else level - 1;
      if level == 0 {
        assert !bits[0];
      }
      assert holds(next, left);
      RunKeeps(g, holds, next, bits[1..], left);
      var n: nat :| n <= left && holds(g.Run(next, bits[1..]), n);
      assert g.Run(r, bits) == g.Run(next, bits[1..]);
    }
  }

  // Counting ones modulo two.

  predicate OddOnes(bits: seq<bool>)
    decreases |bits|
  {
    bits != [] && bits[0] != OddOnes(bits[1..])
  }

  lemma {:induction false} OddDifferences(a: seq<bool>, b: seq<bool>)
    requires |a| == |b|
    ensures OddOnes(Differences(a, b)) == (OddOnes(a) != OddOnes(b))
    decreases |a|
  {
    if a != [] {
      OddDifferences(a[1..], b[1..]);
      assert Differences(a, b)[1..] == Differences(a[1..], b[1..]);
    }
  }

  lemma {:induction false} OddAppend(bits: seq<bool>, bit: bool)
    ensures OddOnes(bits + [bit]) == (OddOnes(bits) != bit)
    decreases |bits|
  {
    if bits == [] {
      assert [bit][1..] == [];
    } else {
      assert (bits + [bit])[1..] == bits[1..] + [bit];
      OddAppend(bits[1..], bit);
    }
  }

  lemma {:induction false} LowBitsMore<R>(g: Register<R>, word: R, n: nat)
    ensures g.LowBits(word, n + 1) == g.LowBits(word, n) + [g.low(g.Rest(word, n))]
    decreases n
  {
    if n > 0 {
      LowBitsMore(g, g.half(word), n - 1);
    }
  }

  lemma {:induction false} LowBitsLinear<R(!new)>(g: Register<R>, w: R, v: R, n: nat)
    requires Linear(g)
    ensures g.LowBits(g.xor(w, v), n) == Differences(g.LowBits(w, n), g.LowBits(v, n))
    decreases n
  {
    if n > 0 {
      assert LinearAt(g, w, v);
      LowBitsLinear(g, g.half(w), g.half(v), n - 1);
    }
  }

  /** The parity of a word of `n` bits. */
  predicate Odd<R>(g: Register<R>, n: nat, word: R) { OddOnes(g.LowBits(word, n)) }

  lemma OddHalf<R>(g: Register<R>, n: nat, word: R)
    requires !g.low(g.Rest(word, n))
    ensures Odd(g, n, g.half(word)) == (Odd(g, n, word) != g.low(word))
  {
    LowBitsMore(g, word, n);
    OddAppend(g.LowBits(word, n), false);
    assert g.LowBits(word, n + 1)[1..] == g.LowBits(g.half(word), n);
  }

  /** When the taps have an odd number of ones, each one in the message toggles the parity of the register. */
  lemma StepToggles<R(!new)>(g: Register<R>, n: nat, r: R, bit: bool)
    requires Linear(g) && Odd(g, n, g.taps)
    requires !g.low(g.Rest(r, n))
    ensures Odd(g, n, g.Step(r, bit)) == (Odd(g, n, r) != bit)
  {
    OddHalf(g, n, r);
    LowBitsLinear(g, g.half(r), g.taps, n);
    OddDifferences(g.LowBits(g.half(r), n), g.LowBits(g.taps, n));
  }

  lemma {:induction false} RunToggles<R(!new)>(g: Register<R>, n: nat, r: R, bits: seq<bool>)
    requires Linear(g) && Odd(g, n, g.taps)
    requires forall x :: !g.low(g.Rest(x, n))
    ensures Odd(g, n, g.Run(r, bits)) == (Odd(g, n, r) != OddOnes(bits))
    decreases |bits|
  {
    if bits != [] {
      StepToggles(g, n, r, bits[0]);
      RunToggles(g, n, g.Step(r, bits[0]), bits[1..]);
    }
  }
}
