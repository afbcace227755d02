/** The output buffer of the writer: which runs of it come out whole, and when its count of free bytes stays exact. */
module JsonBuffer {
  import opened JsonValue
  import opened JsonWriter
  import opened JsonEscape
  import opened PowersOfTwo
  import Decimal
  import StrReplace
  import R = JsonReader

  const ALLOC_LEN: nat := 64

  /** Above this, the loop of `getNextPowerOfTwo` does not end. */
  const MOST: nat := 0x8000_0000

  /** What the writer has written, how many bytes it believes are free, how many the block really has, and how many
      have been copied by growing. */
  datatype State = State(written: string, allocLen: nat, size: nat, recopied: nat) {
    ghost predicate Exact() { |written| + allocLen == size && size >= ALLOC_LEN && IsPow2(size) }
  }

  const INITIAL := State("", ALLOC_LEN, ALLOC_LEN, 0)

  /** `Stopped` is a copy that is not both inside the block and covered by the bytes believed free: the bytes are
      stored first and counted then, and the assertion on the count fires only when it is the count that is short. */
  datatype Outcome =
    | Running(state: State)
    | Stopped(asserted: bool, inside: bool)
    | Endless

  /** A position in the block, how many bytes are believed free behind it, and how many the block really has. */
  datatype Place = Place(len: nat, free: nat, size: nat)

  const START := Place(0, ALLOC_LEN, ALLOC_LEN)

  function PlaceOf(s: State): Place { Place(|s.written|, s.allocLen, s.size) }

  /** After asking for room: growing adds half of the new size to the bytes believed free. */
  function Grown(at: Place, n: nat): Place {
    if at.free < n then Place(at.len, at.free + NextPow2(at.len + n) / 2, NextPow2(at.len + n)) else at
  }

  function Step(s: State, op: Op): Outcome {
    match op
    case Check(size) =>
      var len := |s.written|;
      if s.allocLen >= size then Running(s)
      else if len + size > MOST then Endless
      else
        var grown := Grown(PlaceOf(s), size);
        Running(s.(allocLen := grown.free, size := grown.size, recopied := s.recopied + len))
    case Copy(text) =>
      if |text| <= s.allocLen && |s.written| + |text| <= s.size then
        Running(s.(written := s.written + text, allocLen := s.allocLen - |text|))
      else
        Stopped(|text| > s.allocLen, |s.written| + |text| <= s.size)
  }

  function Run(s: State, ops: seq<Op>): Outcome
    decreases |ops|
  {
    if ops == [] then Running(s)
    else
      var o := Step(s, ops[0]);
      if o.Running? then Run(o.state, ops[1..]) else o
  }

  lemma {:induction false} RunConcat(s: State, a: seq<Op>, b: seq<Op>)
    ensures var o := Run(s, a); Run(s, a + b) == if o.Running? then Run(o.state, b) else o
    decreases |a|
  {
    if a == [] {
      assert a + b == b;
    } else {
      assert (a + b)[0] == a[0] && (a + b)[1..] == a[1..] + b;
      hide Step;
      var o := Step(s, a[0]);
      if o.Running? {
        RunConcat(o.state, a[1..], b);
      }
    }
  }

  // Which runs come out whole.

  /** Every copy is inside the block and covered by the bytes believed free, and every growth ends: a condition on
      the sizes of the chunks and the place alone. */
  predicate Fits(ops: seq<Op>, at: Place)
    decreases |ops|
  {
    ops == [] ||
    match ops[0]
    case Check(n) => (at.free < n ==> at.len + n <= MOST) && Fits(ops[1..], Grown(at, n))
    case Copy(text) => CanCopy(|text|, at) && Fits(ops[1..], Copied(at, |text|))
  }

  predicate CanCopy(n: nat, at: Place) { n <= at.free && at.len + n <= at.size }

  function Copied(at: Place, n: nat): Place
    requires CanCopy(n, at)
  {
    Place(at.len + n, at.free - n, at.size)
  }

  /** Where operations that fit end. */
  function Reached(ops: seq<Op>, at: Place): Place
    requires Fits(ops, at)
    decreases |ops|
  {
    if ops == [] then at
    else
      match ops[0]
      case Check(n) => Reached(ops[1..], Grown(at, n))
      case Copy(text) => Reached(ops[1..], Copied(at, |text|))
  }

  /** From any state, a run comes out whole if and only if its operations fit; it has then appended their text and is
      where the sizes alone say. */
  lemma {:induction false} FitsIsExact(s: State, ops: seq<Op>)
    ensures Run(s, ops).Running? <==> Fits(ops, PlaceOf(s))
    ensures Fits(ops, PlaceOf(s)) ==> PlaceOf(Run(s, ops).state) == Reached(ops, PlaceOf(s))
    ensures Fits(ops, PlaceOf(s)) ==> Run(s, ops).state.written == s.written + TextOf(ops)
    decreases |ops|
  {
    if ops == [] {
      assert s.written + "" == s.written;
    } else {
      hide NextPow2;
      var o := Step(s, ops[0]);
      if o.Running? {
        FitsIsExact(o.state, ops[1..]);
        StrReplace.Assoc(s.written, if ops[0].Copy? then ops[0].text else "", TextOf(ops[1..]));
        assert s.written + "" == s.written;
      }
    }
  }

  /** Operations that fit and end there. */
  predicate Leads(ops: seq<Op>, at: Place, to: Place) { Fits(ops, at) && Reached(ops, at) == to }

  lemma {:induction false} FitsConcat(a: seq<Op>, b: seq<Op>, at: Place)
    ensures Fits(a + b, at) <==> (Fits(a, at) && Fits(b, Reached(a, at)))
    ensures Fits(a + b, at) ==> Reached(a + b, at) == Reached(b, Reached(a, at))
    decreases |a|
  {
    if a == [] {
      assert a + b == b;
    } else {
      assert (a + b)[0] == a[0] && (a + b)[1..] == a[1..] + b;
      hide NextPow2;
      match a[0]
      case Check(n) => FitsConcat(a[1..], b, Grown(at, n));
      case Copy(text) =>
        if CanCopy(|text|, at) {
          FitsConcat(a[1..], b, Copied(at, |text|));
        }
    }
  }

  lemma LeadsConcat(a: seq<Op>, b: seq<Op>, from: Place, via: Place, to: Place)
    requires Leads(a, from, via) && Leads(b, via, to)
    ensures Leads(a + b, from, to)
  {
    hide Fits, Reached;
    FitsConcat(a, b, from);
  }

  /** One growth, from any state: when it covers the chunk, and when it believes in no more bytes than the block has. */
  lemma GrowthExactly(s: State, n: nat)
    requires s.allocLen < n && |s.written| + n <= MOST
    ensures var incr, o := NextPow2(|s.written| + n), Step(s, Check(n));
            && o.Running? && o.state.written == s.written && o.state.size == incr
            && (n <= o.state.allocLen <==> n <= s.allocLen + incr / 2)
            && (|s.written| + o.state.allocLen <= o.state.size <==> |s.written| + s.allocLen + incr / 2 <= incr)
  {
  }

  // When the count stays exact.

  /** Growing from an exact state is exact exactly when the chunk fits twice the present size. */
  lemma GrowthExact(s: State, size: nat)
    requires s.Exact() && s.allocLen < size && |s.written| + size <= MOST
    ensures Step(s, Check(size)).state.Exact() <==> |s.written| + size <= 2 * s.size
    ensures |s.written| + size <= 2 * s.size ==> Step(s, Check(size)).state.size == 2 * s.size
  {
    var n := |s.written| + size;
    var incr := NextPow2(n);
    Doubled(s.size);
    if n <= 2 * s.size {
      NextBetween(2 * s.size, n);
      NextUnique(incr, 2 * s.size, n);
    }
    Halves(incr);
  }

  /** Where every chunk finds room at most one doubling away. */
  function Room(ops: seq<Op>, p: nat, size: nat): bool
    decreases |ops|
  {
    if ops == [] then true
    else
      match ops[0]
      case Check(n) =>
        p + n <= 2 * size && (size < p + n ==> p + n <= MOST)
        && Room(ops[1..], p, if p + n <= size then size else 2 * size)
      case Copy(text) => p + |text| <= size && Room(ops[1..], p + |text|, size)
  }

  /** A run that never leaves the exact states and never stops. */
  ghost predicate StaysExact(s: State, ops: seq<Op>)
    decreases |ops|
  {
    s.Exact() && (ops == [] || (Step(s, ops[0]).Running? && StaysExact(Step(s, ops[0]).state, ops[1..])))
  }

  /** The room condition is the one under which the count of free bytes stays exact. */
  lemma {:induction false} RoomIsExact(s: State, ops: seq<Op>)
    requires s.Exact()
    ensures StaysExact(s, ops) <==> Room(ops, |s.written|, s.size)
    decreases |ops|
  {
    if ops != [] {
      var o := Step(s, ops[0]);
      if o.Running? {
        match ops[0]
        case Check(n) =>
          if s.allocLen < n {
            GrowthExact(s, n);
          }
          if o.state.Exact() {
            RoomIsExact(o.state, ops[1..]);
          } else {
            NotExact(o.state, ops[1..]);
          }
        case Copy(text) => RoomIsExact(o.state, ops[1..]);
      }
    }
  }

  lemma NotExact(s: State, ops: seq<Op>)
    requires !s.Exact()
    ensures !StaysExact(s, ops)
  {
  }

  /** Operations with room fit, the size stays 64 times a power of two, and the bytes recopied stay below it. */
  lemma {:induction false} RunWithRoom(s: State, ops: seq<Op>)
    requires s.Exact() && s.recopied + ALLOC_LEN <= s.size && Room(ops, |s.written|, s.size)
    ensures var o := Run(s, ops);
            o.Running? && o.state.Exact() && o.state.recopied + ALLOC_LEN <= o.state.size
            && o.state.written == s.written + TextOf(ops)
    decreases |ops|
  {
    hide Step, State.Exact, IsPow2;
    if ops == [] {
      assert s.written + "" == s.written;
    } else {
      StepWithRoom(s, ops[0]);
      RunWithRoom(Step(s, ops[0]).state, ops[1..]);
      StrReplace.Assoc(s.written, if ops[0].Copy? then ops[0].text else "", TextOf(ops[1..]));
    }
  }

  /** One operation that finds room. */
  lemma StepWithRoom(s: State, op: Op)
    requires s.Exact() && s.recopied + ALLOC_LEN <= s.size
    requires |s.written| + (if op.Check? then op.size - s.size else |op.text|) <= s.size
    requires op.Check? && s.size < |s.written| + op.size ==> |s.written| + op.size <= MOST
    ensures var o := Step(s, op);
            o.Running? && o.state.Exact() && o.state.recopied + ALLOC_LEN <= o.state.size
            && o.state.written == s.written + (if op.Copy? then op.text else "")
            && o.state.size == if op.Check? && |s.written| + op.size > s.size then 2 * s.size else s.size
  {
    assert s.written + "" == s.written;
    if op.Check? && s.allocLen < op.size {
      GrowthExact(s, op.size);
    }
  }

  // How large the buffer gets.

  /** Neither the block nor what is believed of it is twice as large as what has been asked for, and the bytes recopied
      are at most twice what is believed. */
  ghost predicate Tight(s: State, reach: nat) {
    && (s.size == ALLOC_LEN || s.size < 2 * reach)
    && (|s.written| + s.allocLen == ALLOC_LEN || |s.written| + s.allocLen < 2 * reach)
    && s.recopied + 2 * ALLOC_LEN <= 2 * (|s.written| + s.allocLen)
  }

  lemma StepTight(s: State, op: Op, reach: nat)
    requires Tight(s, reach) && Step(s, op).Running? && (op.Check? ==> |s.written| + op.size <= reach)
    ensures Tight(Step(s, op).state, reach)
  {
    if op.Check? && s.allocLen < op.size {
      NextBelow(|s.written| + op.size);
    }
  }

  /** Checked chunks that are then copied ask for no more than is written in the end. */
  lemma {:induction false} RunTight(s: State, ops: seq<Op>, reach: nat)
    requires Tight(s, reach) && Run(s, ops).Running?
    requires forall k :: 0 <= k < |ops| && ops[k].Check? ==> |s.written| + |TextOf(ops[..k])| + ops[k].size <= reach
    ensures Tight(Run(s, ops).state, reach)
    decreases |ops|
  {
    if ops != [] {
      hide Tight, Step;
      assert ops[..0] == [] && TextOf(ops[..0]) == "";
      var o, rest := Step(s, ops[0]), ops[1..];
      StepTight(s, ops[0], reach);
      StepWrites(s, ops[0]);
      forall k | 0 <= k < |rest| && rest[k].Check?
        ensures |o.state.written| + |TextOf(rest[..k])| + rest[k].size <= reach
      {
        assert ops[..k + 1][0] == ops[0] && ops[..k + 1][1..] == rest[..k];
        assert rest[k] == ops[k + 1];
      }
      RunTight(o.state, rest, reach);
    }
  }

  lemma StepWrites(s: State, op: Op)
    requires Step(s, op).Running?
    ensures Step(s, op).state.written == s.written + (if op.Copy? then op.text else "")
  {
    assert s.written + "" == s.written;
  }

  ghost predicate FollowedAt(ops: seq<Op>, after: nat, k: nat)
    requires k < |ops|
  {
    ops[k].Check? ==> ops[k].size <= |TextOf(ops[k..])| + after
  }

  /** Each chunk the writer asks room for is followed by at least that much text. */
  ghost predicate Followed(ops: seq<Op>, after: nat) {
    forall k :: 0 <= k < |ops| ==> FollowedAt(ops, after, k)
  }

  lemma FollowedConcat(a: seq<Op>, b: seq<Op>, after: nat)
    requires Followed(b, after) && Followed(a, |TextOf(b)| + after)
    ensures Followed(a + b, after)
  {
    hide TextOf, FollowedAt;
    forall k | 0 <= k < |a + b| ensures FollowedAt(a + b, after, k) {
      if k < |a| {
        FollowedLeft(a, b, after, k);
      } else {
        FollowedRight(a, b, after, k - |a|);
      }
    }
  }

  lemma FollowedLeft(a: seq<Op>, b: seq<Op>, after: nat, k: nat)
    requires k < |a| && FollowedAt(a, |TextOf(b)| + after, k)
    ensures FollowedAt(a + b, after, k)
  {
    assert (a + b)[k..] == a[k..] + b;
    TextOfConcat(a[k..], b);
  }

  lemma FollowedRight(a: seq<Op>, b: seq<Op>, after: nat, k: nat)
    requires k < |b| && FollowedAt(b, after, k)
    ensures FollowedAt(a + b, after, |a| + k)
  {
    assert (a + b)[|a| + k..] == b[k..];
  }

  lemma FollowedMore(a: seq<Op>, n: nat, m: nat)
    requires Followed(a, n) && n <= m
    ensures Followed(a, m)
  {
    forall k | 0 <= k < |a| ensures FollowedAt(a, m, k) {
      assert FollowedAt(a, n, k);
    }
  }

  lemma FollowedPut(text: string)
    ensures Followed(Put(text), 0)
  {
    TextOfPut(text);
    assert Put(text)[0..] == Put(text);
  }

  lemma FollowedThree(a: seq<Op>, b: seq<Op>, c: seq<Op>)
    requires Followed(a, 0) && Followed(b, |TextOf(c)|) && Followed(c, 0)
    ensures Followed(a + b + c, 0)
  {
    hide TextOf, Followed;
    FollowedMore(a, 0, |TextOf(b)| + |TextOf(c)|);
    FollowedConcat(a, b, |TextOf(c)|);
    FollowedConcat(a + b, c, 0);
  }

  lemma FollowedComma(before: seq<Op>)
    requires Followed(before, 0)
    ensures Followed(before + [Check(1)], 1) && Followed(before + [Check(1), Copy(",")], 0)
    ensures Followed(before + [Copy(",")], 0)
  {
    TextOfComma();
    assert [Check(1)][0..] == [Check(1)] && [Check(1), Copy(",")][0..] == [Check(1), Copy(",")];
    FollowedMore(before, 0, 1);
    FollowedConcat(before, [Check(1)], 1);
    FollowedConcat(before, [Check(1), Copy(",")], 0);
    FollowedConcat(before, [Copy(",")], 0);
  }

  lemma {:induction false} OpsFollowed(v: Value)
    ensures Followed(Ops(v), 0)
    decreases v
  {
    hide Followed, TextOf, Put, EscapePasses, Decimal.Print;
    match v
    case Str(s) =>
      var escaped := EscapePasses(R.CString(s));
      FollowedPut("\"");
      FollowedPut(escaped);
      FollowedMore(Put(escaped), 0, |TextOf(Put("\""))|);
      FollowedThree(Put("\""), Put(escaped), Put("\""));
    case Arr(items) =>
      ItemsFollowed(items);
      FollowedPut("[");
      FollowedPut("]");
      TextOfPut("]");
      FollowedThree(Put("["), ItemsOps(items), Put("]"));
    case Obj(members) =>
      MembersFollowed(members);
      FollowedPut("{");
      FollowedPut("}");
      FollowedMore(MembersOps(members), 0, |TextOf(Put("}"))|);
      FollowedThree(Put("{"), MembersOps(members), Put("}"));
    case _ => FollowedPut(WriteText(v));
  }

  lemma {:induction false} ItemsFollowed(items: seq<Value>)
    ensures Followed(ItemsOps(items), 1)
    decreases items
  {
    hide TextOf, Ops;
    if |items| == 1 {
      OpsFollowed(items[0]);
      FollowedComma(Ops(items[0]));
    } else if items != [] {
      var a := Ops(items[0]) + [Check(1), Copy(",")];
      OpsFollowed(items[0]);
      ItemsFollowed(items[1..]);
      FollowedComma(Ops(items[0]));
      FollowedMore(a, 0, |TextOf(ItemsOps(items[1..]))| + 1);
      FollowedConcat(a, ItemsOps(items[1..]), 1);
    }
  }

  lemma {:induction false} MemberFollowed(m: Pair)
    ensures Followed(MemberOps(m), 0)
    decreases m
  {
    match m
    case Pair(attribute, value) =>
      hide Followed, TextOf, Put, Ops;
      var key := R.CString(attribute);
      OpsFollowed(value);
      FollowedPut("\"");
      FollowedPut(key);
      FollowedPut(":");
      FollowedMore(Put(key), 0, |TextOf(Put("\""))|);
      FollowedThree(Put("\""), Put(key), Put("\""));
      FollowedMore(Put(":"), 0, |TextOf(Ops(value))|);
      FollowedThree(Put("\"") + Put(key) + Put("\""), Put(":"), Ops(value));
  }

  lemma {:induction false} MembersFollowed(members: seq<Pair>)
    ensures Followed(MembersOps(members), 0)
    decreases members
  {
    hide TextOf, MemberOps;
    if |members| == 1 {
      MemberFollowed(members[0]);
    } else if members != [] {
      var a := MemberOps(members[0]) + [Copy(",")];
      MemberFollowed(members[0]);
      MembersFollowed(members[1..]);
      FollowedComma(MemberOps(members[0]));
      FollowedMore(a, 0, |TextOf(MembersOps(members[1..]))|);
      FollowedConcat(a, MembersOps(members[1..]), 0);
    }
  }

  /** Writing a value whose operations fit: the block holds its text; neither the block nor what is believed of it has
      twice as many bytes (or it has its first size); and growing copied at most four times as many. */
  lemma WriteIsLinear(v: Value)
    requires Fits(Ops(v), START)
    ensures var o, n := Run(INITIAL, Ops(v)), |WriteText(v)|;
            o.Running? && o.state.written == WriteText(v)
            && (o.state.size == ALLOC_LEN || o.state.size < 2 * n)
            && (n + o.state.allocLen == ALLOC_LEN || o.state.allocLen < n) && o.state.recopied <= 4 * n
  {
    var ops := Ops(v);
    hide Ops, WriteText, Fits;
    FitsIsExact(INITIAL, ops);
    OpsText(v);
    OpsFollowed(v);
    forall k | 0 <= k < |ops| && ops[k].Check? ensures 0 + |TextOf(ops[..k])| + ops[k].size <= |TextOf(ops)| {
      assert FollowedAt(ops, 0, k);
      assert ops == ops[..k] + ops[k..];
      TextOfConcat(ops[..k], ops[k..]);
    }
    RunTight(INITIAL, ops, |WriteText(v)|);
    assert "" + WriteText(v) == WriteText(v);
  }

  /** Text that fits what is left fits without growing. */
  lemma {:induction false} FitsAsIs(ops: seq<Op>, at: Place)
    requires Followed(ops, 0) && CanCopy(|TextOf(ops)|, at)
    ensures Leads(ops, at, Copied(at, |TextOf(ops)|))
    decreases |ops|
  {
    if ops != [] {
      assert FollowedAt(ops, 0, 0) && ops[0..] == ops;
      forall k | 0 <= k < |ops[1..]| ensures FollowedAt(ops[1..], 0, k) {
        assert FollowedAt(ops, 0, k + 1) && ops[k + 1..] == ops[1..][k..];
      }
      match ops[0]
      case Check(_) => FitsAsIs(ops[1..], at);
      case Copy(text) => FitsAsIs(ops[1..], Copied(at, |text|));
    }
  }

  // One chunk, and the runs that do not come out whole.

  /** One chunk is asked room for and copied. */
  predicate Takes(n: nat, at: Place) { (at.free < n ==> at.len + n <= MOST) && CanCopy(n, Grown(at, n)) }

  lemma PutFits(text: string, at: Place)
    ensures Fits(Put(text), at) <==> Takes(|text|, at)
    ensures Takes(|text|, at) ==> Reached(Put(text), at) == Copied(Grown(at, |text|), |text|)
  {
    var grown := Grown(at, |text|);
    hide NextPow2, Grown;
    assert Put(text)[1..] == [Copy(text)] && [Copy(text)][1..] == [];
    assert Fits([Copy(text)], grown) <==> CanCopy(|text|, grown);
    if CanCopy(|text|, grown) {
      assert Reached([Copy(text)], grown) == Reached([], Copied(grown, |text|));
    }
  }

  lemma LeadsPut(text: string, at: Place)
    requires CanCopy(|text|, at)
    ensures Leads(Put(text), at, Copied(at, |text|))
  {
    hide Fits, Reached, Put;
    PutFits(text, at);
  }

  /** Which strings can be the first thing written: those of up to 63 characters, and those for which the 63 free bytes
      and half of the next power of two are enough. */
  lemma FirstString(t: string)
    ensures Fits(Put("\"") + Put(t), START) <==> Takes(|t|, Place(1, 63, 64))
    ensures Takes(|t|, Place(1, 63, 64)) <==> |t| <= 63 || (|t| + 1 <= MOST && |t| <= 63 + NextPow2(|t| + 1) / 2)
  {
    hide Put, Fits, Reached, NextPow2;
    FirstQuote();
    FitsConcat(Put("\""), Put(t), START);
    PutFits(t, Place(1, 63, 64));
    NextCovers(|t| + 1);
  }

  lemma FirstQuote()
    ensures Leads(Put("\""), START, Place(1, 63, 64))
  {
    hide Put;
    LeadsPut("\"", START);
  }

  lemma NextCovers(n: nat)
    ensures n <= NextPow2(n)
  {
  }

  /** One of 150 characters is written although the count is no longer exact. */
  lemma UncountedString(t: string)
    requires |t| == 150
    ensures Fits(Put("\"") + Put(t), START) && !Room(Put("\"") + Put(t), 0, ALLOC_LEN)
  {
    FirstString(t);
    NextIs256(151);
    var ops := Put("\"") + Put(t);
    assert ops == [Check(1), Copy("\""), Check(150), Copy(t)];
    assert ops[1..][0] == ops[1] && ops[1..][1..] == ops[2..] && ops[2..][0] == ops[2];
    assert !Room(ops[2..], 1, 64);
    assert !Room(ops[1..], 0, 64);
  }

  lemma NextIs256(n: nat)
    requires 128 < n <= 256
    ensures NextPow2(n) == 256
  {
    assert 256 == Pow2(8);
    NextBetween(256, n);
    NextUnique(256, NextPow2(n), n);
  }

  /** One of 200 characters stops the writer at its assertion: 63 and 128 free bytes are not 200. */
  lemma LongString(t: string)
    requires |t| == 200
    ensures Run(INITIAL, Put("\"") + Put(t)) == Stopped(true, true)
  {
    var ops := Put("\"") + Put(t);
    assert ops == [Check(1), Copy("\""), Check(200), Copy(t)];
    NextIs256(201);
    var s1 := State("\"", 63, 64, 0);
    var s2 := State("\"", 191, 256, 1);
    assert Step(INITIAL, ops[0]) == Running(INITIAL);
    assert Step(INITIAL, ops[1]) == Running(s1);
    assert Step(s1, ops[2]) == Running(s2);
    assert Step(s2, ops[3]) == Stopped(true, true);
    assert ops[1..][0] == ops[1] && ops[1..][1..] == ops[2..] && ops[2..][0] == ops[2];
    assert ops[2..][1..] == ops[3..] && ops[3..][0] == ops[3];
    assert Run(s2, ops[3..]) == Stopped(true, true);
    assert Run(s1, ops[2..]) == Stopped(true, true);
    assert Run(INITIAL, ops[1..]) == Stopped(true, true);
  }

  /** The comma between two members is not asked room for: a text that ends with the buffer stops the writer there. The
      assertion fires when the comma has already been stored one byte behind the block. */
  lemma CommaAborts(m: Pair, rest: seq<Pair>)
    requires rest != [] && |"{" + MemberText(m)| == ALLOC_LEN
    ensures Run(INITIAL, Ops(Obj([m] + rest))) == Stopped(true, false)
  {
    hide *;
    var before, after := Put("{") + MemberOps(m), MembersOps(rest) + Put("}");
    RunToComma(m);
    ObjectOps(m, rest);
    RunConcat(INITIAL, before, [Copy(",")] + after);
    CommaFirst(Run(INITIAL, before).state, after);
  }

  /** Writing up to the first comma of an object, when that fills the buffer. */
  lemma RunToComma(m: Pair)
    requires |"{" + MemberText(m)| == ALLOC_LEN
    ensures var o := Run(INITIAL, Put("{") + MemberOps(m));
            o.Running? && o.state.allocLen == 0 && |o.state.written| == o.state.size
  {
    hide Put, MemberOps, MemberText, TextOf, Fits, Reached, Followed, Run;
    var before := Put("{") + MemberOps(m);
    MemberFollowed(m);
    FollowedPut("{");
    TextOfPut("{");
    MemberOpsText(m);
    TextOfConcat(Put("{"), MemberOps(m));
    FollowedMore(Put("{"), 0, |TextOf(MemberOps(m))|);
    FollowedConcat(Put("{"), MemberOps(m), 0);
    FitsAsIs(before, START);
    FitsIsExact(INITIAL, before);
  }

  lemma ObjectOps(m: Pair, rest: seq<Pair>)
    requires rest != []
    ensures Ops(Obj([m] + rest))
         == Put("{") + MemberOps(m) + ([Copy(",")] + (MembersOps(rest) + Put("}")))
  {
    hide Put, MemberOps;
    var members := [m] + rest;
    assert members[0] == m && members[1..] == rest && |members| > 1;
    assert MembersOps(members) == MemberOps(m) + [Copy(",")] + MembersOps(rest);
  }

  lemma CommaFirst(s: State, after: seq<Op>)
    requires s.allocLen == 0 && |s.written| == s.size
    ensures Run(s, [Copy(",")] + after) == Stopped(true, false)
  {
    assert ([Copy(",")] + after)[0] == Copy(",");
  }

  // A run that leaves its block unnoticed.

  function Quoted(t: string): seq<Op> { Put("\"") + Put(t) + Put("\"") }

  function Item(t: string): seq<Op> { Quoted(t) + Put(",") }

  /** A string and the comma behind it, where only the text of the string may need a growth. */
  lemma ItemLeads(t: string, at: Place)
    requires CanCopy(1, at) && Takes(|t|, Copied(at, 1)) && CanCopy(2, Copied(Grown(Copied(at, 1), |t|), |t|))
    ensures Leads(Item(t), at, Copied(Copied(Grown(Copied(at, 1), |t|), |t|), 2))
  {
    hide Put, Fits, Reached, NextPow2, Grown;
    var open, quote := Copied(at, 1), Put("\"");
    var behind := Copied(Grown(open, |t|), |t|);
    LeadsPut("\"", at);
    PutFits(t, open);
    LeadsConcat(quote, Put(t), at, open, behind);
    LeadsPut("\"", behind);
    LeadsConcat(quote + Put(t), quote, at, behind, Copied(behind, 1));
    LeadsPut(",", Copied(behind, 1));
    LeadsConcat(Quoted(t), Put(","), at, Copied(behind, 1), Copied(behind, 2));
  }

  /** The first item of the array below makes the block grow to 256 bytes. */
  lemma FirstItem(t: string)
    requires |t| == 178
    ensures Leads(Item(t), Place(1, 63, 64), Place(182, 10, 256))
  {
    NextIs256(180);
    hide Item, Leads, NextPow2;
    ItemLeads(t, Place(1, 63, 64));
  }

  /** The second asks for 256 bytes again: 205 are written, and 115 believed free. */
  lemma SecondItem(t: string)
    requires |t| == 20
    ensures Leads(Item(t), Place(182, 10, 256), Place(205, 115, 256))
  {
    NextIs256(203);
    hide Item, Leads, NextPow2;
    ItemLeads(t, Place(182, 10, 256));
  }

  /** The third is counted in, and does not end inside the block. */
  lemma ThirdItem(s: State, t: string)
    requires PlaceOf(s) == Place(205, 115, 256) && |t| == 100
    ensures Run(s, Put("\"") + Put(t)) == Stopped(false, false)
  {
    var ops := Put("\"") + Put(t);
    var s1 := s.(written := s.written + "\"", allocLen := 114);
    assert ops == [Check(1), Copy("\""), Check(100), Copy(t)];
    assert Step(s, ops[0]) == Running(s) && Step(s, ops[1]) == Running(s1) && Step(s1, ops[2]) == Running(s1);
    assert Step(s1, ops[3]) == Stopped(false, false);
    assert ops[1..][0] == ops[1] && ops[1..][1..] == ops[2..] && ops[2..][0] == ops[2];
    assert ops[2..][1..] == ops[3..] && ops[3..][0] == ops[3];
    assert Run(s1, ops[3..]) == Stopped(false, false);
    assert Run(s1, ops[2..]) == Stopped(false, false);
    assert Run(s, ops[1..]) == Stopped(false, false);
  }

  /** A string that no replacement and no NUL changes. */
  ghost predicate Plain(t: string) { EscapePasses(R.CString(t)) == t }

  lemma ItemsStart(t: string, rest: seq<Value>)
    requires Plain(t) && rest != []
    ensures ItemsOps([Str(t)] + rest) == Item(t) + ItemsOps(rest)
  {
    hide EscapePasses, R.CString;
    var items := [Str(t)] + rest;
    assert items[0] == Str(t) && items[1..] == rest && |items| > 1;
  }

  lemma ItemsEnd(t: string)
    requires Plain(t)
    ensures ItemsOps([Str(t)]) == Quoted(t) + [Check(1)]
  {
    hide EscapePasses, R.CString;
  }

  lemma Regroup(a: seq<Op>, b: seq<Op>, c: seq<Op>, d: seq<Op>, e: seq<Op>, f: seq<Op>, g: seq<Op>)
    ensures a + (b + (c + (d + e + f))) + g == (a + b + c) + (d + (e + (f + g)))
  {
  }

  lemma ThreeItems(t1: string, t2: string, t3: string)
    requires Plain(t1) && Plain(t2) && Plain(t3)
    ensures ItemsOps([Str(t1), Str(t2), Str(t3)]) == Item(t1) + (Item(t2) + (Quoted(t3) + [Check(1)]))
  {
    hide *;
    ItemsEnd(t3);
    assert [Str(t2)] + [Str(t3)] == [Str(t2), Str(t3)];
    ItemsStart(t2, [Str(t3)]);
    assert [Str(t1)] + [Str(t2), Str(t3)] == [Str(t1), Str(t2), Str(t3)];
    ItemsStart(t1, [Str(t2), Str(t3)]);
  }

  lemma ThreeRegrouped(t1: string, t2: string, t3: string)
    requires Plain(t1) && Plain(t2) && Plain(t3)
    ensures Ops(Arr([Str(t1), Str(t2), Str(t3)]))
         == (Put("[") + Item(t1) + Item(t2)) + ((Put("\"") + Put(t3)) + (Put("\"") + ([Check(1)] + Put("]"))))
  {
    hide Put, Item, ItemsOps, Plain;
    ThreeItems(t1, t2, t3);
    Regroup(Put("["), Item(t1), Item(t2), Put("\"") + Put(t3), Put("\""), [Check(1)], Put("]"));
  }

  lemma TwoItems(t1: string, t2: string)
    requires |t1| == 178 && |t2| == 20
    ensures Leads(Put("[") + Item(t1) + Item(t2), START, Place(205, 115, 256))
  {
    hide Leads, Item, Put;
    LeadsPut("[", START);
    FirstItem(t1);
    SecondItem(t2);
    LeadsConcat(Put("["), Item(t1), START, Place(1, 63, 64), Place(182, 10, 256));
    LeadsConcat(Put("[") + Item(t1), Item(t2), START, Place(182, 10, 256), Place(205, 115, 256));
  }

  lemma LeadsRun(ops: seq<Op>, to: Place)
    requires Leads(ops, START, to)
    ensures Run(INITIAL, ops).Running? && PlaceOf(Run(INITIAL, ops).state) == to
  {
    hide Fits, Reached, Run;
    FitsIsExact(INITIAL, ops);
  }

  /** An array of three strings of 178, 20 and 100 plain characters: the second growth asks for 256 bytes again and
      counts another 128 free ones, so the third string is counted in and ends 50 bytes behind the block. */
  lemma LeavesBlock(t1: string, t2: string, t3: string)
    requires |t1| == 178 && |t2| == 20 && |t3| == 100 && Plain(t1) && Plain(t2) && Plain(t3)
    ensures Run(INITIAL, Ops(Arr([Str(t1), Str(t2), Str(t3)]))) == Stopped(false, false)
  {
    hide *;
    var first, second := Item(t1), Item(t2);
    var before, third, after := Put("[") + first + second, Put("\"") + Put(t3), Put("\"") + ([Check(1)] + Put("]"));
    ThreeRegrouped(t1, t2, t3);
    TwoItems(t1, t2);
    LeadsRun(before, Place(205, 115, 256));
    var s := Run(INITIAL, before).state;
    ThirdItem(s, t3);
    RunConcat(s, third, after);
    RunConcat(INITIAL, before, third + after);
  }
}
