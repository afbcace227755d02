/** Who owns the blocks a read allocates, and what `mangoh_bridge_json_destroy` gives back. */
module JsonBlocks {
  import opened JsonReader

  /** The blocks with numbers from `a` up to `b`, each once. */
  function Range(a: nat, b: nat): multiset<nat>
    requires a <= b
    decreases b - a
  {
    if a == b then multiset{} else multiset{a} + Range(a + 1, b)
  }

  lemma {:induction false} RangeOnce(a: nat, b: nat, k: nat)
    requires a <= b
    ensures Range(a, b)[k] == if a <= k < b then 1 else 0
    decreases b - a
  {
    if a < b {
      RangeOnce(a + 1, b, k);
    }
  }

  lemma {:induction false} RangeSplit(a: nat, b: nat, c: nat)
    requires a <= b <= c
    ensures Range(a, b) + Range(b, c) == Range(a, c)
    decreases b - a
  {
    if a < b {
      RangeSplit(a + 1, b, c);
    }
  }

  // The blocks of a tree.

  function Ids(v: Node): multiset<nat> {
    match v
    case Str(id, buffer, _) => multiset{id, buffer}
    case Arr(id, items) => multiset{id} + ItemIds(items)
    case Obj(id, members) => multiset{id} + MemberIds(members)
    case _ => multiset{v.id}
  }

  function ItemIds(items: seq<Item>): multiset<nat> {
    if items == [] then multiset{} else OneItemIds(items[0]) + ItemIds(items[1..])
  }

  function OneItemIds(i: Item): multiset<nat> {
    match i
    case Item(link, node) => multiset{link} + Ids(node)
  }

  function MemberIds(members: seq<Member>): multiset<nat> {
    if members == [] then multiset{} else OneMemberIds(members[0]) + MemberIds(members[1..])
  }

  function OneMemberIds(m: Member): multiset<nat> {
    match m
    case Member(link, attribute, _, node) => multiset{link, attribute} + Ids(node)
  }

  // Reading.

  /** Between two heaps: what was allocated is in the tree, was released, or was lost. */
  ghost predicate Balanced(h: Heap, ids: multiset<nat>, h': Heap) {
    h.next <= h'.next && Range(h.next, h'.next) + h.freed + h.lost == ids + h'.freed + h'.lost
  }

  lemma Chain(h: Heap, a: multiset<nat>, h1: Heap, b: multiset<nat>, h2: Heap)
    requires Balanced(h, a, h1) && Balanced(h1, b, h2)
    ensures Balanced(h, a + b, h2)
  {
    RangeSplit(h.next, h1.next, h2.next);
    var x, y := Range(h.next, h1.next), Range(h1.next, h2.next);
    assert (x + y) + h.freed + h.lost == (x + h.freed + h.lost) + y == (a + h1.freed + h1.lost) + y;
    assert a + (y + h1.freed + h1.lost) == (a + h1.freed + h1.lost) + y;
    assert a + (b + h2.freed + h2.lost) == (a + b) + h2.freed + h2.lost;
  }

  lemma One(h: Heap)
    ensures Balanced(h, multiset{h.next}, h.(next := h.next + 1))
  {
  }

  lemma Two(h: Heap)
    ensures Balanced(h, multiset{h.next, h.next + 1}, h.(next := h.next + 2))
  {
    One(h);
    One(h.(next := h.next + 1));
    Chain(h, multiset{h.next}, h.(next := h.next + 1), multiset{h.next + 1}, h.(next := h.next + 2));
    assert multiset{h.next} + multiset{h.next + 1} == multiset{h.next, h.next + 1};
  }

  /** Blocks in hand that are released, or lost. */
  lemma Release(h: Heap, a: multiset<nat>, gone: multiset<nat>, h1: Heap)
    requires Balanced(h, a + gone, h1)
    ensures Balanced(h, a, h1.(freed := h1.freed + gone)) && Balanced(h, a, h1.(lost := h1.lost + gone))
  {
  }

  lemma StringBalanced(b: string, p: nat, n: nat, h: Heap)
    requires p < |b| && p + n <= |b| && (n == 0 ==> b[p] != '"')
    ensures var r := ReadString(b, p, n, h);
            r.Ok? ==> Balanced(h, KeyBlocks(r.node), r.heap) && Ids(r.node) == KeyBlocks(r.node) && r.heap.lost == h.lost
  {
    Two(h);
    hide Balanced;
  }

  lemma ConsItemIds(i: Item, rest: seq<Item>)
    ensures ItemIds([i] + rest) == multiset{i.link} + Ids(i.node) + ItemIds(rest)
  {
    assert ([i] + rest)[1..] == rest;
  }

  lemma ConsMemberIds(m: Member, rest: seq<Member>)
    ensures MemberIds([m] + rest) == multiset{m.link, m.attribute} + Ids(m.node) + MemberIds(rest)
  {
    assert ([m] + rest)[1..] == rest;
  }

  lemma ArrIds(id: nat, items: seq<Item>)
    ensures Ids(Arr(id, items)) == multiset{id} + ItemIds(items)
  {
  }

  lemma ObjIds(id: nat, members: seq<Member>)
    ensures Ids(Obj(id, members)) == multiset{id} + MemberIds(members)
  {
  }

  ghost predicate ReadBalanced(h: Heap, r: Read) { r.Ok? ==> Balanced(h, Ids(r.node), r.heap) }

  ghost predicate ItemsBalanced(h: Heap, r: Items) { !r.BadItems? ==> Balanced(h, ItemIds(r.items), r.heap) }

  ghost predicate MembersBalanced(h: Heap, r: Members) { !r.BadMembers? ==> Balanced(h, MemberIds(r.members), r.heap) }

  lemma ScalarBalanced(e: Skip, node: Node, h: Heap)
    requires (node.Null? || node.Bool?) && node.id == h.next
    ensures ReadBalanced(h, Scalar(e, node, h))
  {
    One(h);
  }

  lemma NumberBalanced(b: string, p: nat, n: nat, h: Heap)
    requires n > 0 && p + n <= |b| && (b[p] == '-' || '0' <= b[p] <= '9')
    ensures ReadBalanced(h, ReadNumber(b, p, n, h))
  {
    One(h);
  }

  /** The node of an array or an object and what is in it. */
  lemma Container(h: Heap, ids: multiset<nat>, h1: Heap)
    requires Balanced(h.(next := h.next + 1), ids, h1)
    ensures Balanced(h, multiset{h.next} + ids, h1)
  {
    One(h);
    Chain(h, multiset{h.next}, h.(next := h.next + 1), ids, h1);
  }

  /** An item read behind its link, and the rest. */
  lemma ItemThen(h: Heap, i: Item, h1: Heap, rest: seq<Item>, h2: Heap)
    requires i.link == h.next && Balanced(h.(next := h.next + 1), Ids(i.node), h1)
    requires Balanced(h1, ItemIds(rest), h2)
    ensures Balanced(h, ItemIds([i] + rest), h2)
  {
    hide Ids, ItemIds;
    Container(h, Ids(i.node), h1);
    Chain(h, multiset{i.link} + Ids(i.node), h1, ItemIds(rest), h2);
    ConsItemIds(i, rest);
  }

  lemma Nothing(h: Heap)
    ensures Balanced(h, ItemIds([]), h) && Balanced(h, MemberIds([]), h)
  {
  }

  lemma {:induction false} ReadDataBalanced(b: string, p: nat, n: nat, h: Heap)
    requires Ends(b) && Fresh(b, p, n)
    ensures ReadBalanced(h, ReadData(b, p, n, h))
    decreases n, 1
  {
    var s := SkipWs(b, p, n);
    if s.Skipped? {
      var q, m := s.ptr, s.len;
      var c := b[q];
      if c == '{' {
        ReadObjectBalanced(b, q, m, h);
      } else if c == '[' {
        ReadArrayBalanced(b, q, m, h);
      } else if c == '"' {
        StringBalanced(b, q, m, h);
      } else if c == 't' {
        ScalarBalanced(ReadWord(b, q, m, "true"), Bool(h.next, true), h);
      } else if c == 'f' {
        ScalarBalanced(ReadWord(b, q, m, "false"), Bool(h.next, false), h);
      } else if c == 'n' {
        ScalarBalanced(ReadWord(b, q, m, "null"), Null(h.next), h);
      } else if c == '-' || '0' <= c <= '9' {
        NumberBalanced(b, q, m, h);
      }
    }
  }

  lemma {:induction false} ReadArrayBalanced(b: string, p: nat, n: nat, h: Heap)
    requires Ends(b) && Fresh(b, p, n) && b[p] == '['
    ensures ReadBalanced(h, ReadArray(b, p, n, h))
    decreases n, 0
  {
    hide Balanced, Ids, ItemIds, SkipWs, ReadItems;
    if n > 1 {
      var s := SkipWs(b, p + 1, n - 1);
      if s.Skipped? {
        var h0 := h.(next := h.next + 1);
        ReadItemsBalanced(b, s.ptr, s.len, h0);
        var r := ReadItems(b, s.ptr, s.len, h0);
        if !r.BadItems? {
          Container(h, ItemIds(r.items), r.heap);
          ArrIds(h.next, r.items);
        }
      }
    }
  }

  lemma {:induction false} ReadItemsBalanced(b: string, p: nat, n: nat, h: Heap)
    requires Ends(b) && Fresh(b, p, n)
    ensures ItemsBalanced(h, ReadItems(b, p, n, h))
    decreases n, 2, 0
  {
    hide Balanced, Ids, ItemIds, ReadData, BehindItem;
    Nothing(h);
    if b[p] != ']' {
      var h0 := h.(next := h.next + 1);
      ReadDataBalanced(b, p, n, h0);
      var d := ReadData(b, p, n, h0);
      if d.Ok? {
        BehindItemBalanced(b, d.ptr, d.len, h, Item(h.next, d.node), d.heap);
      }
    }
  }

  lemma {:induction false} BehindItemBalanced(b: string, p: nat, n: nat, h: Heap, i: Item, h1: Heap)
    requires Ends(b) && (Fresh(b, p, n) || Stale(b, p, n))
    requires i.link == h.next && Balanced(h.(next := h.next + 1), Ids(i.node), h1)
    ensures ItemsBalanced(h, BehindItem(b, p, n, i, h1))
    decreases n, 3
  {
    hide Balanced, Ids, ItemIds, SkipWs, ReadItems;
    Nothing(h1);
    ItemThen(h, i, h1, [], h1);
    assert [i] + [] == [i];
    var s := SkipWs(b, p, n);
    if s.Skipped? && b[s.ptr] == ']' {
      ItemsRestBalanced(b, s.ptr, s.len, h, i, h1);
    } else if s.Skipped? && b[s.ptr] == ',' && s.len > 1 {
      var t := SkipWs(b, s.ptr + 1, s.len - 1);
      if t.Skipped? {
        ItemsRestBalanced(b, t.ptr, t.len, h, i, h1);
      }
    }
  }

  lemma {:induction false} ItemsRestBalanced(b: string, p: nat, n: nat, h: Heap, i: Item, h1: Heap)
    requires Ends(b) && Fresh(b, p, n)
    requires i.link == h.next && Balanced(h.(next := h.next + 1), Ids(i.node), h1)
    ensures ItemsBalanced(h, ConsItem(i, ReadItems(b, p, n, h1)))
    decreases n, 2, 1
  {
    hide Balanced, Ids, ItemIds, ReadItems;
    ReadItemsBalanced(b, p, n, h1);
    var r := ReadItems(b, p, n, h1);
    if !r.BadItems? {
      ItemThen(h, i, h1, r.items, r.heap);
    }
  }

  lemma {:induction false} ReadObjectBalanced(b: string, p: nat, n: nat, h: Heap)
    requires Ends(b) && Fresh(b, p, n) && b[p] == '{'
    ensures ReadBalanced(h, ReadObject(b, p, n, h))
    decreases n, 0
  {
    hide Balanced, Ids, MemberIds, SkipWs, ReadMembers;
    if n > 1 {
      var s := SkipWs(b, p + 1, n - 1);
      if s.Skipped? {
        var h0 := h.(next := h.next + 1);
        ReadMembersBalanced(b, s.ptr, s.len, h0);
        var r := ReadMembers(b, s.ptr, s.len, h0);
        if !r.BadMembers? {
          Container(h, MemberIds(r.members), r.heap);
          ObjIds(h.next, r.members);
        }
      }
    }
  }

  lemma {:induction false} ReadMembersBalanced(b: string, p: nat, n: nat, h: Heap)
    requires Ends(b) && (Fresh(b, p, n) || (n == 0 && Stale(b, p, n)))
    ensures MembersBalanced(h, ReadMembers(b, p, n, h))
    decreases n, 2, 0
  {
    hide Balanced, Ids, MemberIds, BehindKey, ReadString, KeyBlocks;
    Nothing(h);
    if b[p] != '}' {
      StringBalanced(b, p, n, h);
      var k := ReadString(b, p, n, h);
      if k.Ok? {
        BehindKeyBalanced(b, k.ptr, k.len, k.node, h, k.heap);
      }
    }
  }

  lemma {:induction false} BehindKeyBalanced(b: string, p: nat, n: nat, key: Node, h: Heap, h0: Heap)
    requires Ends(b) && Fresh(b, p, n) && key.Str? && Balanced(h, KeyBlocks(key), h0)
    ensures MembersBalanced(h, BehindKey(b, p, n, key, h0))
    decreases n, 5
  {
    hide Balanced, Ids, MemberIds, SkipWs, ReadMember, KeyBlocks;
    KeyLost(h, key, h0);
    var s := SkipWs(b, p, n);
    if s.Skipped? && b[s.ptr] == ':' && s.len > 1 {
      var t := SkipWs(b, s.ptr + 1, s.len - 1);
      if t.Skipped? {
        ReadMemberBalanced(b, t.ptr, t.len, key, h, h0);
      }
    }
  }

  lemma KeyLost(h: Heap, key: Node, h1: Heap)
    requires key.Str? && Balanced(h, KeyBlocks(key), h1)
    ensures Balanced(h, MemberIds([]), h1.(lost := h1.lost + KeyBlocks(key)))
  {
    assert multiset{} + KeyBlocks(key) == KeyBlocks(key);
    Release(h, multiset{}, KeyBlocks(key), h1);
  }

  /** A member read while its key was in hand, and the rest. */
  lemma MemberThen(h: Heap, key: Node, h0: Heap, m: Member, h1: Heap, rest: seq<Member>, h2: Heap)
    requires key.Str? && Balanced(h, KeyBlocks(key), h0) && m.link == h0.next && m.attribute == h0.next + 1
    requires Balanced(h0.(next := h0.next + 2), Ids(m.node), h1)
    requires Balanced(h1.(freed := h1.freed + KeyBlocks(key)), MemberIds(rest), h2)
    ensures Balanced(h, MemberIds([m] + rest), h2)
  {
    hide Ids, MemberIds, KeyBlocks, Balanced;
    Two(h0);
    var own := multiset{m.link, m.attribute};
    Chain(h0, own, h0.(next := h0.next + 2), Ids(m.node), h1);
    Chain(h, KeyBlocks(key), h0, own + Ids(m.node), h1);
    assert KeyBlocks(key) + (own + Ids(m.node)) == (own + Ids(m.node)) + KeyBlocks(key);
    Release(h, own + Ids(m.node), KeyBlocks(key), h1);
    Chain(h, own + Ids(m.node), h1.(freed := h1.freed + KeyBlocks(key)), MemberIds(rest), h2);
    ConsMemberIds(m, rest);
  }

  lemma {:induction false} ReadMemberBalanced(b: string, p: nat, n: nat, key: Node, h: Heap, h0: Heap)
    requires Ends(b) && Fresh(b, p, n) && key.Str? && Balanced(h, KeyBlocks(key), h0)
    ensures MembersBalanced(h, ReadMember(b, p, n, key, h0))
    decreases n, 4
  {
    hide Balanced, Ids, MemberIds, ReadData, BehindMember, KeyBlocks, CString;
    ReadDataBalanced(b, p, n, h0.(next := h0.next + 2));
    var d := ReadData(b, p, n, h0.(next := h0.next + 2));
    if d.Ok? {
      var m := Member(h0.next, h0.next + 1, CString(key.s), d.node);
      BehindMemberBalanced(b, d.ptr, d.len, h, key, h0, m, d.heap);
    }
  }

  lemma {:induction false} BehindMemberBalanced(b: string, p: nat, n: nat, h: Heap, key: Node, h0: Heap,
      m: Member, h1: Heap)
    requires Ends(b) && (Fresh(b, p, n) || Stale(b, p, n))
    requires key.Str? && Balanced(h, KeyBlocks(key), h0) && m.link == h0.next && m.attribute == h0.next + 1
    requires Balanced(h0.(next := h0.next + 2), Ids(m.node), h1)
    ensures MembersBalanced(h, BehindMember(b, p, n, m, h1.(freed := h1.freed + KeyBlocks(key))))
    decreases n, 3
  {
    hide Balanced, Ids, MemberIds, SkipWs, ReadMembers, KeyBlocks;
    var h2 := h1.(freed := h1.freed + KeyBlocks(key));
    Nothing(h2);
    MemberThen(h, key, h0, m, h1, [], h2);
    assert [m] + [] == [m];
    if n == 0 {
      MembersRestBalanced(b, p, n, h, key, h0, m, h1);
    } else {
      var s := SkipWs(b, p, n);
      if s.Skipped? && b[s.ptr] == '}' {
        MembersRestBalanced(b, s.ptr, s.len, h, key, h0, m, h1);
      } else if s.Skipped? && b[s.ptr] == ',' && s.len > 1 {
        var t := SkipWs(b, s.ptr + 1, s.len - 1);
        if t.Skipped? {
          MembersRestBalanced(b, t.ptr, t.len, h, key, h0, m, h1);
        }
      }
    }
  }

  lemma {:induction false} MembersRestBalanced(b: string, p: nat, n: nat, h: Heap, key: Node, h0: Heap,
      m: Member, h1: Heap)
    requires Ends(b) && (Fresh(b, p, n) || (n == 0 && Stale(b, p, n)))
    requires key.Str? && Balanced(h, KeyBlocks(key), h0) && m.link == h0.next && m.attribute == h0.next + 1
    requires Balanced(h0.(next := h0.next + 2), Ids(m.node), h1)
    ensures MembersBalanced(h, ConsMember(m, ReadMembers(b, p, n, h1.(freed := h1.freed + KeyBlocks(key)))))
    decreases n, 2, 1
  {
    hide Balanced, Ids, MemberIds, ReadMembers, KeyBlocks;
    var h2 := h1.(freed := h1.freed + KeyBlocks(key));
    ReadMembersBalanced(b, p, n, h2);
    var r := ReadMembers(b, p, n, h2);
    if !r.BadMembers? {
      MemberThen(h, key, h0, m, h1, r.members, r.heap);
    }
  }

  // Nothing is lost by a read that stores its cursor, or uses the text up.

  /** A reader that came to its end. */
  predicate Complete(b: string, r: Read) { r.Ok? && (r.len == 0 || Fresh(b, r.ptr, r.len)) }

  lemma {:induction false} ReadDataKeeps(b: string, p: nat, n: nat, h: Heap)
    requires Ends(b) && Fresh(b, p, n)
    ensures var r := ReadData(b, p, n, h); Complete(b, r) ==> r.heap.lost == h.lost
    decreases n, 1
  {
    hide SkipWs, ReadWord, ReadNumber;
    var s := SkipWs(b, p, n);
    if s.Skipped? {
      var q, m := s.ptr, s.len;
      if b[q] == '{' && m > 1 {
        var t := SkipWs(b, q + 1, m - 1);
        if t.Skipped? {
          ReadMembersKeeps(b, t.ptr, t.len, h.(next := h.next + 1));
        }
      } else if b[q] == '[' && m > 1 {
        var t := SkipWs(b, q + 1, m - 1);
        if t.Skipped? {
          ReadItemsKeeps(b, t.ptr, t.len, h.(next := h.next + 1));
        }
      } else {
        hide ReadObject, ReadArray;
        ScalarsKeep(b, q, m, h);
      }
    }
  }

  lemma ScalarsKeep(b: string, p: nat, n: nat, h: Heap)
    requires n > 0 && p + n <= |b|
    ensures var r := ReadString(b, p, n, h); r.Ok? ==> r.heap.lost == h.lost
    ensures (b[p] == '-' || '0' <= b[p] <= '9') ==> var r := ReadNumber(b, p, n, h); r.Ok? ==> r.heap.lost == h.lost
  {
  }

  ghost predicate ItemsKeep(r: Items, h: Heap) {
    r.AtEnd? || (r.Stopped? && r.len == 0) ==> r.heap.lost == h.lost
  }

  ghost predicate MembersKeep(r: Members, h: Heap) {
    r.AtClose? || (r.Halted? && r.len == 0) ==> r.heap.lost == h.lost
  }

  lemma {:induction false} ReadItemsKeeps(b: string, p: nat, n: nat, h: Heap)
    requires Ends(b) && Fresh(b, p, n)
    ensures ItemsKeep(ReadItems(b, p, n, h), h)
    decreases n, 2
  {
    hide BehindItem, ReadData;
    if b[p] != ']' {
      var h0 := h.(next := h.next + 1);
      ReadDataKeeps(b, p, n, h0);
      var d := ReadData(b, p, n, h0);
      if d.Ok? {
        BehindItemKeeps(b, d.ptr, d.len, Item(h.next, d.node), d.heap);
      }
    }
  }

  lemma {:induction false} BehindItemKeeps(b: string, p: nat, n: nat, i: Item, h: Heap)
    requires Ends(b) && (Fresh(b, p, n) || Stale(b, p, n))
    ensures ItemsKeep(BehindItem(b, p, n, i, h), h)
    ensures !Fresh(b, p, n) && BehindItem(b, p, n, i, h).Stopped? ==> BehindItem(b, p, n, i, h).len == n
    ensures !Fresh(b, p, n) ==> BehindItem(b, p, n, i, h) == Stopped(n, [i], h)
    decreases n, 3
  {
    hide SkipWs, ReadItems;
    var s := SkipWs(b, p, n);
    if s.Skipped? && b[s.ptr] == ']' {
      ReadItemsKeeps(b, s.ptr, s.len, h);
    } else if s.Skipped? && b[s.ptr] == ',' && s.len > 1 {
      var t := SkipWs(b, s.ptr + 1, s.len - 1);
      if t.Skipped? {
        ReadItemsKeeps(b, t.ptr, t.len, h);
      }
    }
  }

  lemma {:induction false} ReadMembersKeeps(b: string, p: nat, n: nat, h: Heap)
    requires Ends(b) && (Fresh(b, p, n) || (n == 0 && Stale(b, p, n)))
    ensures MembersKeep(ReadMembers(b, p, n, h), h)
    decreases n, 2
  {
    hide BehindKey, ReadString;
    if b[p] != '}' {
      StringBalanced(b, p, n, h);
      var k := ReadString(b, p, n, h);
      if k.Ok? {
        BehindKeyKeeps(b, k.ptr, k.len, k.node, k.heap);
      }
    }
  }

  lemma {:induction false} BehindKeyKeeps(b: string, p: nat, n: nat, key: Node, h: Heap)
    requires Ends(b) && Fresh(b, p, n) && key.Str?
    ensures MembersKeep(BehindKey(b, p, n, key, h), h)
    decreases n, 5
  {
    hide SkipWs, ReadMember, KeyBlocks;
    var s := SkipWs(b, p, n);
    if s.Skipped? && b[s.ptr] == ':' && s.len > 1 {
      var t := SkipWs(b, s.ptr + 1, s.len - 1);
      if t.Skipped? {
        ReadMemberKeeps(b, t.ptr, t.len, key, h);
      }
    }
  }

  lemma {:induction false} ReadMemberKeeps(b: string, p: nat, n: nat, key: Node, h: Heap)
    requires Ends(b) && Fresh(b, p, n) && key.Str?
    ensures MembersKeep(ReadMember(b, p, n, key, h), h)
    decreases n, 4
  {
    hide ReadData, CString, BehindMember, KeyBlocks;
    var h0 := h.(next := h.next + 2);
    ReadDataKeeps(b, p, n, h0);
    var d := ReadData(b, p, n, h0);
    if d.Ok? {
      var m := Member(h.next, h.next + 1, CString(key.s), d.node);
      BehindMemberKeeps(b, d.ptr, d.len, m, d.heap.(freed := d.heap.freed + KeyBlocks(key)));
    }
  }

  lemma {:induction false} BehindMemberKeeps(b: string, p: nat, n: nat, m: Member, h: Heap)
    requires Ends(b) && (Fresh(b, p, n) || Stale(b, p, n))
    ensures MembersKeep(BehindMember(b, p, n, m, h), h)
    ensures !Fresh(b, p, n) ==> BehindMember(b, p, n, m, h).BadMembers?
    decreases n, 3
  {
    hide SkipWs, ReadMembers;
    if n == 0 {
      ReadMembersKeeps(b, p, n, h);
      StaleMembers(b, p, h);
    } else {
      var s := SkipWs(b, p, n);
      if s.Skipped? && b[s.ptr] == '}' {
        ReadMembersKeeps(b, s.ptr, s.len, h);
      } else if s.Skipped? && b[s.ptr] == ',' && s.len > 1 {
        var t := SkipWs(b, s.ptr + 1, s.len - 1);
        if t.Skipped? {
          ReadMembersKeeps(b, t.ptr, t.len, h);
        }
      }
    }
  }

  lemma StaleMembers(b: string, p: nat, h: Heap)
    requires Ends(b) && Stale(b, p, 0)
    ensures ReadMembers(b, p, 0, h).BadMembers?
  {
  }

  // Destroying.

  /** The blocks `mangoh_bridge_json_destroy` releases, in order. */
  function Destroyed(v: Node): seq<nat> {
    match v
    case Str(id, buffer, _) => [buffer, id]
    case Arr(id, items) => DestroyedItems(items) + [id]
    case Obj(id, members) => DestroyedMembers(members) + [id]
    case _ => [v.id]
  }

  function DestroyedItems(items: seq<Item>): seq<nat> {
    if items == [] then [] else DestroyedItem(items[0]) + DestroyedItems(items[1..])
  }

  function DestroyedItem(i: Item): seq<nat> {
    match i
    case Item(link, node) => Destroyed(node) + [link]
  }

  function DestroyedMembers(members: seq<Member>): seq<nat> {
    if members == [] then [] else DestroyedMember(members[0]) + DestroyedMembers(members[1..])
  }

  /** The blocks of a member, the key first. */
  function DestroyedMember(m: Member): seq<nat> {
    match m
    case Member(link, attribute, _, node) => [attribute] + Destroyed(node) + [link]
  }

  lemma {:induction false} DestroyedIds(v: Node)
    ensures multiset(Destroyed(v)) == Ids(v)
    decreases v
  {
    match v
    case Arr(id, items) => DestroyedItemIds(items);
    case Obj(id, members) => DestroyedMemberIds(members);
    case _ =>
  }

  lemma {:induction false} DestroyedItemIds(items: seq<Item>)
    ensures multiset(DestroyedItems(items)) == ItemIds(items)
    decreases items
  {
    if items != [] {
      DestroyedOneItem(items[0]);
      DestroyedItemIds(items[1..]);
    }
  }

  lemma {:induction false} DestroyedOneItem(i: Item)
    ensures multiset(DestroyedItem(i)) == OneItemIds(i)
    decreases i
  {
    match i
    case Item(link, node) => DestroyedIds(node);
  }

  lemma {:induction false} DestroyedMemberIds(members: seq<Member>)
    ensures multiset(DestroyedMembers(members)) == MemberIds(members)
    decreases members
  {
    if members != [] {
      DestroyedOneMember(members[0]);
      DestroyedMemberIds(members[1..]);
    }
  }

  lemma {:induction false} DestroyedOneMember(m: Member)
    ensures multiset(DestroyedMember(m)) == OneMemberIds(m)
    decreases m
  {
    match m
    case Member(link, attribute, _, node) => DestroyedIds(node);
  }

  /** Every read that succeeds accounts for each block it allocated exactly once: in the tree, where destroying
      releases it, among the released, or among the lost; and a complete read lost none. */
  lemma ReadThenDestroy(b: string)
    requires NoTrailingSlash(b)
    ensures var r := JsonRead(b); r.Ok? ==>
              Range(0, r.heap.next) == multiset(Destroyed(r.node)) + r.heap.freed + r.heap.lost
    ensures var r := JsonRead(b); Complete(Trim(b), r) ==> r.heap.lost == multiset{}
  {
    var t := Trim(b);
    if Ends(t) {
      ReadDataBalanced(t, 0, |t|, EMPTY);
      ReadDataKeeps(t, 0, |t|, EMPTY);
      var r := JsonRead(b);
      if r.Ok? {
        DestroyedIds(r.node);
      }
    }
  }

  /** No block is released twice, and after a complete read and a destroy none is left. */
  lemma EachOnce(b: string, k: nat)
    requires NoTrailingSlash(b) && Complete(Trim(b), JsonRead(b))
    ensures var r := JsonRead(b);
            multiset(Destroyed(r.node))[k] + r.heap.freed[k] == if k < r.heap.next then 1 else 0
  {
    ReadThenDestroy(b);
    RangeOnce(0, JsonRead(b).heap.next, k);
  }

  const NO_COLON: string := "{\"a\" 1}"

  lemma KeyWithoutColon(h: Heap)
    requires h.next == 1
    ensures ReadMembers(NO_COLON, 1, 6, h) == Halted(2, [], h.(next := 3, lost := h.lost + multiset{1, 2}))
  {
    var b := NO_COLON;
    var key := Str(1, 2, "a");
    assert ReadString(b, 1, 6, h) == Ok(4, 3, key, h.(next := 3)) by {
      assert ReadChars(b, 3, 4) == Chars(3, 4, "");
      assert ReadChars(b, 2, 5) == Chars(3, 4, "a");
    }
    hide ReadString, ReadMember;
    assert SkipWs(b, 4, 3) == Skipped(5, 2) by { assert SkipWs(b, 5, 2) == Skipped(5, 2); }
    assert BehindKey(b, 4, 3, key, h.(next := 3)) == Halted(2, [], h.(next := 3, lost := h.lost + multiset{1, 2}));
  }

  /** An object that lacks its colon is accepted, and its key is lost. */
  lemma MissingColon()
    ensures var r := JsonRead(NO_COLON); r.Ok? && r.len == 2 && r.node == Obj(0, []) && r.heap.lost == multiset{1, 2}
  {
    hide ReadMembers;
    var b := NO_COLON;
    assert Trim(b) == b;
    KeyWithoutColon(EMPTY.(next := 1));
    assert SkipWs(b, 1, 6) == Skipped(1, 6) && SkipWs(b, 0, 7) == Skipped(0, 7);
    assert ReadObject(b, 0, 7, EMPTY).Ok?;
  }
}
