/** One step of each reader, where the text continues as it should. */
module JsonSteps {
  import opened JsonReader

  lemma DataIs(b: string, p: nat, n: nat, h: Heap)
    requires Ends(b) && Fresh(b, p, n) && !IsBlank(b[p]) && b[p] != '/'
    ensures b[p] == '{' ==> ReadData(b, p, n, h) == ReadObject(b, p, n, h)
    ensures b[p] == '[' ==> ReadData(b, p, n, h) == ReadArray(b, p, n, h)
    ensures b[p] == '"' ==> ReadData(b, p, n, h) == ReadString(b, p, n, h)
    ensures b[p] == 't' ==> ReadData(b, p, n, h) == Scalar(ReadWord(b, p, n, "true"), Bool(h.next, true), h)
    ensures b[p] == 'f' ==> ReadData(b, p, n, h) == Scalar(ReadWord(b, p, n, "false"), Bool(h.next, false), h)
    ensures b[p] == 'n' ==> ReadData(b, p, n, h) == Scalar(ReadWord(b, p, n, "null"), Null(h.next), h)
    ensures b[p] == '-' || '0' <= b[p] <= '9' ==> ReadData(b, p, n, h) == ReadNumber(b, p, n, h)
  {
    hide ReadObject, ReadArray, ReadString, ReadWord, ReadNumber;
  }

  /** A value is read behind the blanks in front of it. */
  lemma DataSkips(b: string, p: nat, n: nat, h: Heap, q: nat)
    requires Ends(b) && Fresh(b, p, n) && q < |b| && SkipWs(b, p, n) == Skipped(q, |b| - q)
    ensures ReadData(b, p, n, h) == ReadData(b, q, |b| - q, h)
  {
    hide ReadObject, ReadArray, ReadString, ReadWord, ReadNumber;
    assert SkipWs(b, q, |b| - q) == Skipped(q, |b| - q);
  }

  lemma ArrayIs(b: string, p: nat, n: nat, h: Heap, q: nat, e: nat, items: seq<Item>, h1: Heap)
    requires Ends(b) && Fresh(b, p, n) && b[p] == '[' && p < q < |b|
    requires SkipWs(b, p + 1, n - 1) == Skipped(q, |b| - q)
    requires e < |b| && ReadItems(b, q, |b| - q, h.(next := h.next + 1)) == AtEnd(e, |b| - e, items, h1)
    ensures e + 1 < |b|
    ensures var s := SkipWs(b, e + 1, |b| - e - 1);
            s.Skipped? ==> ReadArray(b, p, n, h) == Ok(s.ptr, s.len, Arr(h.next, items), h1)
  {
    hide SkipWs, ReadItems;
    assert b[e] == ']';
  }

  lemma ItemsEnd(b: string, p: nat, n: nat, h: Heap)
    requires Ends(b) && Fresh(b, p, n) && b[p] == ']'
    ensures ReadItems(b, p, n, h) == AtEnd(p, n, [], h)
  {
  }

  lemma ItemIs(b: string, p: nat, n: nat, h: Heap)
    requires Ends(b) && Fresh(b, p, n) && b[p] != ']'
    ensures var d := ReadData(b, p, n, h.(next := h.next + 1));
            d.Ok? ==> ReadItems(b, p, n, h) == BehindItem(b, d.ptr, d.len, Item(h.next, d.node), d.heap)
  {
    hide BehindItem, ReadData;
  }

  lemma BehindLast(b: string, p: nat, n: nat, i: Item, h: Heap, q: nat)
    requires Ends(b) && Fresh(b, p, n) && q < |b| && b[q] == ']' && SkipWs(b, p, n) == Skipped(q, |b| - q)
    ensures BehindItem(b, p, n, i, h) == AtEnd(q, |b| - q, [i], h)
  {
    ItemsEnd(b, q, |b| - q, h);
    hide SkipWs, ReadItems;
    assert [i] + [] == [i];
  }

  lemma BehindMore(b: string, p: nat, n: nat, i: Item, h: Heap, q: nat, g: nat)
    requires Ends(b) && Fresh(b, p, n) && q < g < |b| && b[q] == ',' && SkipWs(b, p, n) == Skipped(q, |b| - q)
    requires SkipWs(b, q + 1, |b| - q - 1) == Skipped(g, |b| - g)
    ensures BehindItem(b, p, n, i, h) == ConsItem(i, ReadItems(b, g, |b| - g, h))
  {
    hide SkipWs, ReadItems;
  }

  lemma ItemsLast(b: string, p: nat, h: Heap, q: nat)
    requires Ends(b) && p < q < |b| && b[p] != ']' && b[q] == ']'
    requires var d := ReadData(b, p, |b| - p, h.(next := h.next + 1));
             d.Ok? && Fresh(b, d.ptr, d.len) && SkipWs(b, d.ptr, d.len) == Skipped(q, |b| - q)
    ensures var d := ReadData(b, p, |b| - p, h.(next := h.next + 1));
            ReadItems(b, p, |b| - p, h) == AtEnd(q, |b| - q, [Item(h.next, d.node)], d.heap)
  {
    hide ReadItems, BehindItem, SkipWs, ReadData, ConsItem;
    ItemIs(b, p, |b| - p, h);
    var d := ReadData(b, p, |b| - p, h.(next := h.next + 1));
    BehindLast(b, d.ptr, d.len, Item(h.next, d.node), d.heap, q);
  }

  lemma ItemsMore(b: string, p: nat, h: Heap, q: nat, g: nat)
    requires Ends(b) && p < q < g < |b| && b[p] != ']' && b[q] == ','
    requires var d := ReadData(b, p, |b| - p, h.(next := h.next + 1));
             d.Ok? && Fresh(b, d.ptr, d.len) && SkipWs(b, d.ptr, d.len) == Skipped(q, |b| - q)
    requires SkipWs(b, q + 1, |b| - q - 1) == Skipped(g, |b| - g)
    ensures var d := ReadData(b, p, |b| - p, h.(next := h.next + 1));
            ReadItems(b, p, |b| - p, h) == ConsItem(Item(h.next, d.node), ReadItems(b, g, |b| - g, d.heap))
  {
    hide ReadItems, BehindItem, SkipWs, ReadData, ConsItem;
    ItemIs(b, p, |b| - p, h);
    var d := ReadData(b, p, |b| - p, h.(next := h.next + 1));
    BehindMore(b, d.ptr, d.len, Item(h.next, d.node), d.heap, q, g);
  }

  lemma ObjectIs(b: string, p: nat, n: nat, h: Heap, q: nat, e: nat, members: seq<Member>, h1: Heap)
    requires Ends(b) && Fresh(b, p, n) && b[p] == '{' && p < q < |b|
    requires SkipWs(b, p + 1, n - 1) == Skipped(q, |b| - q)
    requires e < |b| && ReadMembers(b, q, |b| - q, h.(next := h.next + 1)) == AtClose(e, |b| - e, members, h1)
    ensures e + 1 == |b| ==> ReadObject(b, p, n, h) == Ok(p, 0, Obj(h.next, members), h1)
    ensures e + 1 < |b| ==> var s := SkipWs(b, e + 1, |b| - e - 1);
            s.Skipped? ==> ReadObject(b, p, n, h) == Ok(s.ptr, s.len, Obj(h.next, members), h1)
  {
    hide SkipWs, ReadMembers;
  }

  lemma MembersEnd(b: string, p: nat, n: nat, h: Heap)
    requires Ends(b) && Fresh(b, p, n) && b[p] == '}'
    ensures ReadMembers(b, p, n, h) == AtClose(p, n, [], h)
  {
  }

  lemma KeyIs(b: string, p: nat, h: Heap, c: nat, v: nat)
    requires Ends(b) && p < c < v < |b| && b[p] == '"' && b[c] == ':'
    requires var k := ReadString(b, p, |b| - p, h); k.Ok? && SkipWs(b, k.ptr, k.len) == Skipped(c, |b| - c)
    requires SkipWs(b, c + 1, |b| - c - 1) == Skipped(v, |b| - v)
    ensures var k := ReadString(b, p, |b| - p, h);
            ReadMembers(b, p, |b| - p, h) == ReadMember(b, v, |b| - v, k.node, k.heap)
  {
    hide ReadMembers, BehindKey, ReadMember, SkipWs, ReadString;
    MembersAre(b, p, |b| - p, h);
    var k := ReadString(b, p, |b| - p, h);
    BehindColon(b, k.ptr, k.len, k.node, k.heap, c, v);
  }

  lemma MembersAre(b: string, p: nat, n: nat, h: Heap)
    requires Ends(b) && Fresh(b, p, n) && b[p] != '}'
    ensures var k := ReadString(b, p, n, h);
            k.Ok? ==> ReadMembers(b, p, n, h) == BehindKey(b, k.ptr, k.len, k.node, k.heap)
  {
    hide ReadString, BehindKey;
  }

  lemma BehindColon(b: string, p: nat, n: nat, key: Node, h: Heap, c: nat, v: nat)
    requires Ends(b) && Fresh(b, p, n) && key.Str? && c < v < |b| && b[c] == ':'
    requires SkipWs(b, p, n) == Skipped(c, |b| - c) && SkipWs(b, c + 1, |b| - c - 1) == Skipped(v, |b| - v)
    ensures BehindKey(b, p, n, key, h) == ReadMember(b, v, |b| - v, key, h)
  {
    hide SkipWs, ReadMember;
  }

  lemma MemberIs(b: string, p: nat, n: nat, key: Node, h: Heap)
    requires Ends(b) && Fresh(b, p, n) && key.Str? && ReadData(b, p, n, h.(next := h.next + 2)).Ok?
    ensures var d := ReadData(b, p, n, h.(next := h.next + 2));
            var h1 := d.heap.(freed := d.heap.freed + KeyBlocks(key));
            var m := Member(h.next, h.next + 1, CString(key.s), d.node);
            ReadMember(b, p, n, key, h) == BehindMember(b, d.ptr, d.len, m, h1)
  {
    hide ReadData, BehindMember, CString, KeyBlocks;
  }

  lemma BehindLastMember(b: string, p: nat, n: nat, m: Member, h: Heap, q: nat)
    requires Ends(b) && Fresh(b, p, n) && q < |b| && b[q] == '}' && SkipWs(b, p, n) == Skipped(q, |b| - q)
    ensures BehindMember(b, p, n, m, h) == AtClose(q, |b| - q, [m], h)
  {
    MembersEnd(b, q, |b| - q, h);
    hide SkipWs, ReadMembers;
    assert [m] + [] == [m];
  }

  lemma BehindMoreMembers(b: string, p: nat, n: nat, m: Member, h: Heap, q: nat, g: nat)
    requires Ends(b) && Fresh(b, p, n) && q < g < |b| && b[q] == ',' && SkipWs(b, p, n) == Skipped(q, |b| - q)
    requires SkipWs(b, q + 1, |b| - q - 1) == Skipped(g, |b| - g)
    ensures BehindMember(b, p, n, m, h) == ConsMember(m, ReadMembers(b, g, |b| - g, h))
  {
    hide SkipWs, ReadMembers;
  }
}
