/** Exactly which texts make the reader lose the blocks of a key. */
module JsonLoss {
  import opened JsonReader

  // What the cursor does, does not depend on the numbers of the blocks.

  ghost predicate SameRead(r: Read, r': Read) {
    match r
    case Failed(_) => r' == r
    case Ok(ptr, len, _, _) => r'.Ok? && r'.ptr == ptr && r'.len == len
  }

  ghost predicate SameItems(r: Items, r': Items) {
    match r
    case BadItems(_) => r' == r
    case Stopped(len, _, _) => r'.Stopped? && r'.len == len
    case AtEnd(ptr, len, _, _) => r'.AtEnd? && r'.ptr == ptr && r'.len == len
  }

  ghost predicate SameMembers(r: Members, r': Members) {
    match r
    case BadMembers(_) => r' == r
    case Halted(len, _, _) => r'.Halted? && r'.len == len
    case AtClose(ptr, len, _, _) => r'.AtClose? && r'.ptr == ptr && r'.len == len
  }

  lemma SameScalars(b: string, p: nat, n: nat, h: Heap, k: Heap)
    requires p < |b| && p + n <= |b| && (n == 0 ==> b[p] != '"')
    ensures SameRead(ReadString(b, p, n, h), ReadString(b, p, n, k))
    ensures n > 0 && (b[p] == '-' || '0' <= b[p] <= '9')
        ==> SameRead(ReadNumber(b, p, n, h), ReadNumber(b, p, n, k))
  {
    hide ReadChars, ReadDigits;
  }

  lemma {:induction false} SameData(b: string, p: nat, n: nat, h: Heap, k: Heap)
    requires Ends(b) && Fresh(b, p, n)
    ensures SameRead(ReadData(b, p, n, h), ReadData(b, p, n, k))
    decreases n, 1
  {
    hide SkipWs, ReadWord, ReadNumber, ReadString, ReadItems, ReadMembers;
    var s := SkipWs(b, p, n);
    if s.Skipped? {
      var q, m := s.ptr, s.len;
      SameScalars(b, q, m, h, k);
      if (b[q] == '{' || b[q] == '[') && m > 1 {
        var t := SkipWs(b, q + 1, m - 1);
        if t.Skipped? && b[q] == '{' {
          SameMembersRead(b, t.ptr, t.len, h.(next := h.next + 1), k.(next := k.next + 1));
        } else if t.Skipped? {
          SameItemsRead(b, t.ptr, t.len, h.(next := h.next + 1), k.(next := k.next + 1));
        }
      }
    }
  }

  lemma {:induction false} SameItemsRead(b: string, p: nat, n: nat, h: Heap, k: Heap)
    requires Ends(b) && Fresh(b, p, n)
    ensures SameItems(ReadItems(b, p, n, h), ReadItems(b, p, n, k))
    decreases n, 2
  {
    hide ReadData, BehindItem;
    if b[p] != ']' {
      var h0, k0 := h.(next := h.next + 1), k.(next := k.next + 1);
      SameData(b, p, n, h0, k0);
      var d, e := ReadData(b, p, n, h0), ReadData(b, p, n, k0);
      if d.Ok? {
        SameBehindItem(b, d.ptr, d.len, Item(h.next, d.node), d.heap, Item(k.next, e.node), e.heap);
      }
    }
  }

  lemma {:induction false} SameBehindItem(b: string, p: nat, n: nat, i: Item, h: Heap, j: Item, k: Heap)
    requires Ends(b) && (Fresh(b, p, n) || Stale(b, p, n))
    ensures SameItems(BehindItem(b, p, n, i, h), BehindItem(b, p, n, j, k))
    decreases n, 3
  {
    hide SkipWs, ReadItems;
    var s := SkipWs(b, p, n);
    if s.Skipped? && b[s.ptr] == ']' {
      SameItemsRead(b, s.ptr, s.len, h, k);
    } else if s.Skipped? && b[s.ptr] == ',' && s.len > 1 {
      var t := SkipWs(b, s.ptr + 1, s.len - 1);
      if t.Skipped? {
        SameItemsRead(b, t.ptr, t.len, h, k);
      }
    }
  }

  lemma {:induction false} SameMembersRead(b: string, p: nat, n: nat, h: Heap, k: Heap)
    requires Ends(b) && (Fresh(b, p, n) || (n == 0 && Stale(b, p, n)))
    ensures SameMembers(ReadMembers(b, p, n, h), ReadMembers(b, p, n, k))
    decreases n, 2
  {
    hide ReadString, BehindKey;
    if b[p] != '}' {
      SameScalars(b, p, n, h, k);
      var c, d := ReadString(b, p, n, h), ReadString(b, p, n, k);
      if c.Ok? {
        SameBehindKey(b, c.ptr, c.len, c.node, c.heap, d.node, d.heap);
      }
    }
  }

  lemma {:induction false} SameBehindKey(b: string, p: nat, n: nat, c: Node, h: Heap, d: Node, k: Heap)
    requires Ends(b) && Fresh(b, p, n) && c.Str? && d.Str?
    ensures SameMembers(BehindKey(b, p, n, c, h), BehindKey(b, p, n, d, k))
    decreases n, 5
  {
    hide SkipWs, ReadMember, KeyBlocks;
    var s := SkipWs(b, p, n);
    if s.Skipped? && b[s.ptr] == ':' && s.len > 1 {
      var t := SkipWs(b, s.ptr + 1, s.len - 1);
      if t.Skipped? {
        SameMember(b, t.ptr, t.len, c, h, d, k);
      }
    }
  }

  lemma {:induction false} SameMember(b: string, p: nat, n: nat, c: Node, h: Heap, d: Node, k: Heap)
    requires Ends(b) && Fresh(b, p, n) && c.Str? && d.Str?
    ensures SameMembers(ReadMember(b, p, n, c, h), ReadMember(b, p, n, d, k))
    decreases n, 4
  {
    hide ReadData, BehindMember, CString, KeyBlocks;
    var h0, k0 := h.(next := h.next + 2), k.(next := k.next + 2);
    SameData(b, p, n, h0, k0);
    var x, y := ReadData(b, p, n, h0), ReadData(b, p, n, k0);
    if x.Ok? {
      SameBehindMember(b, x.ptr, x.len,
                       Member(h.next, h.next + 1, CString(c.s), x.node), x.heap.(freed := x.heap.freed + KeyBlocks(c)),
                       Member(k.next, k.next + 1, CString(d.s), y.node), y.heap.(freed := y.heap.freed + KeyBlocks(d)));
    }
  }

  lemma {:induction false} SameBehindMember(b: string, p: nat, n: nat, i: Member, h: Heap, j: Member, k: Heap)
    requires Ends(b) && (Fresh(b, p, n) || Stale(b, p, n))
    ensures SameMembers(BehindMember(b, p, n, i, h), BehindMember(b, p, n, j, k))
    decreases n, 3
  {
    hide SkipWs, ReadMembers;
    if n == 0 {
      SameMembersRead(b, p, n, h, k);
    } else {
      var s := SkipWs(b, p, n);
      if s.Skipped? && b[s.ptr] == '}' {
        SameMembersRead(b, s.ptr, s.len, h, k);
      } else if s.Skipped? && b[s.ptr] == ',' && s.len > 1 {
        var t := SkipWs(b, s.ptr + 1, s.len - 1);
        if t.Skipped? {
          SameMembersRead(b, t.ptr, t.len, h, k);
        }
      }
    }
  }

  // Where a read stops behind a key.

  /** A value that is an object in which a key is not followed by its colon, or an array with such a value in it,
      everything before that being complete. */
  predicate Stops(b: string, p: nat, n: nat)
    requires Ends(b) && Fresh(b, p, n)
    decreases n, 1
  {
    match SkipWs(b, p, n)
    case NotSkipped => false
    case Skipped(q, m) =>
      (b[q] == '{' || b[q] == '[') && m > 1 &&
      match SkipWs(b, q + 1, m - 1)
      case NotSkipped => false
      case Skipped(q1, m1) => if b[q] == '{' then StopsInMembers(b, q1, m1) else StopsInItems(b, q1, m1)
  }

  predicate StopsInItems(b: string, p: nat, n: nat)
    requires Ends(b) && Fresh(b, p, n)
    decreases n, 2
  {
    b[p] != ']' &&
    (Stops(b, p, n) ||
     match ReadData(b, p, n, EMPTY)
     case Failed(_) => false
     case Ok(q, m, _, _) => StopsBehindItem(b, q, m))
  }

  predicate StopsBehindItem(b: string, p: nat, n: nat)
    requires Ends(b) && (Fresh(b, p, n) || Stale(b, p, n))
    decreases n, 3
  {
    match SkipWs(b, p, n)
    case NotSkipped => false
    case Skipped(q, m) =>
      b[q] == ',' && m > 1 &&
      match SkipWs(b, q + 1, m - 1)
      case NotSkipped => false
      case Skipped(q1, m1) => StopsInItems(b, q1, m1)
  }

  predicate StopsInMembers(b: string, p: nat, n: nat)
    requires Ends(b) && Fresh(b, p, n)
    decreases n, 2
  {
    b[p] != '}' &&
    match ReadString(b, p, n, EMPTY)
    case Failed(_) => false
    case Ok(q, m, _, _) => StopsBehindKey(b, q, m)
  }

  /** The guard that loses the key: something else than a colon, or a colon and nothing more. */
  predicate StopsBehindKey(b: string, p: nat, n: nat)
    requires Ends(b) && Fresh(b, p, n)
    decreases n, 5
  {
    match SkipWs(b, p, n)
    case NotSkipped => false
    case Skipped(q, m) =>
      b[q] != ':' || m == 1 ||
      match SkipWs(b, q + 1, m - 1)
      case NotSkipped => false
      case Skipped(q1, m1) =>
        match ReadData(b, q1, m1, EMPTY)
        case Failed(_) => false
        case Ok(q2, m2, _, _) => StopsBehindMember(b, q2, m2)
  }

  predicate StopsBehindMember(b: string, p: nat, n: nat)
    requires Ends(b) && (Fresh(b, p, n) || Stale(b, p, n))
    decreases n, 3
  {
    n > 0 &&
    match SkipWs(b, p, n)
    case NotSkipped => false
    case Skipped(q, m) =>
      b[q] == ',' && m > 1 &&
      match SkipWs(b, q + 1, m - 1)
      case NotSkipped => false
      case Skipped(q1, m1) => StopsInMembers(b, q1, m1)
  }

  // It is exactly there that blocks are lost.

  ghost predicate Loses(r: Read, h: Heap) { r.Ok? && r.heap.lost != h.lost }

  ghost predicate ItemsLose(r: Items, h: Heap) { !r.BadItems? && r.heap.lost != h.lost }

  ghost predicate MembersLose(r: Members, h: Heap) { !r.BadMembers? && r.heap.lost != h.lost }

  lemma KeysAreBlocks(key: Node, lost: multiset<nat>)
    requires key.Str?
    ensures lost + KeyBlocks(key) != lost
  {
    assert (lost + KeyBlocks(key))[key.id] > lost[key.id];
  }

  lemma ScalarsLoseNothing(b: string, p: nat, n: nat, h: Heap)
    requires p < |b| && p + n <= |b| && (n == 0 ==> b[p] != '"')
    ensures !Loses(ReadString(b, p, n, h), h)
    ensures n > 0 && (b[p] == '-' || '0' <= b[p] <= '9') ==> !Loses(ReadNumber(b, p, n, h), h)
  {
    hide ReadChars, ReadDigits;
  }

  /** A value that stops behind a key has left its cursor, and something to read. */
  ghost predicate LeavesCursor(b: string, r: Read) { r.Ok? && r.len > 0 && !Fresh(b, r.ptr, r.len) }

  /** A successful read loses blocks if and only if the text stops it behind a key; it then has not stored its cursor. */
  lemma {:induction false} LosesExactly(b: string, p: nat, n: nat, h: Heap)
    requires Ends(b) && Fresh(b, p, n)
    ensures Loses(ReadData(b, p, n, h), h) <==> Stops(b, p, n)
    ensures Stops(b, p, n) ==> LeavesCursor(b, ReadData(b, p, n, h))
    decreases n, 1
  {
    hide SkipWs, ReadWord, ReadNumber, ReadString, ReadItems, ReadMembers, StopsInItems, StopsInMembers;
    var s := SkipWs(b, p, n);
    if s.Skipped? {
      var q, m := s.ptr, s.len;
      ScalarsLoseNothing(b, q, m, h);
      if (b[q] == '{' || b[q] == '[') && m > 1 {
        var t := SkipWs(b, q + 1, m - 1);
        if t.Skipped? && b[q] == '{' {
          MembersLoseExactly(b, t.ptr, t.len, h.(next := h.next + 1));
        } else if t.Skipped? {
          ItemsLoseExactly(b, t.ptr, t.len, h.(next := h.next + 1));
        }
      }
    }
  }

  lemma {:induction false} ItemsLoseExactly(b: string, p: nat, n: nat, h: Heap)
    requires Ends(b) && Fresh(b, p, n)
    ensures ItemsLose(ReadItems(b, p, n, h), h) <==> StopsInItems(b, p, n)
    ensures StopsInItems(b, p, n) ==> ReadItems(b, p, n, h).Stopped? && ReadItems(b, p, n, h).len > 0
    decreases n, 2
  {
    hide SkipWs, ReadData, BehindItem, Stops, StopsBehindItem;
    if b[p] != ']' {
      var h0 := h.(next := h.next + 1);
      LosesExactly(b, p, n, h0);
      SameData(b, p, n, h0, EMPTY);
      var d := ReadData(b, p, n, h0);
      if d.Ok? {
        BehindItemLosesExactly(b, d.ptr, d.len, Item(h.next, d.node), d.heap);
      }
    }
  }

  lemma {:induction false} BehindItemLosesExactly(b: string, p: nat, n: nat, i: Item, h: Heap)
    requires Ends(b) && (Fresh(b, p, n) || Stale(b, p, n))
    ensures ItemsLose(BehindItem(b, p, n, i, h), h) <==> StopsBehindItem(b, p, n)
    ensures StopsBehindItem(b, p, n) ==> BehindItem(b, p, n, i, h).Stopped? && BehindItem(b, p, n, i, h).len > 0
    ensures !Fresh(b, p, n) ==> !StopsBehindItem(b, p, n) && BehindItem(b, p, n, i, h) == Stopped(n, [i], h)
    decreases n, 3
  {
    hide SkipWs, ReadItems, StopsInItems;
    var s := SkipWs(b, p, n);
    if s.Skipped? && b[s.ptr] == ']' {
      EndLosesNothing(b, s.ptr, s.len, h);
    } else if s.Skipped? && b[s.ptr] == ',' && s.len > 1 {
      var t := SkipWs(b, s.ptr + 1, s.len - 1);
      if t.Skipped? {
        ItemsLoseExactly(b, t.ptr, t.len, h);
      }
    }
  }

  lemma EndLosesNothing(b: string, p: nat, n: nat, h: Heap)
    requires Ends(b) && Fresh(b, p, n)
    ensures b[p] == ']' ==> ReadItems(b, p, n, h) == AtEnd(p, n, [], h)
    ensures b[p] == '}' ==> ReadMembers(b, p, n, h) == AtClose(p, n, [], h)
  {
  }

  lemma {:induction false} MembersLoseExactly(b: string, p: nat, n: nat, h: Heap)
    requires Ends(b) && Fresh(b, p, n)
    ensures MembersLose(ReadMembers(b, p, n, h), h) <==> StopsInMembers(b, p, n)
    ensures StopsInMembers(b, p, n) ==> ReadMembers(b, p, n, h).Halted? && ReadMembers(b, p, n, h).len > 0
    decreases n, 2
  {
    hide ReadString, BehindKey, StopsBehindKey;
    if b[p] != '}' {
      ScalarsLoseNothing(b, p, n, h);
      SameScalars(b, p, n, h, EMPTY);
      var k := ReadString(b, p, n, h);
      if k.Ok? {
        BehindKeyLosesExactly(b, k.ptr, k.len, k.node, k.heap);
      }
    }
  }

  lemma {:induction false} BehindKeyLosesExactly(b: string, p: nat, n: nat, key: Node, h: Heap)
    requires Ends(b) && Fresh(b, p, n) && key.Str?
    ensures MembersLose(BehindKey(b, p, n, key, h), h) <==> StopsBehindKey(b, p, n)
    ensures StopsBehindKey(b, p, n) ==> BehindKey(b, p, n, key, h).Halted? && BehindKey(b, p, n, key, h).len > 0
    decreases n, 5
  {
    hide SkipWs, ReadMember, ReadData, KeyBlocks, StopsBehindMember;
    KeysAreBlocks(key, h.lost);
    var s := SkipWs(b, p, n);
    if s.Skipped? && b[s.ptr] == ':' && s.len > 1 {
      var t := SkipWs(b, s.ptr + 1, s.len - 1);
      if t.Skipped? {
        MemberLosesExactly(b, t.ptr, t.len, key, h);
      }
    }
  }

  ghost predicate StopsInMember(b: string, p: nat, n: nat)
    requires Ends(b) && Fresh(b, p, n)
  {
    var r := ReadData(b, p, n, EMPTY);
    r.Ok? && StopsBehindMember(b, r.ptr, r.len)
  }

  lemma {:induction false} MemberLosesExactly(b: string, p: nat, n: nat, key: Node, h: Heap)
    requires Ends(b) && Fresh(b, p, n) && key.Str?
    ensures MembersLose(ReadMember(b, p, n, key, h), h) <==> StopsInMember(b, p, n)
    ensures StopsInMember(b, p, n) ==> ReadMember(b, p, n, key, h).Halted? && ReadMember(b, p, n, key, h).len > 0
    decreases n, 4
  {
    hide ReadData, CString, BehindMember, KeyBlocks, StopsBehindMember;
    var h0 := h.(next := h.next + 2);
    LosesExactly(b, p, n, h0);
    SameData(b, p, n, h0, EMPTY);
    var d := ReadData(b, p, n, h0);
    if d.Ok? {
      var m := Member(h.next, h.next + 1, CString(key.s), d.node);
      BehindMemberLosesExactly(b, d.ptr, d.len, m, d.heap.(freed := d.heap.freed + KeyBlocks(key)));
    }
  }

  lemma {:induction false} BehindMemberLosesExactly(b: string, p: nat, n: nat, m: Member, h: Heap)
    requires Ends(b) && (Fresh(b, p, n) || Stale(b, p, n))
    ensures MembersLose(BehindMember(b, p, n, m, h), h) <==> StopsBehindMember(b, p, n)
    ensures StopsBehindMember(b, p, n) ==> BehindMember(b, p, n, m, h).Halted? && BehindMember(b, p, n, m, h).len > 0
    ensures !Fresh(b, p, n) ==> BehindMember(b, p, n, m, h).BadMembers?
    decreases n, 3
  {
    hide SkipWs, ReadMembers, StopsInMembers;
    if n == 0 {
      NoKeyLeft(b, p, h);
    } else {
      var s := SkipWs(b, p, n);
      if s.Skipped? && b[s.ptr] == '}' {
        EndLosesNothing(b, s.ptr, s.len, h);
      } else if s.Skipped? && b[s.ptr] == ',' && s.len > 1 {
        var t := SkipWs(b, s.ptr + 1, s.len - 1);
        if t.Skipped? {
          MembersLoseExactly(b, t.ptr, t.len, h);
        }
      }
    }
  }

  lemma NoKeyLeft(b: string, p: nat, h: Heap)
    requires Ends(b) && Stale(b, p, 0)
    ensures ReadMembers(b, p, 0, h).BadMembers?
  {
  }

  /** Which texts `json_read` accepts although it loses blocks of them. */
  lemma ReadLoses(b: string)
    requires NoTrailingSlash(b)
    ensures var t, r := Trim(b), JsonRead(b);
            r.Ok? && r.heap.lost != multiset{} <==> Ends(t) && Stops(t, 0, |t|)
  {
    var t := Trim(b);
    if Ends(t) {
      LosesExactly(t, 0, |t|, EMPTY);
    }
  }
}
