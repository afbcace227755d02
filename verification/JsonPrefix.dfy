/** A message that arrives in parts: no beginning of a text that is used up by its object is accepted. */
module JsonPrefix {
  import opened JsonReader
  import opened JsonLayout
  import opened JsonSound
  import Decimal
  import Steps = JsonSteps
  import T = JsonTexts
  import opened Text
  import opened JsonValue
  import opened JsonRefusal
  import opened JsonWriter
  import opened JsonRoundTrip

  /** What is read of the first `k` characters, with something left of them, is read in the same way of the whole text,
      whatever the blocks are numbered. */
  ghost predicate Cut(s: string, k: nat) { k <= |s| && Ends(s) && Ends(s[..k]) }

  // Blanks and tokens.

  lemma {:induction false} LineExtends(s: string, k: nat, p: nat)
    requires p < k <= |s| && LineEnd(s[..k], p, k - p).Skipped?
    ensures var r := LineEnd(s[..k], p, k - p); LineEnd(s, p, |s| - p) == Skipped(r.ptr, |s| - r.ptr) && r.len == k - r.ptr
    decreases k - p
  {
    if !IsNewline(s[p]) && p + 1 < k {
      LineExtends(s, k, p + 1);
    }
  }

  lemma {:induction false} BlockExtends(s: string, k: nat, p: nat)
    requires p < k <= |s| && BlockEnd(s[..k], p, k - p).Skipped?
    ensures var r := BlockEnd(s[..k], p, k - p); BlockEnd(s, p, |s| - p) == Skipped(r.ptr, |s| - r.ptr) && r.len == k - r.ptr
    decreases k - p
  {
    if p + 1 < k && !(s[p] == '*' && s[p + 1] == '/') {
      if s[p] != '*' {
        BlockExtends(s, k, p + 1);
      } else if p + 2 < k {
        BlockExtends(s, k, p + 2);
      }
    }
  }

  lemma CommentExtends(s: string, k: nat, p: nat)
    requires p < k <= |s| && s[p] == '/' && ReadComment(s[..k], p, k - p).Skipped?
    ensures var r := ReadComment(s[..k], p, k - p);
            r.len == k - r.ptr && ReadComment(s, p, |s| - p) == Skipped(r.ptr, |s| - r.ptr)
  {
    hide LineEnd, BlockEnd;
    if s[p + 1] == '/' {
      LineExtends(s, k, p + 2);
    } else {
      BlockExtends(s, k, p + 2);
    }
  }

  lemma {:induction false} SkipExtends(s: string, k: nat, p: nat)
    requires p <= k <= |s| && SkipWs(s[..k], p, k - p).Skipped? && SkipWs(s[..k], p, k - p).len > 0
    ensures var r := SkipWs(s[..k], p, k - p);
            r.ptr < k && r.len == k - r.ptr && SkipWs(s, p, |s| - p) == Skipped(r.ptr, |s| - r.ptr)
    decreases k - p
  {
    hide ReadComment;
    if p < k {
      assert s[..k][p] == s[p];
      if s[p] == '/' {
        CommentExtends(s, k, p);
        SkipExtends(s, k, ReadComment(s[..k], p, k - p).ptr);
      } else if IsBlank(s[p]) {
        SkipExtends(s, k, p + 1);
      }
    }
  }

  lemma {:induction false} WordExtends(s: string, k: nat, p: nat, word: string)
    requires p < k <= |s| && ReadWord(s[..k], p, k - p, word).Skipped?
    ensures var r := ReadWord(s[..k], p, k - p, word);
            r.len == k - r.ptr && ReadWord(s, p, |s| - p, word) == Skipped(r.ptr, |s| - r.ptr)
    decreases |word|
  {
    if word != "" {
      WordExtends(s, k, p + 1, word[1..]);
    }
  }

  lemma {:induction false} DigitsExtend(s: string, k: nat, p: nat, isFloat: bool, isNegative: bool)
    requires p < k <= |s| && ReadDigits(s[..k], p, k - p, isFloat, isNegative).Number?
    ensures var r := ReadDigits(s[..k], p, k - p, isFloat, isNegative);
            var e := ReadDigits(s, p, |s| - p, isFloat, isNegative);
            e.Number? && e.ptr == r.ptr && e.len == |s| - r.ptr && r.len == k - r.ptr
    decreases k - p
  {
    if Decimal.IsDigit(s[p]) || (!isFloat && s[p] == '.') || (!isNegative && s[p] == '-') {
      DigitsExtend(s, k, p + 1, isFloat || s[p] == '.', isNegative || s[p] == '-');
    }
  }

  lemma {:induction false} CharsExtend(s: string, k: nat, p: nat)
    requires p < k <= |s| && ReadChars(s[..k], p, k - p).Chars?
    ensures var r := ReadChars(s[..k], p, k - p);
            var e := ReadChars(s, p, |s| - p);
            e.Chars? && e.ptr == r.ptr && e.len == |s| - r.ptr && r.len == k - r.ptr
    decreases k - p
  {
    if s[p] != '"' {
      if s[p] != '\\' || !IsEscape(s[p + 1]) {
        CharsExtend(s, k, p + 1);
      } else {
        CharsExtend(s, k, p + 2);
      }
    }
  }

  lemma StringExtends(s: string, k: nat, p: nat, g: Heap, h: Heap)
    requires p < k <= |s| && ReadString(s[..k], p, k - p, g).Ok?
    ensures var r, e := ReadString(s[..k], p, k - p, g), ReadString(s, p, |s| - p, h);
            e.Ok? && e.ptr == r.ptr && e.len == |s| - r.ptr && r.len == k - r.ptr
  {
    hide ReadChars;
    CharsExtend(s, k, p + 1);
  }

  // Values.

  lemma {:induction false} DataExtends(s: string, k: nat, p: nat, g: Heap, h: Heap)
    requires Cut(s, k) && p < k
    requires var r := ReadData(s[..k], p, k - p, g); r.Ok? && Fresh(s[..k], r.ptr, r.len)
    ensures var r, e := ReadData(s[..k], p, k - p, g), ReadData(s, p, |s| - p, h);
            e.Ok? && e.ptr == r.ptr && e.len == |s| - r.ptr
    decreases k - p, 1
  {
    hide SkipWs, ReadWord, ReadDigits, ReadString, ReadArray, ReadObject;
    var x := s[..k];
    assert SkipWs(x, p, k - p).Skipped?;
    SkipExtends(s, k, p);
    var q := SkipWs(x, p, k - p).ptr;
    assert x[q] == s[q];
    if s[q] == '{' {
      ObjectExtends(s, k, q, g, h);
    } else if s[q] == '[' {
      ArrayExtends(s, k, q, g, h);
    } else if s[q] == '"' {
      StringExtends(s, k, q, g, h);
    } else if s[q] == 't' {
      WordExtends(s, k, q, "true");
    } else if s[q] == 'f' {
      WordExtends(s, k, q, "false");
    } else if s[q] == 'n' {
      WordExtends(s, k, q, "null");
    } else {
      DigitsExtend(s, k, q, false, false);
    }
  }

  lemma {:induction false} ArrayExtends(s: string, k: nat, p: nat, g: Heap, h: Heap)
    requires Cut(s, k) && p < k && s[p] == '['
    requires var r := ReadArray(s[..k], p, k - p, g); r.Ok? && Fresh(s[..k], r.ptr, r.len)
    ensures var r, e := ReadArray(s[..k], p, k - p, g), ReadArray(s, p, |s| - p, h);
            e.Ok? && e.ptr == r.ptr && e.len == |s| - r.ptr
    decreases k - p, 0
  {
    hide SkipWs, ReadItems;
    var q, e := ArrayTaken(s[..k], p, g);
    SkipExtends(s, k, p + 1);
    ItemsExtend(s, k, q, g.(next := g.next + 1), h.(next := h.next + 1));
    SkipExtends(s, k, e + 1);
  }

  lemma {:induction false} ItemsExtend(s: string, k: nat, p: nat, g: Heap, h: Heap)
    requires Cut(s, k) && p < k && ReadItems(s[..k], p, k - p, g).AtEnd?
    ensures var r, e := ReadItems(s[..k], p, k - p, g), ReadItems(s, p, |s| - p, h);
            e.AtEnd? && e.ptr == r.ptr && e.len == |s| - r.ptr
    decreases k - p, 2
  {
    hide SkipWs, ReadData, BehindItem, ReadItems;
    var x := s[..k];
    assert x[p] == s[p];
    if s[p] == ']' {
      Steps.ItemsEnd(x, p, k - p, g);
      Steps.ItemsEnd(s, p, |s| - p, h);
    } else {
      var q, c := ItemTaken(x, p, g);
      var g0, h0 := g.(next := g.next + 1), h.(next := h.next + 1);
      DataExtends(s, k, p, g0, h0);
      var d, f := ReadData(x, p, k - p, g0), ReadData(s, p, |s| - p, h0);
      SkipExtends(s, k, d.ptr);
      Steps.ItemIs(s, p, |s| - p, h);
      assert x[q] == s[q];
      if s[q] == ']' {
        Steps.BehindLast(s, f.ptr, f.len, Item(h.next, f.node), f.heap, q);
      } else {
        SkipExtends(s, k, q + 1);
        ItemsExtend(s, k, c, d.heap, f.heap);
        Steps.BehindMore(s, f.ptr, f.len, Item(h.next, f.node), f.heap, q, c);
      }
    }
  }

  lemma {:induction false} ObjectExtends(s: string, k: nat, p: nat, g: Heap, h: Heap)
    requires Cut(s, k) && p < k && s[p] == '{'
    requires var r := ReadObject(s[..k], p, k - p, g); r.Ok? && Fresh(s[..k], r.ptr, r.len)
    ensures var r, e := ReadObject(s[..k], p, k - p, g), ReadObject(s, p, |s| - p, h);
            e.Ok? && e.ptr == r.ptr && e.len == |s| - r.ptr
    decreases k - p, 0
  {
    hide SkipWs, ReadMembers;
    var q, e := ObjectTaken(s[..k], p, g);
    SkipExtends(s, k, p + 1);
    MembersExtend(s, k, q, g.(next := g.next + 1), h.(next := h.next + 1));
    SkipExtends(s, k, e + 1);
  }

  /** Also a reader that stops early, or at the last brace, does so in the whole text. */
  lemma {:induction false} MembersExtend(s: string, k: nat, p: nat, g: Heap, h: Heap)
    requires Cut(s, k) && p < k && !ReadMembers(s[..k], p, k - p, g).BadMembers?
    ensures var r, e := ReadMembers(s[..k], p, k - p, g), ReadMembers(s, p, |s| - p, h);
            (r.AtClose? ==> e.AtClose? && e.ptr == r.ptr && e.len == |s| - r.ptr) && (r.Halted? ==> e.Halted?)
    decreases k - p, 2
  {
    hide SkipWs, ReadString, BehindKey;
    var x := s[..k];
    assert x[p] == s[p];
    if s[p] != '}' {
      StringExtends(s, k, p, g, h);
      var c, d := ReadString(x, p, k - p, g), ReadString(s, p, |s| - p, h);
      KeyExtends(s, k, c.ptr, c.node, c.heap, d.node, d.heap);
    }
  }

  lemma {:induction false} KeyExtends(s: string, k: nat, p: nat, c: Node, g: Heap, d: Node, h: Heap)
    requires Cut(s, k) && p < k && c.Str? && d.Str? && !BehindKey(s[..k], p, k - p, c, g).BadMembers?
    ensures var r, e := BehindKey(s[..k], p, k - p, c, g), BehindKey(s, p, |s| - p, d, h);
            (r.AtClose? ==> e.AtClose? && e.ptr == r.ptr && e.len == |s| - r.ptr) && (r.Halted? ==> e.Halted?)
    decreases k - p, 5
  {
    hide SkipWs, ReadMember, KeyBlocks;
    var x := s[..k];
    SkipExtends(s, k, p);
    var q := SkipWs(x, p, k - p).ptr;
    assert x[q] == s[q];
    if s[q] == ':' && q + 1 < k {
      SkipExtends(s, k, q + 1);
      MemberExtends(s, k, SkipWs(x, q + 1, k - q - 1).ptr, c, g, d, h);
    }
  }

  lemma {:induction false} MemberExtends(s: string, k: nat, p: nat, c: Node, g: Heap, d: Node, h: Heap)
    requires Cut(s, k) && p < k && c.Str? && d.Str? && !ReadMember(s[..k], p, k - p, c, g).BadMembers?
    ensures var r, e := ReadMember(s[..k], p, k - p, c, g), ReadMember(s, p, |s| - p, d, h);
            (r.AtClose? ==> e.AtClose? && e.ptr == r.ptr && e.len == |s| - r.ptr) && (r.Halted? ==> e.Halted?)
    decreases k - p, 4
  {
    hide ReadData, BehindMember, CString, KeyBlocks;
    var x := s[..k];
    var g0, h0 := g.(next := g.next + 2), h.(next := h.next + 2);
    var u := ReadData(x, p, k - p, g0);
    var i := Member(g.next, g.next + 1, CString(c.s), u.node);
    StaleStops(x, u.ptr, u.len, i, u.heap.(freed := u.heap.freed + KeyBlocks(c)));
    DataExtends(s, k, p, g0, h0);
    var v := ReadData(s, p, |s| - p, h0);
    var j := Member(h.next, h.next + 1, CString(d.s), v.node);
    BehindMemberExtends(s, k, u.ptr, i, u.heap.(freed := u.heap.freed + KeyBlocks(c)),
                        j, v.heap.(freed := v.heap.freed + KeyBlocks(d)));
  }

  /** A member whose value left its cursor behind ends the object in failure. */
  lemma StaleStops(b: string, p: nat, n: nat, m: Member, h: Heap)
    requires Ends(b) && (Fresh(b, p, n) || Stale(b, p, n)) && !BehindMember(b, p, n, m, h).BadMembers?
    ensures Fresh(b, p, n)
  {
    hide ReadMembers;
    if n == 0 {
      StaleFails(b, p, h);
    }
  }

  lemma {:induction false} BehindMemberExtends(s: string, k: nat, p: nat, i: Member, g: Heap, j: Member, h: Heap)
    requires Cut(s, k) && p < k && !BehindMember(s[..k], p, k - p, i, g).BadMembers?
    ensures var r, e := BehindMember(s[..k], p, k - p, i, g), BehindMember(s, p, |s| - p, j, h);
            (r.AtClose? ==> e.AtClose? && e.ptr == r.ptr && e.len == |s| - r.ptr) && (r.Halted? ==> e.Halted?)
    decreases k - p, 3
  {
    hide SkipWs, ReadMembers;
    var x := s[..k];
    SkipExtends(s, k, p);
    var q := SkipWs(x, p, k - p).ptr;
    assert x[q] == s[q];
    if s[q] == '}' {
      MembersExtend(s, k, q, g, h);
    } else if q + 1 < k {
      SkipExtends(s, k, q + 1);
      MembersExtend(s, k, SkipWs(x, q + 1, k - q - 1).ptr, g, h);
    }
  }

  /** An object reader that accepts a part does not use up the whole. */
  lemma PartReadsOn(s: string, k: nat, p: nat)
    requires Cut(s, k) && p < k < |s| && s[p] == '{' && ReadObject(s[..k], p, k - p, EMPTY).Ok?
    ensures var e := ReadObject(s, p, |s| - p, EMPTY); e.Ok? ==> e.len > 0
  {
    hide SkipWs, ReadMembers;
    var h := EMPTY.(next := 1);
    SkipExtends(s, k, p + 1);
    var q := SkipWs(s, p + 1, |s| - p - 1).ptr;
    MembersExtend(s, k, q, h, h);
    HaltedHasMore(s, q, |s| - q, h);
  }

  /** Where a value starts that is read of a part. */
  lemma PartStarts(s: string, k: nat, p: nat)
    requires Cut(s, k) && p < |s| && s[p] == '{' && SkipWs(s, 0, |s|) == Skipped(p, |s| - p)
    requires ReadData(s[..k], 0, k, EMPTY).Ok?
    ensures p < k && ReadData(s[..k], 0, k, EMPTY) == ReadObject(s[..k], p, k - p, EMPTY)
  {
    hide SkipWs, ReadObject, ReadArray, ReadString, ReadWord, ReadNumber;
    SkipExtends(s, k, 0);
  }

  /** No proper beginning of a text that is used up by its object is accepted: a message that has arrived in part is
      never taken for a whole one, nor for a shorter one. */
  lemma NoPartAccepted(s: string, k: nat)
    requires k < |s| && Ends(s) && NoTrailingSlash(s) && NoTrailingSlash(s[..k])
    requires var r := JsonRead(s); r.Ok? && r.len == 0 && r.node.Obj?
    ensures JsonRead(s[..k]).Failed?
  {
    hide SkipWs, ReadObject, ReadData;
    var x := Trim(s[..k]);
    var j := |x|;
    assert Trim(s) == s && x == s[..j];
    if Ends(x) && ReadData(x, 0, j, EMPTY).Ok? {
      var p := RootStarts(s);
      PartStarts(s, j, p);
      PartReadsOn(s, j, p);
    }
  }

  /** No part of a written message is accepted; one that does not end with a brace is refused as not complete yet. */
  lemma NoPartOfMessage(v: Value, k: nat, c: char, blanks: nat)
    requires v.Obj? && Supported(v) && k < |WriteText(v)| && NoTrailingSlash(WriteText(v)[..k])
    ensures JsonRead(WriteText(v)[..k]).Failed?
    ensures EndsWith(WriteText(v)[..k], c, blanks) && c != '}' && c != '/'
        ==> JsonRead(WriteText(v)[..k]) == Failed(Underflow)
  {
    hide JsonRead, WriteText, NoTrailingSlash, Supported;
    var s := WriteText(v);
    RoundTrip(v, "");
    assert s + "" == s;
    ObjectText(v);
    FilledObject(v, JsonRead(s).node);
    NoPartAccepted(s, k);
    if EndsWith(s[..k], c, blanks) && c != '/' {
      IncompleteExactly(s[..k], c, blanks);
    }
  }

  lemma FilledObject(v: Value, node: Node)
    requires v.Obj? && Erase(node) == Fill(v)
    ensures node.Obj?
  {
  }

  // Arrays.

  /** An array is not a message: its closing bracket may be missing. Behind any object that ends the text it is taken as
      complete. */
  lemma UnclosedArrayAccepted(t: Tree)
    requires t.Braced? && WellTree(t)
    ensures var s := "[" + TreeText(t);
            NoTrailingSlash(s) && JsonRead(s).Ok? && JsonRead(s).len == 0
            && Erase(JsonRead(s).node) == Value.Arr([Denote(t)])
  {
    hide At, TreeText, WellTree, Denote, ReadObject, ReadItems, ReadData, BehindItem, SkipWs;
    var s := "[" + TreeText(t);
    var n, h := |s|, EMPTY.(next := 2);
    T.BracedEnds(t);
    T.AtWhole("[", TreeText(t));
    assert Ends(s) && s[0] == '[' && Trim(s) == s;
    T.ReadRoot(s, t, 1, h);
    SolidStays(s, 1);
    Steps.DataIs(s, 0, n, EMPTY);
    Steps.DataIs(s, 1, n - 1, h);
    var r := ReadObject(s, 1, n - 1, h);
    Steps.ItemIs(s, 1, n - 1, EMPTY.(next := 1));
    StaleEnds(s, r.ptr, Item(1, r.node), r.heap);
    assert ReadItems(s, 1, n - 1, EMPTY.(next := 1)) == Stopped(0, [Item(1, r.node)], r.heap);
    ArrayStops(s, EMPTY);
    OneErased(Item(1, r.node));
  }

  lemma SolidStays(b: string, p: nat)
    requires p < |b| && Solid(b[p])
    ensures SkipWs(b, p, |b| - p) == Skipped(p, |b| - p)
  {
  }

  lemma StaleEnds(b: string, p: nat, i: Item, h: Heap)
    requires Ends(b) && Stale(b, p, 0)
    ensures BehindItem(b, p, 0, i, h) == Stopped(0, [i], h)
  {
  }

  lemma ArrayStops(b: string, h: Heap)
    requires Ends(b) && |b| > 1 && b[0] == '[' && SkipWs(b, 1, |b| - 1) == Skipped(1, |b| - 1)
    requires ReadItems(b, 1, |b| - 1, h.(next := h.next + 1)).Stopped?
    ensures var i := ReadItems(b, 1, |b| - 1, h.(next := h.next + 1));
            ReadArray(b, 0, |b|, h) == Ok(0, i.len, Node.Arr(h.next, i.items), i.heap)
  {
    hide SkipWs, ReadItems;
  }

  lemma OneErased(i: Item)
    ensures Erase(Node.Arr(0, [i])) == Value.Arr([Erase(i.node)])
  {
    EraseConsItem(i, []);
    assert [i] + [] == [i];
    NothingErased();
    assert EraseItem(i) == Erase(i.node);
  }

  /** Of the texts that are used up, exactly those that start with a brace are object texts. */
  lemma UsedUpExactly(s: string, before: Gap, c: char)
    requires NoTrailingSlash(s) && StartsWith(s, before, c) && JsonRead(s).Ok? && JsonRead(s).len == 0
    ensures IsObjectText(s) <==> c == '{'
  {
    hide JsonRead, NoTrailingSlash, IsObjectText, StartsWith;
    RootKind(s, before, c);
    AcceptedExactly(s);
  }
}
