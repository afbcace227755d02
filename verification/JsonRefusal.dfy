/** Which texts are refused as not complete yet, and what a value is by its first character. */
module JsonRefusal {
  import opened JsonReader
  import opened JsonSteps
  import opened JsonLayout
  import opened Text
  import Decimal
  import T = JsonTexts

  // Only the check of the last byte reports underflow.

  lemma {:induction false} CharsNeverShort(b: string, p: nat, n: nat)
    requires n > 0 && p + n <= |b|
    ensures ReadChars(b, p, n) != NoChars(Underflow)
    decreases n
  {
    if b[p] != '"' && n > 1 {
      if b[p] != '\\' || !IsEscape(b[p + 1]) {
        CharsNeverShort(b, p + 1, n - 1);
      } else if n > 2 {
        CharsNeverShort(b, p + 2, n - 2);
      }
    }
  }

  lemma StringNeverShort(b: string, p: nat, n: nat, h: Heap)
    requires p < |b| && p + n <= |b| && (n == 0 ==> b[p] != '"')
    ensures ReadString(b, p, n, h) != Failed(Underflow)
  {
    hide ReadChars;
    if b[p] == '"' && n > 1 {
      CharsNeverShort(b, p + 1, n - 1);
    }
  }

  lemma {:induction false} DataNeverShort(b: string, p: nat, n: nat, h: Heap)
    requires Ends(b) && Fresh(b, p, n)
    ensures ReadData(b, p, n, h) != Failed(Underflow)
    decreases n, 1
  {
    hide SkipWs, ReadWord, ReadDigits, ReadString, ReadItems, ReadMembers;
    var s := SkipWs(b, p, n);
    if s.Skipped? {
      var q, m := s.ptr, s.len;
      StringNeverShort(b, q, m, h);
      if (b[q] == '[' || b[q] == '{') && m > 1 {
        var t := SkipWs(b, q + 1, m - 1);
        if t.Skipped? {
          if b[q] == '[' {
            ItemsNeverShort(b, t.ptr, t.len, h.(next := h.next + 1));
          } else {
            MembersNeverShort(b, t.ptr, t.len, h.(next := h.next + 1));
          }
        }
      }
    }
  }

  lemma {:induction false} ItemsNeverShort(b: string, p: nat, n: nat, h: Heap)
    requires Ends(b) && Fresh(b, p, n)
    ensures ReadItems(b, p, n, h) != BadItems(Underflow)
    decreases n, 2
  {
    hide BehindItem, ReadData;
    if b[p] != ']' {
      var h0 := h.(next := h.next + 1);
      DataNeverShort(b, p, n, h0);
      var d := ReadData(b, p, n, h0);
      if d.Ok? {
        BehindItemNeverShort(b, d.ptr, d.len, Item(h.next, d.node), d.heap);
      }
    }
  }

  lemma {:induction false} BehindItemNeverShort(b: string, p: nat, n: nat, i: Item, h: Heap)
    requires Ends(b) && (Fresh(b, p, n) || Stale(b, p, n))
    ensures BehindItem(b, p, n, i, h) != BadItems(Underflow)
    decreases n, 3
  {
    hide SkipWs, ReadItems;
    var s := SkipWs(b, p, n);
    if s.Skipped? && b[s.ptr] == ']' {
      ItemsNeverShort(b, s.ptr, s.len, h);
    } else if s.Skipped? && b[s.ptr] == ',' && s.len > 1 {
      var t := SkipWs(b, s.ptr + 1, s.len - 1);
      if t.Skipped? {
        ItemsNeverShort(b, t.ptr, t.len, h);
      }
    }
  }

  lemma {:induction false} MembersNeverShort(b: string, p: nat, n: nat, h: Heap)
    requires Ends(b) && (Fresh(b, p, n) || (n == 0 && Stale(b, p, n)))
    ensures ReadMembers(b, p, n, h) != BadMembers(Underflow)
    decreases n, 2
  {
    hide ReadString, BehindKey;
    if b[p] != '}' {
      StringNeverShort(b, p, n, h);
      var k := ReadString(b, p, n, h);
      if k.Ok? {
        BehindKeyNeverShort(b, k.ptr, k.len, k.node, k.heap);
      }
    }
  }

  lemma {:induction false} BehindKeyNeverShort(b: string, p: nat, n: nat, key: Node, h: Heap)
    requires Ends(b) && Fresh(b, p, n) && key.Str?
    ensures BehindKey(b, p, n, key, h) != BadMembers(Underflow)
    decreases n, 5
  {
    hide SkipWs, ReadMember, KeyBlocks;
    var s := SkipWs(b, p, n);
    if s.Skipped? && b[s.ptr] == ':' && s.len > 1 {
      var t := SkipWs(b, s.ptr + 1, s.len - 1);
      if t.Skipped? {
        MemberNeverShort(b, t.ptr, t.len, key, h);
      }
    }
  }

  lemma {:induction false} MemberNeverShort(b: string, p: nat, n: nat, key: Node, h: Heap)
    requires Ends(b) && Fresh(b, p, n) && key.Str?
    ensures ReadMember(b, p, n, key, h) != BadMembers(Underflow)
    decreases n, 4
  {
    hide ReadData, BehindMember, CString, KeyBlocks;
    var h0 := h.(next := h.next + 2);
    DataNeverShort(b, p, n, h0);
    var d := ReadData(b, p, n, h0);
    if d.Ok? {
      var m := Member(h.next, h.next + 1, CString(key.s), d.node);
      BehindMemberNeverShort(b, d.ptr, d.len, m, d.heap.(freed := d.heap.freed + KeyBlocks(key)));
    }
  }

  lemma {:induction false} BehindMemberNeverShort(b: string, p: nat, n: nat, m: Member, h: Heap)
    requires Ends(b) && (Fresh(b, p, n) || Stale(b, p, n))
    ensures BehindMember(b, p, n, m, h) != BadMembers(Underflow)
    decreases n, 3
  {
    hide SkipWs, ReadMembers;
    if n == 0 {
      MembersNeverShort(b, p, n, h);
    } else {
      var s := SkipWs(b, p, n);
      if s.Skipped? && b[s.ptr] == '}' {
        MembersNeverShort(b, s.ptr, s.len, h);
      } else if s.Skipped? && b[s.ptr] == ',' && s.len > 1 {
        var t := SkipWs(b, s.ptr + 1, s.len - 1);
        if t.Skipped? {
          MembersNeverShort(b, t.ptr, t.len, h);
        }
      }
    }
  }

  /** What the end of a text shows: it ends with this character, and blanks behind it. */
  ghost predicate EndsWith(s: string, c: char, blanks: nat) {
    && blanks < |s| && s[|s| - 1 - blanks] == c && c !in {' ', '\t', '\r', '\n'}
    && forall k :: |s| - blanks <= k < |s| ==> s[k] in {' ', '\t', '\r', '\n'}
  }

  ghost predicate OnlyBlanks(s: string) { forall k :: 0 <= k < |s| ==> s[k] in {' ', '\t', '\r', '\n'} }

  /** A text is refused as not complete exactly when it is blank or its last character that is no blank is no closing
      brace. */
  lemma IncompleteExactly(s: string, c: char, blanks: nat)
    requires EndsWith(s, c, blanks) && c != '/'
    ensures NoTrailingSlash(s) && (JsonRead(s) == Failed(Underflow) <==> c != '}')
  {
    hide ReadData;
    var core, tail := s[..|s| - blanks], s[|s| - blanks..];
    assert s == core + tail;
    T.TrimBlanks(core, tail);
    if c == '}' {
      DataNeverShort(core, 0, |core|, EMPTY);
    }
  }

  lemma BlankIsIncomplete(s: string)
    requires OnlyBlanks(s)
    ensures NoTrailingSlash(s) && JsonRead(s) == Failed(Underflow)
  {
    assert s == "" + s;
    T.TrimBlanks("", s);
  }

  /** Every text is of one of the two kinds. */
  lemma {:induction false} EndOfText(s: string) returns (c: char, blanks: nat)
    ensures OnlyBlanks(s) || EndsWith(s, c, blanks)
    decreases |s|
  {
    c, blanks := ' ', 0;
    if s != "" {
      c := s[|s| - 1];
      if IsBlank(c) {
        c, blanks := EndOfText(s[..|s| - 1]);
        blanks := blanks + 1;
      }
    }
  }

  // What a value is by its first character.

  ghost predicate IsOfKind(c: char, v: Node) {
    match c
    case '{' => v.Obj?
    case '[' => v.Arr?
    case '"' => v.Str?
    case 't' => v.Bool? && v.b
    case 'f' => v.Bool? && !v.b
    case 'n' => v.Null?
    case _ => (c == '-' || '0' <= c <= '9') && (v.Int? || v.Float?)
  }

  /** A read that succeeds yields what its first character announces; nothing else can be read. */
  lemma KindByFirst(b: string, p: nat, n: nat, h: Heap)
    requires Ends(b) && Fresh(b, p, n) && !IsBlank(b[p]) && b[p] != '/'
    ensures ReadData(b, p, n, h).Ok? ==> IsOfKind(b[p], ReadData(b, p, n, h).node)
    ensures (forall v: Node :: !IsOfKind(b[p], v)) ==> ReadData(b, p, n, h) == Failed(BadParameter)
  {
    hide ReadItems, ReadMembers, ReadChars, ReadWord, ReadDigits;
    var c := b[p];
    assert IsOfKind(c, if c == '{' then Obj(0, []) else if c == '[' then Arr(0, []) else if c == '"' then Str(0, 0, "")
                       else if c == 't' then Bool(0, true) else if c == 'f' then Bool(0, false)
                       else if c == 'n' then Null(0) else Int(0, 0))
        || !(c in {'{', '[', '"', 't', 'f', 'n', '-'} || '0' <= c <= '9');
  }

  /** The first character behind the gap a text starts with. */
  ghost predicate StartsWith(s: string, before: Gap, c: char) {
    WellGap(before) && Solid(c) && At(s, GapText(before), 0) && |GapText(before)| < |s| && s[|GapText(before)|] == c
  }

  /** A text that is read is of the kind its first character announces: behind an opening brace, an object. */
  lemma RootKind(s: string, before: Gap, c: char)
    requires NoTrailingSlash(s) && StartsWith(s, before, c)
    ensures JsonRead(s).Ok? ==> IsOfKind(c, JsonRead(s).node)
  {
    hide ReadData, SkipWs, GapText, WellGap, IsOfKind;
    var b, p := Trim(s), |GapText(before)|;
    if Ends(b) {
      assert p < |b|;
      assert At(b, GapText(before), 0) by {
        assert b[0..p] == s[0..p];
      }
      SkipGap(b, before, 0);
      DataSkips(b, 0, |b|, EMPTY, p);
      KindByFirst(b, p, |b| - p, EMPTY);
    }
  }
}
