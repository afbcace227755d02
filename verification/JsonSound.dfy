/** The converse of the layout theorems: what a read accepts to its end is one of the texts, and its tree what that text
    denotes. */
module JsonSound {
  import opened Text
  import opened JsonValue
  import opened JsonLayout
  import opened JsonSteps
  import opened JsonReader
  import Decimal
  import T = JsonTexts

  // Gaps.

  lemma {:induction false} LineSound(b: string, p: nat, e: nat)
    requires p < |b| && e < |b| && LineEnd(b, p, |b| - p) == Skipped(e, |b| - e)
    ensures p <= e && IsNewline(b[e]) && forall k :: p <= k < e ==> !IsNewline(b[k])
    decreases |b| - p
  {
    if !IsNewline(b[p]) && p + 1 < |b| {
      LineSound(b, p + 1, e);
    }
  }

  lemma {:induction false} BlockSound(b: string, p: nat, e: nat)
    requires p < |b| && e < |b| && BlockEnd(b, p, |b| - p) == Skipped(e, |b| - e)
    ensures p < e && b[e - 1] == '*' && b[e] == '/' && WellBlock(b[p..e - 1])
    decreases |b| - p
  {
    if b[p] == '*' && b[p + 1] == '/' {
      assert b[p..e - 1] == "";
    } else if b[p] == '*' {
      BlockSound(b, p + 2, e);
      assert b[p..e - 1][2..] == b[p + 2..e - 1];
    } else {
      BlockSound(b, p + 1, e);
      assert b[p..e - 1][1..] == b[p + 1..e - 1];
    }
  }

  /** What is skipped is a gap. */
  lemma {:induction false} GapSound(b: string, p: nat, e: nat) returns (g: Gap)
    requires p <= |b| && e <= |b| && SkipWs(b, p, |b| - p) == Skipped(e, |b| - e)
    ensures p <= e && WellGap(g) && b[p..e] == GapText(g)
    decreases |b| - p
  {
    hide LineEnd, BlockEnd, WellBlock;
    if p == e {
      g := NoGap;
    } else if b[p] == '/' {
      g := CommentSound(b, p, e);
    } else {
      var rest := GapSound(b, p + 1, e);
      g := Blank(b[p], rest);
      assert b[p..e] == [b[p]] + b[p + 1..e];
    }
  }

  lemma {:induction false} CommentSound(b: string, p: nat, e: nat) returns (g: Gap)
    requires p < |b| && e <= |b| && b[p] == '/' && SkipWs(b, p, |b| - p) == Skipped(e, |b| - e)
    ensures p < e && WellGap(g) && b[p..e] == GapText(g) && (g.Comment? || g.Block?)
    decreases |b| - p, 0
  {
    hide LineEnd, BlockEnd, WellBlock, SkipWs, GapText, WellGap;
    var c := CommentSteps(b, p, e);
    if b[p + 1] == '/' {
      LineSound(b, p + 2, c);
      SkipBlank(b, c);
      var rest := GapSound(b, c + 1, e);
      g := LineGap(b, p, c, e, rest);
    } else {
      BlockSound(b, p + 2, c);
      var rest := CommentSound(b, c, e);
      g := BlockGap(b, p, c, e, rest);
    }
  }

  lemma LineGap(b: string, p: nat, c: nat, e: nat, rest: Gap) returns (g: Gap)
    requires p + 2 <= c < e <= |b| && b[p] == '/' && b[p + 1] == '/' && IsNewline(b[c])
    requires (forall k :: p + 2 <= k < c ==> !IsNewline(b[k])) && WellGap(rest) && b[c + 1..e] == GapText(rest)
    ensures WellGap(g) && b[p..e] == GapText(g) && g.Comment?
  {
    var body := b[p + 2..c];
    g := Comment(body, b[c], rest);
    assert b[p..e] == b[p..p + 2] + body + [b[c]] + b[c + 1..e];
    assert b[p..p + 2] == "//";
  }

  lemma BlockGap(b: string, p: nat, c: nat, e: nat, rest: Gap) returns (g: Gap)
    requires p + 2 < c < e <= |b| && b[p] == '/' && b[p + 1] == '*' && b[c - 1] == '*' && WellBlock(b[p + 2..c - 1])
    requires WellGap(rest) && b[c..e] == GapText(rest) && (rest.Comment? || rest.Block?)
    ensures WellGap(g) && b[p..e] == GapText(g) && g.Block?
  {
    var body := b[p + 2..c - 1];
    g := Block(body, rest);
    assert b[p..e] == b[p..p + 2] + body + [b[c - 1]] + b[c..e];
    assert b[p..p + 2] == "/*";
  }

  lemma CommentSteps(b: string, p: nat, e: nat) returns (c: nat)
    requires p < |b| && e <= |b| && b[p] == '/' && SkipWs(b, p, |b| - p) == Skipped(e, |b| - e)
    ensures p + 2 < |b| && p < c < |b| && SkipWs(b, c, |b| - c) == Skipped(e, |b| - e)
    ensures b[p + 1] == '/' || b[p + 1] == '*'
    ensures b[p + 1] == '/' ==> LineEnd(b, p + 2, |b| - p - 2) == Skipped(c, |b| - c)
    ensures b[p + 1] == '*' ==> BlockEnd(b, p + 2, |b| - p - 2) == Skipped(c, |b| - c)
  {
    hide LineEnd, BlockEnd;
    c := ReadComment(b, p, |b| - p).ptr;
  }

  // Tokens.

  lemma {:induction false} CharsSound(b: string, p: nat) returns (units: seq<Unit>)
    requires p < |b| && ReadChars(b, p, |b| - p).Chars?
    ensures var r := ReadChars(b, p, |b| - p);
            p <= r.ptr < |b| && r.len == |b| - r.ptr && b[r.ptr] == '"'
            && WellUnits(units) && b[p..r.ptr] == UnitsText(units) && Decode(units) == r.text
    decreases |b| - p
  {
    var r := ReadChars(b, p, |b| - p);
    if b[p] == '"' {
      units := [];
      assert b[p..p] == "";
    } else {
      var u, q := UnitSound(b, p);
      var rest := CharsSound(b, q);
      units := [u] + rest;
      UnitsJoin(b, p, q, r.ptr, u, rest);
    }
  }

  /** One round of the loop over the characters. */
  lemma UnitSound(b: string, p: nat) returns (u: Unit, q: nat)
    requires p < |b| && b[p] != '"' && ReadChars(b, p, |b| - p).Chars?
    ensures p < q < |b| && ReadChars(b, q, |b| - q).Chars? && WellUnit(u) && b[p..q] == UnitText(u)
    ensures ReadChars(b, p, |b| - p) == Prefixed(UnitChars(u), ReadChars(b, q, |b| - q))
    ensures u.Dropped? ==> b[q] == '\\' || b[q] == '"'
  {
    if b[p] != '\\' {
      u, q := Plain(b[p]), p + 1;
    } else if IsEscape(b[p + 1]) {
      u, q := Escaped(b[p + 1]), p + 2;
    } else if b[p + 1] == '/' {
      u, q := Slash, p + 2;
      assert ReadChars(b, p + 1, |b| - p - 1) == Prefixed("/", ReadChars(b, p + 2, |b| - p - 2));
    } else {
      u, q := Dropped, p + 1;
      PrefixedNothing(ReadChars(b, q, |b| - q));
    }
  }

  lemma UnitsJoin(b: string, p: nat, q: nat, e: nat, u: Unit, rest: seq<Unit>)
    requires p < q <= e < |b| && b[p..q] == UnitText(u) && b[q..e] == UnitsText(rest) && WellUnit(u) && WellUnits(rest)
    requires u.Dropped? ==> b[q] == '\\' || b[q] == '"'
    requires b[e] == '"'
    ensures b[p..e] == UnitsText([u] + rest) && WellUnits([u] + rest) && Decode([u] + rest) == UnitChars(u) + Decode(rest)
  {
    var units := [u] + rest;
    assert units[0] == u && units[1..] == rest;
    assert b[p..e] == b[p..q] + b[q..e];
    if u.Dropped? && rest != [] {
      FirstOfUnit(rest[0]);
      assert UnitsText(rest)[0] == UnitText(rest[0])[0] == b[q..e][0] == b[q];
    }
  }

  lemma StringSound(b: string, p: nat, h: Heap) returns (units: seq<Unit>)
    requires p < |b| && ReadString(b, p, |b| - p, h).Ok?
    ensures var r := ReadString(b, p, |b| - p, h);
            p < r.ptr <= |b| && WellUnits(units) && b[p..r.ptr] == QuotedText(units) && r.node.s == Decode(units)
            && r.len == |b| - r.ptr
  {
    hide ReadChars, WellUnits, UnitsText, Decode;
    units := CharsSound(b, p + 1);
    var e := ReadChars(b, p + 1, |b| - p - 1).ptr;
    assert b[p..e + 1] == "\"" + b[p + 1..e] + "\"";
  }

  lemma {:induction false} WordSound(b: string, p: nat, word: string)
    requires p < |b| && ReadWord(b, p, |b| - p, word).Skipped?
    ensures var r := ReadWord(b, p, |b| - p, word);
            r.ptr == p + |word| < |b| && r.len == |b| - r.ptr && b[p..r.ptr] == word
    decreases |word|
  {
    if word == "" {
      assert b[p..p] == "";
    } else {
      WordSound(b, p + 1, word[1..]);
      assert b[p..p + |word|] == [b[p]] + b[p + 1..p + |word|];
    }
  }

  lemma {:induction false} DigitsSound(b: string, p: nat, isFloat: bool, isNegative: bool)
    requires p < |b| && ReadDigits(b, p, |b| - p, isFloat, isNegative).Number?
    ensures var r := ReadDigits(b, p, |b| - p, isFloat, isNegative);
            p <= r.ptr < |b| && r.len == |b| - r.ptr && NumberRun(b[p..r.ptr], isFloat, isNegative)
            && (r.isFloat <==> isFloat || '.' in b[p..r.ptr]) && !Decimal.IsDigit(b[r.ptr])
    decreases |b| - p
  {
    var r := ReadDigits(b, p, |b| - p, isFloat, isNegative);
    if Decimal.IsDigit(b[p]) || (!isFloat && b[p] == '.') || (!isNegative && b[p] == '-') {
      DigitsSound(b, p + 1, isFloat || b[p] == '.', isNegative || b[p] == '-');
      var s := b[p..r.ptr];
      assert s == [b[p]] + b[p + 1..r.ptr] && s[1..] == b[p + 1..r.ptr];
    } else {
      assert b[p..p] == "";
    }
  }

  lemma NumberSound(b: string, p: nat, h: Heap)
    requires p < |b| && (Decimal.IsDigit(b[p]) || b[p] == '-') && ReadNumber(b, p, |b| - p, h).Ok?
    ensures var r := ReadNumber(b, p, |b| - p, h);
            p < r.ptr < |b| && r.len == |b| - r.ptr && WellNumber(b[p..r.ptr])
            && Erase(r.node) == Denote(Tree.Number(b[p..r.ptr]))
  {
    hide ReadDigits, NumberRun, Decimal.Parse;
    DigitsSound(b, p, false, false);
    var r := ReadNumber(b, p, |b| - p, h);
    var s := b[p..r.ptr];
    assert b[p..] == s + b[r.ptr..] && s[0] == b[p];
    Decimal.ParsePrefix(s, b[r.ptr..]);
  }

  /** A token that is no container. */
  lemma ScalarSound(b: string, p: nat, h: Heap) returns (t: Tree)
    requires Ends(b) && p < |b| && Solid(b[p]) && b[p] != '{' && b[p] != '[' && ReadData(b, p, |b| - p, h).Ok?
    ensures var r := ReadData(b, p, |b| - p, h);
            p < r.ptr <= |b| && r.len == |b| - r.ptr && WellTree(t) && b[p..r.ptr] == TreeText(t) && Denote(t) == Erase(r.node)
  {
    hide ReadArray, ReadObject, ReadString, ReadNumber, ReadWord, QuotedText, WellUnits, WellNumber, Decode, SkipWs;
    hide Decimal.Parse;
    var c := b[p];
    DataIs(b, p, |b| - p, h);
    KnownFirst(b, p, h);
    if c == '"' {
      var units := StringSound(b, p, h);
      t := Quoted(units);
    } else if c == 't' {
      WordSound(b, p, "true");
      t := TrueWord;
    } else if c == 'f' {
      WordSound(b, p, "false");
      t := FalseWord;
    } else if c == 'n' {
      WordSound(b, p, "null");
      t := NullWord;
    } else {
      NumberSound(b, p, h);
      t := Tree.Number(b[p..ReadNumber(b, p, |b| - p, h).ptr]);
    }
  }

  lemma KnownFirst(b: string, p: nat, h: Heap)
    requires Ends(b) && p < |b| && Solid(b[p]) && ReadData(b, p, |b| - p, h).Ok?
    ensures b[p] in {'{', '[', '"', 't', 'f', 'n', '-'} || Decimal.IsDigit(b[p])
  {
    hide ReadArray, ReadObject, ReadString, ReadNumber, ReadWord;
  }

  // Containers.

  /** One item of an array that is read to its bracket. */
  lemma ItemTaken(b: string, p: nat, h: Heap) returns (q: nat, g: nat)
    requires Ends(b) && p < |b| && b[p] != ']' && ReadItems(b, p, |b| - p, h).AtEnd?
    ensures var d := ReadData(b, p, |b| - p, h.(next := h.next + 1));
            d.Ok? && Fresh(b, d.ptr, d.len) && q < |b| && SkipWs(b, d.ptr, d.len) == Skipped(q, |b| - q)
            && var i := Item(h.next, d.node);
               if b[q] == ']' then ReadItems(b, p, |b| - p, h) == AtEnd(q, |b| - q, [i], d.heap)
               else
                 b[q] == ',' && q < g < |b| && SkipWs(b, q + 1, |b| - q - 1) == Skipped(g, |b| - g)
                 && ReadItems(b, p, |b| - p, h) == ConsItem(i, ReadItems(b, g, |b| - g, d.heap))
  {
    hide ReadData, BehindItem, SkipWs, ReadItems, ConsItem;
    ItemBehind(b, p, h);
    var d := ReadData(b, p, |b| - p, h.(next := h.next + 1));
    q, g := BehindTaken(b, d.ptr, d.len, Item(h.next, d.node), d.heap);
  }

  lemma ItemBehind(b: string, p: nat, h: Heap)
    requires Ends(b) && p < |b| && b[p] != ']' && !ReadItems(b, p, |b| - p, h).BadItems?
    ensures var d := ReadData(b, p, |b| - p, h.(next := h.next + 1));
            d.Ok? && ReadItems(b, p, |b| - p, h) == BehindItem(b, d.ptr, d.len, Item(h.next, d.node), d.heap)
  {
    hide ReadData, BehindItem;
  }

  lemma BehindTaken(b: string, p: nat, n: nat, i: Item, h: Heap) returns (q: nat, g: nat)
    requires Ends(b) && (Fresh(b, p, n) || Stale(b, p, n)) && BehindItem(b, p, n, i, h).AtEnd?
    ensures Fresh(b, p, n) && q < |b| && SkipWs(b, p, n) == Skipped(q, |b| - q)
    ensures if b[q] == ']' then BehindItem(b, p, n, i, h) == AtEnd(q, |b| - q, [i], h)
            else
              b[q] == ',' && q < g < |b| && SkipWs(b, q + 1, |b| - q - 1) == Skipped(g, |b| - g)
              && BehindItem(b, p, n, i, h) == ConsItem(i, ReadItems(b, g, |b| - g, h))
  {
    hide SkipWs, ReadItems;
    var s := SkipWs(b, p, n);
    q, g := s.ptr, 0;
    if b[q] == ']' {
      BehindLast(b, p, n, i, h, q);
    } else {
      g := SkipWs(b, q + 1, s.len - 1).ptr;
    }
  }

  /** One member of an object that is read to its brace. */
  lemma MemberTaken(b: string, p: nat, h: Heap) returns (c: nat, v: nat, q: nat, g: nat)
    requires Ends(b) && p < |b| && b[p] != '}' && ReadMembers(b, p, |b| - p, h).AtClose?
    ensures var k := ReadString(b, p, |b| - p, h);
            k.Ok? && c < v < |b| && b[c] == ':' && SkipWs(b, k.ptr, k.len) == Skipped(c, |b| - c)
            && SkipWs(b, c + 1, |b| - c - 1) == Skipped(v, |b| - v)
            && var d := ReadData(b, v, |b| - v, k.heap.(next := k.heap.next + 2));
               d.Ok? && Fresh(b, d.ptr, d.len) && q < |b| && SkipWs(b, d.ptr, d.len) == Skipped(q, |b| - q)
               && var m := Member(k.heap.next, k.heap.next + 1, CString(k.node.s), d.node);
                  var h1 := d.heap.(freed := d.heap.freed + KeyBlocks(k.node));
                  if b[q] == '}' then ReadMembers(b, p, |b| - p, h) == AtClose(q, |b| - q, [m], h1)
                  else
                    b[q] == ',' && q < g < |b| && SkipWs(b, q + 1, |b| - q - 1) == Skipped(g, |b| - g)
                    && ReadMembers(b, p, |b| - p, h) == ConsMember(m, ReadMembers(b, g, |b| - g, h1))
  {
    hide ReadData, BehindMember, BehindKey, ReadMember, ReadString, SkipWs, ReadMembers, ConsMember, KeyBlocks, CString;
    KeyTaken(b, p, h);
    var k := ReadString(b, p, |b| - p, h);
    c, v := ColonTaken(b, k.ptr, k.len, k.node, k.heap);
    ValueTaken(b, v, k.node, k.heap);
    var d := ReadData(b, v, |b| - v, k.heap.(next := k.heap.next + 2));
    var m := Member(k.heap.next, k.heap.next + 1, CString(k.node.s), d.node);
    q, g := BehindMemberTaken(b, d.ptr, d.len, m, d.heap.(freed := d.heap.freed + KeyBlocks(k.node)));
  }

  lemma KeyTaken(b: string, p: nat, h: Heap)
    requires Ends(b) && p < |b| && b[p] != '}' && ReadMembers(b, p, |b| - p, h).AtClose?
    ensures var k := ReadString(b, p, |b| - p, h);
            k.Ok? && ReadMembers(b, p, |b| - p, h) == BehindKey(b, k.ptr, k.len, k.node, k.heap)
  {
    hide ReadString, BehindKey;
  }

  lemma ColonTaken(b: string, p: nat, n: nat, key: Node, h: Heap) returns (c: nat, v: nat)
    requires Ends(b) && Fresh(b, p, n) && key.Str? && BehindKey(b, p, n, key, h).AtClose?
    ensures c < v < |b| && b[c] == ':' && SkipWs(b, p, n) == Skipped(c, |b| - c)
    ensures SkipWs(b, c + 1, |b| - c - 1) == Skipped(v, |b| - v)
    ensures BehindKey(b, p, n, key, h) == ReadMember(b, v, |b| - v, key, h)
  {
    hide SkipWs, ReadMember, KeyBlocks;
    var s := SkipWs(b, p, n);
    c := s.ptr;
    v := SkipWs(b, c + 1, s.len - 1).ptr;
  }

  lemma ValueTaken(b: string, p: nat, key: Node, h: Heap)
    requires Ends(b) && p < |b| && key.Str? && ReadMember(b, p, |b| - p, key, h).AtClose?
    ensures var d := ReadData(b, p, |b| - p, h.(next := h.next + 2));
            d.Ok? && ReadMember(b, p, |b| - p, key, h)
                     == BehindMember(b, d.ptr, d.len, Member(h.next, h.next + 1, CString(key.s), d.node),
                                     d.heap.(freed := d.heap.freed + KeyBlocks(key)))
  {
    hide ReadData, BehindMember, CString, KeyBlocks;
  }

  lemma BehindMemberTaken(b: string, p: nat, n: nat, m: Member, h: Heap) returns (q: nat, g: nat)
    requires Ends(b) && (Fresh(b, p, n) || Stale(b, p, n)) && BehindMember(b, p, n, m, h).AtClose?
    ensures Fresh(b, p, n) && q < |b| && SkipWs(b, p, n) == Skipped(q, |b| - q)
    ensures if b[q] == '}' then BehindMember(b, p, n, m, h) == AtClose(q, |b| - q, [m], h)
            else
              b[q] == ',' && q < g < |b| && SkipWs(b, q + 1, |b| - q - 1) == Skipped(g, |b| - g)
              && BehindMember(b, p, n, m, h) == ConsMember(m, ReadMembers(b, g, |b| - g, h))
  {
    hide SkipWs, ReadMembers;
    if n == 0 {
      StaleFails(b, p, h);
    }
    var s := SkipWs(b, p, n);
    q, g := s.ptr, 0;
    if b[q] == '}' {
      BehindLastMember(b, p, n, m, h, q);
    } else {
      g := SkipWs(b, q + 1, s.len - 1).ptr;
    }
  }

  lemma StaleFails(b: string, p: nat, h: Heap)
    requires Ends(b) && Stale(b, p, 0)
    ensures ReadMembers(b, p, 0, h).BadMembers?
  {
  }

  lemma SkippedSolid(b: string, p: nat, n: nat)
    requires Ends(b) && Fresh(b, p, n) && SkipWs(b, p, n).Skipped?
    ensures var s := SkipWs(b, p, n);
            Fresh(b, s.ptr, s.len) && Solid(b[s.ptr]) && SkipWs(b, s.ptr, s.len) == s
  {
  }

  lemma ArrayTaken(b: string, p: nat, h: Heap) returns (q: nat, e: nat)
    requires Ends(b) && p < |b| && b[p] == '['
    requires var r := ReadArray(b, p, |b| - p, h); r.Ok? && Fresh(b, r.ptr, r.len)
    ensures q < |b|
    ensures var r := ReadArray(b, p, |b| - p, h); var i := ReadItems(b, q, |b| - q, h.(next := h.next + 1));
            p < q <= e < |b| - 1 && SkipWs(b, p + 1, |b| - p - 1) == Skipped(q, |b| - q)
            && i.AtEnd? && i.ptr == e && b[e] == ']'
            && SkipWs(b, e + 1, |b| - e - 1) == Skipped(r.ptr, r.len) && r.node == Node.Arr(h.next, i.items)
  {
    hide SkipWs, ReadItems;
    q := SkipWs(b, p + 1, |b| - p - 1).ptr;
    e := ReadItems(b, q, |b| - q, h.(next := h.next + 1)).ptr;
  }

  /** An object that is read to its brace, with something behind it or not. */
  lemma ObjectTaken(b: string, p: nat, h: Heap) returns (q: nat, e: nat)
    requires Ends(b) && p < |b| && b[p] == '{'
    requires var r := ReadObject(b, p, |b| - p, h); r.Ok? && (r.len == 0 || Fresh(b, r.ptr, r.len))
    ensures q < |b|
    ensures var r := ReadObject(b, p, |b| - p, h); var m := ReadMembers(b, q, |b| - q, h.(next := h.next + 1));
            p < q <= e < |b| && SkipWs(b, p + 1, |b| - p - 1) == Skipped(q, |b| - q)
            && m.AtClose? && m.ptr == e && b[e] == '}' && r.node == Node.Obj(h.next, m.members)
            && if r.len == 0 then e == |b| - 1
               else e < |b| - 1 && SkipWs(b, e + 1, |b| - e - 1) == Skipped(r.ptr, r.len)
  {
    hide SkipWs, ReadMembers;
    q := SkipWs(b, p + 1, |b| - p - 1).ptr;
    HaltedHasMore(b, q, |b| - q, h.(next := h.next + 1));
    e := ReadMembers(b, q, |b| - q, h.(next := h.next + 1)).ptr;
  }

  /** A text that ends with its brace is never used up by a reader that stops early. */
  lemma {:induction false} HaltedHasMore(b: string, p: nat, n: nat, h: Heap)
    requires Ends(b) && (Fresh(b, p, n) || (n == 0 && Stale(b, p, n)))
    ensures var r := ReadMembers(b, p, n, h); r.Halted? ==> r.len > 0
    decreases n, 2
  {
    hide ReadString, BehindKey, SkipWs;
    if b[p] != '}' {
      var k := ReadString(b, p, n, h);
      if k.Ok? {
        KeyHasMore(b, k.ptr, k.len, k.node, k.heap);
      }
    }
  }

  lemma {:induction false} KeyHasMore(b: string, p: nat, n: nat, key: Node, h: Heap)
    requires Ends(b) && Fresh(b, p, n) && key.Str?
    ensures var r := BehindKey(b, p, n, key, h); r.Halted? ==> r.len > 0
    decreases n, 5
  {
    hide SkipWs, ReadMember, KeyBlocks;
    var s := SkipWs(b, p, n);
    if s.Skipped? && b[s.ptr] == ':' && s.len > 1 {
      var t := SkipWs(b, s.ptr + 1, s.len - 1);
      if t.Skipped? {
        MemberHasMore(b, t.ptr, t.len, key, h);
      }
    }
  }

  lemma {:induction false} MemberHasMore(b: string, p: nat, n: nat, key: Node, h: Heap)
    requires Ends(b) && Fresh(b, p, n) && key.Str?
    ensures var r := ReadMember(b, p, n, key, h); r.Halted? ==> r.len > 0
    decreases n, 4
  {
    hide ReadData, BehindMember, CString, KeyBlocks;
    var d := ReadData(b, p, n, h.(next := h.next + 2));
    if d.Ok? {
      BehindMemberHasMore(b, d.ptr, d.len, Member(h.next, h.next + 1, CString(key.s), d.node),
                          d.heap.(freed := d.heap.freed + KeyBlocks(key)));
    }
  }

  lemma {:induction false} BehindMemberHasMore(b: string, p: nat, n: nat, m: Member, h: Heap)
    requires Ends(b) && (Fresh(b, p, n) || Stale(b, p, n))
    ensures var r := BehindMember(b, p, n, m, h); r.Halted? ==> r.len > 0
    decreases n, 3
  {
    hide SkipWs, ReadMembers;
    if n == 0 {
      HaltedHasMore(b, p, n, h);
    } else {
      var s := SkipWs(b, p, n);
      if s.Skipped? && b[s.ptr] == '}' {
        HaltedHasMore(b, s.ptr, s.len, h);
      } else if s.Skipped? && b[s.ptr] == ',' && s.len > 1 {
        var t := SkipWs(b, s.ptr + 1, s.len - 1);
        if t.Skipped? {
          HaltedHasMore(b, t.ptr, t.len, h);
        }
      }
    }
  }

  // Texts.

  /** A value that is read with its cursor stored, and the gap behind it, are a text that denotes the value. */
  lemma {:induction false} DataSound(b: string, p: nat, h: Heap, q: nat) returns (t: Tree, after: Gap)
    requires Ends(b) && p < |b| && Solid(b[p]) && q <= |b|
    requires var r := ReadData(b, p, |b| - p, h);
             r.Ok? && Fresh(b, r.ptr, r.len) && SkipWs(b, r.ptr, r.len) == Skipped(q, |b| - q)
    ensures p < q && WellTree(t) && WellGap(after) && b[p..q] == TreeText(t) + GapText(after)
    ensures Denote(t) == Erase(ReadData(b, p, |b| - p, h).node)
    decreases |b| - p, 1
  {
    hide ReadData, ReadArray, ReadObject, SkipWs, TreeText, GapText, Denote, Erase, WellTree, WellGap;
    DataIs(b, p, |b| - p, h);
    if b[p] == '[' {
      t, after := ArraySound(b, p, h);
    } else if b[p] == '{' {
      t, after := ObjectSound(b, p, h);
    } else {
      t := ScalarSound(b, p, h);
      var e := ReadData(b, p, |b| - p, h).ptr;
      after := GapSound(b, e, q);
      assert b[p..q] == b[p..e] + b[e..q];
    }
  }

  lemma {:induction false} ArraySound(b: string, p: nat, h: Heap) returns (t: Tree, after: Gap)
    requires Ends(b) && p < |b| && b[p] == '['
    requires var r := ReadArray(b, p, |b| - p, h); r.Ok? && Fresh(b, r.ptr, r.len)
    ensures var r := ReadArray(b, p, |b| - p, h);
            p < r.ptr && WellTree(t) && WellGap(after) && b[p..r.ptr] == TreeText(t) + GapText(after)
            && Denote(t) == Erase(r.node) && SkipWs(b, r.ptr, r.len) == Skipped(r.ptr, r.len)
    decreases |b| - p, 0
  {
    hide ReadArray, ReadItems, SkipWs, GapText, WellGap, ElementsText, WellElements, DenoteElements, EraseItems;
    var r := ReadArray(b, p, |b| - p, h);
    var q, e := ArrayTaken(b, p, h);
    SkippedSolid(b, p + 1, |b| - p - 1);
    SkippedSolid(b, e + 1, |b| - e - 1);
    var open := GapSound(b, p + 1, q);
    var elements := ItemsSound(b, q, h.(next := h.next + 1));
    after := GapSound(b, e + 1, r.ptr);
    t := Bracketed(open, elements);
    BracketParts(b, p, q, e, r.ptr, GapText(open), ElementsText(elements), GapText(after));
  }

  lemma {:induction false} ObjectSound(b: string, p: nat, h: Heap) returns (t: Tree, after: Gap)
    requires Ends(b) && p < |b| && b[p] == '{'
    requires var r := ReadObject(b, p, |b| - p, h); r.Ok? && Fresh(b, r.ptr, r.len)
    ensures var r := ReadObject(b, p, |b| - p, h);
            p < r.ptr && WellTree(t) && WellGap(after) && t.Braced? && b[p..r.ptr] == TreeText(t) + GapText(after)
            && Denote(t) == Erase(r.node) && SkipWs(b, r.ptr, r.len) == Skipped(r.ptr, r.len)
    decreases |b| - p, 0
  {
    hide ReadObject, ReadMembers, SkipWs, GapText, WellGap, FieldsText, WellFields, DenoteFields, EraseMembers;
    var r := ReadObject(b, p, |b| - p, h);
    var q, e := ObjectTaken(b, p, h);
    SkippedSolid(b, p + 1, |b| - p - 1);
    SkippedSolid(b, e + 1, |b| - e - 1);
    var open := GapSound(b, p + 1, q);
    var fields := MembersSound(b, q, h.(next := h.next + 1));
    after := GapSound(b, e + 1, r.ptr);
    t := Braced(open, fields);
    BracketParts(b, p, q, e, r.ptr, GapText(open), FieldsText(fields), GapText(after));
  }

  lemma BracketParts(b: string, p: nat, q: nat, e: nat, f: nat, x: string, y: string, z: string)
    requires p < q <= e < f <= |b| && b[p + 1..q] == x && b[q..e] == y && b[e + 1..f] == z
    ensures b[p..f] == [b[p]] + x + y + [b[e]] + z
  {
  }

  lemma {:induction false} ItemsSound(b: string, p: nat, h: Heap) returns (e: Elements)
    requires Ends(b) && p < |b| && Solid(b[p]) && ReadItems(b, p, |b| - p, h).AtEnd?
    ensures var r := ReadItems(b, p, |b| - p, h);
            p <= r.ptr && WellElements(e) && b[p..r.ptr] == ElementsText(e) && DenoteElements(e) == EraseItems(r.items)
    decreases |b| - p, 3
  {
    hide ReadItems, ReadData, SkipWs, TreeText, GapText, WellTree, WellGap, Denote, Erase, EraseItems;
    if b[p] == ']' {
      ItemsEnd(b, p, |b| - p, h);
      e := NoElement;
      assert b[p..p] == "" && EraseItems([]) == [] by { NothingErased(); }
    } else {
      var q, g := ItemTaken(b, p, h);
      var d := ReadData(b, p, |b| - p, h.(next := h.next + 1));
      var t, after := DataSound(b, p, h.(next := h.next + 1), q);
      if b[q] == ']' {
        e := Last(t, after);
        EraseConsItem(Item(h.next, d.node), []);
        assert [Item(h.next, d.node)] + [] == [Item(h.next, d.node)];
        NothingErased();
      } else {
        SkippedSolid(b, q + 1, |b| - q - 1);
        var gap := GapSound(b, q + 1, g);
        var rest := ItemsSound(b, g, d.heap);
        var r := ReadItems(b, g, |b| - g, d.heap);
        e := More(t, after, gap, rest);
        EraseConsItem(Item(h.next, d.node), r.items);
        FourParts(b, p, q, g, r.ptr, TreeText(t) + GapText(after), GapText(gap), ElementsText(rest));
      }
    }
  }

  lemma NoFieldIs()
    ensures FieldsText(NoField) == "" && WellFields(NoField) && DenoteFields(NoField) == []
  {
  }

  lemma NothingErased()
    ensures EraseItems([]) == [] && EraseMembers([]) == []
  {
  }

  lemma FourParts(b: string, p: nat, q: nat, g: nat, e: nat, x: string, y: string, z: string)
    requires p <= q < g <= e <= |b| && b[p..q] == x && b[q] == ',' && b[q + 1..g] == y && b[g..e] == z
    ensures b[p..e] == x + "," + y + z
  {
    assert b[p..e] == b[p..q] + [b[q]] + b[q + 1..g] + b[g..e];
  }

  lemma {:induction false} MembersSound(b: string, p: nat, h: Heap) returns (f: Fields)
    requires Ends(b) && p < |b| && Solid(b[p]) && ReadMembers(b, p, |b| - p, h).AtClose?
    ensures var r := ReadMembers(b, p, |b| - p, h);
            p <= r.ptr && WellFields(f) && b[p..r.ptr] == FieldsText(f) && DenoteFields(f) == EraseMembers(r.members)
    decreases |b| - p, 3
  {
    hide ReadMembers, ReadData, ReadString, SkipWs, TreeText, GapText, WellTree, WellGap, Denote, Erase, EraseMembers;
    hide QuotedText, WellUnits, Decode, KeyBlocks, CString, FieldText, EraseMember, FieldsText, WellFields, DenoteFields;
    if b[p] == '}' {
      MembersEnd(b, p, |b| - p, h);
      f := NoField;
      assert b[p..p] == "";
      NothingErased();
      NoFieldIs();
    } else {
      var c, v, q, g := MemberTaken(b, p, h);
      var k := ReadString(b, p, |b| - p, h);
      var key := StringSound(b, p, h);
      SkippedSolid(b, c + 1, |b| - c - 1);
      var g1 := GapSound(b, k.ptr, c);
      var g2 := GapSound(b, c + 1, v);
      var h0 := k.heap.(next := k.heap.next + 2);
      var d := ReadData(b, v, |b| - v, h0);
      var t, after := DataSound(b, v, h0, q);
      KeyParts(b, p, k.ptr, c, v, key, g1, g2);
      var m := Member(k.heap.next, k.heap.next + 1, CString(k.node.s), d.node);
      var h1 := d.heap.(freed := d.heap.freed + KeyBlocks(k.node));
      MemberErased(m, key, t);
      TwoParts(b, p, v, q, FieldText(key, g1, g2), TreeText(t), GapText(after));
      if b[q] == '}' {
        f := LastField(key, g1, g2, t, after);
        LastErased(m, f);
      } else {
        SkippedSolid(b, q + 1, |b| - q - 1);
        var gap := GapSound(b, q + 1, g);
        var rest := MembersSound(b, g, h1);
        var r := ReadMembers(b, g, |b| - g, h1);
        f := MoreFields(key, g1, g2, t, after, gap, rest);
        MoreErased(m, r, f);
        FourParts(b, p, q, g, r.ptr, FieldText(key, g1, g2) + TreeText(t) + GapText(after), GapText(gap), FieldsText(rest));
      }
    }
  }

  lemma TwoParts(b: string, p: nat, v: nat, q: nat, x: string, y: string, z: string)
    requires p <= v <= q <= |b| && b[p..v] == x && b[v..q] == y + z
    ensures b[p..q] == x + y + z
  {
    assert b[p..q] == b[p..v] + b[v..q];
  }

  lemma LastErased(m: Member, f: Fields)
    requires f.LastField? && EraseMember(m) == Pair(CString(Decode(f.key)), Denote(f.tree))
    requires WellUnits(f.key) && WellGap(f.beforeColon) && WellGap(f.afterColon) && WellTree(f.tree) && WellGap(f.after)
    ensures WellFields(f) && DenoteFields(f) == EraseMembers([m])
    ensures FieldsText(f) == FieldText(f.key, f.beforeColon, f.afterColon) + TreeText(f.tree) + GapText(f.after)
  {
    hide CString, Decode, Denote, EraseMember, WellUnits, WellGap, WellTree, FieldText, TreeText, GapText;
    assert [m] + [] == [m];
    EraseConsMember(m, []);
    NothingErased();
  }

  lemma MoreErased(m: Member, r: Members, f: Fields)
    requires f.MoreFields? && EraseMember(m) == Pair(CString(Decode(f.key)), Denote(f.tree))
    requires WellUnits(f.key) && WellGap(f.beforeColon) && WellGap(f.afterColon) && WellTree(f.tree) && WellGap(f.after)
    requires WellGap(f.gap) && WellFields(f.rest) && r.AtClose? && DenoteFields(f.rest) == EraseMembers(r.members)
    ensures WellFields(f) && DenoteFields(f) == EraseMembers(ConsMember(m, r).members)
    ensures FieldsText(f) == FieldText(f.key, f.beforeColon, f.afterColon) + TreeText(f.tree) + GapText(f.after) + ","
                             + GapText(f.gap) + FieldsText(f.rest)
  {
    hide CString, Decode, Denote, EraseMember, EraseMembers, WellUnits, WellGap, WellTree, FieldText, TreeText, GapText;
    EraseConsMember(m, r.members);
  }

  lemma MemberErased(m: Member, key: seq<Unit>, t: Tree)
    requires m.key == CString(Decode(key)) && Denote(t) == Erase(m.node)
    ensures EraseMember(m) == Pair(CString(Decode(key)), Denote(t))
  {
    hide CString, Decode, Denote;
  }

  lemma KeyParts(b: string, p: nat, k: nat, c: nat, v: nat, key: seq<Unit>, g1: Gap, g2: Gap)
    requires p <= k <= c < v <= |b| && b[c] == ':'
    requires b[p..k] == QuotedText(key) && b[k..c] == GapText(g1) && b[c + 1..v] == GapText(g2)
    ensures b[p..v] == FieldText(key, g1, g2)
  {
    hide QuotedText, GapText;
    assert b[p..v] == b[p..k] + b[k..c] + [b[c]] + b[c + 1..v];
  }

  // Whole texts.

  ghost predicate WholeText(s: string, before: Gap, t: Tree, tail: string) {
    WellGap(before) && WellTree(t) && t.Braced? && T.Blanks(tail) && s == GapText(before) + TreeText(t) + tail
  }

  ghost predicate IsObjectText(s: string) { exists before, t, tail :: WholeText(s, before, t, tail) }

  /** A read that uses a text up as an object has read one of the object texts. */
  lemma UsedUpSound(b: string) returns (before: Gap, t: Tree)
    requires Ends(b)
    requires var r := ReadData(b, 0, |b|, EMPTY); r.Ok? && r.len == 0 && r.node.Obj?
    ensures WholeText(b, before, t, "") && Denote(t) == Erase(ReadData(b, 0, |b|, EMPTY).node)
  {
    hide ReadObject, ReadMembers, SkipWs, GapText, WellGap, FieldsText, WellFields, DenoteFields, EraseMembers;
    hide ReadArray, ReadString, ReadNumber, ReadWord, ReadData;
    var p := RootStarts(b);
    before := GapSound(b, 0, p);
    var q, e := ObjectTaken(b, p, EMPTY);
    SkippedSolid(b, p + 1, |b| - p - 1);
    var open := GapSound(b, p + 1, q);
    var fields := MembersSound(b, q, EMPTY.(next := 1));
    t := Braced(open, fields);
    BracketParts(b, p, q, e, |b|, GapText(open), FieldsText(fields), "");
    assert b[..0] == "" && b[e + 1..] == "" && b == b[0..p] + b[p..|b|];
  }

  /** Where an object that is read starts. */
  lemma RootStarts(b: string) returns (p: nat)
    requires Ends(b)
    requires var r := ReadData(b, 0, |b|, EMPTY); r.Ok? && r.node.Obj?
    ensures p < |b| && b[p] == '{' && SkipWs(b, 0, |b|) == Skipped(p, |b| - p)
    ensures ReadData(b, 0, |b|, EMPTY) == ReadObject(b, p, |b| - p, EMPTY)
  {
    hide SkipWs, ReadItems, ReadMembers, ReadChars, ReadWord, ReadDigits;
    p := SkipWs(b, 0, |b|).ptr;
  }

  /** Exactly the object texts, with blanks behind them, are read completely as an object. */
  lemma AcceptedExactly(s: string)
    requires NoTrailingSlash(s)
    ensures var r := JsonRead(s); (r.Ok? && r.len == 0 && r.node.Obj?) <==> IsObjectText(s)
  {
    hide ReadData, GapText, TreeText, WellTree, WellGap, Erase, Denote, T.Blanks;
    var r := JsonRead(s);
    if r.Ok? && r.len == 0 && r.node.Obj? {
      var b := Trim(s);
      var before, t := UsedUpSound(b);
      var tail := s[|b|..];
      assert T.Blanks(tail) by { BlanksBehind(s); }
      assert s == b + tail && b + "" == b;
      assert WholeText(s, before, t, tail);
    }
    if IsObjectText(s) {
      var before, t, tail :| WholeText(s, before, t, tail);
      T.ReadAlone(before, t, tail);
      RootIsObject(before, t, tail);
    }
  }

  lemma BlanksBehind(s: string)
    ensures T.Blanks(s[|Trim(s)|..])
  {
  }

  lemma RootIsObject(before: Gap, t: Tree, tail: string)
    requires WellGap(before) && WellTree(t) && t.Braced? && T.Blanks(tail)
    ensures var s := GapText(before) + TreeText(t) + tail;
            NoTrailingSlash(s) && (JsonRead(s).Ok? ==> JsonRead(s).node.Obj?)
  {
    hide ReadData, ReadObject, GapText, TreeText, WellTree, WellGap, T.Blanks, JsonRead, NoTrailingSlash;
    var b := GapText(before) + TreeText(t);
    T.BracedEnds(t);
    T.ReadTrimmed(b, tail);
    T.AtWhole(GapText(before), TreeText(t));
    T.ReadStarts(b, before, t);
    ObjectNode(b, |GapText(before)|);
  }

  lemma ObjectNode(b: string, p: nat)
    requires Ends(b) && p < |b| && b[p] == '{'
    ensures var r := ReadObject(b, p, |b| - p, EMPTY); r.Ok? ==> r.node.Obj?
  {
    hide SkipWs, ReadMembers;
  }

  /** A read that stored its cursor has read a gap, a value and the gap behind it, up to the cursor. */
  lemma StoredSound(s: string) returns (before: Gap, t: Tree, after: Gap)
    requires NoTrailingSlash(s)
    requires var r := JsonRead(s); r.Ok? && Fresh(Trim(s), r.ptr, r.len)
    ensures WellGap(before) && WellTree(t) && WellGap(after) && Denote(t) == Erase(JsonRead(s).node)
    ensures JsonRead(s).ptr <= |s| && s[..JsonRead(s).ptr] == GapText(before) + TreeText(t) + GapText(after)
  {
    hide ReadData, ReadArray, ReadObject, SkipWs, TreeText, GapText, Denote, Erase, WellTree, WellGap;
    var b, r := Trim(s), JsonRead(s);
    var p := FirstSolid(b);
    before := GapSound(b, 0, p);
    DataIs(b, p, |b| - p, EMPTY);
    if b[p] == '[' {
      t, after := ArraySound(b, p, EMPTY);
    } else if b[p] == '{' {
      t, after := ObjectSound(b, p, EMPTY);
    } else {
      t := ScalarSound(b, p, EMPTY);
      after := NoGap;
      GapIsNone();
      assert TreeText(t) + "" == TreeText(t);
    }
    assert s[..r.ptr] == b[0..p] + b[p..r.ptr];
  }

  lemma GapIsNone()
    ensures GapText(NoGap) == "" && WellGap(NoGap)
  {
  }

  lemma FirstSolid(b: string) returns (p: nat)
    requires Ends(b) && ReadData(b, 0, |b|, EMPTY).Ok?
    ensures p < |b| && Solid(b[p]) && SkipWs(b, 0, |b|) == Skipped(p, |b| - p)
    ensures ReadData(b, 0, |b|, EMPTY) == ReadData(b, p, |b| - p, EMPTY)
  {
    hide SkipWs, ReadArray, ReadObject, ReadString, ReadNumber, ReadWord;
    p := SkipWs(b, 0, |b|).ptr;
    SkippedSolid(b, 0, |b|);
  }
}
