/** The reader of json.c at work: one shared remaining length, local pointers, lists filled item by item. */
module JsonInput {
  import opened JsonReader
  import opened PowersOfTwo
  import Decimal

  const STRING_ALLOC_LEN: nat := 32

  /** `jsonData->len <<= 1` keeps the count of bytes exact up to 2^31. */
  lemma DoublingExact(len: nat)
    requires STRING_ALLOC_LEN <= len < WORD && IsPow2(len)
    ensures Shift(len) == 2 * len <==> len < 0x8000_0000
    ensures len >= 0x8000_0000 ==> Shift(len) == 0
  {
    if len >= 0x8000_0000 {
      TopPower(len);
    }
  }

  /** The only power of two with the top bit set. */
  lemma TopPower(len: nat)
    requires 0x8000_0000 <= len < WORD && IsPow2(len)
    ensures len == 0x8000_0000
  {
    Pow2At31();
    var k: nat :| len == Pow2(k);
    assert Pow2(32) == 2 * Pow2(31);
    if k > 31 {
      Pow2Monotonic(32, k);
    } else {
      Pow2Monotonic(k, 31);
    }
  }

  /** The buffer that collects the bytes of a string. */
  class StringBuffer {
    var strVal: array<char>
    /** `jsonData->len`. */
    var len: nat
    var allocLen: nat

    ghost predicate Valid()
      reads this
    {
      len == strVal.Length && allocLen <= len && IsPow2(len) && STRING_ALLOC_LEN <= len <= 0x8000_0000
    }

    ghost function Chars(): string
      requires Valid()
      reads this, strVal
    {
      strVal[..len - allocLen]
    }

    constructor ()
      ensures Valid() && fresh(strVal) && Chars() == ""
    {
      strVal := new char[STRING_ALLOC_LEN];
      len := STRING_ALLOC_LEN;
      allocLen := STRING_ALLOC_LEN;
      assert 32 == Pow2(5);
    }

    /** `mangoh_bridge_json_readChar`, with a `realloc` that does not fail. */
    method ReadChar(val: char)
      requires Valid() && |Chars()| < 0x8000_0000
      modifies this, strVal
      ensures Valid() && Chars() == old(Chars()) + [val]
      ensures strVal == old(strVal) || fresh(strVal)
    {
      ghost var chars := Chars();
      if allocLen == 0 {
        DoublingExact(len);
        Doubled(len);
        Below(len);
        len := Shift(len);
        var temp := new char[len];
        forall k | 0 <= k < strVal.Length {
          temp[k] := strVal[k];
        }
        assert temp[..strVal.Length] == strVal[..] == chars;
        strVal := temp;
        allocLen := len / 2;
      }
      assert strVal[..len - allocLen] == chars;
      strVal[len - allocLen] := val;
      allocLen := allocLen - 1;
      assert strVal[..len - allocLen - 1] == chars;
    }
  }

  /** How many characters the loop of `mangoh_bridge_json_readString` collects from there, also when it fails. */
  function Collected(b: string, p: nat, n: nat): (c: nat)
    requires p + n <= |b|
    ensures c <= n
    decreases n
  {
    if n == 0 || b[p] == '"' then 0
    else if b[p] != '\\' then 1 + Collected(b, p + 1, n - 1)
    else if n == 1 then 0
    else if IsEscape(b[p + 1]) then 1 + Collected(b, p + 2, n - 2)
    else if b[p + 1] == '"' || b[p + 1] == '\\' || b[p + 1] == '/' then Collected(b, p + 1, n - 1)
    else 0
  }

  /** From nowhere in the text are so many characters collected that the doubling of their length is not exact. */
  ghost predicate Collectable(b: string) {
    forall p: nat, n: nat :: p + n <= |b| ==> Collected(b, p, n) < 0x8000_0000
  }

  lemma {:induction false} CollectedPrefix(b: string, k: nat, p: nat, n: nat)
    requires p + n <= k <= |b|
    ensures Collected(b[..k], p, n) == Collected(b, p, n)
    decreases n
  {
    if n > 0 {
      CollectedPrefix(b, k, p + 1, n - 1);
      if n > 1 {
        CollectedPrefix(b, k, p + 2, n - 2);
      }
    }
  }

  lemma CollectablePrefix(b: string, k: nat)
    requires k <= |b| && Collectable(b)
    ensures Collectable(b[..k])
  {
    forall p: nat, n: nat | p + n <= k ensures Collected(b[..k], p, n) < 0x8000_0000 {
      CollectedPrefix(b, k, p, n);
    }
  }

  /** So it is in all texts below 2^31 bytes. */
  lemma ShortCollectable(b: string)
    requires |b| < 0x8000_0000
    ensures Collectable(b)
  {
  }

  // The reader.

  datatype Result =
    | Good(ptr: nat, node: Node)
    | Bad(error: Error)

  function WithItems(items: seq<Item>, r: Items): Items {
    if r.BadItems? then r else r.(items := items + r.items)
  }

  function WithMembers(members: seq<Member>, r: Members): Members {
    if r.BadMembers? then r else r.(members := members + r.members)
  }

  lemma WithOneMore(items: seq<Item>, i: Item, r: Items, members: seq<Member>, m: Member, s: Members)
    ensures WithItems(items + [i], r) == WithItems(items, ConsItem(i, r))
    ensures WithMembers(members + [m], s) == WithMembers(members, ConsMember(m, s))
  {
    assert r.BadItems? || items + [i] + r.items == items + ([i] + r.items);
    assert s.BadMembers? || members + [m] + s.members == members + ([m] + s.members);
  }

  lemma WithNone(r: Items, s: Members)
    ensures WithItems([], r) == r && WithMembers([], s) == s
  {
    assert r.BadItems? || [] + r.items == r.items;
    assert s.BadMembers? || [] + s.members == s.members;
  }

  class Reader {
    const buff: string
    /** `*len`, which all readers count down. */
    var len: nat
    var heap: Heap

    ghost predicate Valid()
    {
      Ends(buff) && |buff| < WORD && Collectable(buff)
    }

    constructor (text: string)
      requires Ends(text) && |text| < WORD && Collectable(text)
      ensures Valid() && buff == text && len == |text| && heap == EMPTY
    {
      buff := text;
      len := |text|;
      heap := EMPTY;
    }

    /** The result, the remaining length and the heap are those of the specification. */
    predicate Did(res: Result, spec: Read)
      reads this
    {
      match spec
      case Failed(error) => res == Bad(error)
      case Ok(ptr, n, node, h) => res == Good(ptr, node) && len == n && heap == h
    }

    predicate Skips(ok: bool, ptr: nat, spec: Skip)
      reads this
    {
      ok == spec.Skipped? && (ok ==> ptr == spec.ptr && len == spec.len)
    }

    /** `mangoh_bridge_json_readComment`. */
    method ReadComment(data: nat) returns (ok: bool, ptr: nat)
      requires len > 0 && data + len <= |buff| && buff[data] == '/'
      modifies this`len
      ensures Skips(ok, ptr, JsonReader.ReadComment(buff, data, old(len)))
    {
      hide JsonReader.ReadComment, SkipWs, Collected, Collectable, Ends, IsBlank;
      ghost var spec := JsonReader.ReadComment(buff, data, len);
      CommentIs(data, len);
      ptr, ok := data + 1, false;
      len := len - 1;
      if len == 0 { return; }
      if buff[ptr] == '/' {
        ptr, len := ptr + 1, len - 1;
        if len == 0 { return; }
        while !IsNewline(buff[ptr])
          invariant len > 0 && ptr + len == data + old(len)
          invariant LineEnd(buff, ptr, len) == spec
          decreases len
        {
          ptr, len := ptr + 1, len - 1;
          if len == 0 { return; }
        }
        ok := true;
      } else if buff[ptr] == '*' {
        ptr, len := ptr + 1, len - 1;
        if len == 0 { return; }
        while true
          invariant len > 0 && ptr + len == data + old(len)
          invariant BlockEnd(buff, ptr, len) == spec
          decreases len
        {
          if buff[ptr] == '*' {
            ptr, len := ptr + 1, len - 1;
            if len == 0 { return; }
            if buff[ptr] == '/' {
              ok := true;
              return;
            }
          }
          ptr, len := ptr + 1, len - 1;
          if len == 0 { return; }
        }
      }
    }

    lemma CommentIs(p: nat, n: nat)
      requires n > 0 && p + n <= |buff| && buff[p] == '/'
      ensures var spec := JsonReader.ReadComment(buff, p, n);
              if n > 2 && buff[p + 1] == '/' then spec == LineEnd(buff, p + 2, n - 2)
              else if n > 2 && buff[p + 1] == '*' then spec == BlockEnd(buff, p + 2, n - 2)
              else spec == NotSkipped
    {
    }

    /** `mangoh_bridge_json_skipWhitespace`, forward. */
    method SkipWhitespace(data: nat) returns (ok: bool, ptr: nat)
      requires data + len <= |buff|
      modifies this`len
      ensures Skips(ok, ptr, SkipWs(buff, data, old(len)))
    {
      ptr, ok := data, true;
      while len > 0 && (IsBlank(buff[ptr]) || buff[ptr] == '/')
        invariant ptr + len <= |buff| && SkipWs(buff, ptr, len) == SkipWs(buff, data, old(len))
        decreases len
      {
        if buff[ptr] == '/' {
          ok, ptr := ReadComment(ptr);
          if !ok { return; }
        } else {
          ptr, len := ptr + 1, len - 1;
        }
      }
    }

    /** `mangoh_bridge_json_readTrue`, `readFalse` and `readNull`: `node` has the number of the block that was
        allocated for it first. */
    method ReadLiteral(data: nat, word: string, node: Node) returns (res: Result)
      requires len > 0 && data + len <= |buff|
      modifies this`len, this`heap
      ensures Did(res, Scalar(ReadWord(buff, data, old(len), word), node, old(heap)))
    {
      heap := heap.(next := heap.next + 1);
      var ptr: nat, k: nat := data, 0;
      assert word[0..] == word;
      while k < |word|
        invariant k <= |word| && len > 0 && ptr + len <= |buff| && heap == old(heap).(next := old(heap).next + 1)
        invariant ReadWord(buff, ptr, len, word[k..]) == ReadWord(buff, data, old(len), word)
      {
        assert word[k..][1..] == word[k + 1..];
        if buff[ptr] != word[k] { return Bad(Format); }
        ptr, len := ptr + 1, len - 1;
        if len == 0 { return Bad(Format); }
        k := k + 1;
      }
      res := Good(ptr, node);
    }

    /** `mangoh_bridge_json_readNumber`. */
    method ReadNumber(data: nat) returns (res: Result)
      requires len > 0 && data + len <= |buff| && (Decimal.IsDigit(buff[data]) || buff[data] == '-')
      modifies this`len, this`heap
      ensures Did(res, JsonReader.ReadNumber(buff, data, old(len), old(heap)))
    {
      var id := heap.next;
      heap := heap.(next := id + 1);
      var ptr: nat, isFloat, isNegative := data, false, false;
      while Decimal.IsDigit(buff[ptr]) || (!isFloat && buff[ptr] == '.') || (!isNegative && buff[ptr] == '-')
        invariant len > 0 && data <= ptr && ptr + len <= |buff| && heap == old(heap).(next := id + 1)
        invariant ReadDigits(buff, ptr, len, isFloat, isNegative) == ReadDigits(buff, data, old(len), false, false)
        decreases len
      {
        isFloat := isFloat || buff[ptr] == '.';
        isNegative := isNegative || buff[ptr] == '-';
        ptr, len := ptr + 1, len - 1;
        if len == 0 { return Bad(Format); }
      }
      if isFloat {
        res := Good(ptr, Float(id, buff[data..ptr]));
      } else {
        res := Good(ptr, Int(id, Decimal.Parse(buff[data..])));
      }
    }

    /** `mangoh_bridge_json_readString`. */
    method ReadString(data: nat) returns (res: Result)
      requires Valid() && data < |buff| && data + len <= |buff| && (len == 0 ==> buff[data] != '"')
      modifies this`len, this`heap
      ensures Did(res, JsonReader.ReadString(buff, data, old(len), old(heap)))
    {
      hide ReadChars, IsPow2, Collected, Collectable, Ends;
      var id := heap.next;
      heap := heap.(next := id + 2);
      if buff[data] != '"' { return Bad(Format); }
      var ptr: nat := data + 1;
      len := len - 1;
      if len == 0 { return Bad(Format); }
      var out := new StringBuffer();
      ghost var spec := ReadChars(buff, ptr, len);
      PrefixedNone(spec);
      CollectedHere(ptr);
      while buff[ptr] != '"'
        invariant 0 < len && ptr + len <= |buff| && heap == old(heap).(next := id + 2)
        invariant fresh(out) && fresh(out.strVal) && out.Valid()
        invariant |out.Chars()| + Collected(buff, ptr, len) < 0x8000_0000
        invariant Prefixed(out.Chars(), ReadChars(buff, ptr, len)) == spec
        decreases len
      {
        var step;
        step, ptr := ReadUnit(ptr, out);
        if step.Wrong? { return Bad(step.error); }
      }
      CharsOver(ptr, out.Chars());
      ptr, len := ptr + 1, len - 1;
      if len == 0 { return Bad(Format); }
      var text := out.strVal[..out.len - out.allocLen];
      out.ReadChar('\0');
      res := Good(ptr, Str(id, id + 1, text));
    }

    lemma CollectedHere(ptr: nat)
      requires Valid() && ptr + len <= |buff|
      ensures Collected(buff, ptr, len) < 0x8000_0000
    {
    }

    lemma CharsOver(ptr: nat, chars: string)
      requires len > 0 && ptr + len <= |buff| && buff[ptr] == '"'
      ensures Prefixed(chars, ReadChars(buff, ptr, len)) == JsonReader.Chars.Chars(ptr, len, chars)
    {
      assert chars + "" == chars;
    }

    /** One round of the loop over the characters of a string. */
    method ReadUnit(data: nat, out: StringBuffer) returns (step: Round, ptr: nat)
      requires Valid() && 0 < len && data + len <= |buff| && buff[data] != '"'
      requires out.Valid() && |out.Chars()| + Collected(buff, data, len) < 0x8000_0000
      modifies this`len, out, out.strVal
      ensures out.Valid() && (out.strVal == old(out.strVal) || fresh(out.strVal))
      ensures step != Early
      ensures step == Next ==> 0 < len < old(len) && ptr + len == data + old(len)
      ensures step == Next ==> |out.Chars()| + Collected(buff, ptr, len) < 0x8000_0000
      ensures var spec := Prefixed(old(out.Chars()), ReadChars(buff, data, old(len)));
              (step == Next ==> Prefixed(out.Chars(), ReadChars(buff, ptr, len)) == spec)
              && (step.Wrong? ==> spec == NoChars(step.error))
    {
      hide IsPow2, Prefixed, ReadChars;
      UnitIs(buff, data, len, out.Chars());
      ptr, step := data, Next;
      if buff[ptr] == '\\' {
        ptr, len := ptr + 1, len - 1;
        if len == 0 { return Wrong(Format), ptr; }
        if IsEscape(buff[ptr]) {
          out.ReadChar(EscapeChar(buff[ptr]));
          ptr, len := ptr + 1, len - 1;
          if len == 0 { return Wrong(Format), ptr; }
        } else if buff[ptr] == 'u' {
          return Wrong(Unicode), ptr;
        } else if buff[ptr] != '"' && buff[ptr] != '\\' && buff[ptr] != '/' {
          return Wrong(Format), ptr;
        }
      } else {
        out.ReadChar(buff[ptr]);
        ptr, len := ptr + 1, len - 1;
        if len == 0 { return Wrong(Format), ptr; }
      }
    }

    /** What one round adds to the characters read so far. */
    lemma UnitIs(b: string, p: nat, n: nat, chars: string)
      requires 0 < n && p + n <= |b| && b[p] != '"'
      ensures var spec := Prefixed(chars, ReadChars(b, p, n));
              && (n == 1 ==> spec == NoChars(Format))
              && (n > 1 && b[p] != '\\' ==> spec == Prefixed(chars + [b[p]], ReadChars(b, p + 1, n - 1)))
              && (n > 1 && b[p] == '\\' ==>
                    var c := b[p + 1];
                    if IsEscape(c) then
                      spec == if n == 2 then NoChars(Format)
                              else Prefixed(chars + [EscapeChar(c)], ReadChars(b, p + 2, n - 2))
                    else if c == 'u' then spec == NoChars(Unicode)
                    else if c == '"' || c == '\\' || c == '/' then spec == Prefixed(chars, ReadChars(b, p + 1, n - 1))
                    else spec == NoChars(Format))
    {
      if n > 1 && b[p] != '\\' {
        PrefixedMore(chars, b[p], b, p + 1, n - 1);
      } else if n > 2 && IsEscape(b[p + 1]) {
        PrefixedMore(chars, EscapeChar(b[p + 1]), b, p + 2, n - 2);
      }
    }

    lemma PrefixedNone(r: JsonReader.Chars)
      ensures Prefixed("", r) == r
    {
      assert r.NoChars? || "" + r.text == r.text;
    }

    lemma PrefixedMore(chars: string, c: char, b: string, p: nat, n: int)
      ensures n > 0 && p + n <= |b| ==>
                Prefixed(chars + [c], ReadChars(b, p, n)) == Prefixed(chars, Prefixed([c], ReadChars(b, p, n)))
    {
      if n > 0 && p + n <= |b| {
        var r := ReadChars(b, p, n);
        assert r.NoChars? || chars + [c] + r.text == chars + ([c] + r.text);
      }
    }

    /** `mangoh_bridge_json_readData`. */
    method ReadData(data: nat) returns (res: Result)
      requires Valid() && Fresh(buff, data, len)
      modifies this`len, this`heap
      ensures Did(res, JsonReader.ReadData(buff, data, old(len), old(heap)))
      decreases len, 3
    {
      var ok, ptr := SkipWhitespace(data);
      if !ok { return Bad(Format); }
      match buff[ptr]
      case '{' => res := ReadObject(ptr);
      case '[' => res := ReadArray(ptr);
      case '"' => res := ReadString(ptr);
      case '-' => res := ReadNumber(ptr);
      case 't' => res := ReadLiteral(ptr, "true", Bool(heap.next, true));
      case 'f' => res := ReadLiteral(ptr, "false", Bool(heap.next, false));
      case 'n' => res := ReadLiteral(ptr, "null", Null(heap.next));
      case _ =>
        if Decimal.IsDigit(buff[ptr]) {
          res := ReadNumber(ptr);
        } else {
          res := Bad(BadParameter);
        }
    }

    /** `mangoh_bridge_json_readArray`. */
    method ReadArray(data: nat) returns (res: Result)
      requires Valid() && Fresh(buff, data, len) && buff[data] == '['
      modifies this`len, this`heap
      ensures Did(res, JsonReader.ReadArray(buff, data, old(len), old(heap)))
      decreases len, 2
    {
      hide SkipWs, ReadItems, BehindItem, JsonReader.ReadData;
      var id := heap.next;
      heap := heap.(next := id + 1);
      var ptr: nat, ok := data + 1, true;
      len := len - 1;
      if len == 0 { return Bad(Format); }
      ok, ptr := SkipWhitespace(ptr);
      if !ok { return Bad(Format); }
      var items: seq<Item> := [];
      ghost var spec := ReadItems(buff, ptr, len, heap);
      WithNone(spec, BadMembers(Format));
      while buff[ptr] != ']'
        invariant Fresh(buff, ptr, len) && len < old(len)
        invariant WithItems(items, ReadItems(buff, ptr, len, heap)) == spec
        decreases len
      {
        var step;
        step, ptr, items := ReadItem(ptr, items);
        match step
        case Next =>
        case Early => return Good(data, Arr(id, items));
        case Wrong(error) => return Bad(error);
      }
      ItemsOver(ptr, items);
      ptr, len := ptr + 1, len - 1;
      if len == 0 { return Good(data, Arr(id, items)); }
      ok, ptr := SkipWhitespace(ptr);
      if !ok { return Bad(Format); }
      res := Good(ptr, Arr(id, items));
    }

    lemma ItemsOver(ptr: nat, items: seq<Item>)
      requires Ends(buff) && Fresh(buff, ptr, len) && buff[ptr] == ']'
      ensures WithItems(items, ReadItems(buff, ptr, len, heap)) == AtEnd(ptr, len, items, heap)
    {
      assert items + [] == items;
    }

    /** One round of the loop over the items of an array. */
    method ReadItem(data: nat, items: seq<Item>) returns (step: Round, ptr: nat, more: seq<Item>)
      requires Valid() && Fresh(buff, data, len) && buff[data] != ']'
      modifies this`len, this`heap
      ensures var spec := WithItems(items, ReadItems(buff, data, old(len), old(heap)));
              match step
              case Next => Fresh(buff, ptr, len) && len < old(len)
                        && WithItems(more, ReadItems(buff, ptr, len, heap)) == spec
              case Early => spec == Stopped(len, more, heap)
              case Wrong(error) => spec == BadItems(error)
      decreases len, 4
    {
      hide SkipWs, ReadItems, JsonReader.ReadData;
      var link := heap.next;
      ItemsThen(buff, data, len, heap);
      heap := heap.(next := link + 1);
      ptr, more := data, items;
      var read := ReadData(ptr);
      if read.Bad? { return Wrong(read.error), ptr, more; }
      ptr := read.ptr;
      var item := Item(link, read.node);
      more := items + [item];
      ghost var h := heap;
      var ok;
      ok, ptr := SkipWhitespace(ptr);
      if !ok { return Wrong(Format), ptr, more; }
      if buff[ptr] != ',' && buff[ptr] != ']' { return Early, ptr, more; }
      if buff[ptr] == ',' {
        ptr, len := ptr + 1, len - 1;
        if len == 0 { return Early, ptr, more; }
        ok, ptr := SkipWhitespace(ptr);
        if !ok { return Wrong(Format), ptr, more; }
      }
      WithOneMore(items, item, ReadItems(buff, ptr, len, heap), [], Member(0, 0, "", read.node), BadMembers(Format));
      step := Next;
    }

    /** `mangoh_bridge_json_readObject`. What a failed read does with its temporary key is not modelled. */
    method ReadObject(data: nat) returns (res: Result)
      requires Valid() && Fresh(buff, data, len) && buff[data] == '{'
      modifies this`len, this`heap
      ensures Did(res, JsonReader.ReadObject(buff, data, old(len), old(heap)))
      decreases len, 2
    {
      hide SkipWs, ReadMembers, JsonReader.ReadMember, KeyBlocks, Ends;
      var id := heap.next;
      heap := heap.(next := id + 1);
      var ptr: nat, ok := data + 1, true;
      len := len - 1;
      if len == 0 { return Bad(Format); }
      ok, ptr := SkipWhitespace(ptr);
      if !ok { return Bad(Format); }
      var members: seq<Member> := [];
      ghost var spec := ReadMembers(buff, ptr, len, heap);
      WithNone(BadItems(Format), spec);
      while buff[ptr] != '}'
        invariant Fresh(buff, ptr, len) || (len == 0 && Stale(buff, ptr, len))
        invariant len < old(len)
        invariant WithMembers(members, ReadMembers(buff, ptr, len, heap)) == spec
        decreases len
      {
        var step;
        step, ptr, members := ReadMember(ptr, members);
        match step
        case Next =>
        case Early => return Good(data, Obj(id, members));
        case Wrong(error) => return Bad(error);
      }
      MembersOver(ptr, members);
      ptr, len := ptr + 1, len - 1;
      if len == 0 { return Good(data, Obj(id, members)); }
      ok, ptr := SkipWhitespace(ptr);
      if !ok { return Bad(Format); }
      res := Good(ptr, Obj(id, members));
    }

    lemma MembersOver(ptr: nat, members: seq<Member>)
      requires Ends(buff) && Fresh(buff, ptr, len) && buff[ptr] == '}'
      ensures WithMembers(members, ReadMembers(buff, ptr, len, heap)) == AtClose(ptr, len, members, heap)
    {
      assert members + [] == members;
    }

    /** A key and its colon. */
    method ReadKey(data: nat) returns (step: Round, ptr: nat, key: Node)
      requires Valid() && (Fresh(buff, data, len) || (len == 0 && Stale(buff, data, len))) && buff[data] != '}'
      modifies this`len, this`heap
      ensures var spec := ReadMembers(buff, data, old(len), old(heap));
              match step
              case Next => Fresh(buff, ptr, len) && len < old(len) && key.Str?
                        && JsonReader.ReadMember(buff, ptr, len, key, heap) == spec
              case Early => spec == Halted(len, [], heap)
              case Wrong(error) => spec == BadMembers(error)
    {
      hide SkipWs, ReadMembers, JsonReader.ReadString, JsonReader.ReadMember, KeyBlocks;
      KeyThen(buff, data, len, heap);
      ptr, key := data, Null(0);
      var read := ReadString(data);
      if read.Bad? { return Wrong(read.error), ptr, key; }
      ptr, key := read.ptr, read.node;
      var ok;
      ok, ptr := SkipWhitespace(ptr);
      if !ok { return Wrong(Format), ptr, key; }
      var colon := buff[ptr] == ':';
      if colon {
        ptr, len := ptr + 1, len - 1;
      }
      if !colon || len == 0 {
        heap := heap.(lost := heap.lost + KeyBlocks(key));
        return Early, ptr, key;
      }
      ok, ptr := SkipWhitespace(ptr);
      if !ok { return Wrong(Format), ptr, key; }
      step := Next;
    }

    /** One round of the loop over the members of an object. */
    method ReadMember(data: nat, members: seq<Member>) returns (step: Round, ptr: nat, more: seq<Member>)
      requires Valid() && (Fresh(buff, data, len) || (len == 0 && Stale(buff, data, len))) && buff[data] != '}'
      modifies this`len, this`heap
      ensures var spec := WithMembers(members, ReadMembers(buff, data, old(len), old(heap)));
              match step
              case Next => (Fresh(buff, ptr, len) || (len == 0 && Stale(buff, ptr, len))) && len < old(len)
                        && WithMembers(more, ReadMembers(buff, ptr, len, heap)) == spec
              case Early => spec == Halted(len, more, heap)
              case Wrong(error) => spec == BadMembers(error)
      decreases len, 5
    {
      hide SkipWs, ReadMembers, JsonReader.ReadMember, KeyBlocks;
      var key;
      more := members;
      step, ptr, key := ReadKey(data);
      if !step.Next? {
        assert members + [] == members;
        return;
      }
      step, ptr, more := ReadValue(ptr, key, members);
    }

    /** The value behind a key, and what stands behind it. */
    method ReadValue(data: nat, key: Node, members: seq<Member>) returns (step: Round, ptr: nat, more: seq<Member>)
      requires Valid() && Fresh(buff, data, len) && key.Str?
      modifies this`len, this`heap
      ensures var spec := WithMembers(members, JsonReader.ReadMember(buff, data, old(len), key, old(heap)));
              match step
              case Next => (Fresh(buff, ptr, len) || (len == 0 && Stale(buff, ptr, len))) && len < old(len)
                        && WithMembers(more, ReadMembers(buff, ptr, len, heap)) == spec
              case Early => spec == Halted(len, more, heap)
              case Wrong(error) => spec == BadMembers(error)
      decreases len, 4
    {
      hide SkipWs, ReadMembers, JsonReader.ReadMember, JsonReader.ReadData, KeyBlocks, CString;
      MemberThen(buff, data, len, key, heap);
      var link := heap.next;
      heap := heap.(next := link + 2);
      ptr, more := data, members;
      var read := ReadData(ptr);
      if read.Bad? { return Wrong(read.error), ptr, more; }
      ptr := read.ptr;
      var member := Member(link, link + 1, CString(key.s), read.node);
      more := members + [member];
      heap := heap.(freed := heap.freed + KeyBlocks(key));
      if len > 0 {
        var ok;
        ok, ptr := SkipWhitespace(ptr);
        if !ok { return Wrong(Format), ptr, more; }
        if buff[ptr] != '}' && buff[ptr] != ',' { return Wrong(Invalid), ptr, more; }
        if buff[ptr] == ',' {
          ptr, len := ptr + 1, len - 1;
          if len == 0 { return Early, ptr, more; }
          ok, ptr := SkipWhitespace(ptr);
          if !ok { return Wrong(Format), ptr, more; }
        }
      }
      WithOneMore([], Item(0, read.node), BadItems(Format), members, member, ReadMembers(buff, ptr, len, heap));
      step := Next;
    }
  }

  /** How one round of a loop over items or members ends. */
  datatype Round = Next | Early | Wrong(error: Error)

  lemma ItemsThen(b: string, p: nat, n: nat, h: Heap)
    requires Ends(b) && Fresh(b, p, n) && b[p] != ']'
    ensures var d := JsonReader.ReadData(b, p, n, h.(next := h.next + 1));
            ReadItems(b, p, n, h)
            == if d.Failed? then BadItems(d.error) else BehindItem(b, d.ptr, d.len, Item(h.next, d.node), d.heap)
  {
    hide JsonReader.ReadData, BehindItem;
  }

  lemma KeyThen(b: string, p: nat, n: nat, h: Heap)
    requires Ends(b) && (Fresh(b, p, n) || (n == 0 && Stale(b, p, n))) && b[p] != '}'
    ensures var k := JsonReader.ReadString(b, p, n, h);
            ReadMembers(b, p, n, h)
            == if k.Failed? then BadMembers(k.error) else BehindKey(b, k.ptr, k.len, k.node, k.heap)
  {
    hide JsonReader.ReadString, BehindKey;
  }

  lemma MemberThen(b: string, p: nat, n: nat, key: Node, h: Heap)
    requires Ends(b) && Fresh(b, p, n) && key.Str?
    ensures var d := JsonReader.ReadData(b, p, n, h.(next := h.next + 2));
            JsonReader.ReadMember(b, p, n, key, h)
            == if d.Failed? then BadMembers(d.error)
               else
                 var member := Member(h.next, h.next + 1, CString(key.s), d.node);
                 BehindMember(b, d.ptr, d.len, member, d.heap.(freed := d.heap.freed + KeyBlocks(key)))
  {
    hide JsonReader.ReadData, BehindMember, CString, KeyBlocks;
  }

  /** `mangoh_bridge_json_read`: the result, the remaining length and what became of the blocks. */
  method Read(buff: array<char>) returns (res: Result, len: nat, heap: Heap)
    requires NoTrailingSlash(buff[..]) && buff.Length < WORD && Collectable(buff[..])
    ensures match JsonRead(buff[..])
            case Failed(error) => res == Bad(error)
            case Ok(ptr, n, node, h) => res == Good(ptr, node) && len == n && heap == h
  {
    len, heap := buff.Length, EMPTY;
    assert buff[..len] == buff[..];
    while len > 0 && IsBlank(buff[len - 1])
      invariant len <= buff.Length && Trim(buff[..len]) == Trim(buff[..])
    {
      assert buff[..len][..len - 1] == buff[..len - 1];
      len := len - 1;
    }
    var text := buff[..len];
    assert Trim(text) == text;
    assert text == buff[..][..len];
    CollectablePrefix(buff[..], len);
    if len == 0 || buff[len - 1] != '}' {
      return Bad(Underflow), len, heap;
    }
    var reader := new Reader(text);
    res := reader.ReadData(0);
    len, heap := reader.len, reader.heap;
  }
}
