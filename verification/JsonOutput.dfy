/** The writer of json.c at work on its buffer. */
module JsonOutput {
  import opened JsonValue
  import opened JsonWriter
  import opened JsonBuffer
  import opened JsonEscape
  import opened PowersOfTwo
  import Decimal
  import StrReplace
  import R = JsonReader

  lemma FitsCheck(at: Place)
    requires Fits([Check(1)], at)
    ensures at.free < 1 ==> at.len + 1 <= MOST
    ensures Reached([Check(1)], at) == Grown(at, 1)
  {
    assert [Check(1)][1..] == [];
  }

  lemma FitsCopy(at: Place)
    requires Fits([Copy(",")], at)
    ensures CanCopy(1, at) && Reached([Copy(",")], at) == Copied(at, 1)
  {
    assert [Copy(",")][1..] == [];
  }

  /** The block never gets larger than 2^31 bytes. */
  lemma {:induction false} ReachedSmall(ops: seq<Op>, at: Place)
    requires Fits(ops, at) && at.size <= MOST
    ensures Reached(ops, at).size <= MOST
    decreases |ops|
  {
    if ops != [] {
      match ops[0]
      case Check(n) =>
        if at.free < n {
          NextSmall(at.len + n);
        }
        ReachedSmall(ops[1..], Grown(at, n));
      case Copy(text) => ReachedSmall(ops[1..], Copied(at, |text|));
    }
  }

  /** A chunk that fits behind others has at most 2^31 characters. */
  lemma FitsBelow(a: seq<Op>, text: string, at: Place)
    requires Fits(a, at) && Fits(Put(text), Reached(a, at)) && at.size <= MOST
    ensures |text| <= MOST
  {
    ReachedSmall(a, at);
    PutFits(text, Reached(a, at));
  }

  // Escaping.

  /** One `strreplace` that gets its memory. */
  method Substitute(s: string, old_: string, new_: string) returns (r: string)
    requires old_ != "" && |StrReplace.Replace(s, old_, new_)| < StrReplace.WORD - 1
    ensures r == StrReplace.Replace(s, old_, new_)
  {
    hide StrReplace.Replace, StrReplace.Positions, StrReplace.Growths;
    var block := StrReplace.StrReplace(s, old_, new_, _ => true);
    r := block[..block.Length - 1];
  }

  lemma {:induction false} ReplaceGrows(s: string, c: char, r: string)
    requires r != ""
    ensures |s| <= |StrReplace.Replace(s, [c], r)|
    decreases |s|
  {
    if s != "" {
      ReplaceFirst(s, c, r);
      ReplaceGrows(s[1..], c, r);
    }
  }

  /** The six replacements of `mangoh_bridge_json_writeString`. */
  method EscapeAll(s: string) returns (repl: string)
    requires |EscapePasses(s)| < StrReplace.WORD - 1
    ensures repl == EscapePasses(s)
  {
    hide StrReplace.Replace;
    ghost var s1 := StrReplace.Replace(s, "\"", "\\\"");
    ghost var s2 := StrReplace.Replace(s1, [FORM_FEED], "\\f");
    ghost var s3 := StrReplace.Replace(s2, [BACKSPACE], "\\b");
    ghost var s4 := StrReplace.Replace(s3, "\r", "\\r");
    ghost var s5 := StrReplace.Replace(s4, "\n", "\\n");
    ReplaceGrows(s1, FORM_FEED, "\\f");
    ReplaceGrows(s2, BACKSPACE, "\\b");
    ReplaceGrows(s3, '\r', "\\r");
    ReplaceGrows(s4, '\n', "\\n");
    ReplaceGrows(s5, '\t', "\\t");
    repl := Substitute(s, "\"", "\\\"");
    repl := Substitute(repl, [FORM_FEED], "\\f");
    repl := Substitute(repl, [BACKSPACE], "\\b");
    repl := Substitute(repl, "\r", "\\r");
    repl := Substitute(repl, "\n", "\\n");
    repl := Substitute(repl, "\t", "\\t");
  }

  /** When the first part of some operations has been done, the rest fits and ends where all of them end. */
  lemma Advance(at: Place, was: string, a: seq<Op>, b: seq<Op>, t: string, u: string)
    requires Fits(a + b, at)
    ensures Fits(a, at) && Fits(b, Reached(a, at)) && Reached(b, Reached(a, at)) == Reached(a + b, at)
    ensures was + (t + u) == (was + t) + u
  {
    FitsConcat(a, b, at);
  }

  class Output {
    /** `*buff`. */
    var block: array<char>
    /** The bytes believed free, which need not be those the block has behind `len`. */
    var allocLen: nat
    /** `*ptr - *buff`, which is also `*len`. */
    var len: nat

    ghost predicate Valid()
      reads this
    {
      len <= block.Length <= MOST
    }

    ghost function Written(): string
      requires Valid()
      reads this, block
    {
      block[..len]
    }

    ghost function Here(): Place
      reads this
    {
      Place(len, allocLen, block.Length)
    }

    constructor ()
      ensures Valid() && fresh(block) && Written() == "" && Here() == START
    {
      block := new char[ALLOC_LEN];
      allocLen := ALLOC_LEN;
      len := 0;
    }

    /** `mangoh_bridge_json_checkOutputBufferSize`, with a `realloc` that does not fail. */
    method CheckOutputBufferSize(size: nat)
      requires Valid() && (allocLen < size ==> len + size <= MOST)
      modifies this
      ensures Valid() && Written() == old(Written())
      ensures block == old(block) || fresh(block)
      ensures Here() == Grown(old(Here()), size)
    {
      if allocLen < size {
        var incr := GetNextPowerOfTwo(len + size);
        NextUnique(incr, NextPow2(len + size), len + size);
        var temp := new char[incr];
        var kept := if incr < block.Length then incr else block.Length;
        forall k | 0 <= k < kept {
          temp[k] := block[k];
        }
        assert temp[..len] == block[..len];
        block := temp;
        allocLen := allocLen + incr / 2;
      }
    }

    /** `memcpy` and `mangoh_bridge_json_writeNext`. */
    method WriteNext(text: string)
      requires Valid() && CanCopy(|text|, Here())
      modifies this, block
      ensures Valid() && Written() == old(Written()) + text && block == old(block)
      ensures Here() == Copied(old(Here()), |text|)
    {
      forall k | 0 <= k < |text| {
        block[len + k] := text[k];
      }
      assert block[..len] == old(block[..len]) && block[len..len + |text|] == text;
      len := len + |text|;
      allocLen := allocLen - |text|;
    }

    /** What a writer leaves behind. */
    twostate predicate Wrote(ops: seq<Op>, text: string)
      requires Fits(ops, old(Here()))
      reads this, block
    {
      && old(Valid()) && Valid() && (block == old(block) || fresh(block))
      && Written() == old(Written()) + text
      && Here() == Reached(ops, old(Here()))
    }

    /** What is still to be done: operations that fit and end where all of them end, and text that completes the
        whole. */
    ghost predicate Left(ops: seq<Op>, text: string, end: Place, whole: string)
      reads this, block
    {
      Valid() && Leads(ops, Here(), end) && Written() + text == whole
    }

    lemma CanStart(a: seq<Op>, b: seq<Op>, t: string, end: Place, whole: string)
      requires Left(a + b, t, end, whole)
      ensures Valid() && Fits(a, Here()) && Fits(a + b, Here())
    {
      FitsConcat(a, b, Here());
    }

    lemma Done(whole: string, end: Place)
      requires Left([], "", end, whole)
      ensures Valid() && Written() == whole && Here() == end
    {
      assert Written() + "" == Written();
    }

    /** Ask for room, then copy. */
    method PutText(text: string)
      requires Valid() && Fits(Put(text), Here())
      modifies this, block
      ensures Wrote(Put(text), text)
    {
      PutFits(text, Here());
      CheckOutputBufferSize(|text|);
      WriteNext(text);
    }

    /** Ask for room for a comma. */
    method CheckComma()
      requires Valid() && Fits([Check(1)], Here())
      modifies this, block
      ensures Wrote([Check(1)], "")
    {
      FitsCheck(Here());
      CheckOutputBufferSize(1);
      assert old(Written()) + "" == old(Written());
    }

    method CopyComma()
      requires Valid() && Fits([Copy(",")], Here())
      modifies this, block
      ensures Wrote([Copy(",")], ",")
    {
      FitsCopy(Here());
      WriteNext(",");
    }

    method PutStep(text: string, ghost b: seq<Op>, ghost u: string, ghost end: Place, ghost whole: string)
      requires Left(Put(text) + b, text + u, end, whole)
      modifies this, block
      ensures Left(b, u, end, whole) && (block == old(block) || fresh(block))
    {
      hide Fits, Reached, Put;
      ghost var at, was := Here(), Written();
      CanStart(Put(text), b, text + u, end, whole);
      PutText(text);
      Advance(at, was, Put(text), b, text, u);
    }

    method CheckStep(ghost b: seq<Op>, ghost u: string, ghost end: Place, ghost whole: string)
      requires Left([Check(1)] + b, "" + u, end, whole)
      modifies this, block
      ensures Left(b, u, end, whole) && (block == old(block) || fresh(block))
    {
      hide Fits, Reached;
      ghost var at, was := Here(), Written();
      CanStart([Check(1)], b, "" + u, end, whole);
      CheckComma();
      Advance(at, was, [Check(1)], b, "", u);
    }

    method CommaStep(ghost b: seq<Op>, ghost u: string, ghost end: Place, ghost whole: string)
      requires Left([Copy(",")] + b, "," + u, end, whole)
      modifies this, block
      ensures Left(b, u, end, whole) && (block == old(block) || fresh(block))
    {
      hide Fits, Reached;
      ghost var at, was := Here(), Written();
      CanStart([Copy(",")], b, "," + u, end, whole);
      CopyComma();
      Advance(at, was, [Copy(",")], b, ",", u);
    }

    /** `mangoh_bridge_json_writeString`, which sees the string up to its first NUL. */
    method WriteString(s: string)
      requires Valid() && Fits(Ops(Str(s)), Here())
      modifies this, block
      ensures Wrote(Ops(Str(s)), WriteText(Str(s)))
    {
      hide Fits, Put, Reached, EscapePasses, R.CString;
      ghost var at, was, escaped := Here(), Written(), EscapePasses(R.CString(s));
      FitsConcat(Put("\"") + Put(escaped), Put("\""), at);
      FitsConcat(Put("\""), Put(escaped), at);
      FitsBelow(Put("\""), escaped, at);
      var repl := EscapeAll(R.CString(s));
      PutText("\"");
      PutText(repl);
      PutText("\"");
      assert Written() == was + "\"" + repl + "\"" == was + ("\"" + repl + "\"");
    }

    /** `mangoh_bridge_json_writeData`. */
    method WriteData(v: Value)
      requires Valid() && Fits(Ops(v), Here())
      modifies this, block
      ensures Wrote(Ops(v), WriteText(v))
      decreases v, 0
    {
      hide Fits, Put, Reached, EscapePasses;
      match v
      case Str(s) => WriteString(s);
      case Arr(items) => WriteArray(items);
      case Obj(members) => WriteObject(members);
      case Bool(b) => PutText(BoolText(b));
      case Int(i) => PutText(Decimal.Print(i));
      case Float(literal) => PutText(literal);
      case Null => PutText("null");
      case Missing => PutText("null");
    }

    /** `mangoh_bridge_json_writeArray`. */
    method WriteArray(items: seq<Value>)
      requires Valid() && Fits(Put("[") + ItemsOps(items) + Put("]"), Here())
      modifies this, block
      ensures Wrote(Put("[") + ItemsOps(items) + Put("]"), "[" + ItemsText(items) + "]")
      decreases items
    {
      hide Left, Fits, Reached, Put, ItemsOps, ItemsText;
      ghost var ops, text := Put("[") + ItemsOps(items) + Put("]"), "[" + ItemsText(items) + "]";
      ghost var end, whole := Reached(ops, Here()), Written() + text;
      ArrayLeft(items);
      PutStep("[", ItemsOps(items) + Put("]"), ItemsText(items) + "]", end, whole);
      var link := 0;
      assert items[0..] == items;
      while link < |items|
        invariant link <= |items| && (block == old(block) || fresh(block))
        invariant Left(ItemsOps(items[link..]) + Put("]"), ItemsText(items[link..]) + "]", end, whole)
      {
        WriteItem(items, link, end, whole);
        link := link + 1;
      }
      ItemsClosed(items[link..]);
      NothingBehind(Put("]"), "]");
      PutStep("]", [], "", end, whole);
      Done(whole, end);
    }

    lemma ArrayLeft(items: seq<Value>)
      requires Valid() && Fits(Put("[") + ItemsOps(items) + Put("]"), Here())
      ensures Left(Put("[") + (ItemsOps(items) + Put("]")), "[" + (ItemsText(items) + "]"),
                   Reached(Put("[") + ItemsOps(items) + Put("]"), Here()),
                   Written() + ("[" + ItemsText(items) + "]"))
    {
      hide Fits, Reached, Put, ItemsOps, ItemsText, Valid;
      assert Put("[") + ItemsOps(items) + Put("]") == Put("[") + (ItemsOps(items) + Put("]"));
      StrReplace.Assoc("[", ItemsText(items), "]");
    }

    /** One round of the loop over the items. */
    method WriteItem(items: seq<Value>, link: nat, ghost end: Place, ghost whole: string)
      requires link < |items|
      requires Left(ItemsOps(items[link..]) + Put("]"), ItemsText(items[link..]) + "]", end, whole)
      modifies this, block
      ensures block == old(block) || fresh(block)
      ensures Left(ItemsOps(items[link + 1..]) + Put("]"), ItemsText(items[link + 1..]) + "]", end, whole)
      decreases items, 0
    {
      hide *;
      ghost var v, rest, close := items[link], items[link + 1..], Put("]");
      ItemsOpen(items[link..], close, "]");
      assert items[link..][0] == v && items[link..][1..] == rest;
      DataStep(items[link], [Check(1)] + Behind(rest, close), "" + TextBehind(rest, "]"), end, whole);
      CheckStep(Behind(rest, close), TextBehind(rest, "]"), end, whole);
      BehindIs(rest, close, "]");
      if link + 1 < |items| {
        CommaStep(ItemsOps(rest) + close, ItemsText(rest) + "]", end, whole);
      }
    }

    /** `mangoh_bridge_json_writeObject`. */
    method WriteObject(members: seq<Pair>)
      requires Valid() && Fits(Put("{") + MembersOps(members) + Put("}"), Here())
      modifies this, block
      ensures Wrote(Put("{") + MembersOps(members) + Put("}"), "{" + MembersText(members) + "}")
      decreases members
    {
      hide Left, Fits, Reached, Put, MembersOps, MembersText;
      ghost var ops, text := Put("{") + MembersOps(members) + Put("}"), "{" + MembersText(members) + "}";
      ghost var end, whole := Reached(ops, Here()), Written() + text;
      ObjectLeft(members);
      PutStep("{", MembersOps(members) + Put("}"), MembersText(members) + "}", end, whole);
      var link := 0;
      assert members[0..] == members;
      while link < |members|
        invariant link <= |members| && (block == old(block) || fresh(block))
        invariant Left(MembersOps(members[link..]) + Put("}"), MembersText(members[link..]) + "}", end, whole)
      {
        WriteNextMember(members, link, end, whole);
        link := link + 1;
      }
      MembersClosed(members[link..]);
      NothingBehind(Put("}"), "}");
      PutStep("}", [], "", end, whole);
      Done(whole, end);
    }

    lemma ObjectLeft(members: seq<Pair>)
      requires Valid() && Fits(Put("{") + MembersOps(members) + Put("}"), Here())
      ensures Left(Put("{") + (MembersOps(members) + Put("}")), "{" + (MembersText(members) + "}"),
                   Reached(Put("{") + MembersOps(members) + Put("}"), Here()),
                   Written() + ("{" + MembersText(members) + "}"))
    {
      hide Fits, Reached, Put, MembersOps, MembersText, Valid;
      assert Put("{") + MembersOps(members) + Put("}") == Put("{") + (MembersOps(members) + Put("}"));
      StrReplace.Assoc("{", MembersText(members), "}");
    }

    /** One round of the loop over the members. */
    method WriteNextMember(members: seq<Pair>, link: nat, ghost end: Place, ghost whole: string)
      requires link < |members|
      requires Left(MembersOps(members[link..]) + Put("}"), MembersText(members[link..]) + "}", end, whole)
      modifies this, block
      ensures block == old(block) || fresh(block)
      ensures Left(MembersOps(members[link + 1..]) + Put("}"), MembersText(members[link + 1..]) + "}", end, whole)
      decreases members, 0
    {
      hide *;
      ghost var m, rest, close := members[link], members[link + 1..], Put("}");
      MembersOpen(members[link..], close, "}");
      assert members[link..][0] == m && members[link..][1..] == rest;
      MemberStep(members[link], BehindMembers(rest, close), TextBehindMembers(rest, "}"), end, whole);
      BehindMembersIs(rest, close, "}");
      if link + 1 < |members| {
        CommaStep(MembersOps(rest) + close, MembersText(rest) + "}", end, whole);
      }
    }

    method DataStep(v: Value, ghost b: seq<Op>, ghost u: string, ghost end: Place, ghost whole: string)
      requires Left(Ops(v) + b, WriteText(v) + u, end, whole)
      modifies this, block
      ensures Left(b, u, end, whole) && (block == old(block) || fresh(block))
      decreases v, 1
    {
      hide Fits, Reached, Ops, WriteText;
      ghost var at, was := Here(), Written();
      CanStart(Ops(v), b, WriteText(v) + u, end, whole);
      WriteData(v);
      Advance(at, was, Ops(v), b, WriteText(v), u);
    }

    method MemberStep(m: Pair, ghost b: seq<Op>, ghost u: string, ghost end: Place, ghost whole: string)
      requires Left(MemberOps(m) + b, MemberText(m) + u, end, whole)
      modifies this, block
      ensures Left(b, u, end, whole) && (block == old(block) || fresh(block))
      decreases m, 1
    {
      hide Fits, Reached, MemberOps, MemberText;
      ghost var at, was := Here(), Written();
      CanStart(MemberOps(m), b, MemberText(m) + u, end, whole);
      WriteMember(m);
      Advance(at, was, MemberOps(m), b, MemberText(m), u);
    }

    /** The key as it is up to its first NUL, a colon, and the item or null. */
    method WriteMember(m: Pair)
      requires Valid() && Fits(MemberOps(m), Here())
      modifies this, block
      ensures Wrote(MemberOps(m), MemberText(m))
      decreases m, 0
    {
      match m
      case Pair(attribute, item) =>
        hide Fits, Put, Reached, Ops, WriteText, R.CString;
        ghost var at, was := Here(), Written();
        var key := R.CString(attribute);
        FitsConcat(KeyOps(key), Ops(item), at);
        WriteKey(key);
        WriteData(item);
        StrReplace.Assoc(was, KeyText(key), WriteText(item));
    }

    method WriteKey(key: string)
      requires Valid() && Fits(KeyOps(key), Here())
      modifies this, block
      ensures Wrote(KeyOps(key), KeyText(key))
    {
      hide Fits, Put, Reached;
      ghost var at, was := Here(), Written();
      var q := "\"";
      FitsConcat(Put(q) + Put(key) + Put(q), Put(":"), at);
      FitsConcat(Put(q) + Put(key), Put(q), at);
      FitsConcat(Put(q), Put(key), at);
      PutText(q);
      PutText(key);
      PutText(q);
      PutText(":");
      KeyTextIs(was, key);
    }
  }

  lemma KeyTextIs(was: string, key: string)
    ensures was + "\"" + key + "\"" + ":" == was + KeyText(key)
  {
    assert "\":" == "\"" + ":";
  }

  lemma NothingBehind(ops: seq<Op>, text: string)
    ensures ops + [] == ops && text + "" == text
  {
  }

  /** The operations and the text behind an item and its check. */
  function Behind(rest: seq<Value>, close: seq<Op>): seq<Op> {
    if rest == [] then close else [Copy(",")] + (ItemsOps(rest) + close)
  }

  function TextBehind(rest: seq<Value>, close: string): string {
    if rest == [] then close else "," + (ItemsText(rest) + close)
  }

  lemma BehindIs(rest: seq<Value>, close: seq<Op>, end: string)
    ensures rest == [] ==> Behind(rest, close) == ItemsOps(rest) + close && TextBehind(rest, end) == ItemsText(rest) + end
    ensures rest != [] ==> Behind(rest, close) == [Copy(",")] + (ItemsOps(rest) + close)
    ensures rest != [] ==> TextBehind(rest, end) == "," + (ItemsText(rest) + end)
  {
    if rest == [] {
      assert [] + close == close && "" + end == end;
    }
  }

  lemma ItemsClosed(rest: seq<Value>)
    requires rest == []
    ensures ItemsOps(rest) + Put("]") == Put("]") && ItemsText(rest) + "]" == "]"
  {
  }

  lemma ItemsUnfold(items: seq<Value>)
    ensures |items| == 0 ==> ItemsOps(items) == [] && ItemsText(items) == ""
    ensures |items| == 1 ==> ItemsOps(items) == Ops(items[0]) + [Check(1)] && ItemsText(items) == WriteText(items[0])
    ensures |items| > 1 ==> ItemsOps(items) == Ops(items[0]) + [Check(1), Copy(",")] + ItemsOps(items[1..])
    ensures |items| > 1 ==> ItemsText(items) == WriteText(items[0]) + "," + ItemsText(items[1..])
  {
    hide Ops, WriteText;
  }

  lemma MembersUnfold(members: seq<Pair>)
    ensures |members| == 0 ==> MembersOps(members) == [] && MembersText(members) == ""
    ensures |members| == 1 ==> MembersOps(members) == MemberOps(members[0])
    ensures |members| == 1 ==> MembersText(members) == MemberText(members[0])
    ensures |members| > 1 ==> MembersOps(members) == MemberOps(members[0]) + [Copy(",")] + MembersOps(members[1..])
    ensures |members| > 1 ==> MembersText(members) == MemberText(members[0]) + "," + MembersText(members[1..])
  {
    hide MemberOps, MemberText;
  }

  lemma ItemsOpen(items: seq<Value>, close: seq<Op>, end: string)
    requires items != []
    ensures ItemsOps(items) + close == Ops(items[0]) + ([Check(1)] + Behind(items[1..], close))
    ensures ItemsText(items) + end == WriteText(items[0]) + ("" + TextBehind(items[1..], end))
  {
    hide *;
    var first, rest, text := Ops(items[0]), items[1..], WriteText(items[0]);
    ItemsUnfold(items);
    BehindIs(rest, close, end);
    NothingBefore(TextBehind(rest, end));
    if |items| > 1 {
      OpenCommas(first, ItemsOps(rest), close);
      OpenTexts(text, ItemsText(rest), end);
    } else {
      ItemsUnfold(rest);
      NothingBeforeOps(close);
      NothingBefore(end);
      AssocOps(first, [Check(1)], close);
    }
  }

  lemma NothingBefore(text: string)
    ensures "" + text == text
  {
  }

  lemma NothingBeforeOps(ops: seq<Op>)
    ensures [] + ops == ops
  {
  }

  lemma AssocOps(a: seq<Op>, b: seq<Op>, c: seq<Op>)
    ensures a + b + c == a + (b + c)
  {
  }

  lemma OpenTexts(a: string, b: string, c: string)
    ensures a + "," + b + c == a + ("," + (b + c))
  {
  }

  lemma OpenCommas(a: seq<Op>, b: seq<Op>, c: seq<Op>)
    ensures a + [Check(1), Copy(",")] + b + c == a + ([Check(1)] + ([Copy(",")] + (b + c)))
  {
    assert [Check(1), Copy(",")] == [Check(1)] + [Copy(",")];
  }

  function BehindMembers(rest: seq<Pair>, close: seq<Op>): seq<Op> {
    if rest == [] then close else [Copy(",")] + (MembersOps(rest) + close)
  }

  function TextBehindMembers(rest: seq<Pair>, close: string): string {
    if rest == [] then close else "," + (MembersText(rest) + close)
  }

  lemma BehindMembersIs(rest: seq<Pair>, close: seq<Op>, end: string)
    ensures rest == [] ==> BehindMembers(rest, close) == MembersOps(rest) + close
    ensures rest == [] ==> TextBehindMembers(rest, end) == MembersText(rest) + end
    ensures rest != [] ==> BehindMembers(rest, close) == [Copy(",")] + (MembersOps(rest) + close)
    ensures rest != [] ==> TextBehindMembers(rest, end) == "," + (MembersText(rest) + end)
  {
    if rest == [] {
      assert [] + close == close && "" + end == end;
    }
  }

  lemma MembersClosed(rest: seq<Pair>)
    requires rest == []
    ensures MembersOps(rest) + Put("}") == Put("}") && MembersText(rest) + "}" == "}"
  {
  }

  lemma MembersOpen(members: seq<Pair>, close: seq<Op>, end: string)
    requires members != []
    ensures MembersOps(members) + close == MemberOps(members[0]) + BehindMembers(members[1..], close)
    ensures MembersText(members) + end == MemberText(members[0]) + TextBehindMembers(members[1..], end)
  {
    hide *;
    var first, rest, text := MemberOps(members[0]), members[1..], MemberText(members[0]);
    MembersUnfold(members);
    BehindMembersIs(rest, close, end);
    if |members| > 1 {
      OpenComma(first, MembersOps(rest), close);
      OpenTexts(text, MembersText(rest), end);
    } else {
      MembersUnfold(rest);
      NothingBeforeOps(close);
      NothingBefore(end);
    }
  }

  lemma OpenComma(a: seq<Op>, b: seq<Op>, c: seq<Op>)
    ensures a + [Copy(",")] + b + c == a + ([Copy(",")] + (b + c))
  {
  }

  /** `mangoh_bridge_json_write`, into an empty length. */
  method JsonWrite(v: Value) returns (out: Output)
    requires Fits(Ops(v), START)
    ensures out.Valid() && out.Written() == WriteText(v)
  {
    out := new Output();
    out.WriteData(v);
    assert "" + WriteText(v) == WriteText(v);
  }
}
