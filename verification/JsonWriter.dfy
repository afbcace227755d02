/** What the writer of json.c emits for a value, and what it asks of its buffer on the way. */
module JsonWriter {
  import Decimal
  import opened JsonValue
  import opened JsonEscape
  import R = JsonReader

  // The text. Strings and keys are C strings: nothing behind a NUL is written.

  function BoolText(b: bool): string { if b then "true" else "false" }

  /** `mangoh_bridge_json_writeData`. */
  function WriteText(v: Value): string {
    match v
    case Missing => "null"
    case Null => "null"
    case Bool(b) => BoolText(b)
    case Int(i) => Decimal.Print(i)
    case Float(literal) => literal
    case Str(s) => "\"" + EscapePasses(R.CString(s)) + "\""
    case Arr(items) => "[" + ItemsText(items) + "]"
    case Obj(members) => "{" + MembersText(members) + "}"
  }

  function ItemsText(items: seq<Value>): string {
    if items == [] then ""
    else if |items| == 1 then WriteText(items[0])
    else WriteText(items[0]) + "," + ItemsText(items[1..])
  }

  function KeyText(key: string): string { "\"" + key + "\":" }

  function MemberText(m: Pair): string {
    match m
    case Pair(key, value) => KeyText(R.CString(key)) + WriteText(value)
  }

  function MembersText(members: seq<Pair>): string {
    if members == [] then ""
    else if |members| == 1 then MemberText(members[0])
    else MemberText(members[0]) + "," + MembersText(members[1..])
  }

  // The buffer operations.

  /** Either ask for room, or copy text and advance. */
  datatype Op =
    | Check(size: nat)
    | Copy(text: string)

  function Put(text: string): seq<Op> { [Check(|text|), Copy(text)] }

  /** What the writer does for a value. The comma between two members of an object is copied without asking for room;
      the one between two items of an array is asked for even behind the last item. */
  function Ops(v: Value): seq<Op> {
    match v
    case Missing => Put("null")
    case Null => Put("null")
    case Bool(b) => Put(BoolText(b))
    case Int(i) => Put(Decimal.Print(i))
    case Float(literal) => Put(literal)
    case Str(s) => Put("\"") + Put(EscapePasses(R.CString(s))) + Put("\"")
    case Arr(items) => Put("[") + ItemsOps(items) + Put("]")
    case Obj(members) => Put("{") + MembersOps(members) + Put("}")
  }

  function ItemsOps(items: seq<Value>): seq<Op> {
    if items == [] then []
    else if |items| == 1 then Ops(items[0]) + [Check(1)]
    else Ops(items[0]) + [Check(1), Copy(",")] + ItemsOps(items[1..])
  }

  function KeyOps(key: string): seq<Op> { Put("\"") + Put(key) + Put("\"") + Put(":") }

  function MemberOps(m: Pair): seq<Op> {
    match m
    case Pair(key, value) => KeyOps(R.CString(key)) + Ops(value)
  }

  function MembersOps(members: seq<Pair>): seq<Op> {
    if members == [] then []
    else if |members| == 1 then MemberOps(members[0])
    else MemberOps(members[0]) + [Copy(",")] + MembersOps(members[1..])
  }

  /** The text some operations copy. */
  function TextOf(ops: seq<Op>): string
    decreases |ops|
  {
    if ops == [] then "" else (if ops[0].Copy? then ops[0].text else "") + TextOf(ops[1..])
  }

  lemma {:induction false} TextOfConcat(a: seq<Op>, b: seq<Op>)
    ensures TextOf(a + b) == TextOf(a) + TextOf(b)
    decreases |a|
  {
    if a == [] {
      assert a + b == b;
    } else {
      assert (a + b)[0] == a[0] && (a + b)[1..] == a[1..] + b;
      TextOfConcat(a[1..], b);
    }
  }

  lemma TextOfPut(text: string)
    ensures TextOf(Put(text)) == text
  {
    assert Put(text)[1..] == [Copy(text)] && [Copy(text)][1..] == [];
    assert TextOf([Copy(text)]) == text + TextOf([]);
  }

  lemma TextOfComma()
    ensures TextOf([Copy(",")]) == "," && TextOf([Check(1)]) == "" && TextOf([Check(1), Copy(",")]) == ","
  {
    assert [Copy(",")][1..] == [] && [Check(1)][1..] == [] && [Check(1), Copy(",")][1..] == [Copy(",")];
  }

  lemma TextOfThree(a: seq<Op>, b: seq<Op>, c: seq<Op>)
    ensures TextOf(a + b + c) == TextOf(a) + TextOf(b) + TextOf(c)
  {
    TextOfConcat(a + b, c);
    TextOfConcat(a, b);
  }

  /** The operations copy the text. */
  lemma {:induction false} OpsText(v: Value)
    ensures TextOf(Ops(v)) == WriteText(v)
    decreases v
  {
    hide TextOf, Put, EscapePasses;
    match v
    case Str(s) =>
      var escaped := EscapePasses(R.CString(s));
      TextOfThree(Put("\""), Put(escaped), Put("\""));
      TextOfPut("\"");
      TextOfPut(escaped);
    case Arr(items) =>
      TextOfThree(Put("["), ItemsOps(items), Put("]"));
      TextOfPut("[");
      TextOfPut("]");
      ItemsOpsText(items);
    case Obj(members) =>
      TextOfThree(Put("{"), MembersOps(members), Put("}"));
      TextOfPut("{");
      TextOfPut("}");
      MembersOpsText(members);
    case _ => TextOfPut(WriteText(v));
  }

  lemma {:induction false} ItemsOpsText(items: seq<Value>)
    ensures TextOf(ItemsOps(items)) == ItemsText(items)
    decreases items
  {
    hide WriteText, Ops;
    TextOfComma();
    if |items| == 1 {
      OpsText(items[0]);
      TextOfConcat(Ops(items[0]), [Check(1)]);
    } else if items != [] {
      OpsText(items[0]);
      ItemsOpsText(items[1..]);
      TextOfThree(Ops(items[0]), [Check(1), Copy(",")], ItemsOps(items[1..]));
    }
  }

  lemma {:induction false} MemberOpsText(m: Pair)
    ensures TextOf(MemberOps(m)) == MemberText(m)
    decreases m
  {
    match m
    case Pair(attribute, value) =>
      hide TextOf, Put, WriteText, Ops;
      var key := R.CString(attribute);
      OpsText(value);
      TextOfPut("\"");
      TextOfPut(key);
      TextOfPut(":");
      TextOfThree(Put("\""), Put(key), Put("\""));
      TextOfConcat(Put("\"") + Put(key) + Put("\""), Put(":"));
      TextOfConcat(KeyOps(key), Ops(value));
  }

  lemma {:induction false} MembersOpsText(members: seq<Pair>)
    ensures TextOf(MembersOps(members)) == MembersText(members)
    decreases members
  {
    hide MemberText, MemberOps;
    TextOfComma();
    if |members| == 1 {
      MemberOpsText(members[0]);
    } else if members != [] {
      MemberOpsText(members[0]);
      MembersOpsText(members[1..]);
      TextOfThree(MemberOps(members[0]), [Copy(",")], MembersOps(members[1..]));
    }
  }

  // What is written of strings and keys.

  predicate NoNul(s: string) { forall k :: 0 <= k < |s| ==> s[k] != '\0' }

  /** A C string is the text up to its first NUL. */
  lemma {:induction false} CStringIs(s: string)
    ensures var c := R.CString(s);
            && |c| <= |s| && c == s[..|c|] && NoNul(c) && (|c| < |s| ==> s[|c|] == '\0')
    decreases |s|
  {
    if s != "" && s[0] != '\0' {
      CStringIs(s[1..]);
      assert s == [s[0]] + s[1..];
    }
  }

  lemma {:induction false} CStringWhole(s: string, rest: string)
    requires NoNul(s) && (rest == "" || rest[0] == '\0')
    ensures R.CString(s + rest) == s
    decreases |s|
  {
    if s == "" {
      assert s + rest == rest;
    } else {
      assert (s + rest)[0] == s[0] && (s + rest)[1..] == s[1..] + rest;
      CStringWhole(s[1..], rest);
    }
  }

  /** A string is written whole, quotes and backslashes in it included, each of its characters as the escape map says;
      a NUL and what is behind it are not. */
  lemma StringWritten(s: string, rest: string)
    requires NoNul(s) && (rest == "" || rest[0] == '\0')
    ensures WriteText(Str(s + rest)) == "\"" + Escape(s) + "\""
  {
    hide Escape, EscapePasses, R.CString;
    CStringWhole(s, rest);
    PassesAreMap(s);
  }

  /** The escape map: a quote and five control characters get a backslash, everything else stays, also a backslash. */
  lemma {:induction false} EscapeIs(a: string, c: char, b: string)
    ensures Escape(a + [c] + b) == Escape(a) + Escape([c]) + Escape(b)
    ensures Escape([c]) == match c
                           case '"' => ['\\', '"']
                           case '\n' => ['\\', 'n']
                           case '\r' => ['\\', 'r']
                           case '\t' => ['\\', 't']
                           case '\U{0C}' => ['\\', 'f']
                           case '\U{08}' => ['\\', 'b']
                           case _ => [c]
    decreases |a|
  {
    var s := a + [c] + b;
    assert [c][1..] == "" && Escape("") == "";
    if a == "" {
      assert s[0] == c && s[1..] == b;
    } else {
      assert s[0] == a[0] && s[1..] == a[1..] + [c] + b;
      EscapeIs(a[1..], c, b);
    }
  }

  /** A key is written as it stands, up to a NUL. */
  lemma KeyWritten(key: string, rest: string, value: Value)
    requires NoNul(key) && (rest == "" || rest[0] == '\0')
    ensures MemberText(Pair(key + rest, value)) == "\"" + key + "\":" + WriteText(value)
  {
    hide WriteText, R.CString;
    CStringWhole(key, rest);
  }
}
