/** Reading what was written gives the value back. */
module JsonRoundTrip {
  import opened Text
  import opened JsonValue
  import opened JsonEscape
  import opened JsonLayout
  import opened JsonWriter
  import opened JsonTexts
  import Decimal
  import R = JsonReader

  const INT_MIN: int := -0x8000_0000
  const INT_MAX: int := 0x7FFF_FFFF

  /** The values for which the round trip is meant: strings and keys without a quote or a backslash, numbers `atoi`
      can return, literals with a point, no null pointer in an array. */
  predicate Supported(v: Value) {
    match v
    case Int(i) => INT_MIN <= i <= INT_MAX
    case Float(literal) => WellNumber(literal) && '.' in literal
    case Str(s) => Plainly(s)
    case Arr(items) => forall k :: 0 <= k < |items| ==> !items[k].Missing? && Supported(items[k])
    case Obj(members) => forall k :: 0 <= k < |members| ==> SupportedMember(members[k])
    case _ => true
  }

  predicate SupportedMember(m: Pair) {
    match m
    case Pair(key, value) => Plainly(key) && Supported(value)
  }

  /** A missing item is read back as null. */
  function Fill(v: Value): Value {
    match v
    case Missing => Null
    case Arr(items) => Arr(FillItems(items))
    case Obj(members) => Obj(FillMembers(members))
    case _ => v
  }

  function FillItems(items: seq<Value>): seq<Value> {
    if items == [] then [] else [Fill(items[0])] + FillItems(items[1..])
  }

  function FillMember(m: Pair): Pair {
    match m
    case Pair(key, value) => Pair(key, Fill(value))
  }

  function FillMembers(members: seq<Pair>): seq<Pair> {
    if members == [] then [] else [FillMember(members[0])] + FillMembers(members[1..])
  }

  // The written text as one of the texts the reader accepts.

  function Canon(v: Value): Tree {
    match v
    case Missing => NullWord
    case Null => NullWord
    case Bool(b) => if b then TrueWord else FalseWord
    case Int(i) => Number(Decimal.Print(i))
    case Float(literal) => Number(literal)
    case Str(s) => Quoted(UnitsOf(s))
    case Arr(items) => Bracketed(NoGap, CanonItems(items))
    case Obj(members) => Braced(NoGap, CanonMembers(members))
  }

  function CanonItems(items: seq<Value>): Elements {
    if items == [] then NoElement
    else if |items| == 1 then Last(Canon(items[0]), NoGap)
    else More(Canon(items[0]), NoGap, NoGap, CanonItems(items[1..]))
  }

  function CanonValue(m: Pair): Tree {
    match m
    case Pair(_, value) => Canon(value)
  }

  function CanonMembers(members: seq<Pair>): Fields {
    if members == [] then NoField
    else
      var key, value := RawUnits(members[0].key), CanonValue(members[0]);
      if |members| == 1 then LastField(key, NoGap, NoGap, value, NoGap)
      else MoreFields(key, NoGap, NoGap, value, NoGap, NoGap, CanonMembers(members[1..]))
  }

  /** A tree whose text is the written one and which denotes the value. */
  ghost predicate Matches(t: Tree, text: string, v: Value) { WellTree(t) && TreeText(t) == text && Denote(t) == v }

  lemma {:induction false} DigitsRun(s: string, isFloat: bool, isNegative: bool)
    requires Decimal.AllDigits(s)
    ensures NumberRun(s, isFloat, isNegative) && '.' !in s
    decreases |s|
  {
    if s != "" {
      DigitsRun(s[1..], isFloat, isNegative);
      assert s == [s[0]] + s[1..];
    }
  }

  lemma IntMatches(i: int)
    ensures Matches(Number(Decimal.Print(i)), Decimal.Print(i), Int(i))
  {
    hide Decimal.Digits, Decimal.Parse, Decimal.Print;
    var s := Decimal.Print(i);
    Decimal.PrintShape(i);
    DigitsRun(s[1..], false, s[0] == '-');
    assert s == [s[0]] + s[1..];
    Decimal.ParsePrint(i, "");
    assert s + "" == s;
  }

  lemma {:induction false} CanonMatches(v: Value)
    requires Supported(v)
    ensures Matches(Canon(v), WriteText(v), Fill(v))
    decreases v
  {
    hide EscapePasses, Escape, UnitsOf, UnitsText, Decode, WellUnits, GapText, ItemsText, MembersText, NumberRun;
    hide CanonItems, CanonMembers, ElementsText, FieldsText, WellElements, WellFields, DenoteElements, DenoteFields;
    hide FillItems, FillMembers, Decimal.Print;
    match v
    case Int(i) => IntMatches(i);
    case Str(s) =>
      EscapedUnits(s);
      PassesAreMap(s);
      RawText(s);
    case Arr(items) =>
      CanonItemsMatch(items);
      GapNone();
    case Obj(members) =>
      CanonMembersMatch(members);
      GapNone();
    case _ =>
  }

  lemma GapNone()
    ensures GapText(NoGap) == "" && WellGap(NoGap) && forall s: string :: s + "" == s
  {
  }

  lemma {:induction false} CanonItemsMatch(items: seq<Value>)
    requires forall k :: 0 <= k < |items| ==> Supported(items[k])
    ensures var e := CanonItems(items);
            WellElements(e) && ElementsText(e) == ItemsText(items) && DenoteElements(e) == FillItems(items)
    decreases items
  {
    hide Canon, WriteText, Fill, WellTree, TreeText, Denote, GapText, Supported, Decimal.Print, EscapePasses;
    GapNone();
    if items != [] {
      var first := items[0];
      CanonMatches(first);
      if |items| > 1 {
        CanonItemsMatch(items[1..]);
      } else {
        assert FillItems(items[1..]) == [];
      }
    }
  }

  lemma {:induction false} CanonMemberMatches(m: Pair)
    requires SupportedMember(m)
    ensures Matches(CanonValue(m), WriteText(m.value), Fill(m.value)) && Plainly(m.key)
    ensures FillMember(m) == Pair(m.key, Fill(m.value)) && MemberText(m) == KeyText(m.key) + WriteText(m.value)
    decreases m
  {
    match m
    case Pair(key, value) =>
      RawText(key);
      CanonMatches(value);
  }

  lemma KeyMatches(key: string)
    requires Plainly(key)
    ensures WellUnits(RawUnits(key)) && FieldText(RawUnits(key), NoGap, NoGap) == KeyText(key)
    ensures R.CString(Decode(RawUnits(key))) == key
  {
    RawText(key);
    hide UnitsText, RawUnits;
    GapNone();
    hide GapText;
    assert FieldText(RawUnits(key), NoGap, NoGap) == "\"" + key + "\"" + "" + ":" + "";
    assert "\":" == "\"" + ":";
  }

  lemma {:induction false} CanonMembersMatch(members: seq<Pair>)
    requires forall k :: 0 <= k < |members| ==> SupportedMember(members[k])
    ensures var f := CanonMembers(members);
            WellFields(f) && FieldsText(f) == MembersText(members) && DenoteFields(f) == FillMembers(members)
    decreases members
  {
    hide CanonValue, WriteText, Fill, FillMember, WellTree, TreeText, Denote, GapText, SupportedMember, MemberText;
    hide KeyText, FieldText, RawUnits, Decode, WellUnits, R.CString;
    GapNone();
    if members != [] {
      CanonMemberMatches(members[0]);
      KeyMatches(members[0].key);
      if |members| > 1 {
        CanonMembersMatch(members[1..]);
      } else {
        assert FillMembers(members[1..]) == [];
      }
    }
  }

  // The round trip.

  /** Reading the text written for an object gives an equal tree and leaves nothing. */
  lemma RoundTrip(v: Value, tail: string)
    requires v.Obj? && Supported(v) && Blanks(tail)
    ensures var s := WriteText(v) + tail;
            R.NoTrailingSlash(s)
            && var r := R.JsonRead(s); r.Ok? && r.len == 0 && Erase(r.node) == Fill(v) && r.heap.lost == multiset{}
  {
    hide WriteText, Fill, TreeText, Denote, WellTree, Erase, R.JsonRead, Supported, R.NoTrailingSlash;
    CanonMatches(v);
    ReadAlone(NoGap, Canon(v), tail);
    GapNone();
    assert "" + WriteText(v) + tail == WriteText(v) + tail;
  }

  /** With another object's text behind it, exactly that text is left. */
  lemma RoundTripFollowed(v: Value, w: Value)
    requires v.Obj? && w.Obj? && Supported(v)
    ensures var s := WriteText(v) + WriteText(w);
            R.NoTrailingSlash(s)
            && var r := R.JsonRead(s);
            r.Ok? && r.len == |WriteText(w)| && Erase(r.node) == Fill(v) && r.heap.lost == multiset{}
  {
    hide WriteText, Fill, TreeText, Denote, WellTree, Erase, R.JsonRead, Supported, R.NoTrailingSlash;
    CanonMatches(v);
    ObjectText(w);
    ReadFollowed(NoGap, Canon(v), NoGap, WriteText(w), "");
    GapNone();
    assert "" + WriteText(v) + "" + WriteText(w) + "" == WriteText(v) + WriteText(w);
  }

  lemma ObjectText(w: Value)
    requires w.Obj?
    ensures R.Ends(WriteText(w)) && Solid(WriteText(w)[0])
  {
    hide MembersText;
  }
}
