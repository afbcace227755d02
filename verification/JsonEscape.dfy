/** How the writer escapes a string: six replacements over the whole string, one after the other. */
module JsonEscape {
  import opened Text
  import opened StrReplace
  import R = JsonReader
  import opened JsonLayout

  const FORM_FEED: char := '\U{0C}'
  const BACKSPACE: char := '\U{08}'

  /** The replacements of `mangoh_bridge_json_writeString`, in order. */
  function EscapePasses(s: string): string {
    var s1 := Replace(s, "\"", "\\\"");
    var s2 := Replace(s1, [FORM_FEED], "\\f");
    var s3 := Replace(s2, [BACKSPACE], "\\b");
    var s4 := Replace(s3, "\r", "\\r");
    var s5 := Replace(s4, "\n", "\\n");
    Replace(s5, "\t", "\\t")
  }

  /** What becomes of one character. */
  function EscapeOne(c: char): string {
    if c == '"' then "\\\""
    else if c == FORM_FEED then "\\f"
    else if c == BACKSPACE then "\\b"
    else if c == '\r' then "\\r"
    else if c == '\n' then "\\n"
    else if c == '\t' then "\\t"
    else [c]
  }

  function Escape(s: string): string {
    if s == "" then "" else EscapeOne(s[0]) + Escape(s[1..])
  }

  /** Replacing a single character goes over the parts of a text. */
  lemma {:induction false} ReplaceConcat(a: string, b: string, c: char, r: string)
    ensures Replace(a + b, [c], r) == Replace(a, [c], r) + Replace(b, [c], r)
    decreases |a|
  {
    hide Replace;
    if a == "" {
      assert a + b == b;
      ReplaceNothing([c], r);
    } else {
      ReplaceFirst(a + b, c, r);
      ReplaceFirst(a, c, r);
      assert (a + b)[1..] == a[1..] + b;
      ReplaceConcat(a[1..], b, c, r);
      Assoc(if a[0] == c then r else [a[0]], Replace(a[1..], [c], r), Replace(b, [c], r));
    }
  }

  lemma ReplaceFirst(s: string, c: char, r: string)
    requires s != ""
    ensures Replace(s, [c], r) == (if s[0] == c then r else [s[0]]) + Replace(s[1..], [c], r)
  {
    assert s[0..1] == [s[0]];
  }

  lemma ReplaceOne(d: char, c: char, r: string)
    ensures Replace([d], [c], r) == if d == c then r else [d]
  {
    ReplaceFirst([d], c, r);
    assert [d][1..] == "";
  }

  lemma ReplaceTwo(d: char, e: char, c: char, r: string)
    requires d != c && e != c
    ensures Replace([d, e], [c], r) == [d, e]
  {
    ReplaceFirst([d, e], c, r);
    assert [d, e][1..] == [e];
    ReplaceOne(e, c, r);
  }

  /** The passes go over the parts of a text. */
  lemma PassesConcat(a: string, b: string)
    ensures EscapePasses(a + b) == EscapePasses(a) + EscapePasses(b)
  {
    hide Replace;
    var a1, b1 := Replace(a, "\"", "\\\""), Replace(b, "\"", "\\\"");
    var a2, b2 := Replace(a1, [FORM_FEED], "\\f"), Replace(b1, [FORM_FEED], "\\f");
    var a3, b3 := Replace(a2, [BACKSPACE], "\\b"), Replace(b2, [BACKSPACE], "\\b");
    var a4, b4 := Replace(a3, "\r", "\\r"), Replace(b3, "\r", "\\r");
    var a5, b5 := Replace(a4, "\n", "\\n"), Replace(b4, "\n", "\\n");
    ReplaceConcat(a, b, '"', "\\\"");
    ReplaceConcat(a1, b1, FORM_FEED, "\\f");
    ReplaceConcat(a2, b2, BACKSPACE, "\\b");
    ReplaceConcat(a3, b3, '\r', "\\r");
    ReplaceConcat(a4, b4, '\n', "\\n");
    ReplaceConcat(a5, b5, '\t', "\\t");
  }

  /** A pass over what an earlier pass made of one character. */
  lemma PassOver(x: string, c: char, r: string)
    requires |x| == 1 || |x| == 2
    requires |x| == 2 ==> x[0] != c && x[1] != c
    ensures Replace(x, [c], r) == if x == [c] then r else x
  {
    if |x| == 1 {
      assert x == [x[0]];
      ReplaceOne(x[0], c, r);
    } else {
      assert x == [x[0], x[1]];
      ReplaceTwo(x[0], x[1], c, r);
    }
  }

  lemma PassesOne(c: char)
    ensures EscapePasses([c]) == EscapeOne(c)
  {
    hide Replace;
    PassOver([c], '"', "\\\"");
    var s1 := Replace([c], "\"", "\\\"");
    PassOver(s1, FORM_FEED, "\\f");
    var s2 := Replace(s1, [FORM_FEED], "\\f");
    PassOver(s2, BACKSPACE, "\\b");
    var s3 := Replace(s2, [BACKSPACE], "\\b");
    PassOver(s3, '\r', "\\r");
    var s4 := Replace(s3, "\r", "\\r");
    PassOver(s4, '\n', "\\n");
    var s5 := Replace(s4, "\n", "\\n");
    PassOver(s5, '\t', "\\t");
  }

  /** On every string, the six passes together are one escape map. */
  lemma {:induction false} PassesAreMap(s: string)
    ensures EscapePasses(s) == Escape(s)
    decreases |s|
  {
    if s == "" {
    } else {
      hide EscapePasses, EscapeOne;
      assert s == [s[0]] + s[1..];
      PassesConcat([s[0]], s[1..]);
      PassesOne(s[0]);
      PassesAreMap(s[1..]);
    }
  }

  // Reading back.

  /** Strings the writer escapes so that the reader gets them back. */
  predicate Plainly(s: string) { forall k :: 0 <= k < |s| ==> s[k] != '"' && s[k] != '\\' && s[k] != '\0' }

  function UnitOf(c: char): Unit {
    if c == FORM_FEED then Escaped('f')
    else if c == BACKSPACE then Escaped('b')
    else if c == '\r' then Escaped('r')
    else if c == '\n' then Escaped('n')
    else if c == '\t' then Escaped('t')
    else Plain(c)
  }

  function UnitsOf(s: string): seq<Unit> { seq(|s|, k requires 0 <= k < |s| => UnitOf(s[k])) }

  /** Keys are written as they are. */
  function RawUnits(s: string): seq<Unit> { seq(|s|, k requires 0 <= k < |s| => Plain(s[k])) }

  lemma EscapedUnit(c: char)
    requires c != '"' && c != '\\'
    ensures WellUnit(UnitOf(c)) && !UnitOf(c).Dropped? && UnitText(UnitOf(c)) == EscapeOne(c) && UnitChars(UnitOf(c)) == [c]
  {
  }

  /** What a string of units is, unit by unit. */
  lemma ConsUnits(u: Unit, rest: seq<Unit>)
    ensures UnitsText([u] + rest) == UnitText(u) + UnitsText(rest)
    ensures Decode([u] + rest) == UnitChars(u) + Decode(rest)
    ensures WellUnit(u) && !u.Dropped? && WellUnits(rest) ==> WellUnits([u] + rest)
  {
    assert ([u] + rest)[0] == u && ([u] + rest)[1..] == rest;
  }

  lemma NoUnits()
    ensures UnitsText([]) == "" && Decode([]) == "" && WellUnits([]) && UnitsOf("") == [] && Escape("") == ""
  {
  }

  lemma EscapeCons(s: string)
    requires s != ""
    ensures UnitsOf(s) == [UnitOf(s[0])] + UnitsOf(s[1..]) && Escape(s) == EscapeOne(s[0]) + Escape(s[1..])
    ensures s == [s[0]] + s[1..] && (Plainly(s) ==> Plainly(s[1..]) && s[0] != '"' && s[0] != '\\')
  {
    hide UnitOf, EscapeOne;
  }

  lemma {:induction false} EscapedUnits(s: string)
    requires Plainly(s)
    ensures WellUnits(UnitsOf(s)) && UnitsText(UnitsOf(s)) == Escape(s) && Decode(UnitsOf(s)) == s
    decreases |s|
  {
    hide *;
    if s == "" {
      NoUnits();
    } else {
      EscapeCons(s);
      EscapedUnit(s[0]);
      ConsUnits(UnitOf(s[0]), UnitsOf(s[1..]));
      EscapedUnits(s[1..]);
    }
  }

  lemma {:induction false} RawText(s: string)
    requires Plainly(s)
    ensures WellUnits(RawUnits(s)) && UnitsText(RawUnits(s)) == s && Decode(RawUnits(s)) == s && R.CString(s) == s
    decreases |s|
  {
    var u := RawUnits(s);
    if s == "" {
      assert u == [];
    } else {
      assert u[1..] == RawUnits(s[1..]) && u[0] == Plain(s[0]);
      RawText(s[1..]);
      assert s == [s[0]] + s[1..];
    }
  }

  /** The reader's loop undoes the writer's passes, for any string without a quote or a backslash. */
  lemma Unescapes(b: string, s: string, p: nat)
    requires Plainly(s) && At(b, EscapePasses(s) + "\"", p)
    ensures p < |b| && R.ReadChars(b, p, |b| - p)
                    == R.Chars.Chars(p + |EscapePasses(s)|, |b| - p - |EscapePasses(s)|, s)
  {
    hide EscapePasses, R.ReadChars, UnitsText, Escape, Decode, UnitsOf, WellUnits;
    PassesAreMap(s);
    EscapedUnits(s);
    AtSplit(b, EscapePasses(s), "\"", p);
    AtOne(b, '"', p + |EscapePasses(s)|);
    CharsAt(b, UnitsOf(s), p);
  }

  predicate NoQuote(s: string) { forall k :: 0 <= k < |s| ==> s[k] != '"' && s[k] != '\\' }

  /** The reader's loop never yields a quote or a backslash. */
  lemma {:induction false} YieldsNoQuote(b: string, p: nat, n: nat)
    requires n > 0 && p + n <= |b|
    ensures var r := R.ReadChars(b, p, n); r.Chars? ==> NoQuote(r.text)
    decreases n
  {
    if b[p] != '"' && n > 1 {
      if b[p] != '\\' || !R.IsEscape(b[p + 1]) {
        YieldsNoQuote(b, p + 1, n - 1);
      } else if n > 2 {
        YieldsNoQuote(b, p + 2, n - 2);
      }
    }
  }

  lemma PlainText(s: string)
    requires NoQuote(s) && forall k :: 0 <= k < |s| ==> s[k] != '\0'
    ensures Plainly(s)
  {
  }

  /** What the reader makes of what the writer writes for a string. */
  function ReadBack(s: string): R.Chars {
    var b := EscapePasses(s) + "\"";
    R.ReadChars(b, 0, |b|)
  }

  /** Exactly the strings without a quote or a backslash come back. */
  lemma ComesBack(s: string)
    requires forall k :: 0 <= k < |s| ==> s[k] != '\0'
    ensures (ReadBack(s).Chars? && ReadBack(s).text == s) <==> Plainly(s)
  {
    hide EscapePasses, R.ReadChars, NoQuote;
    var b := EscapePasses(s) + "\"";
    var r := R.ReadChars(b, 0, |b|);
    assert ReadBack(s) == r;
    YieldsNoQuote(b, 0, |b|);
    if Plainly(s) {
      assert b[0..|b|] == b;
      assert At(b, EscapePasses(s) + "\"", 0);
      Unescapes(b, s, 0);
    }
    if r.Chars? && r.text == s {
      PlainText(s);
    }
  }
}
