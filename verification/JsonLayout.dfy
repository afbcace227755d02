/** The texts the reader accepts, with everything that may stand between their tokens, and what they denote. */
module JsonLayout {
  import opened Text
  import Decimal
  import opened JsonValue
  import R = JsonReader
  import opened JsonSteps

  // Concrete syntax.

  /** What may stand between two tokens: blanks, line comments with the newline that ends them, and block comments. The
      slash that ends a block comment is also the first of another comment. */
  datatype Gap =
    | NoGap
    | Blank(c: char, rest: Gap)
    | Comment(body: string, newline: char, rest: Gap)
    | Block(body: string, rest: Gap)

  /** A character of a string: itself, one of the five escapes, an escaped slash, or a backslash that is dropped, because
      a backslash or the end of the string stands behind it. */
  datatype Unit =
    | Plain(c: char)
    | Escaped(e: char)
    | Slash
    | Dropped

  datatype Tree =
    | NullWord
    | TrueWord
    | FalseWord
    | Number(literal: string)
    | Quoted(units: seq<Unit>)
    | Bracketed(open: Gap, elements: Elements)
    | Braced(open: Gap, fields: Fields)

  /** The last element may have a comma behind it: `More` with nothing after it. */
  datatype Elements =
    | NoElement
    | Last(tree: Tree, after: Gap)
    | More(tree: Tree, after: Gap, gap: Gap, rest: Elements)

  datatype Fields =
    | NoField
    | LastField(key: seq<Unit>, beforeColon: Gap, afterColon: Gap, tree: Tree, after: Gap)
    | MoreFields(key: seq<Unit>, beforeColon: Gap, afterColon: Gap, tree: Tree, after: Gap, gap: Gap, rest: Fields)

  // Texts.

  function GapText(g: Gap): string {
    match g
    case NoGap => ""
    case Blank(c, rest) => [c] + GapText(rest)
    case Comment(body, newline, rest) => "//" + body + [newline] + GapText(rest)
    case Block(body, rest) => "/*" + body + "*" + GapText(rest)
  }

  function UnitText(u: Unit): string {
    match u
    case Plain(c) => [c]
    case Escaped(e) => ['\\', e]
    case Slash => "\\/"
    case Dropped => "\\"
  }

  function UnitsText(units: seq<Unit>): string {
    if units == [] then "" else UnitText(units[0]) + UnitsText(units[1..])
  }

  function QuotedText(units: seq<Unit>): string { "\"" + UnitsText(units) + "\"" }

  function TreeText(t: Tree): string {
    match t
    case NullWord => "null"
    case TrueWord => "true"
    case FalseWord => "false"
    case Number(literal) => literal
    case Quoted(units) => QuotedText(units)
    case Bracketed(open, elements) => "[" + GapText(open) + ElementsText(elements) + "]"
    case Braced(open, fields) => "{" + GapText(open) + FieldsText(fields) + "}"
  }

  function ElementsText(e: Elements): string {
    match e
    case NoElement => ""
    case Last(tree, after) => TreeText(tree) + GapText(after)
    case More(tree, after, gap, rest) => TreeText(tree) + GapText(after) + "," + GapText(gap) + ElementsText(rest)
  }

  function FieldText(key: seq<Unit>, beforeColon: Gap, afterColon: Gap): string {
    QuotedText(key) + GapText(beforeColon) + ":" + GapText(afterColon)
  }

  function FieldsText(f: Fields): string {
    match f
    case NoField => ""
    case LastField(key, g1, g2, tree, after) => FieldText(key, g1, g2) + TreeText(tree) + GapText(after)
    case MoreFields(key, g1, g2, tree, after, gap, rest) =>
      FieldText(key, g1, g2) + TreeText(tree) + GapText(after) + "," + GapText(gap) + FieldsText(rest)
  }

  // Well-formedness.

  predicate WellGap(g: Gap) {
    match g
    case NoGap => true
    case Blank(c, rest) => R.IsBlank(c) && WellGap(rest)
    case Comment(body, newline, rest) =>
      (forall k :: 0 <= k < |body| ==> !R.IsNewline(body[k])) && R.IsNewline(newline) && WellGap(rest)
    case Block(body, rest) => WellBlock(body) && (rest.Comment? || rest.Block?) && WellGap(rest)
  }

  /** What a block comment is closed behind: a star in it pairs with what follows it, which is no slash. */
  predicate WellBlock(body: string) {
    body == "" ||
    if body[0] == '*' then |body| > 1 && body[1] != '/' && WellBlock(body[2..]) else WellBlock(body[1..])
  }

  predicate WellUnits(units: seq<Unit>) {
    && (forall k :: 0 <= k < |units| ==> WellUnit(units[k]))
    && forall k :: 0 <= k < |units| - 1 && units[k].Dropped? ==> !units[k + 1].Plain?
  }

  /** The characters of a number, at most one point and one minus sign among them. */
  predicate NumberRun(s: string, isFloat: bool, isNegative: bool) {
    s == ""
    || ((Decimal.IsDigit(s[0]) || (!isFloat && s[0] == '.') || (!isNegative && s[0] == '-'))
        && NumberRun(s[1..], isFloat || s[0] == '.', isNegative || s[0] == '-'))
  }

  predicate WellNumber(s: string) {
    s != "" && (Decimal.IsDigit(s[0]) || s[0] == '-') && NumberRun(s, false, false)
  }

  predicate WellTree(t: Tree) {
    match t
    case Number(literal) => WellNumber(literal)
    case Quoted(units) => WellUnits(units)
    case Bracketed(open, elements) => WellGap(open) && WellElements(elements)
    case Braced(open, fields) => WellGap(open) && WellFields(fields)
    case _ => true
  }

  predicate WellElements(e: Elements) {
    match e
    case NoElement => true
    case Last(tree, after) => WellTree(tree) && WellGap(after)
    case More(tree, after, gap, rest) => WellTree(tree) && WellGap(after) && WellGap(gap) && WellElements(rest)
  }

  predicate WellFields(f: Fields) {
    match f
    case NoField => true
    case LastField(key, g1, g2, tree, after) =>
      WellUnits(key) && WellGap(g1) && WellGap(g2) && WellTree(tree) && WellGap(after)
    case MoreFields(key, g1, g2, tree, after, gap, rest) =>
      WellUnits(key) && WellGap(g1) && WellGap(g2) && WellTree(tree) && WellGap(after) && WellGap(gap) && WellFields(rest)
  }

  // Meaning.

  function UnitChars(u: Unit): string {
    match u
    case Plain(c) => [c]
    case Escaped(e) => [if R.IsEscape(e) then R.EscapeChar(e) else e]
    case Slash => "/"
    case Dropped => ""
  }

  function Decode(units: seq<Unit>): string {
    if units == [] then "" else UnitChars(units[0]) + Decode(units[1..])
  }

  function Denote(t: Tree): Value {
    match t
    case NullWord => Null
    case TrueWord => Bool(true)
    case FalseWord => Bool(false)
    case Number(literal) => if '.' in literal then Float(literal) else Int(Decimal.Parse(literal))
    case Quoted(units) => Str(Decode(units))
    case Bracketed(_, elements) => Arr(DenoteElements(elements))
    case Braced(_, fields) => Obj(DenoteFields(fields))
  }

  function DenoteElements(e: Elements): seq<Value> {
    match e
    case NoElement => []
    case Last(tree, _) => [Denote(tree)]
    case More(tree, _, _, rest) => [Denote(tree)] + DenoteElements(rest)
  }

  function DenoteFields(f: Fields): seq<Pair> {
    match f
    case NoField => []
    case LastField(key, _, _, tree, _) => [Pair(R.CString(Decode(key)), Denote(tree))]
    case MoreFields(key, _, _, tree, _, _, rest) => [Pair(R.CString(Decode(key)), Denote(tree))] + DenoteFields(rest)
  }

  // Reading the tokens.

  lemma AtSplit(b: string, x: string, y: string, p: nat)
    requires At(b, x + y, p)
    ensures At(b, x, p) && At(b, y, p + |x|)
  {
    var s := b[p..p + |x + y|];
    assert b[p..p + |x|] == s[..|x|] && b[p + |x|..p + |x| + |y|] == s[|x|..];
  }

  lemma AtOne(b: string, c: char, p: nat)
    requires At(b, [c], p)
    ensures p < |b| && b[p] == c
  {
    assert b[p..p + 1][0] == b[p];
  }

  /** Neither a blank nor the start of a comment. */
  predicate Solid(c: char) { !R.IsBlank(c) && c != '/' }

  /** No part of a number. */
  predicate Ender(c: char) { !Decimal.IsDigit(c) && c != '.' && c != '-' }

  /** What may follow a value and its gap. */
  predicate Closer(c: char) { c == ',' || c == ']' || c == '}' }

  lemma {:induction false} LineEndAt(b: string, body: string, p: nat)
    requires At(b, body, p) && p + |body| < |b| && R.IsNewline(b[p + |body|])
    requires forall k :: 0 <= k < |body| ==> !R.IsNewline(body[k])
    ensures R.LineEnd(b, p, |b| - p) == R.Skipped(p + |body|, |b| - p - |body|)
    decreases |body|
  {
    if body != "" {
      assert body == [body[0]] + body[1..];
      AtSplit(b, [body[0]], body[1..], p);
      AtOne(b, body[0], p);
      LineEndAt(b, body[1..], p + 1);
    }
  }

  lemma BlankAt(b: string, g: Gap, p: nat)
    requires g.Blank? && At(b, GapText(g), p)
    ensures p < |b| && b[p] == g.c && At(b, GapText(g.rest), p + 1) && |GapText(g)| == 1 + |GapText(g.rest)|
  {
    AtSplit(b, [g.c], GapText(g.rest), p);
    AtOne(b, g.c, p);
  }

  lemma CommentAt(b: string, g: Gap, p: nat)
    requires g.Comment? && At(b, GapText(g), p)
    ensures var e := p + 2 + |g.body|;
            e < |b| && b[p] == '/' && b[p + 1] == '/' && At(b, g.body, p + 2) && b[e] == g.newline
            && At(b, GapText(g.rest), e + 1) && |GapText(g)| == 3 + |g.body| + |GapText(g.rest)|
  {
    CommentParts(b, g.body, g.newline, GapText(g.rest), p);
  }

  lemma BlockAt(b: string, g: Gap, p: nat)
    requires g.Block? && At(b, GapText(g), p)
    ensures var e := p + 2 + |g.body|;
            e < |b| && b[p] == '/' && b[p + 1] == '*' && At(b, g.body, p + 2) && b[e] == '*'
            && At(b, GapText(g.rest), e + 1) && |GapText(g)| == 3 + |g.body| + |GapText(g.rest)|
  {
    hide At;
    var x := "/*" + g.body;
    AtSplit(b, x + "*", GapText(g.rest), p);
    AtSplit(b, x, "*", p);
    AtSplit(b, "/*", g.body, p);
    AtPair(b, '/', '*', p);
    AtOne(b, '*', p + 2 + |g.body|);
  }

  /** A comment starts with a slash, and has another character and something behind it. */
  lemma SlashAt(b: string, g: Gap, p: nat)
    requires (g.Comment? || g.Block?) && At(b, GapText(g), p)
    ensures p + 2 < |b| && b[p] == '/'
  {
    hide At;
    if g.Comment? {
      CommentAt(b, g, p);
    } else {
      BlockAt(b, g, p);
    }
  }

  lemma {:induction false} BlockEndAt(b: string, body: string, p: nat)
    requires At(b, body, p) && p + |body| + 1 < |b| && b[p + |body|] == '*' && b[p + |body| + 1] == '/' && WellBlock(body)
    ensures R.BlockEnd(b, p, |b| - p) == R.Skipped(p + |body| + 1, |b| - p - |body| - 1)
    decreases |body|
  {
    if body != "" {
      assert body == [body[0]] + body[1..];
      AtSplit(b, [body[0]], body[1..], p);
      AtOne(b, body[0], p);
      if body[0] == '*' {
        assert body[1..] == [body[1]] + body[2..];
        AtSplit(b, [body[1]], body[2..], p + 1);
        AtOne(b, body[1], p + 1);
        BlockEndAt(b, body[2..], p + 2);
      } else {
        BlockEndAt(b, body[1..], p + 1);
      }
    }
  }

  lemma SkipBlock(b: string, p: nat, e: nat)
    requires p + 2 <= e && e + 1 < |b| && b[p] == '/' && b[p + 1] == '*'
    requires R.BlockEnd(b, p + 2, |b| - p - 2) == R.Skipped(e + 1, |b| - e - 1)
    ensures R.SkipWs(b, p, |b| - p) == R.SkipWs(b, e + 1, |b| - e - 1)
  {
    hide R.BlockEnd;
    assert R.ReadComment(b, p, |b| - p) == R.Skipped(e + 1, |b| - e - 1);
    hide R.ReadComment;
  }

  lemma CommentParts(b: string, body: string, newline: char, rest: string, p: nat)
    requires At(b, "//" + body + [newline] + rest, p)
    ensures var e := p + 2 + |body|;
            e < |b| && b[p] == '/' && b[p + 1] == '/' && At(b, body, p + 2) && b[e] == newline && At(b, rest, e + 1)
  {
    hide At;
    var x := "//" + body;
    AtSplit(b, x + [newline], rest, p);
    AtSplit(b, x, [newline], p);
    AtSplit(b, "//", body, p);
    AtPair(b, '/', '/', p);
    AtOne(b, newline, p + 2 + |body|);
  }

  /** A gap is skipped as a whole. */
  lemma {:induction false} SkipGap(b: string, g: Gap, p: nat)
    requires WellGap(g) && At(b, GapText(g), p) && p + |GapText(g)| < |b| && Solid(b[p + |GapText(g)|])
    ensures R.SkipWs(b, p, |b| - p) == R.Skipped(p + |GapText(g)|, |b| - p - |GapText(g)|)
    decreases g, 1
  {
    hide At, R.SkipWs, GapText, WellGap, Solid;
    match g
    case NoGap => SkipNothing(b, p);
    case Blank(_, _) => SkipBlankGap(b, g, p);
    case Comment(_, _, _) => SkipLineGap(b, g, p);
    case Block(_, _) => SkipBlockGap(b, g, p);
  }

  lemma SkipNothing(b: string, p: nat)
    requires p < |b|
    ensures GapText(NoGap) == ""
    ensures Solid(b[p]) ==> R.SkipWs(b, p, |b| - p) == R.Skipped(p, |b| - p)
  {
  }

  lemma {:induction false} SkipBlankGap(b: string, g: Gap, p: nat)
    requires g.Blank? && WellGap(g) && At(b, GapText(g), p)
    requires p + |GapText(g)| < |b| && Solid(b[p + |GapText(g)|])
    ensures R.SkipWs(b, p, |b| - p) == R.Skipped(p + |GapText(g)|, |b| - p - |GapText(g)|)
    decreases g, 0
  {
    hide At, R.SkipWs, GapText, Solid;
    BlankAt(b, g, p);
    SkipBlank(b, p);
    SkipGap(b, g.rest, p + 1);
  }

  lemma {:induction false} SkipLineGap(b: string, g: Gap, p: nat)
    requires g.Comment? && WellGap(g) && At(b, GapText(g), p)
    requires p + |GapText(g)| < |b| && Solid(b[p + |GapText(g)|])
    ensures R.SkipWs(b, p, |b| - p) == R.Skipped(p + |GapText(g)|, |b| - p - |GapText(g)|)
    decreases g, 0
  {
    hide At, R.SkipWs, R.LineEnd, GapText, Solid;
    CommentAt(b, g, p);
    LineEndAt(b, g.body, p + 2);
    SkipComment(b, p, p + 2 + |g.body|);
    SkipGap(b, g.rest, p + 3 + |g.body|);
  }

  lemma {:induction false} SkipBlockGap(b: string, g: Gap, p: nat)
    requires g.Block? && WellGap(g) && At(b, GapText(g), p)
    requires p + |GapText(g)| < |b| && Solid(b[p + |GapText(g)|])
    ensures R.SkipWs(b, p, |b| - p) == R.Skipped(p + |GapText(g)|, |b| - p - |GapText(g)|)
    decreases g, 0
  {
    hide At, R.SkipWs, R.BlockEnd, GapText, Solid, WellBlock;
    BlockAt(b, g, p);
    SlashAt(b, g.rest, p + 3 + |g.body|);
    BlockEndAt(b, g.body, p + 2);
    SkipBlock(b, p, p + 2 + |g.body|);
    SkipGap(b, g.rest, p + 3 + |g.body|);
  }

  lemma SkipBlank(b: string, p: nat)
    requires p < |b| && R.IsBlank(b[p])
    ensures R.SkipWs(b, p, |b| - p) == R.SkipWs(b, p + 1, |b| - p - 1)
  {
  }

  lemma SkipComment(b: string, p: nat, e: nat)
    requires p + 2 <= e && e + 1 < |b| && b[p] == '/' && b[p + 1] == '/' && R.IsNewline(b[e])
    requires R.LineEnd(b, p + 2, |b| - p - 2) == R.Skipped(e, |b| - e)
    ensures R.SkipWs(b, p, |b| - p) == R.SkipWs(b, e + 1, |b| - e - 1)
  {
    hide R.LineEnd;
    assert R.ReadComment(b, p, |b| - p) == R.Skipped(e, |b| - e);
    SkipBlank(b, e);
    hide R.ReadComment;
  }

  /** The character behind a value is its gap's, or the next token's. */
  lemma BehindValue(b: string, g: Gap, p: nat)
    requires WellGap(g) && At(b, GapText(g), p) && p + |GapText(g)| < |b| && Closer(b[p + |GapText(g)|])
    ensures Ender(b[p])
  {
    match g
    case NoGap =>
    case Blank(c, rest) => BlankAt(b, g, p);
    case Comment(body, newline, rest) => CommentAt(b, g, p);
    case Block(body, rest) => BlockAt(b, g, p);
  }

  lemma {:induction false} WordAt(b: string, word: string, p: nat)
    requires At(b, word, p) && p + |word| < |b|
    ensures R.ReadWord(b, p, |b| - p, word) == R.Skipped(p + |word|, |b| - p - |word|)
    decreases |word|
  {
    if word != "" {
      assert word == [word[0]] + word[1..];
      AtSplit(b, [word[0]], word[1..], p);
      AtOne(b, word[0], p);
      WordAt(b, word[1..], p + 1);
    }
  }

  lemma {:induction false} DigitsAt(b: string, s: string, p: nat, isFloat: bool, isNegative: bool)
    requires At(b, s, p) && p + |s| < |b| && Ender(b[p + |s|]) && NumberRun(s, isFloat, isNegative)
    ensures R.ReadDigits(b, p, |b| - p, isFloat, isNegative)
         == R.Number.Number(p + |s|, |b| - p - |s|, isFloat || '.' in s)
    decreases |s|
  {
    if s != "" {
      assert s == [s[0]] + s[1..];
      AtSplit(b, [s[0]], s[1..], p);
      AtOne(b, s[0], p);
      DigitsAt(b, s[1..], p + 1, isFloat || s[0] == '.', isNegative || s[0] == '-');
    }
  }

  lemma NumberAt(b: string, s: string, p: nat, h: R.Heap)
    requires WellNumber(s) && At(b, s, p) && p + |s| < |b| && Ender(b[p + |s|])
    ensures b[p] == s[0]
    ensures var r := R.ReadNumber(b, p, |b| - p, h);
            r.Ok? && r.ptr == p + |s| && r.len == |b| - p - |s| && Erase(r.node) == Denote(Number(s))
  {
    var rest := b[p + |s|..];
    assert b[p..p + |s|] == s && b[p..] == s + rest && rest[0] == b[p + |s|] by { CutAt(b, s, p); }
    hide At, R.ReadDigits, NumberRun, Decimal.Parse, Denote, Erase, R.ReadNumber;
    FirstAt(b, s, p);
    DigitsAt(b, s, p, false, false);
    Decimal.ParsePrefix(s, rest);
    NumberIs(b, s, p, h);
  }

  lemma NumberIs(b: string, s: string, p: nat, h: R.Heap)
    requires s != "" && p + |s| < |b| && b[p] == s[0] && (Decimal.IsDigit(s[0]) || s[0] == '-')
    requires b[p..p + |s|] == s && Decimal.Parse(b[p..]) == Decimal.Parse(s)
    requires R.ReadDigits(b, p, |b| - p, false, false) == R.Number.Number(p + |s|, |b| - p - |s|, '.' in s)
    ensures var r := R.ReadNumber(b, p, |b| - p, h);
            r.Ok? && r.ptr == p + |s| && r.len == |b| - p - |s| && Erase(r.node) == Denote(Number(s))
  {
    hide R.ReadDigits, Decimal.Parse;
  }

  lemma CutAt(b: string, s: string, p: nat)
    requires At(b, s, p) && p + |s| < |b|
    ensures b[p..p + |s|] == s && b[p..] == s + b[p + |s|..] && b[p + |s|..][0] == b[p + |s|]
  {
  }

  lemma {:induction false} CharsAt(b: string, units: seq<Unit>, p: nat)
    requires WellUnits(units) && At(b, UnitsText(units), p)
    requires var e := p + |UnitsText(units)|; e < |b| && b[e] == '"'
    ensures R.ReadChars(b, p, |b| - p)
         == R.Chars.Chars(p + |UnitsText(units)|, |b| - p - |UnitsText(units)|, Decode(units))
    decreases |units|
  {
    hide *;
    if units == [] {
      NoChars(b, p);
    } else {
      var u, rest := units[0], units[1..];
      DecodeCons(units);
      UnitsSplit(b, units, p);
      CharsAt(b, rest, p + |UnitText(u)|);
      BehindDropped(b, units, p);
      UnitAt(b, u, p);
      PrefixedIs(UnitChars(u), R.ReadChars(b, p + |UnitText(u)|, |b| - p - |UnitText(u)|));
    }
  }

  lemma NoChars(b: string, p: nat)
    requires p < |b|
    ensures UnitsText([]) == "" && Decode([]) == ""
    ensures b[p] == '"' ==> R.ReadChars(b, p, |b| - p) == R.Chars.Chars(p, |b| - p, "")
  {
  }

  lemma DecodeCons(units: seq<Unit>)
    requires units != []
    ensures Decode(units) == UnitChars(units[0]) + Decode(units[1..])
    ensures WellUnits(units) ==> WellUnit(units[0]) && WellUnits(units[1..])
  {
  }

  /** A dropped backslash stands in front of another or of the quote. */
  lemma BehindDropped(b: string, units: seq<Unit>, p: nat)
    requires units != [] && WellUnits(units) && At(b, UnitsText(units), p)
    requires var e := p + |UnitsText(units)|; e < |b| && b[e] == '"'
    ensures p < |b| && (units[0].Dropped? ==> p + 1 < |b| && (b[p + 1] == '\\' || b[p + 1] == '"'))
  {
    hide At, UnitText;
    var u, rest := units[0], units[1..];
    UnitsSplit(b, units, p);
    FirstOfUnit(u);
    FirstAt(b, UnitText(u), p);
    if rest == [] {
      assert UnitsText(rest) == "";
    } else if u.Dropped? {
      UnitsSplit(b, rest, p + |UnitText(u)|);
      FirstOfUnit(rest[0]);
      FirstAt(b, UnitText(rest[0]), p + |UnitText(u)|);
    }
  }

  lemma FirstOfUnit(u: Unit)
    ensures UnitText(u) != "" && (!u.Plain? ==> UnitText(u)[0] == '\\') && (u.Dropped? ==> |UnitText(u)| == 1)
  {
  }

  lemma PrefixedIs(text: string, r: R.Chars)
    ensures r.Chars? ==> R.Prefixed(text, r) == R.Chars.Chars(r.ptr, r.len, text + r.text)
  {
  }

  lemma UnitsSplit(b: string, units: seq<Unit>, p: nat)
    requires units != [] && At(b, UnitsText(units), p)
    ensures At(b, UnitText(units[0]), p) && At(b, UnitsText(units[1..]), p + |UnitText(units[0])|)
    ensures |UnitsText(units)| == |UnitText(units[0])| + |UnitsText(units[1..])|
  {
    AtSplit(b, UnitText(units[0]), UnitsText(units[1..]), p);
  }

  predicate WellUnit(u: Unit) {
    match u
    case Plain(c) => c != '"' && c != '\\'
    case Escaped(e) => R.IsEscape(e)
    case _ => true
  }

  lemma UnitAt(b: string, u: Unit, p: nat)
    requires WellUnit(u) && At(b, UnitText(u), p) && p + |UnitText(u)| < |b|
    requires u.Dropped? ==> b[p + 1] == '\\' || b[p + 1] == '"'
    ensures R.ReadChars(b, p, |b| - p)
         == R.Prefixed(UnitChars(u), R.ReadChars(b, p + |UnitText(u)|, |b| - p - |UnitText(u)|))
  {
    match u
    case Plain(c) => AtOne(b, c, p);
    case Escaped(e) => AtPair(b, '\\', e, p);
    case Slash =>
      AtPair(b, '\\', '/', p);
      assert R.ReadChars(b, p + 1, |b| - p - 1) == R.Prefixed("/", R.ReadChars(b, p + 2, |b| - p - 2));
    case Dropped =>
      AtOne(b, '\\', p);
      PrefixedNothing(R.ReadChars(b, p + 1, |b| - p - 1));
  }

  lemma PrefixedNothing(r: R.Chars)
    ensures R.Prefixed("", r) == r
  {
    assert r.Chars? ==> "" + r.text == r.text;
  }

  lemma AtPair(b: string, c: char, d: char, p: nat)
    requires At(b, [c, d], p)
    ensures p + 1 < |b| && b[p] == c && b[p + 1] == d
  {
    assert [c, d] == [c] + [d];
    AtSplit(b, [c], [d], p);
    AtOne(b, c, p);
    AtOne(b, d, p + 1);
  }

  lemma QuotedAt(b: string, units: seq<Unit>, p: nat, h: R.Heap)
    requires WellUnits(units) && At(b, QuotedText(units), p) && p + |QuotedText(units)| < |b|
    ensures b[p] == '"'
    ensures var r := R.ReadString(b, p, |b| - p, h);
            r.Ok? && r.ptr == p + |QuotedText(units)| && r.len == |b| - p - |QuotedText(units)|
            && r.node.s == Decode(units)
  {
    hide At, UnitsText, Decode, R.ReadChars, WellUnits;
    AtSplit(b, "\"" + UnitsText(units), "\"", p);
    AtSplit(b, "\"", UnitsText(units), p);
    AtOne(b, '"', p);
    AtOne(b, '"', p + 1 + |UnitsText(units)|);
    CharsAt(b, units, p + 1);
  }

  // Reading the trees.

  /** A value does not start with a blank, a comment, a closing bracket or a comma. */
  lemma FirstChar(t: Tree)
    requires WellTree(t)
    ensures TreeText(t) != "" && Solid(TreeText(t)[0]) && !Closer(TreeText(t)[0])
  {
  }

  lemma FirstAt(b: string, x: string, p: nat)
    requires x != "" && At(b, x, p)
    ensures p < |b| && b[p] == x[0]
  {
    assert b[p..p + |x|][0] == b[p];
  }

  lemma TreeStarts(b: string, t: Tree, p: nat)
    requires WellTree(t) && At(b, TreeText(t), p)
    ensures p < |b| && Solid(b[p]) && !Closer(b[p]) && b[p] == TreeText(t)[0]
  {
    FirstChar(t);
    FirstAt(b, TreeText(t), p);
  }

  lemma ElementsStart(b: string, e: Elements, p: nat)
    requires WellElements(e) && At(b, ElementsText(e), p)
    requires var q := p + |ElementsText(e)|; q < |b| && b[q] == ']'
    ensures Solid(b[p]) && (b[p] == ']' <==> e.NoElement?)
  {
    match e
    case NoElement =>
    case Last(tree, after) =>
      AtSplit(b, TreeText(tree), GapText(after), p);
      TreeStarts(b, tree, p);
    case More(tree, after, gap, rest) =>
      MoreAt(b, e, p);
      TreeStarts(b, tree, p);
  }

  lemma MoreAt(b: string, e: Elements, p: nat)
    requires e.More? && At(b, ElementsText(e), p)
    ensures var q := p + |TreeText(e.tree)|; var c := q + |GapText(e.after)|; var g := c + 1 + |GapText(e.gap)|;
            At(b, TreeText(e.tree), p) && At(b, GapText(e.after), q) && c < |b| && b[c] == ','
            && At(b, GapText(e.gap), c + 1) && At(b, ElementsText(e.rest), g)
            && g + |ElementsText(e.rest)| == p + |ElementsText(e)|
  {
    hide *;
    MoreText(e);
    PartsAt(b, TreeText(e.tree), GapText(e.after), GapText(e.gap), ElementsText(e.rest), p);
  }

  lemma MoreText(e: Elements)
    requires e.More?
    ensures ElementsText(e) == TreeText(e.tree) + GapText(e.after) + "," + GapText(e.gap) + ElementsText(e.rest)
  {
  }

  /** Two texts, a comma, and two more. */
  lemma PartsAt(b: string, t: string, a: string, g: string, r: string, p: nat)
    requires At(b, t + a + "," + g + r, p)
    ensures var q := p + |t|; var c := q + |a|; var e := c + 1 + |g|;
            At(b, t, p) && At(b, a, q) && c < |b| && b[c] == ',' && At(b, g, c + 1) && At(b, r, e)
            && e + |r| == p + |t + a + "," + g + r|
  {
    hide At;
    var x := t + a + ",";
    AtSplit(b, x + g, r, p);
    AtSplit(b, x, g, p);
    AtSplit(b, t + a, ",", p);
    AtSplit(b, t, a, p);
    AtOne(b, ',', p + |t| + |a|);
  }

  lemma FieldAt(b: string, key: seq<Unit>, g1: Gap, g2: Gap, p: nat)
    requires At(b, FieldText(key, g1, g2), p)
    ensures var c := p + |QuotedText(key)| + |GapText(g1)|;
            At(b, QuotedText(key), p) && At(b, GapText(g1), p + |QuotedText(key)|) && c < |b| && b[c] == ':'
            && At(b, GapText(g2), c + 1) && c + 1 + |GapText(g2)| == p + |FieldText(key, g1, g2)|
  {
    hide *;
    FieldTextIs(key, g1, g2);
    ColonAt(b, QuotedText(key), GapText(g1), GapText(g2), p);
  }

  lemma FieldTextIs(key: seq<Unit>, g1: Gap, g2: Gap)
    ensures FieldText(key, g1, g2) == QuotedText(key) + GapText(g1) + ":" + GapText(g2)
  {
  }

  lemma ColonAt(b: string, q: string, x: string, y: string, p: nat)
    requires At(b, q + x + ":" + y, p)
    ensures var c := p + |q| + |x|;
            At(b, q, p) && At(b, x, p + |q|) && c < |b| && b[c] == ':' && At(b, y, c + 1)
            && c + 1 + |y| == p + |q + x + ":" + y|
  {
    hide At;
    AtSplit(b, q + x + ":", y, p);
    AtSplit(b, q + x, ":", p);
    AtSplit(b, q, x, p);
    AtOne(b, ':', p + |q| + |x|);
  }

  lemma MoreFieldsAt(b: string, f: Fields, p: nat)
    requires f.MoreFields? && At(b, FieldsText(f), p)
    ensures var v := p + |FieldText(f.key, f.beforeColon, f.afterColon)|;
            var q := v + |TreeText(f.tree)|; var c := q + |GapText(f.after)|; var g := c + 1 + |GapText(f.gap)|;
            At(b, FieldText(f.key, f.beforeColon, f.afterColon), p)
            && At(b, TreeText(f.tree), v) && At(b, GapText(f.after), q) && c < |b| && b[c] == ','
            && At(b, GapText(f.gap), c + 1) && At(b, FieldsText(f.rest), g)
            && g + |FieldsText(f.rest)| == p + |FieldsText(f)|
  {
    hide *;
    MoreFieldsText(f);
    SixAt(b, FieldText(f.key, f.beforeColon, f.afterColon), TreeText(f.tree), GapText(f.after), GapText(f.gap),
          FieldsText(f.rest), p);
  }

  lemma SixAt(b: string, k: string, t: string, a: string, g: string, r: string, p: nat)
    requires At(b, (k + t) + a + "," + g + r, p)
    ensures var v := p + |k|; var q := v + |t|; var c := q + |a|; var e := c + 1 + |g|;
            At(b, k, p) && At(b, t, v) && At(b, a, q) && c < |b| && b[c] == ',' && At(b, g, c + 1) && At(b, r, e)
            && e + |r| == p + |(k + t) + a + "," + g + r|
  {
    hide At;
    PartsAt(b, k + t, a, g, r, p);
    AtSplit(b, k, t, p);
  }

  lemma MoreFieldsText(f: Fields)
    requires f.MoreFields?
    ensures var k := FieldText(f.key, f.beforeColon, f.afterColon);
            FieldsText(f) == (k + TreeText(f.tree)) + GapText(f.after) + "," + GapText(f.gap) + FieldsText(f.rest)
  {
  }

  lemma LastFieldAt(b: string, f: Fields, p: nat)
    requires f.LastField? && At(b, FieldsText(f), p)
    ensures var v := p + |FieldText(f.key, f.beforeColon, f.afterColon)|; var q := v + |TreeText(f.tree)|;
            At(b, FieldText(f.key, f.beforeColon, f.afterColon), p)
            && At(b, TreeText(f.tree), v) && At(b, GapText(f.after), q)
            && q + |GapText(f.after)| == p + |FieldsText(f)|
  {
    var k := FieldText(f.key, f.beforeColon, f.afterColon);
    AtSplit(b, k + TreeText(f.tree), GapText(f.after), p);
    AtSplit(b, k, TreeText(f.tree), p);
  }

  lemma FieldsStart(b: string, f: Fields, p: nat)
    requires WellFields(f) && At(b, FieldsText(f), p)
    requires var q := p + |FieldsText(f)|; q < |b| && b[q] == '}'
    ensures Solid(b[p]) && (b[p] == '}' <==> f.NoField?) && (!f.NoField? ==> b[p] == '"')
  {
    match f
    case NoField =>
    case LastField(key, g1, g2, _, _) =>
      LastFieldAt(b, f, p);
      FieldAt(b, key, g1, g2, p);
      FirstAt(b, QuotedText(key), p);
    case MoreFields(key, g1, g2, _, _, _, _) =>
      MoreFieldsAt(b, f, p);
      FieldAt(b, key, g1, g2, p);
      FirstAt(b, QuotedText(key), p);
  }

  /** A read that ended behind a value whose gap ends at `e`. */
  ghost predicate ReadTo(b: string, r: R.Read, v: Value, e: nat) {
    && r.Ok? && R.Fresh(b, r.ptr, r.len) && e < |b| && Erase(r.node) == v
    && R.SkipWs(b, r.ptr, r.len) == R.Skipped(e, |b| - e)
  }

  /** A value with its gap, followed by a comma or a closing bracket, is read as what it denotes. */
  lemma {:induction false} ReadTree(b: string, t: Tree, after: Gap, p: nat, h: R.Heap)
    requires R.Ends(b) && WellTree(t) && WellGap(after)
    requires At(b, TreeText(t), p) && At(b, GapText(after), p + |TreeText(t)|)
    requires var e := p + |TreeText(t)| + |GapText(after)|; e < |b| && Closer(b[e])
    ensures p < |b| && ReadTo(b, R.ReadData(b, p, |b| - p, h), Denote(t), p + |TreeText(t)| + |GapText(after)|)
    decreases t, 1
  {
    hide R.ReadData, R.ReadArray, R.ReadObject, R.ReadString, R.ReadNumber, R.ReadWord, R.SkipWs;
    hide At, TreeText, GapText, Denote, Erase, WellTree;
    TreeStarts(b, t, p);
    match t
    case Bracketed(_, _) =>
      ReadBracketed(b, t, after, p, h);
      DataIs(b, p, |b| - p, h);
    case Braced(_, _) =>
      ReadBraced(b, t, after, p, h);
      DataIs(b, p, |b| - p, h);
    case _ =>
      ReadScalar(b, t, after, p, h);
      SkipGap(b, after, p + |TreeText(t)|);
  }

  /** What a token that is not a container starts with. */
  lemma ReadScalar(b: string, t: Tree, after: Gap, p: nat, h: R.Heap)
    requires R.Ends(b) && WellTree(t) && WellGap(after) && !t.Bracketed? && !t.Braced?
    requires At(b, TreeText(t), p) && At(b, GapText(after), p + |TreeText(t)|)
    requires var e := p + |TreeText(t)| + |GapText(after)|; e < |b| && Closer(b[e])
    ensures p < |b|
    ensures var r := R.ReadData(b, p, |b| - p, h);
            r.Ok? && r.ptr == p + |TreeText(t)| && r.len == |b| - r.ptr && Erase(r.node) == Denote(t)
  {
    hide R.ReadData, R.ReadArray, R.ReadObject, R.ReadString, R.ReadNumber, R.ReadWord, R.SkipWs;
    hide At, GapText, NumberRun, UnitsText, Decode, R.ReadDigits, Decimal.Parse;
    TreeStarts(b, t, p);
    BehindValue(b, after, p + |TreeText(t)|);
    DataIs(b, p, |b| - p, h);
    match t
    case NullWord => WordAt(b, "null", p);
    case TrueWord => WordAt(b, "true", p);
    case FalseWord => WordAt(b, "false", p);
    case Number(literal) => NumberAt(b, literal, p, h);
    case Quoted(units) => QuotedAt(b, units, p, h);
  }

  lemma BracketsAt(b: string, left: string, open: Gap, inner: string, right: string, p: nat)
    requires |left| == |right| == 1 && At(b, left + GapText(open) + inner + right, p)
    ensures var q := p + 1 + |GapText(open)|; var e := q + |inner|;
            e < |b| && b[p] == left[0] && At(b, GapText(open), p + 1) && At(b, inner, q) && b[e] == right[0]
  {
    hide GapText;
    AtSplit(b, left + GapText(open) + inner, right, p);
    AtSplit(b, left + GapText(open), inner, p);
    AtSplit(b, left, GapText(open), p);
    FirstAt(b, left, p);
    FirstAt(b, right, p + 1 + |GapText(open)| + |inner|);
  }

  lemma BracketedAt(b: string, t: Tree, p: nat)
    requires t.Bracketed? && WellTree(t) && At(b, TreeText(t), p)
    ensures var q := p + 1 + |GapText(t.open)|; var e := q + |ElementsText(t.elements)|;
            WellGap(t.open) && WellElements(t.elements) && p + |TreeText(t)| == e + 1 && e < |b|
            && b[p] == '[' && At(b, GapText(t.open), p + 1) && At(b, ElementsText(t.elements), q) && b[e] == ']'
  {
    hide At, GapText, ElementsText;
    BracketsAt(b, "[", t.open, ElementsText(t.elements), "]", p);
  }

  lemma BracedAt(b: string, t: Tree, p: nat)
    requires t.Braced? && WellTree(t) && At(b, TreeText(t), p)
    ensures var q := p + 1 + |GapText(t.open)|; var e := q + |FieldsText(t.fields)|;
            WellGap(t.open) && WellFields(t.fields) && p + |TreeText(t)| == e + 1 && e < |b|
            && b[p] == '{' && At(b, GapText(t.open), p + 1) && At(b, FieldsText(t.fields), q) && b[e] == '}'
  {
    hide At, GapText, FieldsText;
    BracketsAt(b, "{", t.open, FieldsText(t.fields), "}", p);
  }

  lemma ContainersMean(t: Tree, id: nat, items: seq<R.Item>, members: seq<R.Member>)
    ensures t.Bracketed? && EraseItems(items) == DenoteElements(t.elements) ==> Erase(R.Arr(id, items)) == Denote(t)
    ensures t.Braced? && EraseMembers(members) == DenoteFields(t.fields) ==> Erase(R.Obj(id, members)) == Denote(t)
  {
  }

  lemma {:induction false} ReadBracketed(b: string, t: Tree, after: Gap, p: nat, h: R.Heap)
    requires R.Ends(b) && t.Bracketed? && WellTree(t) && WellGap(after)
    requires At(b, TreeText(t), p) && At(b, GapText(after), p + |TreeText(t)|)
    requires var e := p + |TreeText(t)| + |GapText(after)|; e < |b| && Closer(b[e])
    ensures p < |b| && b[p] == '['
    ensures ReadTo(b, R.ReadArray(b, p, |b| - p, h), Denote(t), p + |TreeText(t)| + |GapText(after)|)
    decreases t, 0
  {
    hide R.ReadArray, R.ReadItems, R.SkipWs, At, TreeText, GapText, ElementsText, Denote, DenoteElements;
    hide Erase, EraseItems, WellTree, WellElements;
    BracketedAt(b, t, p);
    var q := p + 1 + |GapText(t.open)|;
    var e := q + |ElementsText(t.elements)|;
    ElementsStart(b, t.elements, q);
    SkipGap(b, t.open, p + 1);
    ReadElements(b, t.elements, q, h.(next := h.next + 1));
    SkipGap(b, after, e + 1);
    var r := R.ReadItems(b, q, |b| - q, h.(next := h.next + 1));
    ContainersMean(t, h.next, r.items, []);
    ArrayIs(b, p, |b| - p, h, q, e, r.items, r.heap);
  }

  /** The elements of an array, up to its bracket. */
  lemma {:induction false} ReadElements(b: string, e: Elements, p: nat, h: R.Heap)
    requires R.Ends(b) && WellElements(e) && At(b, ElementsText(e), p)
    requires var q := p + |ElementsText(e)|; q < |b| && b[q] == ']'
    ensures p < |b|
    ensures var r := R.ReadItems(b, p, |b| - p, h); var q := p + |ElementsText(e)|;
            r.AtEnd? && r.ptr == q && r.len == |b| - q && EraseItems(r.items) == DenoteElements(e)
    decreases e, 2
  {
    ElementsStart(b, e, p);
    match e
    case NoElement => ItemsEnd(b, p, |b| - p, h);
    case Last(_, _) => ReadLastElement(b, e, p, h);
    case More(_, _, _, _) => ReadMoreElements(b, e, p, h);
  }

  lemma LastAt(b: string, e: Elements, p: nat)
    requires e.Last? && At(b, ElementsText(e), p)
    ensures At(b, TreeText(e.tree), p) && At(b, GapText(e.after), p + |TreeText(e.tree)|)
    ensures |ElementsText(e)| == |TreeText(e.tree)| + |GapText(e.after)|
  {
    hide At, TreeText, GapText;
    AtSplit(b, TreeText(e.tree), GapText(e.after), p);
  }

  lemma {:induction false} ReadLastElement(b: string, e: Elements, p: nat, h: R.Heap)
    requires R.Ends(b) && e.Last? && WellElements(e) && At(b, ElementsText(e), p)
    requires var q := p + |ElementsText(e)|; q < |b| && b[q] == ']'
    ensures p < |b|
    ensures var r := R.ReadItems(b, p, |b| - p, h); var q := p + |ElementsText(e)|;
            r.AtEnd? && r.ptr == q && r.len == |b| - q && EraseItems(r.items) == DenoteElements(e)
    decreases e, 1
  {
    hide R.ReadItems, R.ReadData, R.SkipWs, At, TreeText, GapText, ElementsText, Denote, Erase, WellTree, WellGap;
    LastAt(b, e, p);
    TreeStarts(b, e.tree, p);
    ReadTree(b, e.tree, e.after, p, h.(next := h.next + 1));
    var d := R.ReadData(b, p, |b| - p, h.(next := h.next + 1));
    ItemsLast(b, p, h, p + |ElementsText(e)|);
    EraseConsItem(R.Item(h.next, d.node), []);
    assert [R.Item(h.next, d.node)] + [] == [R.Item(h.next, d.node)];
  }

  lemma {:induction false} ReadMoreElements(b: string, e: Elements, p: nat, h: R.Heap)
    requires R.Ends(b) && e.More? && WellElements(e) && At(b, ElementsText(e), p)
    requires var q := p + |ElementsText(e)|; q < |b| && b[q] == ']'
    ensures p < |b|
    ensures var r := R.ReadItems(b, p, |b| - p, h); var q := p + |ElementsText(e)|;
            r.AtEnd? && r.ptr == q && r.len == |b| - q && EraseItems(r.items) == DenoteElements(e)
    decreases e, 1
  {
    hide R.ReadItems, R.ReadData, R.SkipWs, At, TreeText, GapText, ElementsText, Denote, Erase, EraseItems;
    hide WellTree, WellGap;
    MoreAt(b, e, p);
    TreeStarts(b, e.tree, p);
    var c := p + |TreeText(e.tree)| + |GapText(e.after)|;
    var g := c + 1 + |GapText(e.gap)|;
    ReadTree(b, e.tree, e.after, p, h.(next := h.next + 1));
    var d := R.ReadData(b, p, |b| - p, h.(next := h.next + 1));
    ElementsStart(b, e.rest, g);
    SkipGap(b, e.gap, c + 1);
    ReadElements(b, e.rest, g, d.heap);
    ItemsMore(b, p, h, c, g);
    EraseConsItem(R.Item(h.next, d.node), R.ReadItems(b, g, |b| - g, d.heap).items);
  }

  lemma {:induction false} ReadBraced(b: string, t: Tree, after: Gap, p: nat, h: R.Heap)
    requires R.Ends(b) && t.Braced? && WellTree(t) && WellGap(after)
    requires At(b, TreeText(t), p) && At(b, GapText(after), p + |TreeText(t)|)
    requires var e := p + |TreeText(t)| + |GapText(after)|; e < |b| && Solid(b[e])
    ensures p < |b| && b[p] == '{'
    ensures ReadTo(b, R.ReadObject(b, p, |b| - p, h), Denote(t), p + |TreeText(t)| + |GapText(after)|)
    decreases t, 0
  {
    hide R.ReadObject, R.ReadMembers, R.SkipWs, At, TreeText, GapText, FieldsText, Denote, DenoteFields;
    hide Erase, EraseMembers, WellTree, WellFields;
    BracedAt(b, t, p);
    var q := p + 1 + |GapText(t.open)|;
    var e := q + |FieldsText(t.fields)|;
    FieldsStart(b, t.fields, q);
    SkipGap(b, t.open, p + 1);
    ReadFields(b, t.fields, q, h.(next := h.next + 1));
    SkipGap(b, after, e + 1);
    var r := R.ReadMembers(b, q, |b| - q, h.(next := h.next + 1));
    ContainersMean(t, h.next, [], r.members);
    ObjectIs(b, p, |b| - p, h, q, e, r.members, r.heap);
  }

  /** The members of an object, up to its brace. */
  lemma {:induction false} ReadFields(b: string, f: Fields, p: nat, h: R.Heap)
    requires R.Ends(b) && WellFields(f) && At(b, FieldsText(f), p)
    requires var q := p + |FieldsText(f)|; q < |b| && b[q] == '}'
    ensures p < |b|
    ensures var r := R.ReadMembers(b, p, |b| - p, h); var q := p + |FieldsText(f)|;
            r.AtClose? && r.ptr == q && r.len == |b| - q && EraseMembers(r.members) == DenoteFields(f)
    decreases f, 2
  {
    FieldsStart(b, f, p);
    match f
    case NoField => MembersEnd(b, p, |b| - p, h);
    case LastField(_, _, _, _, _) => ReadLastField(b, f, p, h);
    case MoreFields(_, _, _, _, _, _, _) => ReadMoreFields(b, f, p, h);
  }

  /** A key, its colon and the gaps around it. */
  lemma ReadKey(b: string, key: seq<Unit>, g1: Gap, g2: Gap, p: nat, h: R.Heap)
    requires R.Ends(b) && WellUnits(key) && WellGap(g1) && WellGap(g2) && At(b, FieldText(key, g1, g2), p)
    requires var v := p + |FieldText(key, g1, g2)|; v < |b| && Solid(b[v])
    ensures p < |b|
    ensures var k := R.ReadString(b, p, |b| - p, h); var v := p + |FieldText(key, g1, g2)|;
            k.Ok? && k.node.s == Decode(key)
            && R.ReadMembers(b, p, |b| - p, h) == R.ReadMember(b, v, |b| - v, k.node, k.heap)
  {
    hide R.ReadMembers, R.ReadMember, R.ReadString, R.SkipWs, At, FieldText, QuotedText, GapText, WellUnits, WellGap;
    FieldAt(b, key, g1, g2, p);
    var c := p + |QuotedText(key)| + |GapText(g1)|;
    QuotedAt(b, key, p, h);
    SkipGap(b, g1, p + |QuotedText(key)|);
    SkipGap(b, g2, c + 1);
    KeyIs(b, p, h, c, p + |FieldText(key, g1, g2)|);
  }

  /** A key and its value: what is left to do is what stands behind the member. */
  lemma {:induction false} ReadField(b: string, key: seq<Unit>, g1: Gap, g2: Gap, tree: Tree, after: Gap, p: nat, h: R.Heap)
    returns (m: R.Member, q: nat, h2: R.Heap)
    requires R.Ends(b) && WellUnits(key) && WellGap(g1) && WellGap(g2) && WellTree(tree) && WellGap(after)
    requires var v := p + |FieldText(key, g1, g2)|; var t := v + |TreeText(tree)|; var e := t + |GapText(after)|;
             At(b, FieldText(key, g1, g2), p) && At(b, TreeText(tree), v) && At(b, GapText(after), t)
             && e < |b| && Closer(b[e])
    ensures p < |b| && q < |b|
    ensures R.ReadMembers(b, p, |b| - p, h) == R.BehindMember(b, q, |b| - q, m, h2)
    ensures var e := p + |FieldText(key, g1, g2)| + |TreeText(tree)| + |GapText(after)|;
            R.SkipWs(b, q, |b| - q) == R.Skipped(e, |b| - e)
    ensures EraseMember(m) == Pair(R.CString(Decode(key)), Denote(tree))
    decreases tree, 2
  {
    hide R.ReadMembers, R.ReadMember, R.BehindMember, R.ReadString, R.ReadData, R.SkipWs, R.CString, R.KeyBlocks;
    hide At, FieldText, TreeText, GapText, Denote, Decode, Erase, WellTree, WellGap, WellUnits;
    var v := p + |FieldText(key, g1, g2)|;
    TreeStarts(b, tree, v);
    ReadKey(b, key, g1, g2, p, h);
    var k := R.ReadString(b, p, |b| - p, h);
    var h0 := k.heap.(next := k.heap.next + 2);
    ReadTree(b, tree, after, v, h0);
    var d := R.ReadData(b, v, |b| - v, h0);
    m := R.Member(k.heap.next, k.heap.next + 1, R.CString(k.node.s), d.node);
    q := d.ptr;
    h2 := d.heap.(freed := d.heap.freed + R.KeyBlocks(k.node));
    MemberIs(b, v, |b| - v, k.node, k.heap);
  }

  lemma {:induction false} ReadLastField(b: string, f: Fields, p: nat, h: R.Heap)
    requires R.Ends(b) && f.LastField? && WellFields(f) && At(b, FieldsText(f), p)
    requires var q := p + |FieldsText(f)|; q < |b| && b[q] == '}'
    ensures p < |b|
    ensures var r := R.ReadMembers(b, p, |b| - p, h); var q := p + |FieldsText(f)|;
            r.AtClose? && r.ptr == q && r.len == |b| - q && EraseMembers(r.members) == DenoteFields(f)
    decreases f, 1
  {
    hide R.ReadMembers, R.BehindMember, R.SkipWs, R.CString;
    hide At, FieldText, TreeText, GapText, FieldsText, Denote, Decode, EraseMember, WellTree, WellGap, WellUnits;
    LastFieldAt(b, f, p);
    var m, q, h2 := ReadField(b, f.key, f.beforeColon, f.afterColon, f.tree, f.after, p, h);
    BehindLastMember(b, q, |b| - q, m, h2, p + |FieldsText(f)|);
    EraseConsMember(m, []);
    assert [m] + [] == [m];
  }

  lemma {:induction false} ReadMoreFields(b: string, f: Fields, p: nat, h: R.Heap)
    requires R.Ends(b) && f.MoreFields? && WellFields(f) && At(b, FieldsText(f), p)
    requires var q := p + |FieldsText(f)|; q < |b| && b[q] == '}'
    ensures p < |b|
    ensures var r := R.ReadMembers(b, p, |b| - p, h); var q := p + |FieldsText(f)|;
            r.AtClose? && r.ptr == q && r.len == |b| - q && EraseMembers(r.members) == DenoteFields(f)
    decreases f, 1
  {
    hide R.ReadMembers, R.BehindMember, R.SkipWs, R.CString;
    hide At, FieldText, TreeText, GapText, FieldsText, Denote, Decode, EraseMember, EraseMembers;
    hide WellTree, WellGap, WellUnits;
    MoreFieldsAt(b, f, p);
    var c := p + |FieldText(f.key, f.beforeColon, f.afterColon)| + |TreeText(f.tree)| + |GapText(f.after)|;
    var g := c + 1 + |GapText(f.gap)|;
    var m, q, h2 := ReadField(b, f.key, f.beforeColon, f.afterColon, f.tree, f.after, p, h);
    FieldsStart(b, f.rest, g);
    SkipGap(b, f.gap, c + 1);
    BehindMoreMembers(b, q, |b| - q, m, h2, c, g);
    ReadFields(b, f.rest, g, h2);
    EraseConsMember(m, R.ReadMembers(b, g, |b| - g, h2).members);
  }
}
