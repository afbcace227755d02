/** Whole texts: what `json_read` makes of an object with anything a gap allows in it and around it. */
module JsonTexts {
  import opened Text
  import opened JsonValue
  import opened JsonLayout
  import opened JsonSteps
  import R = JsonReader
  import JsonBlocks

  predicate Blanks(s: string) { forall k :: 0 <= k < |s| ==> R.IsBlank(s[k]) }

  lemma {:induction false} TrimBlanks(b: string, tail: string)
    requires Blanks(tail) && (b == "" || !R.IsBlank(b[|b| - 1]))
    ensures R.Trim(b + tail) == b
    decreases |tail|
  {
    var s := b + tail;
    if tail != "" {
      var front := tail[..|tail| - 1];
      assert s[..|s| - 1] == b + front;
      TrimBlanks(b, front);
    } else {
      assert s == b;
    }
  }

  lemma AtWhole(x: string, y: string)
    ensures At(x + y, x, 0) && At(x + y, y, |x|)
  {
    assert (x + y)[0..|x|] == x && (x + y)[|x|..|x| + |y|] == y;
  }

  lemma BracedEnds(t: Tree)
    requires t.Braced?
    ensures R.Ends(TreeText(t))
  {
    hide GapText, FieldsText;
  }

  /** An object that uses the text up. */
  lemma ReadRoot(b: string, t: Tree, p: nat, h: R.Heap)
    requires R.Ends(b) && t.Braced? && WellTree(t) && At(b, TreeText(t), p) && p + |TreeText(t)| == |b|
    ensures p < |b| && b[p] == '{'
    ensures var r := R.ReadObject(b, p, |b| - p, h); r.Ok? && r.len == 0 && Erase(r.node) == Denote(t)
  {
    hide R.ReadObject, R.ReadMembers, R.SkipWs, At, TreeText, GapText, FieldsText, Denote, DenoteFields;
    hide Erase, EraseMembers, WellTree, WellFields;
    BracedAt(b, t, p);
    var q := p + 1 + |GapText(t.open)|;
    var e := q + |FieldsText(t.fields)|;
    FieldsStart(b, t.fields, q);
    SkipGap(b, t.open, p + 1);
    ReadFields(b, t.fields, q, h.(next := h.next + 1));
    var r := R.ReadMembers(b, q, |b| - q, h.(next := h.next + 1));
    ContainersMean(t, h.next, [], r.members);
    ObjectIs(b, p, |b| - p, h, q, e, r.members, r.heap);
  }

  /** Where a read of a whole text begins. */
  lemma ReadStarts(b: string, before: Gap, t: Tree)
    requires R.Ends(b) && t.Braced? && WellGap(before) && WellTree(t)
    requires At(b, GapText(before), 0) && At(b, TreeText(t), |GapText(before)|)
    ensures var p := |GapText(before)|;
            p < |b| && b[p] == '{' && R.ReadData(b, 0, |b|, R.EMPTY) == R.ReadObject(b, p, |b| - p, R.EMPTY)
  {
    hide R.ReadData, R.ReadObject, R.ReadMembers, R.SkipWs;
    hide At, GapText, TreeText, FieldsText, WellTree, WellFields, WellGap;
    var p := |GapText(before)|;
    BracedAt(b, t, p);
    SkipGap(b, before, 0);
    DataSkips(b, 0, |b|, R.EMPTY, p);
    DataIs(b, p, |b| - p, R.EMPTY);
  }

  lemma ReadTrimmed(b: string, tail: string)
    requires R.Ends(b) && Blanks(tail)
    ensures R.NoTrailingSlash(b + tail) && R.JsonRead(b + tail) == R.ReadData(b, 0, |b|, R.EMPTY)
  {
    hide R.ReadData;
    TrimBlanks(b, tail);
  }

  /** An object on its own, with blanks behind it: the whole text is read, the tree is what the text denotes, and
      no block is lost. */
  lemma ReadAlone(before: Gap, t: Tree, tail: string)
    requires WellGap(before) && WellTree(t) && t.Braced? && Blanks(tail)
    ensures var s := GapText(before) + TreeText(t) + tail;
            R.NoTrailingSlash(s)
            && var r := R.JsonRead(s);
            r.Ok? && r.len == 0 && Erase(r.node) == Denote(t) && r.heap.lost == multiset{}
  {
    hide R.JsonRead, R.NoTrailingSlash, R.ReadData, R.ReadObject, R.Trim;
    hide At, GapText, TreeText, WellTree, WellGap, Erase, Denote, Blanks;
    var b := GapText(before) + TreeText(t);
    BracedEnds(t);
    ReadTrimmed(b, tail);
    AtWhole(GapText(before), TreeText(t));
    ReadStarts(b, before, t);
    ReadRoot(b, t, |GapText(before)|, R.EMPTY);
    JsonBlocks.ReadDataKeeps(b, 0, |b|, R.EMPTY);
  }

  /** An object with more behind it: what is left is exactly what follows the gap behind the object. */
  lemma ReadFollowed(before: Gap, t: Tree, after: Gap, rest: string, tail: string)
    requires WellGap(before) && WellTree(t) && t.Braced? && WellGap(after) && Blanks(tail)
    requires R.Ends(rest) && Solid(rest[0])
    ensures var s := GapText(before) + TreeText(t) + GapText(after) + rest + tail;
            R.NoTrailingSlash(s)
            && var r := R.JsonRead(s);
            r.Ok? && r.len == |rest| && Erase(r.node) == Denote(t) && r.heap.lost == multiset{}
  {
    hide R.JsonRead, R.NoTrailingSlash, R.ReadData, R.ReadObject, R.SkipWs, R.Trim;
    hide At, GapText, TreeText, WellTree, WellGap, Erase, Denote, Blanks;
    var x, y, z := GapText(before), TreeText(t), GapText(after);
    var b := x + y + z + rest;
    ReadTrimmed(b, tail);
    FourAt(x, y, z, rest);
    ReadStarts(b, before, t);
    ReadBraced(b, t, after, |x|, R.EMPTY);
    var r := R.ReadObject(b, |x|, |b| - |x|, R.EMPTY);
    SkippedObject(b, |x|, R.EMPTY, |x| + |y| + |z|);
    JsonBlocks.ReadDataKeeps(b, 0, |b|, R.EMPTY);
  }

  lemma FourAt(x: string, y: string, z: string, r: string)
    requires r != ""
    ensures var b := x + y + z + r;
            At(b, x, 0) && At(b, y, |x|) && At(b, z, |x| + |y|) && b[|x| + |y| + |z|] == r[0] && b[|b| - 1] == r[|r| - 1]
  {
    hide At;
    var xyz := x + y + z;
    AtWhole(xyz, r);
    AtSplit(xyz + r, x + y, z, 0);
    AtSplit(xyz + r, x, y, 0);
    Ends(xyz, r);
  }

  lemma Ends(a: string, b: string)
    requires b != ""
    ensures (a + b)[|a|] == b[0] && (a + b)[|a + b| - 1] == b[|b| - 1]
  {
  }

  /** An object reader that stored its cursor has skipped the blanks behind the object. */
  lemma SkippedObject(b: string, p: nat, h: R.Heap, e: nat)
    requires R.Ends(b) && p < |b| && b[p] == '{' && e < |b|
    requires var r := R.ReadObject(b, p, |b| - p, h);
             r.Ok? && R.Fresh(b, r.ptr, r.len) && R.SkipWs(b, r.ptr, r.len) == R.Skipped(e, |b| - e)
    ensures R.ReadObject(b, p, |b| - p, h).len == |b| - e
  {
    hide R.ReadMembers;
    var r := R.ReadObject(b, p, |b| - p, h);
    assert !R.IsBlank(b[r.ptr]) && b[r.ptr] != '/';
  }

  // Objects without a colon.

  /** A key behind which something else than a colon stands: the object reader stops there, and the key is lost. */
  lemma StopsAtKey(b: string, open: Gap, key: seq<Unit>, gap: Gap, p: nat, h: R.Heap)
    requires R.Ends(b) && WellGap(open) && WellUnits(key) && WellGap(gap) && p < |b| && b[p] == '{'
    requires var k := p + 1 + |GapText(open)|; var g := k + |QuotedText(key)|; var e := g + |GapText(gap)|;
             At(b, GapText(open), p + 1) && At(b, QuotedText(key), k) && At(b, GapText(gap), g)
             && e < |b| && Solid(b[e]) && b[e] != ':'
    ensures var e := p + 1 + |GapText(open)| + |QuotedText(key)| + |GapText(gap)|;
            R.ReadObject(b, p, |b| - p, h)
            == R.Ok(p, |b| - e, R.Obj(h.next, []),
                    h.(next := h.next + 3, lost := h.lost + multiset{h.next + 1, h.next + 2}))
  {
    hide At, GapText, QuotedText, WellGap, WellUnits, R.SkipWs, R.ReadObject, R.ReadMembers, R.ReadString;
    var k := p + 1 + |GapText(open)|;
    var g := k + |QuotedText(key)|;
    var e := g + |GapText(gap)|;
    var h1 := h.(next := h.next + 1);
    QuotedAt(b, key, k, h1);
    SkipGap(b, open, p + 1);
    SkipGap(b, gap, g);
    StringBlocks(b, k, |b| - k, h1);
    MembersAre(b, k, |b| - k, h1);
    NoColon(b, g, R.ReadString(b, k, |b| - k, h1).node, h1.(next := h.next + 3), e);
    ObjectStops(b, p, h, k);
  }

  lemma StringBlocks(b: string, p: nat, n: nat, h: R.Heap)
    requires p < |b| && p + n <= |b| && n > 0
    ensures var r := R.ReadString(b, p, n, h);
            r.Ok? ==> r.node.id == h.next && r.node.buffer == h.next + 1 && r.heap == h.(next := h.next + 2)
  {
    hide R.ReadChars;
  }

  lemma NoColon(b: string, p: nat, key: R.Node, h: R.Heap, e: nat)
    requires R.Ends(b) && p < |b| && key.Str? && e < |b| && b[e] != ':'
    requires R.SkipWs(b, p, |b| - p) == R.Skipped(e, |b| - e)
    ensures R.BehindKey(b, p, |b| - p, key, h)
         == R.Halted(|b| - e, [], h.(lost := h.lost + multiset{key.id, key.buffer}))
  {
    hide R.SkipWs, R.ReadMember;
  }

  lemma ObjectStops(b: string, p: nat, h: R.Heap, q: nat)
    requires R.Ends(b) && p < q < |b| && b[p] == '{' && R.SkipWs(b, p + 1, |b| - p - 1) == R.Skipped(q, |b| - q)
    ensures var r := R.ReadMembers(b, q, |b| - q, h.(next := h.next + 1));
            r.Halted? ==> R.ReadObject(b, p, |b| - p, h) == R.Ok(p, r.len, R.Obj(h.next, r.members), r.heap)
  {
    hide R.SkipWs, R.ReadMembers;
  }

  /** For every key and everything that may follow it but a colon, the text is accepted as an empty object, and the
      two blocks of the key are lost. */
  lemma NoColonLosesKey(before: Gap, open: Gap, key: seq<Unit>, gap: Gap, rest: string)
    requires WellGap(before) && WellGap(open) && WellUnits(key) && WellGap(gap)
    requires R.Ends(rest) && Solid(rest[0]) && rest[0] != ':'
    ensures var s := GapText(before) + ("{" + GapText(open) + QuotedText(key) + GapText(gap) + rest);
            R.NoTrailingSlash(s)
            && R.JsonRead(s) == R.Ok(|GapText(before)|, |rest|, R.Obj(0, []), R.Heap(3, multiset{}, multiset{1, 2}))
  {
    hide R.JsonRead, R.NoTrailingSlash, R.ReadData, R.ReadObject, R.SkipWs, R.Trim;
    hide At, GapText, QuotedText, WellUnits, WellGap;
    var x, y, z, w := GapText(before), GapText(open), QuotedText(key), GapText(gap);
    var b := x + ("{" + y + z + w + rest);
    FiveAt(x, y, z, w, rest);
    assert b + "" == b;
    ReadTrimmed(b, "");
    SkipGap(b, before, 0);
    DataSkips(b, 0, |b|, R.EMPTY, |x|);
    DataIs(b, |x|, |b| - |x|, R.EMPTY);
    StopsAtKey(b, open, key, gap, |x|, R.EMPTY);
    assert multiset{} + multiset{1, 2} == multiset{1, 2};
  }

  lemma FiveAt(x: string, y: string, z: string, w: string, r: string)
    requires r != ""
    ensures var b := x + ("{" + y + z + w + r); var p := |x|;
            At(b, x, 0) && b[p] == '{' && At(b, y, p + 1) && At(b, z, p + 1 + |y|) && At(b, w, p + 1 + |y| + |z|)
            && b[p + 1 + |y| + |z| + |w|] == r[0] && b[|b| - 1] == r[|r| - 1]
            && |b| == p + 1 + |y| + |z| + |w| + |r|
  {
    hide At;
    var body := "{" + y + z + w;
    var b := x + (body + r);
    AtWhole(x, body + r);
    AtSplit(b, body, r, |x|);
    AtSplit(b, "{" + y + z, w, |x|);
    AtSplit(b, "{" + y, z, |x|);
    AtSplit(b, "{", y, |x|);
    FirstAt(b, "{", |x|);
    FirstAt(b, r, |x| + |body|);
    Ends(x, body + r);
    Ends(body, r);
  }

  // Layout does not matter.

  /** The text without its gaps. */
  function Bare(t: Tree): Tree {
    match t
    case Bracketed(_, elements) => Bracketed(NoGap, BareElements(elements))
    case Braced(_, fields) => Braced(NoGap, BareFields(fields))
    case _ => t
  }

  function BareElements(e: Elements): Elements {
    match e
    case NoElement => NoElement
    case Last(tree, _) => Last(Bare(tree), NoGap)
    case More(tree, _, _, rest) =>
      if rest.NoElement? then Last(Bare(tree), NoGap) else More(Bare(tree), NoGap, NoGap, BareElements(rest))
  }

  function BareFields(f: Fields): Fields {
    match f
    case NoField => NoField
    case LastField(key, _, _, tree, _) => LastField(key, NoGap, NoGap, Bare(tree), NoGap)
    case MoreFields(key, _, _, tree, _, _, rest) =>
      if rest.NoField? then LastField(key, NoGap, NoGap, Bare(tree), NoGap)
      else MoreFields(key, NoGap, NoGap, Bare(tree), NoGap, NoGap, BareFields(rest))
  }

  lemma {:induction false} BareMeansTheSame(t: Tree)
    ensures Denote(Bare(t)) == Denote(t) && (WellTree(t) ==> WellTree(Bare(t)))
    decreases t
  {
    match t
    case Bracketed(_, elements) => BareElementsMeanTheSame(elements);
    case Braced(_, fields) => BareFieldsMeanTheSame(fields);
    case _ =>
  }

  lemma {:induction false} BareElementsMeanTheSame(e: Elements)
    ensures DenoteElements(BareElements(e)) == DenoteElements(e) && (WellElements(e) ==> WellElements(BareElements(e)))
    decreases e
  {
    match e
    case NoElement =>
    case Last(tree, _) => BareMeansTheSame(tree);
    case More(tree, _, _, rest) =>
      BareMeansTheSame(tree);
      BareElementsMeanTheSame(rest);
  }

  lemma {:induction false} BareFieldsMeanTheSame(f: Fields)
    ensures DenoteFields(BareFields(f)) == DenoteFields(f) && (WellFields(f) ==> WellFields(BareFields(f)))
    decreases f
  {
    match f
    case NoField =>
    case LastField(_, _, _, tree, _) => BareMeansTheSame(tree);
    case MoreFields(_, _, _, tree, _, _, rest) =>
      BareMeansTheSame(tree);
      BareFieldsMeanTheSame(rest);
  }

  /** Blanks, newlines, line comments and trailing commas do not change the tree. */
  lemma LayoutIndependent(before: Gap, t: Tree, tail: string)
    requires WellGap(before) && WellTree(t) && t.Braced? && Blanks(tail)
    ensures var s := GapText(before) + TreeText(t) + tail;
            R.NoTrailingSlash(s) && R.NoTrailingSlash(TreeText(Bare(t)))
            && var r, r0 := R.JsonRead(s), R.JsonRead(TreeText(Bare(t)));
            r.Ok? && r0.Ok? && Erase(r.node) == Erase(r0.node) && r.len == r0.len == 0
  {
    hide R.JsonRead, TreeText, GapText, Erase, Denote, WellTree;
    ReadAlone(before, t, tail);
    BareMeansTheSame(t);
    assert Bare(t).Braced?;
    ReadAlone(NoGap, Bare(t), "");
    assert GapText(NoGap) == "" by { NoGapText(); }
    assert "" + TreeText(Bare(t)) + "" == TreeText(Bare(t));
  }

  lemma NoGapText()
    ensures GapText(NoGap) == ""
  {
  }
}
