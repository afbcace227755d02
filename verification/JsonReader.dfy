/** The recursive-descent reader of json.c, as functions of the cursor: an index into the text and the remaining
    length, which all readers share. A reader stores its cursor back only at its end; some returns with `LE_OK`
    leave it where it was, although the remaining length has moved on. */
module JsonReader {
  import Decimal

  // The tree a read builds. Every block the reader allocates has a number.

  datatype Node =
    | Null(id: nat)
    | Bool(id: nat, b: bool)
    | Int(id: nat, i: int)
    | Float(id: nat, literal: string)
    | Str(id: nat, buffer: nat, s: string)
    | Arr(id: nat, items: seq<Item>)
    | Obj(id: nat, members: seq<Member>)

  /** `mangoh_bridge_json_array_item_t`. */
  datatype Item = Item(link: nat, node: Node)

  /** `mangoh_bridge_json_array_obj_item_t`; `attribute` is the block the key is in. */
  datatype Member = Member(link: nat, attribute: nat, key: string, node: Node)

  /** Blocks are numbered as they are allocated; `freed` have been released, `lost` had only a local variable of a
      reader that has returned pointing to them. */
  datatype Heap = Heap(next: nat, freed: multiset<nat>, lost: multiset<nat>)

  const EMPTY := Heap(0, multiset{}, multiset{})

  /** Why a read fails. `Unicode` stands for whatever follows a `\u` escape, which is not modelled. */
  datatype Error = Format | BadParameter | Invalid | Underflow | Unicode

  // Cursors.

  predicate Ends(b: string) { b != "" && b[|b| - 1] == '}' }

  /** Index and length agree, and something is left. */
  predicate Fresh(b: string, p: nat, n: nat) { p + n == |b| && n > 0 }

  /** A cursor that was not stored: still at the opening bracket. */
  predicate Stale(b: string, p: nat, n: nat) { p + n < |b| && (b[p] == '[' || b[p] == '{') }

  // Blanks and comments.

  predicate IsBlank(c: char) { c == ' ' || c == '\t' || c == '\r' || c == '\n' }

  predicate IsNewline(c: char) { c == '\n' || c == '\r' }

  datatype Skip = Skipped(ptr: nat, len: nat) | NotSkipped

  function LineEnd(b: string, p: nat, n: nat): (r: Skip)
    requires n > 0 && p + n <= |b|
    ensures r.Skipped? ==> r.ptr + r.len == p + n && 0 < r.len <= n && IsNewline(b[r.ptr])
    decreases n
  {
    if IsNewline(b[p]) then Skipped(p, n) else if n == 1 then NotSkipped else LineEnd(b, p + 1, n - 1)
  }

  /** The end of a block comment is its slash; a star that follows a star is passed over. */
  function BlockEnd(b: string, p: nat, n: nat): (r: Skip)
    requires n > 0 && p + n <= |b|
    ensures r.Skipped? ==> r.ptr + r.len == p + n && 0 < r.len < n && b[r.ptr] == '/'
    decreases n
  {
    if n == 1 then NotSkipped
    else if b[p] == '*' && b[p + 1] == '/' then Skipped(p + 1, n - 1)
    else if b[p] == '*' then if n == 2 then NotSkipped else BlockEnd(b, p + 2, n - 2)
    else BlockEnd(b, p + 1, n - 1)
  }

  /** `mangoh_bridge_json_readComment`, at a slash. */
  function ReadComment(b: string, p: nat, n: nat): (r: Skip)
    requires n > 0 && p + n <= |b| && b[p] == '/'
    ensures r.Skipped? ==> r.ptr + r.len == p + n && 0 < r.len < n
  {
    if n == 1 then NotSkipped
    else if b[p + 1] == '/' then if n == 2 then NotSkipped else LineEnd(b, p + 2, n - 2)
    else if b[p + 1] == '*' then if n == 2 then NotSkipped else BlockEnd(b, p + 2, n - 2)
    else NotSkipped
  }

  /** `mangoh_bridge_json_skipWhitespace`, forward. */
  function SkipWs(b: string, p: nat, n: nat): (r: Skip)
    requires p + n <= |b|
    ensures r.Skipped? ==> r.ptr + r.len == p + n && r.len <= n
    ensures r.Skipped? && r.len > 0 ==> !IsBlank(b[r.ptr]) && b[r.ptr] != '/'
    ensures r.Skipped? && Ends(b) && Fresh(b, p, n) ==> r.len > 0
    ensures n == 0 || (!IsBlank(b[p]) && b[p] != '/') ==> r == Skipped(p, n)
    decreases n
  {
    if n == 0 then Skipped(p, n)
    else if b[p] == '/' then
      var c := ReadComment(b, p, n);
      if c.Skipped? then SkipWs(b, c.ptr, c.len) else NotSkipped
    else if IsBlank(b[p]) then SkipWs(b, p + 1, n - 1)
    else Skipped(p, n)
  }

  // Scalars.

  datatype Read =
    | Ok(ptr: nat, len: nat, node: Node, heap: Heap)
    | Failed(error: Error)

  /** `mangoh_bridge_json_readTrue`, `readFalse` and `readNull`, letter by letter. */
  function ReadWord(b: string, p: nat, n: nat, word: string): (r: Skip)
    requires n > 0 && p + n <= |b|
    ensures r.Skipped? ==> r.ptr + r.len == p + n && r.len == n - |word| && r.len > 0
    decreases |word|
  {
    if word == "" then Skipped(p, n)
    else if b[p] != word[0] || n == 1 then NotSkipped
    else ReadWord(b, p + 1, n - 1, word[1..])
  }

  datatype Number = Number(ptr: nat, len: nat, isFloat: bool) | NotNumber

  /** The loop of `mangoh_bridge_json_readNumber`: one point and one minus sign, anywhere. */
  function ReadDigits(b: string, p: nat, n: nat, isFloat: bool, isNegative: bool): (r: Number)
    requires n > 0 && p + n <= |b|
    ensures r.Number? ==> r.ptr + r.len == p + n && 0 < r.len <= n
    ensures r.Number? && Decimal.IsDigit(b[p]) ==> r.len < n
    ensures r.Number? && b[p] == '-' && !isNegative ==> r.len < n
    decreases n
  {
    if Decimal.IsDigit(b[p]) || (!isFloat && b[p] == '.') || (!isNegative && b[p] == '-') then
      if n == 1 then NotNumber
      else ReadDigits(b, p + 1, n - 1, isFloat || b[p] == '.', isNegative || b[p] == '-')
    else Number(p, n, isFloat)
  }

  function ReadNumber(b: string, p: nat, n: nat, h: Heap): (r: Read)
    requires n > 0 && p + n <= |b| && (Decimal.IsDigit(b[p]) || b[p] == '-')
    ensures r.Ok? ==> r.ptr + r.len == p + n && 0 < r.len < n
  {
    var e := ReadDigits(b, p, n, false, false);
    if e.NotNumber? then Failed(Format)
    else
      var node := if e.isFloat then Float(h.next, b[p..e.ptr]) else Int(h.next, Decimal.Parse(b[p..]));
      Ok(e.ptr, e.len, node, h.(next := h.next + 1))
  }

  // Strings.

  predicate IsEscape(c: char) { c == 'b' || c == 'r' || c == 'n' || c == 'f' || c == 't' }

  /** `mangoh_bridge_json_getEscapeChar`. */
  function EscapeChar(c: char): char
    requires IsEscape(c)
  {
    match c
    case 't' => '\t'
    case 'n' => '\n'
    case 'f' => '\U{0C}'
    case 'b' => '\U{08}'
    case 'r' => '\r'
  }

  datatype Chars = Chars(ptr: nat, len: nat, text: string) | NoChars(error: Error)

  function Prefixed(text: string, r: Chars): Chars {
    if r.Chars? then r.(text := text + r.text) else r
  }

  /** The loop of `mangoh_bridge_json_readString`. A backslash before a quote, a backslash or a slash is dropped and
      the character read again as it stands, so an escaped quote ends the string. */
  function ReadChars(b: string, p: nat, n: nat): (r: Chars)
    requires n > 0 && p + n <= |b|
    ensures r.Chars? ==> r.ptr + r.len == p + n && 0 < r.len <= n && b[r.ptr] == '"'
    decreases n
  {
    if b[p] == '"' then Chars(p, n, "")
    else if n == 1 then NoChars(Format)
    else if b[p] != '\\' then Prefixed([b[p]], ReadChars(b, p + 1, n - 1))
    else if IsEscape(b[p + 1]) then
      if n == 2 then NoChars(Format) else Prefixed([EscapeChar(b[p + 1])], ReadChars(b, p + 2, n - 2))
    else if b[p + 1] == 'u' then NoChars(Unicode)
    else if b[p + 1] == '"' || b[p + 1] == '\\' || b[p + 1] == '/' then ReadChars(b, p + 1, n - 1)
    else NoChars(Format)
  }

  function ReadString(b: string, p: nat, n: nat, h: Heap): (r: Read)
    requires p < |b| && p + n <= |b| && (n == 0 ==> b[p] != '"')
    ensures r.Ok? ==> r.node.Str? && r.ptr + r.len == p + n && 0 < r.len < n
    ensures b[p] != '"' ==> r.Failed?
  {
    if b[p] != '"' || n == 1 then Failed(Format)
    else
      var e := ReadChars(b, p + 1, n - 1);
      if e.NoChars? then Failed(e.error)
      else if e.len == 1 then Failed(Format)
      else Ok(e.ptr + 1, e.len - 1, Str(h.next, h.next + 1, e.text), h.(next := h.next + 2))
  }

  /** What `strlen` and `strcpy` see of a buffer. */
  function CString(s: string): string {
    if s == "" || s[0] == '\0' then "" else [s[0]] + CString(s[1..])
  }

  // Arrays and objects. The loops stop at the closing bracket, or early: the reader then returns `LE_OK` without
  // storing its cursor.

  datatype Items =
    | AtEnd(ptr: nat, len: nat, items: seq<Item>, heap: Heap)
    | Stopped(len: nat, items: seq<Item>, heap: Heap)
    | BadItems(error: Error)

  function ConsItem(i: Item, r: Items): Items {
    if r.BadItems? then r else r.(items := [i] + r.items)
  }

  datatype Members =
    | AtClose(ptr: nat, len: nat, members: seq<Member>, heap: Heap)
    | Halted(len: nat, members: seq<Member>, heap: Heap)
    | BadMembers(error: Error)

  function ConsMember(m: Member, r: Members): Members {
    if r.BadMembers? then r else r.(members := [m] + r.members)
  }

  /** The two blocks of a temporary key. */
  function KeyBlocks(key: Node): multiset<nat>
    requires key.Str?
  {
    multiset{key.id, key.buffer}
  }

  function ReadItems(b: string, p: nat, n: nat, h: Heap): (r: Items)
    requires Ends(b) && Fresh(b, p, n)
    ensures r.AtEnd? ==> Fresh(b, r.ptr, r.len) && r.len <= n && b[r.ptr] == ']'
    ensures r.Stopped? ==> r.len < n
    decreases n, 2
  {
    if b[p] == ']' then AtEnd(p, n, [], h)
    else
      match ReadData(b, p, n, h.(next := h.next + 1))
      case Failed(error) => BadItems(error)
      case Ok(q, m, node, h1) =>
        BehindItem(b, q, m, Item(h.next, node), h1)
  }

  /** What stands behind an item: the end, a comma and the rest, or neither. */
  function BehindItem(b: string, p: nat, n: nat, item: Item, h: Heap): (r: Items)
    requires Ends(b) && (Fresh(b, p, n) || Stale(b, p, n))
    ensures r.AtEnd? ==> Fresh(b, r.ptr, r.len) && r.len <= n && b[r.ptr] == ']'
    ensures r.Stopped? ==> r.len <= n
    decreases n, 3
  {
    match SkipWs(b, p, n)
    case NotSkipped => BadItems(Format)
    case Skipped(q, m) =>
      if b[q] != ',' && b[q] != ']' then Stopped(m, [item], h)
      else if b[q] == ']' then ConsItem(item, ReadItems(b, q, m, h))
      else if m == 1 then Stopped(0, [item], h)
      else
        match SkipWs(b, q + 1, m - 1)
        case NotSkipped => BadItems(Format)
        case Skipped(q1, m1) => ConsItem(item, ReadItems(b, q1, m1, h))
  }

  /** `mangoh_bridge_json_readArray`. */
  function ReadArray(b: string, p: nat, n: nat, h: Heap): (r: Read)
    requires Ends(b) && Fresh(b, p, n) && b[p] == '['
    ensures r.Ok? ==> r.len < n && (Fresh(b, r.ptr, r.len) || Stale(b, r.ptr, r.len))
    decreases n, 0
  {
    if n == 1 then Failed(Format)
    else
      match SkipWs(b, p + 1, n - 1)
      case NotSkipped => Failed(Format)
      case Skipped(q, m) =>
        match ReadItems(b, q, m, h.(next := h.next + 1))
        case BadItems(error) => Failed(error)
        case Stopped(m1, items, h1) => Ok(p, m1, Arr(h.next, items), h1)
        case AtEnd(q1, m1, items, h1) =>
          if m1 == 1 then Ok(p, 0, Arr(h.next, items), h1)
          else
            match SkipWs(b, q1 + 1, m1 - 1)
            case NotSkipped => Failed(Format)
            case Skipped(q2, m2) => Ok(q2, m2, Arr(h.next, items), h1)
  }

  function ReadMembers(b: string, p: nat, n: nat, h: Heap): (r: Members)
    requires Ends(b) && (Fresh(b, p, n) || (n == 0 && Stale(b, p, n)))
    ensures r.AtClose? ==> Fresh(b, r.ptr, r.len) && r.len <= n && b[r.ptr] == '}'
    ensures r.Halted? ==> r.len < n
    decreases n, 2
  {
    if b[p] == '}' then AtClose(p, n, [], h)
    else
      match ReadString(b, p, n, h)
      case Failed(error) => BadMembers(error)
      case Ok(q, m, key, h1) =>
        BehindKey(b, q, m, key, h1)
  }

  /** The colon behind a key. */
  function BehindKey(b: string, p: nat, n: nat, key: Node, h: Heap): (r: Members)
    requires Ends(b) && Fresh(b, p, n) && key.Str?
    ensures r.AtClose? ==> Fresh(b, r.ptr, r.len) && r.len <= n && b[r.ptr] == '}'
    ensures r.Halted? ==> r.len <= n
    decreases n, 5
  {
    match SkipWs(b, p, n)
    case NotSkipped => BadMembers(Format)
    case Skipped(q, m) =>
      if b[q] != ':' then Halted(m, [], h.(lost := h.lost + KeyBlocks(key)))
      else if m == 1 then Halted(0, [], h.(lost := h.lost + KeyBlocks(key)))
      else
        match SkipWs(b, q + 1, m - 1)
        case NotSkipped => BadMembers(Format)
        case Skipped(q1, m1) => ReadMember(b, q1, m1, key, h)
  }

  /** The value behind a key, and the rest of the object. */
  function ReadMember(b: string, p: nat, n: nat, key: Node, h: Heap): (r: Members)
    requires Ends(b) && Fresh(b, p, n) && key.Str?
    ensures r.AtClose? ==> Fresh(b, r.ptr, r.len) && r.len <= n && b[r.ptr] == '}'
    ensures r.Halted? ==> r.len < n
    decreases n, 4
  {
    match ReadData(b, p, n, h.(next := h.next + 2))
    case Failed(error) => BadMembers(error)
    case Ok(q, m, node, h1) =>
      var member := Member(h.next, h.next + 1, CString(key.s), node);
      BehindMember(b, q, m, member, h1.(freed := h1.freed + KeyBlocks(key)))
  }

  /** What stands behind a member: the end, a comma and the rest, or neither. */
  function BehindMember(b: string, p: nat, n: nat, member: Member, h: Heap): (r: Members)
    requires Ends(b) && (Fresh(b, p, n) || Stale(b, p, n))
    ensures r.AtClose? ==> Fresh(b, r.ptr, r.len) && r.len <= n && b[r.ptr] == '}'
    ensures r.Halted? ==> r.len <= n
    decreases n, 3
  {
    if n == 0 then ConsMember(member, ReadMembers(b, p, n, h))
    else
      match SkipWs(b, p, n)
      case NotSkipped => BadMembers(Format)
      case Skipped(q, m) =>
        if b[q] != '}' && b[q] != ',' then BadMembers(Invalid)
        else if b[q] == '}' then ConsMember(member, ReadMembers(b, q, m, h))
        else if m == 1 then Halted(0, [member], h)
        else
          match SkipWs(b, q + 1, m - 1)
          case NotSkipped => BadMembers(Format)
          case Skipped(q1, m1) => ConsMember(member, ReadMembers(b, q1, m1, h))
  }

  /** `mangoh_bridge_json_readObject`. */
  function ReadObject(b: string, p: nat, n: nat, h: Heap): (r: Read)
    requires Ends(b) && Fresh(b, p, n) && b[p] == '{'
    ensures r.Ok? ==> r.len < n && (Fresh(b, r.ptr, r.len) || Stale(b, r.ptr, r.len))
    decreases n, 0
  {
    if n == 1 then Failed(Format)
    else
      match SkipWs(b, p + 1, n - 1)
      case NotSkipped => Failed(Format)
      case Skipped(q, m) =>
        match ReadMembers(b, q, m, h.(next := h.next + 1))
        case BadMembers(error) => Failed(error)
        case Halted(m1, members, h1) => Ok(p, m1, Obj(h.next, members), h1)
        case AtClose(q1, m1, members, h1) =>
          if m1 == 1 then Ok(p, 0, Obj(h.next, members), h1)
          else
            match SkipWs(b, q1 + 1, m1 - 1)
            case NotSkipped => Failed(Format)
            case Skipped(q2, m2) => Ok(q2, m2, Obj(h.next, members), h1)
  }

  function Scalar(e: Skip, node: Node, h: Heap): Read {
    match e
    case NotSkipped => Failed(Format)
    case Skipped(q, m) => Ok(q, m, node, h.(next := h.next + 1))
  }

  /** `mangoh_bridge_json_readData`. */
  function ReadData(b: string, p: nat, n: nat, h: Heap): (r: Read)
    requires Ends(b) && Fresh(b, p, n)
    ensures r.Ok? ==> r.len < n && (Fresh(b, r.ptr, r.len) || Stale(b, r.ptr, r.len))
    decreases n, 1
  {
    match SkipWs(b, p, n)
    case NotSkipped => Failed(Format)
    case Skipped(q, m) =>
      var c := b[q];
      if c == '{' then ReadObject(b, q, m, h)
      else if c == '[' then ReadArray(b, q, m, h)
      else if c == '"' then ReadString(b, q, m, h)
      else if c == 't' then Scalar(ReadWord(b, q, m, "true"), Bool(h.next, true), h)
      else if c == 'f' then Scalar(ReadWord(b, q, m, "false"), Bool(h.next, false), h)
      else if c == 'n' then Scalar(ReadWord(b, q, m, "null"), Null(h.next), h)
      else if c == '-' || Decimal.IsDigit(c) then ReadNumber(b, q, m, h)
      else Failed(BadParameter)
  }

  // The whole text.

  /** `mangoh_bridge_json_skipWhitespace`, backward. */
  function Trim(b: string): (r: string)
    ensures |r| <= |b| && r == b[..|r|] && (r == "" || !IsBlank(r[|r| - 1]))
    ensures forall k :: |r| <= k < |b| ==> IsBlank(b[k])
    decreases |b|
  {
    if b != "" && IsBlank(b[|b| - 1]) then Trim(b[..|b| - 1]) else b
  }

  /** What the reader supports: no slash as the last byte, where the backward skip would look for a comment. */
  predicate NoTrailingSlash(b: string) { var t := Trim(b); t == "" || t[|t| - 1] != '/' }

  /** `mangoh_bridge_json_read`. */
  function JsonRead(b: string): Read
    requires NoTrailingSlash(b)
  {
    var t := Trim(b);
    if !Ends(t) then Failed(Underflow) else ReadData(t, 0, |t|, EMPTY)
  }
}
