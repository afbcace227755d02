/** JSON data without its storage, and how a tree and a text denote it. */
module JsonValue {
  import R = JsonReader

  /** `Missing` is an item pointer that is null, which the writer allows in an object. */
  datatype Value =
    | Missing
    | Null
    | Bool(b: bool)
    | Int(i: int)
    | Float(literal: string)
    | Str(s: string)
    | Arr(items: seq<Value>)
    | Obj(members: seq<Pair>)

  datatype Pair = Pair(key: string, value: Value)

  /** What a tree of the reader holds. */
  function Erase(v: R.Node): Value {
    match v
    case Null(_) => Null
    case Bool(_, b) => Bool(b)
    case Int(_, i) => Int(i)
    case Float(_, literal) => Float(literal)
    case Str(_, _, s) => Str(s)
    case Arr(_, items) => Arr(EraseItems(items))
    case Obj(_, members) => Obj(EraseMembers(members))
  }

  function EraseItems(items: seq<R.Item>): seq<Value> {
    if items == [] then [] else [EraseItem(items[0])] + EraseItems(items[1..])
  }

  function EraseItem(i: R.Item): Value {
    match i
    case Item(_, node) => Erase(node)
  }

  function EraseMembers(members: seq<R.Member>): seq<Pair> {
    if members == [] then [] else [EraseMember(members[0])] + EraseMembers(members[1..])
  }

  function EraseMember(m: R.Member): Pair {
    match m
    case Member(_, _, key, node) => Pair(key, Erase(node))
  }

  lemma EraseConsItem(i: R.Item, rest: seq<R.Item>)
    ensures EraseItems([i] + rest) == [EraseItem(i)] + EraseItems(rest)
  {
    assert ([i] + rest)[1..] == rest;
  }

  lemma EraseConsMember(m: R.Member, rest: seq<R.Member>)
    ensures EraseMembers([m] + rest) == [EraseMember(m)] + EraseMembers(rest)
  {
    assert ([m] + rest)[1..] == rest;
  }
}
