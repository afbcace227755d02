/** In which order destroying a tree releases its blocks: none before the pointers to others in it have been followed. */
module JsonOrder {
  import opened JsonReader
  import opened JsonBlocks

  /** `x` is released before `y`. */
  ghost predicate Before(s: seq<nat>, x: nat, y: nat) { exists i, j :: 0 <= i < j < |s| && s[i] == x && s[j] == y }

  /** All of some blocks are. */
  ghost predicate AllBefore(s: seq<nat>, xs: multiset<nat>, y: nat) { forall x :: x in xs ==> Before(s, x, y) }

  /** A block is. */
  ghost predicate BeforeAll(s: seq<nat>, x: nat, ys: multiset<nat>) { forall y :: y in ys ==> Before(s, x, y) }

  ghost predicate EachBefore(s: seq<nat>, xs: multiset<nat>, ys: multiset<nat>) {
    forall x, y :: x in xs && y in ys ==> Before(s, x, y)
  }

  /** The blocks below a node: all that is reached through its own block. */
  function Below(v: Node): multiset<nat> {
    match v
    case Str(_, buffer, _) => multiset{buffer}
    case Arr(_, items) => ItemIds(items)
    case Obj(_, members) => MemberIds(members)
    case _ => multiset{}
  }

  /** At every node of the tree, the block of the node comes behind all blocks below it; the link of an item or a member
      behind all blocks of its value; the key of a member before them; and the items and members are in order. */
  ghost predicate Ordered(v: Node, s: seq<nat>) {
    AllBefore(s, Below(v), v.id) &&
    match v
    case Arr(_, items) => OrderedItems(items, s)
    case Obj(_, members) => OrderedMembers(members, s)
    case _ => true
  }

  ghost predicate OrderedItems(items: seq<Item>, s: seq<nat>) {
    items != [] ==>
      OrderedItem(items[0], s) && OrderedItems(items[1..], s) && EachBefore(s, OneItemIds(items[0]), ItemIds(items[1..]))
  }

  ghost predicate OrderedItem(i: Item, s: seq<nat>) {
    match i
    case Item(link, node) => Ordered(node, s) && AllBefore(s, Ids(node), link)
  }

  ghost predicate OrderedMembers(members: seq<Member>, s: seq<nat>) {
    members != [] ==>
      OrderedMember(members[0], s) && OrderedMembers(members[1..], s) && EachBefore(s, OneMemberIds(members[0]), MemberIds(members[1..]))
  }

  ghost predicate OrderedMember(m: Member, s: seq<nat>) {
    match m
    case Member(link, attribute, _, node) =>
      Ordered(node, s) && AllBefore(s, Ids(node), link) && BeforeAll(s, attribute, Ids(node)) && Before(s, attribute, link)
  }

  // Order survives what is released before and behind.

  lemma Wider(a: seq<nat>, s: seq<nat>, b: seq<nat>, x: nat, y: nat)
    requires Before(s, x, y)
    ensures Before(a + s + b, x, y)
  {
    var i, j :| 0 <= i < j < |s| && s[i] == x && s[j] == y;
    var t := a + s + b;
    assert t[|a| + i] == x && t[|a| + j] == y;
  }

  lemma AllWider(a: seq<nat>, s: seq<nat>, b: seq<nat>, xs: multiset<nat>, y: nat)
    requires AllBefore(s, xs, y)
    ensures AllBefore(a + s + b, xs, y)
  {
    forall x | x in xs ensures Before(a + s + b, x, y) {
      Wider(a, s, b, x, y);
    }
  }

  lemma EachWider(a: seq<nat>, s: seq<nat>, b: seq<nat>, xs: multiset<nat>, ys: multiset<nat>)
    requires EachBefore(s, xs, ys)
    ensures EachBefore(a + s + b, xs, ys)
  {
    forall x, y | x in xs && y in ys ensures Before(a + s + b, x, y) {
      Wider(a, s, b, x, y);
    }
  }

  lemma {:induction false} OrderedWider(v: Node, a: seq<nat>, s: seq<nat>, b: seq<nat>)
    requires Ordered(v, s)
    ensures Ordered(v, a + s + b)
    decreases v
  {
    hide AllBefore, BeforeAll, Ids, Below, ItemIds, MemberIds;
    AllWider(a, s, b, Below(v), v.id);
    match v
    case Arr(_, items) => ItemsWider(items, a, s, b);
    case Obj(_, members) => MembersWider(members, a, s, b);
    case _ =>
  }

  lemma {:induction false} ItemsWider(items: seq<Item>, a: seq<nat>, s: seq<nat>, b: seq<nat>)
    requires OrderedItems(items, s)
    ensures OrderedItems(items, a + s + b)
    decreases items
  {
    hide OrderedItem, EachBefore, OneItemIds, ItemIds;
    if items != [] {
      EachWider(a, s, b, OneItemIds(items[0]), ItemIds(items[1..]));
      ItemWider(items[0], a, s, b);
      ItemsWider(items[1..], a, s, b);
    }
  }

  lemma {:induction false} ItemWider(i: Item, a: seq<nat>, s: seq<nat>, b: seq<nat>)
    requires OrderedItem(i, s)
    ensures OrderedItem(i, a + s + b)
    decreases i
  {
    match i
    case Item(link, node) =>
      hide Ordered, AllBefore, Ids;
      OrderedWider(node, a, s, b);
      AllWider(a, s, b, Ids(node), link);
  }

  lemma {:induction false} MembersWider(members: seq<Member>, a: seq<nat>, s: seq<nat>, b: seq<nat>)
    requires OrderedMembers(members, s)
    ensures OrderedMembers(members, a + s + b)
    decreases members
  {
    hide OrderedMember, EachBefore, OneMemberIds, MemberIds;
    if members != [] {
      EachWider(a, s, b, OneMemberIds(members[0]), MemberIds(members[1..]));
      MemberWider(members[0], a, s, b);
      MembersWider(members[1..], a, s, b);
    }
  }

  lemma {:induction false} MemberWider(m: Member, a: seq<nat>, s: seq<nat>, b: seq<nat>)
    requires OrderedMember(m, s)
    ensures OrderedMember(m, a + s + b)
    decreases m
  {
    match m
    case Member(link, attribute, _, node) =>
      hide Ordered, AllBefore, Before, Ids;
      OrderedWider(node, a, s, b);
      AllWider(a, s, b, Ids(node), link);
      Wider(a, s, b, attribute, link);
      forall y | y in Ids(node) ensures Before(a + s + b, attribute, y) {
        Wider(a, s, b, attribute, y);
      }
  }

  // The order of a destroy.

  lemma Precedes(a: seq<nat>, b: seq<nat>, x: nat, y: nat)
    requires x in a && y in b
    ensures Before(a + b, x, y)
  {
    var i :| 0 <= i < |a| && a[i] == x;
    var j :| 0 <= j < |b| && b[j] == y;
    assert (a + b)[i] == x && (a + b)[|a| + j] == y;
  }

  lemma EachPrecede(a: seq<nat>, b: seq<nat>)
    ensures EachBefore(a + b, multiset(a), multiset(b))
  {
    forall x, y | x in multiset(a) && y in multiset(b) ensures Before(a + b, x, y) {
      Precedes(a, b, x, y);
    }
  }

  lemma AllPrecede(a: seq<nat>, y: nat)
    ensures AllBefore(a + [y], multiset(a), y)
  {
    forall x | x in multiset(a) ensures Before(a + [y], x, y) {
      Precedes(a, [y], x, y);
    }
  }

  /** Destroying a tree keeps the order at every node of it. */
  lemma {:induction false} DestroyedInOrder(v: Node)
    ensures Ordered(v, Destroyed(v))
    decreases v
  {
    hide AllBefore, Ids, ItemIds, MemberIds, DestroyedItems, DestroyedMembers;
    match v
    case Str(id, buffer, _) =>
      AllPrecede([buffer], id);
      assert [buffer] + [id] == [buffer, id];
    case Arr(id, items) =>
      ItemsInOrder(items);
      DestroyedItemIds(items);
      AllPrecede(DestroyedItems(items), id);
      ItemsWider(items, [], DestroyedItems(items), [id]);
      assert [] + DestroyedItems(items) + [id] == Destroyed(v);
    case Obj(id, members) =>
      MembersInOrder(members);
      DestroyedMemberIds(members);
      AllPrecede(DestroyedMembers(members), id);
      MembersWider(members, [], DestroyedMembers(members), [id]);
      assert [] + DestroyedMembers(members) + [id] == Destroyed(v);
    case _ => NothingBefore(v);
  }

  lemma NothingBefore(v: Node)
    ensures AllBefore(Destroyed(v), multiset{}, v.id)
  {
  }

  lemma {:induction false} ItemsInOrder(items: seq<Item>)
    ensures OrderedItems(items, DestroyedItems(items))
    decreases items
  {
    hide OrderedItem, DestroyedItem, EachBefore, OneItemIds, ItemIds;
    if items != [] {
      var first, rest := DestroyedItem(items[0]), DestroyedItems(items[1..]);
      ItemInOrder(items[0]);
      ItemsInOrder(items[1..]);
      ItemWider(items[0], [], first, rest);
      ItemsWider(items[1..], first, rest, []);
      DestroyedOneItem(items[0]);
      DestroyedItemIds(items[1..]);
      EachPrecede(first, rest);
      assert [] + first + rest == DestroyedItems(items) && first + rest + [] == DestroyedItems(items);
    }
  }

  lemma {:induction false} ItemInOrder(i: Item)
    ensures OrderedItem(i, DestroyedItem(i))
    decreases i
  {
    match i
    case Item(link, node) =>
      hide Ordered, AllBefore, Ids, Destroyed;
      DestroyedInOrder(node);
      DestroyedIds(node);
      AllPrecede(Destroyed(node), link);
      OrderedWider(node, [], Destroyed(node), [link]);
      assert [] + Destroyed(node) + [link] == Destroyed(node) + [link];
  }

  lemma {:induction false} MembersInOrder(members: seq<Member>)
    ensures OrderedMembers(members, DestroyedMembers(members))
    decreases members
  {
    hide OrderedMember, DestroyedMember, EachBefore, OneMemberIds, MemberIds;
    if members != [] {
      var first, rest := DestroyedMember(members[0]), DestroyedMembers(members[1..]);
      MemberInOrder(members[0]);
      MembersInOrder(members[1..]);
      MemberWider(members[0], [], first, rest);
      MembersWider(members[1..], first, rest, []);
      DestroyedOneMember(members[0]);
      DestroyedMemberIds(members[1..]);
      EachPrecede(first, rest);
      assert [] + first + rest == DestroyedMembers(members) && first + rest + [] == DestroyedMembers(members);
    }
  }

  lemma {:induction false} MemberInOrder(m: Member)
    ensures OrderedMember(m, DestroyedMember(m))
    decreases m
  {
    match m
    case Member(link, attribute, _, node) =>
      hide Ordered, AllBefore, Before, Ids, Destroyed;
      var inner := Destroyed(node);
      DestroyedInOrder(node);
      DestroyedIds(node);
      OrderedWider(node, [attribute], inner, [link]);
      AllPrecede(inner, link);
      AllWider([attribute], inner + [link], [], Ids(node), link);
      assert [attribute] + (inner + [link]) + [] == [attribute] + inner + [link];
      forall y | y in multiset(inner + [link]) ensures Before([attribute] + inner + [link], attribute, y) {
        Precedes([attribute], inner + [link], attribute, y);
        assert [attribute] + (inner + [link]) == [attribute] + inner + [link];
      }
      assert link in inner + [link];
      forall y | y in Ids(node) ensures Before([attribute] + inner + [link], attribute, y) {
        assert y in multiset(inner);
        assert y in inner + [link];
      }
  }

  /** In a sequence in which both stand once, this is the order of their only places. */
  lemma OnlyPlaces(s: seq<nat>, x: nat, y: nat, i: nat, j: nat)
    requires Before(s, x, y) && multiset(s)[x] == 1 && multiset(s)[y] == 1
    requires i < |s| && j < |s| && s[i] == x && s[j] == y
    ensures i < j
  {
    var k, l :| 0 <= k < l < |s| && s[k] == x && s[l] == y;
    OncePlace(s, x, i, k);
    OncePlace(s, y, j, l);
  }

  lemma OncePlace(s: seq<nat>, x: nat, i: nat, k: nat)
    requires multiset(s)[x] == 1 && i < |s| && k < |s| && s[i] == x && s[k] == x
    ensures i == k
  {
    if i < k {
      Twice(s, i, k);
    } else if k < i {
      Twice(s, k, i);
    }
  }

  lemma Twice(s: seq<nat>, i: nat, k: nat)
    requires i < k < |s| && s[i] == s[k]
    ensures multiset(s)[s[i]] >= 2
  {
    assert s == s[..k] + [s[k]] + s[k + 1..];
    assert s[..k][i] == s[i];
    assert s[i] in multiset(s[..k]);
  }

  /** Every tree that a read returns has each of its blocks once: destroying it releases the block of each node behind
      every block below that node. */
  lemma ReadDestroysInOrder(b: string, i: nat, j: nat)
    requires NoTrailingSlash(b) && JsonRead(b).Ok?
    requires var s, v := Destroyed(JsonRead(b).node), JsonRead(b).node;
             i < |s| && j < |s| && s[i] in Below(v) && s[j] == v.id
    ensures Ordered(JsonRead(b).node, Destroyed(JsonRead(b).node))
    ensures i < j
  {
    var v := JsonRead(b).node;
    var s := Destroyed(v);
    DestroyedInOrder(v);
    assert Before(s, s[i], v.id);
    ReadThenDestroy(b);
    RangeOnce(0, JsonRead(b).heap.next, s[i]);
    RangeOnce(0, JsonRead(b).heap.next, s[j]);
    assert s[i] in multiset(s) && s[j] in multiset(s);
    OnlyPlaces(s, s[i], s[j], i, j);
  }
}
