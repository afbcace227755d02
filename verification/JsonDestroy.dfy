/** `mangoh_bridge_json_destroy` at work: it pops the lists of a tree until they are empty. */
module JsonDestroy {
  import opened JsonReader
  import opened JsonBlocks

  /** The blocks released, in order. */
  method Destroy(v: Node) returns (freed: seq<nat>)
    ensures freed == Destroyed(v)
    decreases v
  {
    match v
    case Str(id, buffer, _) => freed := [buffer, id];
    case Arr(id, items) =>
      freed := [];
      var list := items;
      ghost var popped := 0;
      while list != []
        invariant popped <= |items| && list == items[popped..]
        invariant freed + DestroyedItems(list) == DestroyedItems(items)
        decreases |list|
      {
        PopItem(freed, list);
        var item := list[0];
        list := list[1..];
        popped := popped + 1;
        assert item == items[popped - 1];
        var inner := DestroyItem(item);
        freed := freed + inner;
      }
      assert freed + [] == freed;
      freed := freed + [id];
    case Obj(id, members) =>
      freed := [];
      var list := members;
      ghost var popped := 0;
      while list != []
        invariant popped <= |members| && list == members[popped..]
        invariant freed + DestroyedMembers(list) == DestroyedMembers(members)
        decreases |list|
      {
        PopMember(freed, list);
        var member := list[0];
        list := list[1..];
        popped := popped + 1;
        assert member == members[popped - 1];
        var inner := DestroyMember(member);
        freed := freed + inner;
      }
      assert freed + [] == freed;
      freed := freed + [id];
    case _ => freed := [v.id];
  }

  method DestroyItem(item: Item) returns (freed: seq<nat>)
    ensures freed == DestroyedItem(item)
    decreases item
  {
    match item
    case Item(link, node) =>
      var inner := Destroy(node);
      freed := inner + [link];
  }

  method DestroyMember(member: Member) returns (freed: seq<nat>)
    ensures freed == DestroyedMember(member)
    decreases member
  {
    match member
    case Member(link, attribute, _, node) =>
      var inner := Destroy(node);
      freed := [attribute] + inner + [link];
  }

  lemma PopItem(freed: seq<nat>, list: seq<Item>)
    requires list != []
    ensures freed + DestroyedItems(list) == freed + DestroyedItem(list[0]) + DestroyedItems(list[1..])
  {
  }

  lemma PopMember(freed: seq<nat>, list: seq<Member>)
    requires list != []
    ensures freed + DestroyedMembers(list) == freed + DestroyedMember(list[0]) + DestroyedMembers(list[1..])
  {
  }
}
