/** Child lists of cJSON items: doubly linked, with the head's prev pointing at the tail. */
module ItemList {
  import opened Bytes

  datatype Kind = IsNull | IsFalse | IsTrue | IsNumber | IsString | IsArray | IsObject

  class Item {
    var next: Item?
    var prev: Item?
    var child: Item?
    var kind: Kind
    var number: real
    var integer: int
    var text: CString
    var name: CString

    /** cJSON_New_Item: everything zero. */
    constructor (kind: Kind)
      ensures next == prev == child == null
      ensures this.kind == kind && number == 0.0 && integer == 0 && text == [] && name == []
    {
      next, prev, child := null, null, null;
      this.kind, number, integer, text, name := kind, 0.0, 0, [], [];
    }
  }

  /** The children of parent are exactly items, in this order. */
  ghost predicate Linked(parent: Item, items: seq<Item>)
    reads parent`child, items`next, items`prev
  {
    && parent !in items
    && (forall i, j :: 0 <= i < j < |items| ==> items[i] != items[j])
    && parent.child == (if items == [] then null else items[0])
    && (forall i :: 0 <= i < |items| ==> Link(items, i))
  }

  /** The links of the sibling at i: forward to the next one, back to the one before, from the head to the tail. */
  ghost predicate Link(items: seq<Item>, i: nat)
    requires i < |items|
    reads items`next, items`prev
  {
    && items[i].next == (if i + 1 < |items| then items[i + 1] else null)
    && items[i].prev == items[if i == 0 then |items| - 1 else i - 1]
  }

  ghost function Opt(x: Item?): set<Item> {
    if x == null then {} else {x}
  }

  /** get_array_item */
  method GetArrayItem(parent: Item?, index: nat, ghost items: seq<Item>) returns (r: Item?)
    requires parent != null ==> Linked(parent, items)
    ensures r == if parent != null && index < |items| then items[index] else null
  {
    if parent == null {
      return null;
    }
    r := parent.child;
    var left := index;
    ghost var k := 0;
    while r != null && left > 0
      invariant left == index - k && 0 <= k <= |items|
      invariant r == if k < |items| then items[k] else null
      decreases left
    {
      assert Link(items, k);
      left := left - 1;
      r := r.next;
      k := k + 1;
    }
  }

  /** A conversion to int, which keeps the lower 32 bits. */
  function ToInt(n: nat): (i: int)
    ensures n < 0x8000_0000 ==> i == n
  {
    (n + 0x8000_0000) % 0x1_0000_0000 - 0x8000_0000
  }

  /** cJSON_GetArraySize, whose count runs over beyond INT_MAX. */
  method GetArraySize(parent: Item?, ghost items: seq<Item>) returns (n: int)
    requires parent != null ==> Linked(parent, items)
    ensures n == if parent == null then 0 else ToInt(|items|)
  {
    if parent == null {
      return 0;
    }
    var child, size := parent.child, 0;
    while child != null
      invariant 0 <= size <= |items| && child == if size < |items| then items[size] else null
      decreases |items| - size
    {
      assert Link(items, size);
      size := size + 1;
      child := child.next;
    }
    return ToInt(size);
  }

  /**
   * add_item_to_array. The item ends up behind the others exactly when it came without a successor
   * or the list was empty: its next link is only cleared in an empty list.
   */
  method AddItemToArray(parent: Item?, item: Item?, ghost items: seq<Item>) returns (ok: bool)
    requires parent != null ==> Linked(parent, items) && item !in items
    modifies Opt(parent)`child, Opt(item)`next, Opt(item)`prev, items`next, items`prev
    ensures ok <==> parent != null && item != null && parent != item
    ensures ok ==> (Linked(parent, items + [item]) <==> items == [] || old(item.next) == null)
    ensures ok && items != [] ==>
      parent.child == items[0] && items[|items| - 1].next == item && item.next == old(item.next)
    ensures !ok && parent != null ==> Linked(parent, items)
  {
    if item == null || parent == null || parent == item {
      return false;
    }
    var child := parent.child;
    if items != [] {
      Neighbours(parent, items, 0);
      Neighbours(parent, items, |items| - 1);
    }
    if child == null {
      parent.child := item;
      item.prev := item;
      item.next := null;
    } else if child.prev != null {
      child.prev.next := item;
      item.prev := child.prev;
      parent.child.prev := item;
    }
    ghost var now := items + [item];
    if items == [] || old(item.next) == null {
      forall i | 0 <= i < |now|
        ensures Link(now, i)
      {
        assert i < |items| ==> old(Link(items, i));
      }
    } else {
      assert !Link(now, |now| - 1);
    }
    return true;
  }

  /** Appending an item that has a successor to a list that is not empty draws the successor in. */
  method AppendDraws() returns (parent: Item, first: Item, item: Item, extra: Item)
    ensures parent.child == first && first.next == item && item.next == extra && extra != first
    ensures !Linked(parent, [first, item])
  {
    parent := new Item(IsArray);
    first := new Item(IsNull);
    item := new Item(IsNull);
    extra := new Item(IsNull);
    var ok := AddItemToArray(parent, first, []);
    assert [] + [first] == [first];
    item.next := extra;
    ok := AddItemToArray(parent, item, [first]);
    assert !Link([first, item], 1);
  }

  /** cJSON_DetachItemViaPointer of the child at k. */
  method DetachItemViaPointer(parent: Item?, item: Item?, ghost items: seq<Item>, ghost k: nat) returns (r: Item?)
    requires parent != null ==> Linked(parent, items)
    requires parent != null && item != null ==> k < |items| && items[k] == item
    modifies Opt(parent)`child, items`next, items`prev
    ensures r == if parent == null then null else item
    ensures r != null ==> Linked(parent, items[..k] + items[k + 1..]) && r.next == null && r.prev == null
    ensures r == null && parent != null ==> Linked(parent, items)
  {
    if parent == null || item == null {
      return null;
    }
    ghost var now := items[..k] + items[k + 1..];
    Neighbours(parent, items, k);
    if item != parent.child {
      item.prev.next := item.next;
    }
    if item.next != null {
      item.next.prev := item.prev;
    }
    if item == parent.child {
      parent.child := item.next;
    } else if item.next == null {
      parent.child.prev := item.prev;
    }
    item.prev := null;
    item.next := null;
    forall i | 0 <= i < |now|
      ensures Link(now, i)
    {
      assert old(Link(items, if i < k then i else i + 1));
    }
    return item;
  }

  /** What the links of the child at k point at. */
  lemma Neighbours(parent: Item, items: seq<Item>, k: nat)
    requires Linked(parent, items) && k < |items|
    ensures items[k] == parent.child <==> k == 0
    ensures items[k].prev == items[if k == 0 then |items| - 1 else k - 1]
    ensures items[k].next == if k + 1 < |items| then items[k + 1] else null
  {
    assert Link(items, k);
  }

  /**
   * cJSON_InsertItemInArray in front of the child at which, or behind all of them. That a list is not
   * inserted into itself is looked at behind all of them only.
   */
  method InsertItemInArray(parent: Item?, which: int, item: Item?, ghost items: seq<Item>) returns (ok: bool)
    requires parent != null ==> Linked(parent, items) && item !in items
    modifies Opt(parent)`child, Opt(item)`next, Opt(item)`prev, items`next, items`prev
    ensures ok <==> parent != null && item != null && which >= 0 && (parent != item || which < |items|)
    ensures ok && which < |items| ==> (Linked(parent, items[..which] + [item] + items[which..]) <==> parent != item)
    ensures ok && which >= |items| ==> (Linked(parent, items + [item]) <==> items == [] || old(item.next) == null)
    ensures !ok && parent != null ==> Linked(parent, items)
  {
    if which < 0 || item == null {
      return false;
    }
    var after := GetArrayItem(parent, which, items);
    if after == null {
      ok := AddItemToArray(parent, item, items);
      return;
    }
    Neighbours(parent, items, which);
    if after != parent.child && after.prev == null {
      return false;
    }
    LinkBefore(parent, after, item, items, which);
    assert (items[..which] + [item] + items[which..])[which] == item;
    ok := true;
  }

  /** Links item in front of the child at which. */
  method LinkBefore(parent: Item, after: Item, item: Item, ghost items: seq<Item>, ghost which: nat)
    requires Linked(parent, items) && which < |items| && after == items[which]
    requires item !in items
    modifies parent`child, item`next, item`prev, items`next, items`prev
    ensures item != parent ==> Linked(parent, items[..which] + [item] + items[which..])
  {
    Neighbours(parent, items, which);
    ghost var now := items[..which] + [item] + items[which..];
    item.next := after;
    item.prev := after.prev;
    after.prev := item;
    if after == parent.child {
      parent.child := item;
    } else {
      item.prev.next := item;
    }
    forall i | 0 <= i < |now| && item != parent
      ensures Link(now, i)
    {
      if i != which {
        assert old(Link(items, if i < which then i else i - 1));
      }
    }
  }

  /** cJSON_ReplaceItemViaPointer of the child at k; the old item leaves without links. */
  method ReplaceItemViaPointer(parent: Item?, item: Item?, replacement: Item?, ghost items: seq<Item>, ghost k: nat)
    returns (ok: bool)
    requires parent != null ==> Linked(parent, items)
    requires parent != null && item != null ==> k < |items| && items[k] == item
    requires replacement != null ==> replacement != parent && (replacement !in items || replacement == item)
    modifies Opt(parent)`child, Opt(replacement)`next, Opt(replacement)`prev, items`next, items`prev
    ensures ok <==> parent != null && item != null && replacement != null
    ensures ok ==> Linked(parent, items[k := replacement])
    ensures ok && replacement != item ==> item.next == null && item.prev == null
    ensures !ok && parent != null ==> Linked(parent, items)
  {
    if parent == null || parent.child == null || replacement == null || item == null {
      return false;
    }
    if replacement == item {
      assert items[k := replacement] == items;
      return true;
    }
    Neighbours(parent, items, k);
    replacement.next := item.next;
    replacement.prev := item.prev;
    if replacement.next != null {
      replacement.next.prev := replacement;
    }
    if parent.child == item {
      if parent.child.prev == parent.child {
        replacement.prev := replacement;
      }
      parent.child := replacement;
    } else {
      if replacement.prev != null {
        replacement.prev.next := replacement;
      }
      if replacement.next == null {
        parent.child.prev := replacement;
      }
    }
    item.next := null;
    item.prev := null;
    ghost var now := items[k := replacement];
    forall i | 0 <= i < |now|
      ensures Link(now, i)
    {
      assert old(Link(items, i));
    }
    ok := true;
  }

  /** Detaching a child and inserting it again at its place restores the list. */
  method DetachAndReinsert(parent: Item, which: nat, ghost items: seq<Item>)
    requires Linked(parent, items) && which < |items|
    modifies parent`child, items`next, items`prev
    ensures Linked(parent, items)
  {
    var item := GetArrayItem(parent, which, items);
    item := DetachItemViaPointer(parent, item, items, which);
    ghost var rest := items[..which] + items[which + 1..];
    assert rest[..which] + [item] + rest[which..] == items;
    assert which == |rest| ==> rest + [item] == items;
    var ok := InsertItemInArray(parent, which, item, rest);
  }
}
