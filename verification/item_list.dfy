/**
 The sibling lists of cJSON items, as linked on the heap: `next` and `prev` between
 siblings, `child` at the parent, and the first child's `prev` pointing at the last
 (FederatedLearningServer/src/cJSON.c:1851-1868, 1956-1987, 2187-2226, 2256-2339).
 */
module ItemList {

  function NextIn(kids: seq<Item>, i: nat): Item?
    requires i < |kids|
  {
    if i == |kids| - 1 then null else kids[i + 1]
  }

  function PrevIn(kids: seq<Item>, i: nat): Item?
    requires i < |kids|
  {
    if i == 0 then kids[|kids| - 1] else kids[i - 1]
  }

  /** The links of position `i` of a list. */
  ghost predicate LinkedAt(kids: seq<Item>, i: nat)
    requires i < |kids|
    reads kids
  {
    kids[i].next == NextIn(kids, i) && kids[i].prev == PrevIn(kids, i)
  }

  predicate Distinct(kids: seq<Item>) {
    forall i, j :: 0 <= i < j < |kids| ==> kids[i] != kids[j]
  }

  function Present(item: Item?): set<Item> {
    if item == null then {} else {item}
  }

  /** The fields of an item that copying takes over. */
  datatype Content = Content(
    kind: int,
    isReference: bool,
    nameIsConst: bool,
    valueint: int,
    valuedouble: real,
    valuestring: seq<int>,
    name: seq<int>)

  class Item {
    const content: Content
    var next: Item?
    var prev: Item?
    var child: Item?
    /** The children in order. */
    ghost var kids: seq<Item>

    constructor (content: Content)
      ensures this.content == content && next == null && prev == null && child == null && kids == []
    {
      this.content := content;
      next := null;
      prev := null;
      child := null;
      kids := [];
    }

    /** The list that hangs off this item is the sequence `kids`. */
    ghost predicate Linked()
      reads this`child, this`kids, kids
    {
      && this !in kids
      && Distinct(kids)
      && child == (if kids == [] then null else kids[0])
      && (forall i :: 0 <= i < |kids| ==> LinkedAt(kids, i))
    }

    /** The list begins at `child` and ends, `next` and `prev` undo each other inside it, and
        `prev` of the first item is the last one. */
    lemma LinksAre()
      requires Linked()
      ensures child == null <==> kids == []
      ensures kids != [] ==> child == kids[0] && child.prev == kids[|kids| - 1] && child.prev.next == null
      ensures forall i :: 1 <= i < |kids| ==> kids[i - 1].next == kids[i] && kids[i].prev == kids[i - 1]
    {
      assert kids != [] ==> LinkedAt(kids, 0) && LinkedAt(kids, |kids| - 1);
      forall i | 1 <= i < |kids| ensures kids[i - 1].next == kids[i] && kids[i].prev == kids[i - 1] {
        assert LinkedAt(kids, i - 1) && LinkedAt(kids, i);
      }
    }

    /** `get_array_item`. */
    method GetArrayItem(index: nat) returns (item: Item?)
      requires Linked()
      ensures item == if index < |kids| then kids[index] else null
    {
      item := child;
      var left := index;
      ghost var at := 0;
      while item != null && left > 0
        invariant 0 <= left && at + left == index && at <= |kids|
        invariant item == if at < |kids| then kids[at] else null
        decreases left
      {
        assert LinkedAt(kids, at);
        left := left - 1;
        item := item.next;
        at := at + 1;
      }
    }

    /** `add_item_to_array`: the item must not be in a list. */
    method AddItemToArray(item: Item?) returns (ok: bool)
      requires Linked() && item !in kids && (item != null ==> item.next == null)
      modifies this`child, this`kids, kids`next, kids`prev, Present(item)`prev, Present(item)`next
      ensures Linked() && ok == (item != null && item != this)
      ensures kids == if ok then old(kids) + [item] else old(kids)
    {
      if item == null || this == item {
        return false;
      }
      ghost var ks := kids;
      if child == null {
        child := item;
        item.prev := item;
        item.next := null;
      } else {
        assert LinkedAt(ks, 0) && LinkedAt(ks, |ks| - 1);
        if child.prev != null {
          child.prev.next := item;
          item.prev := child.prev;
          child.prev := item;
        }
      }
      kids := kids + [item];
      forall i | 0 <= i < |kids| ensures LinkedAt(kids, i) {
        assert i < |ks| ==> old(LinkedAt(ks, i));
      }
      return true;
    }

    /** `cJSON_InsertItemInArray`: before the item at `which`, or at the end. */
    method InsertItemInArray(which: int, newItem: Item) returns (ok: bool)
      requires Linked() && newItem !in kids && newItem.next == null && (newItem == this ==> which >= |kids|)
      modifies this`child, this`kids, kids`next, kids`prev, newItem`prev, newItem`next
      ensures Linked() && ok == (which >= 0 && newItem != this)
      ensures var at := if which < |old(kids)| then which else |old(kids)|;
              kids == if ok then old(kids)[..at] + [newItem] + old(kids)[at..] else old(kids)
    {
      if which < 0 {
        return false;
      }
      ghost var ks := kids;
      var after := GetArrayItem(which);
      if after == null {
        ok := AddItemToArray(newItem);
        assert ks[..|ks|] + [newItem] + ks[|ks|..] == ks + [newItem];
        return;
      }
      InsertBefore(after, newItem, which);
      return true;
    }

    /** The linking of the new item in front of a child. */
    method InsertBefore(after: Item, newItem: Item, ghost which: nat)
      requires Linked() && which < |kids| && kids[which] == after && newItem !in kids && newItem != this
      modifies this`child, this`kids, kids`next, kids`prev, newItem`prev, newItem`next
      ensures Linked() && kids == old(kids)[..which] + [newItem] + old(kids)[which..]
    {
      ghost var ks := kids;
      assert LinkedAt(ks, which);
      newItem.next := after;
      newItem.prev := after.prev;
      after.prev := newItem;
      if after == child {
        child := newItem;
      } else {
        newItem.prev.next := newItem;
      }
      kids := kids[..which] + [newItem] + kids[which..];
      forall i | 0 <= i < |kids| ensures LinkedAt(kids, i) {
        assert i < which ==> old(LinkedAt(ks, i));
        assert i > which ==> old(LinkedAt(ks, i - 1));
      }
    }

    /** The neighbours of a child are linked to each other. */
    method Bypass(item: Item, ghost at: nat)
      requires Linked() && at < |kids| && kids[at] == item
      modifies this`child, kids`next, kids`prev
      ensures var rest := kids[..at] + kids[at + 1..];
              && child == (if rest == [] then null else rest[0])
              && forall i :: 0 <= i < |rest| ==> LinkedAt(rest, i)
    {
      ghost var ks := kids;
      assert LinkedAt(ks, at) && LinkedAt(ks, 0);
      if item != child {
        item.prev.next := item.next;
      }
      if item.next != null {
        item.next.prev := item.prev;
      }
      if item == child {
        child := item.next;
      } else if item.next == null {
        child.prev := item.prev;
      }
      ghost var rest := ks[..at] + ks[at + 1..];
      forall i | 0 <= i < |rest| ensures LinkedAt(rest, i) {
        assert old(LinkedAt(ks, if i < at then i else i + 1));
      }
    }

    /** `cJSON_DetachItemViaPointer`: takes a child out of the list. */
    method DetachItemViaPointer(item: Item?, ghost at: nat) returns (detached: Item?)
      requires Linked() && (item != null ==> at < |kids| && kids[at] == item)
      modifies this`child, this`kids, kids`next, kids`prev
      ensures Linked() && detached == item
      ensures kids == if item == null then old(kids) else old(kids)[..at] + old(kids)[at + 1..]
      ensures item != null ==> item.next == null && item.prev == null
    {
      if item == null {
        return null;
      }
      Bypass(item, at);
      label Bypassed:
      item.prev := null;
      item.next := null;
      kids := kids[..at] + kids[at + 1..];
      forall i | 0 <= i < |kids| ensures LinkedAt(kids, i) {
        assert old@Bypassed(LinkedAt(kids[..at] + kids[at + 1..], i));
        assert kids[i] != item;
      }
      return item;
    }

    /** `cJSON_ReplaceItemViaPointer`, before the replaced item is deleted. */
    method ReplaceItemViaPointer(item: Item?, replacement: Item?, ghost at: nat) returns (ok: bool)
      requires Linked() && (item != null ==> at < |kids| && kids[at] == item)
      requires replacement != this && (replacement != item ==> replacement !in kids)
      modifies this`child, this`kids, kids`next, kids`prev, Present(replacement)`next, Present(replacement)`prev
      ensures Linked() && ok == (replacement != null && item != null)
      ensures kids == if ok then old(kids)[at := replacement] else old(kids)
      ensures ok && item != replacement ==> item.next == null && item.prev == null
    {
      if child == null || replacement == null || item == null {
        return false;
      }
      if replacement == item {
        return true;
      }
      ghost var ks := kids;
      assert LinkedAt(ks, at) && LinkedAt(ks, 0);
      replacement.next := item.next;
      replacement.prev := item.prev;
      if replacement.next != null {
        replacement.next.prev := replacement;
      }
      if child == item {
        if child.prev == child {
          replacement.prev := replacement;
        }
        child := replacement;
      } else {
        if replacement.prev != null {
          replacement.prev.next := replacement;
        }
        if replacement.next == null {
          child.prev := replacement;
        }
      }
      item.next := null;
      item.prev := null;
      kids := kids[at := replacement];
      forall i | 0 <= i < |kids| ensures LinkedAt(kids, i) {
        assert old(LinkedAt(ks, i));
      }
      return true;
    }

    /** `cJSON_DetachItemFromArray`. */
    method DetachItemFromArray(which: int) returns (detached: Item?)
      requires Linked()
      modifies this`child, this`kids, kids`next, kids`prev
      ensures Linked() && detached == if 0 <= which < |old(kids)| then old(kids)[which] else null
      ensures kids == if detached == null then old(kids) else old(kids)[..which] + old(kids)[which + 1..]
      ensures detached != null ==> detached.next == null && detached.prev == null
    {
      if which < 0 {
        return null;
      }
      var item := GetArrayItem(which);
      detached := DetachItemViaPointer(item, which);
    }
  }
}
