/**
 * The children of a cJSON array or object: a doubly linked list whose first item may cache the
 * last one in its `prev` pointer. The cache is absent in lists made by cJSON_CreateIntArray and
 * cJSON_Duplicate; where it is present it is right.
 */
module JsonList {

  /** The item an edit puts into the array: a new number, or one that was detached before. */
  datatype Source = New(v: int) | Spare(k: nat)

  /** One edit of an array. */
  datatype Edit =
    | Append(x: Source)
    | Insert(which: int, x: Source)
    | Detach(which: int)
    | Replace(which: int, x: Source)

  /** The values of the array, and of the items that have been detached from it and not been put back. */
  datatype Book = Book(list: seq<int>, spare: seq<int>)

  function Without<T>(s: seq<T>, i: nat): seq<T>
    requires i < |s|
  {
    s[..i] + s[i + 1..]
  }

  function With<T>(s: seq<T>, i: nat, x: T): seq<T> {
    if i < |s| then s[..i] + [x] + s[i..] else s + [x]
  }

  predicate Exists(b: Book, x: Source) {
    x.Spare? ==> x.k < |b.spare|
  }

  function ValueOf(b: Book, x: Source): int
    requires Exists(b, x)
  {
    match x
    case New(v) => v
    case Spare(k) => b.spare[k]
  }

  function SpareWithout(b: Book, x: Source): seq<int>
    requires Exists(b, x)
  {
    match x
    case New(_) => b.spare
    case Spare(k) => Without(b.spare, k)
  }

  /** What an edit does to the values. An edit that is refused changes nothing. */
  function Edited(b: Book, e: Edit): Book {
    match e
    case Append(x) => if Exists(b, x) then Book(b.list + [ValueOf(b, x)], SpareWithout(b, x)) else b
    case Insert(which, x) =>
      if Exists(b, x) && which >= 0 then Book(With(b.list, which, ValueOf(b, x)), SpareWithout(b, x)) else b
    case Detach(which) =>
      if 0 <= which < |b.list| then Book(Without(b.list, which), b.spare + [b.list[which]]) else b
    case Replace(which, x) =>
      if Exists(b, x) && 0 <= which < |b.list| then Book(b.list[which := ValueOf(b, x)], SpareWithout(b, x)) else b
  }

  function EditedAll(b: Book, es: seq<Edit>): Book {
    if |es| == 0 then b else Edited(EditedAll(b, es[..|es| - 1]), es[|es| - 1])
  }

  class Item {
    var next: Item?
    var prev: Item?
    var child: Item?
    var valueint: int
    // the children, first to last
    ghost var kids: seq<Item>

    constructor (value: int)
      ensures Detached() && child == null && kids == [] && valueint == value
    {
      next, prev, child, valueint := null, null, null, value;
      kids := [];
    }

    ghost predicate Detached()
      reads this
    {
      next == null && prev == null
    }

    ghost function Nodes(): set<Item>
      reads this
    {
      set k | k in kids
    }

    /** Matching links both ways, no item twice, and the cached tail absent or right. */
    ghost predicate Valid()
      reads this, kids
    {
      && this !in kids
      && (forall i, j :: 0 <= i < j < |kids| ==> kids[i] != kids[j])
      && child == (if kids == [] then null else kids[0])
      && Linked(kids)
      && (kids != [] ==> kids[0].prev == null || kids[0].prev == kids[|kids| - 1])
    }

    static ghost predicate Linked(s: seq<Item>)
      reads s
    {
      && (forall i {:trigger s[i].next} :: 0 <= i < |s| - 1 ==> s[i].next == s[i + 1])
      && (forall i {:trigger s[i].prev} :: 0 < i < |s| ==> s[i].prev == s[i - 1])
      && (s != [] ==> s[|s| - 1].next == null)
    }

    /** The child at position i, or the null pointer behind the last one. */
    ghost function NodeAt(i: nat): (n: Item?)
      reads this
      ensures n == null <==> i >= |kids|
    {
      if i < |kids| then kids[i] else null
    }

    lemma NextNode(i: nat)
      requires Valid()
      ensures i < |kids| ==> kids[i].next == NodeAt(i + 1)
      ensures NodeAt(i) == null <==> i >= |kids|
    {
    }

    /** Where the links of the child at position i lead. */
    lemma Neighbours(i: nat)
      requires Valid() && i < |kids|
      ensures kids[i] in Nodes() && kids[0] in Nodes() && child == kids[0]
      ensures i + 1 < |kids| ==> kids[i].next == kids[i + 1] && kids[i + 1] in Nodes()
      ensures i + 1 == |kids| ==> kids[i].next == null
      ensures i > 0 ==> kids[i].prev == kids[i - 1] && kids[i - 1] in Nodes() && kids[i] != child
    {
      assert i > 0 ==> kids[i - 1] in kids;
    }

    static ghost function One(item: Item?): set<Item> {
      if item == null then {} else {item}
    }

    /** suffix_object */
    static method SuffixObject(last: Item, item: Item)
      modifies last`next, item`prev
      ensures last.next == item && item.prev == last
    {
      last.next := item;
      item.prev := last;
    }

    /** cJSON_GetArraySize */
    method GetArraySize() returns (size: nat)
      requires Valid()
      ensures size == |kids|
    {
      size := 0;
      var current := child;
      while current != null
        invariant size <= |kids| && current == NodeAt(size)
        decreases |kids| - size
      {
        NextNode(size);
        size := size + 1;
        current := current.next;
      }
    }

    /** get_array_item */
    method GetArrayItem(which: nat) returns (current: Item?)
      requires Valid()
      ensures current == NodeAt(which)
    {
      current := child;
      var index := which;
      while current != null && index > 0
        invariant 0 <= index <= which && current == NodeAt(which - index)
        decreases index
      {
        NextNode(which - index);
        index := index - 1;
        current := current.next;
      }
      NextNode(which - index);
      NextNode(which);
    }

    /** The last item, found through the cache or by walking. */
    method LastItem() returns (last: Item)
      requires Valid() && kids != []
      ensures last == kids[|kids| - 1]
    {
      if child.prev != null {
        last := child.prev;
      } else {
        last := child;
        ghost var i := 0;
        while last.next != null
          invariant i < |kids| && last == kids[i]
          decreases |kids| - i
        {
          NextNode(i);
          last := last.next;
          i := i + 1;
        }
        NextNode(i);
      }
    }

    /** add_item_to_array */
    method AddItemToArray(item: Item?) returns (ok: bool)
      requires Valid()
      requires item != null ==> item.Detached() && item !in kids
      modifies this`child, this`kids, Nodes()`next, Nodes()`prev
      modifies One(item)`next, One(item)`prev
      ensures Valid()
      ensures ok <==> item != null && item != this
      ensures kids == if ok then old(kids) + [item] else old(kids)
    {
      if item == null || item == this {
        return false;
      }
      if child == null {
        child := item;
        item.prev := item;
        item.next := null;
      } else {
        var last := LastItem();
        SuffixObject(last, item);
        child.prev := item;
      }
      kids := kids + [item];
      ok := true;
    }

    /** cJSON_DetachItemViaPointer; `at` is where the item stands. */
    method DetachItemViaPointer(item: Item?, ghost at: nat) returns (detached: Item?)
      requires Valid()
      requires item == NodeAt(at)
      modifies this`child, this`kids, Nodes()`next, Nodes()`prev
      ensures Valid() && detached == item
      ensures item != null ==> item.Detached() && item !in kids
      ensures kids == if item == null then old(kids) else Without(old(kids), at)
    {
      hide Without;
      NextNode(at);
      if item == null {
        return null;
      }
      Neighbours(at);
      if item != child {
        item.prev.next := item.next;
      }
      if item.next != null {
        item.next.prev := item.prev;
      }
      if item == child {
        child := item.next;
      } else if item.next == null {
        child.prev := item.prev;
      }
      item.prev := null;
      item.next := null;
      ghost var was := kids;
      kids := Without(kids, at);
      Spliced(was, at);
      detached := item;
    }

    /** Once the neighbours of an item point past it, the others are a valid list. */
    lemma Spliced(s: seq<Item>, at: nat)
      requires at < |s| && this !in s && kids == Without(s, at)
      requires forall i, j :: 0 <= i < j < |s| ==> s[i] != s[j]
      requires forall i {:trigger s[i].next} :: 0 <= i < |s| - 1 && i != at && i + 1 != at ==> s[i].next == s[i + 1]
      requires forall i {:trigger s[i].prev} :: 0 < i < |s| && i != at && i != at + 1 ==> s[i].prev == s[i - 1]
      requires at > 0 ==> s[at - 1].next == if at + 1 < |s| then s[at + 1] else null
      requires 0 < at < |s| - 1 ==> s[at + 1].prev == s[at - 1]
      requires at + 1 < |s| ==> s[|s| - 1].next == null
      requires child == if |s| == 1 then null else if at == 0 then s[1] else s[0]
      requires at == 0 && |s| > 1 ==> s[1].prev == null || s[1].prev == s[|s| - 1]
      requires at > 0 ==> s[0].prev == null || s[0].prev == s[if at == |s| - 1 then at - 1 else |s| - 1]
      ensures Valid() && s[at] !in kids
    {
      assert forall k {:trigger kids[k]} :: 0 <= k < |kids| ==> kids[k] == s[if k < at then k else k + 1];
      SplicedMembers(s, at);
    }

    static lemma SplicedMembers(s: seq<Item>, at: nat)
      requires at < |s| && forall i, j :: 0 <= i < j < |s| ==> s[i] != s[j]
      ensures forall x :: x in Without(s, at) <==> x in s && x != s[at]
      ensures forall i, j :: 0 <= i < j < |s| - 1 ==> Without(s, at)[i] != Without(s, at)[j]
    {
      var r := Without(s, at);
      assert forall k {:trigger r[k]} :: 0 <= k < |r| ==> r[k] == s[if k < at then k else k + 1];
      forall x | x in s && x != s[at]
        ensures x in r
      {
        var k :| 0 <= k < |s| && s[k] == x;
        assert r[if k < at then k else k - 1] == x;
      }
    }

    /** cJSON_DetachItemFromArray */
    method DetachItemFromArray(which: int) returns (detached: Item?)
      requires Valid()
      modifies this`child, this`kids, Nodes()`next, Nodes()`prev
      ensures Valid()
      ensures detached == if which < 0 then null else old(NodeAt(which))
      ensures detached != null ==> detached.Detached() && detached !in kids
      ensures kids == if 0 <= which < |old(kids)| then Without(old(kids), which) else old(kids)
    {
      if which < 0 {
        return null;
      }
      var item := GetArrayItem(which);
      detached := DetachItemViaPointer(item, which);
    }

    /** cJSON_InsertItemInArray */
    method InsertItemInArray(which: int, newitem: Item) returns (ok: bool)
      requires Valid()
      requires newitem.Detached() && newitem !in kids && newitem != this
      modifies this`child, this`kids, Nodes()`next, Nodes()`prev, newitem`next, newitem`prev
      ensures Valid()
      ensures ok <==> which >= 0
      ensures !ok ==> newitem.Detached()
      ensures kids == if which < 0 then old(kids) else With(old(kids), which, newitem)
    {
      if which < 0 {
        return false;
      }
      var after := GetArrayItem(which);
      if after == null {
        ok := AddItemToArray(newitem);
        return;
      }
      hide Item.Valid;
      LinkBefore(after, which, newitem);
      ok := true;
    }

    /** The second half of cJSON_InsertItemInArray: there is an item at the position. */
    method LinkBefore(after: Item, ghost which: nat, newitem: Item)
      requires Valid() && which < |kids| && after == kids[which]
      requires newitem.Detached() && newitem !in kids && newitem != this
      modifies this`child, this`kids, Nodes()`next, Nodes()`prev, newitem`next, newitem`prev
      ensures Valid() && kids == With(old(kids), which, newitem)
    {
      Neighbours(which);
      newitem.next := after;
      newitem.prev := after.prev;
      after.prev := newitem;
      if after == child {
        child := newitem;
      } else {
        newitem.prev.next := newitem;
      }
      ghost var was := kids;
      kids := With(kids, which, newitem);
      hide Item.Valid;
      Inserted(was, which, newitem);
    }

    /** Once an item and its neighbours point at each other, the list with it is valid. */
    lemma Inserted(s: seq<Item>, at: nat, x: Item)
      requires at < |s| && this !in s && x !in s && x != this && kids == With(s, at, x)
      requires forall i, j :: 0 <= i < j < |s| ==> s[i] != s[j]
      requires forall i {:trigger s[i].next} :: 0 <= i < |s| - 1 && i + 1 != at ==> s[i].next == s[i + 1]
      requires forall i {:trigger s[i].prev} :: 0 < i < |s| && i != at ==> s[i].prev == s[i - 1]
      requires s[|s| - 1].next == null
      requires x.next == s[at] && s[at].prev == x
      requires at > 0 ==> s[at - 1].next == x && x.prev == s[at - 1] && child == s[0]
      requires at > 0 ==> s[0].prev == null || s[0].prev == s[|s| - 1]
      requires at == 0 ==> child == x && (x.prev == null || x.prev == s[|s| - 1])
      ensures Valid()
    {
      assert forall k {:trigger kids[k]} ::
        0 <= k < |kids| ==> kids[k] == if k < at then s[k] else if k == at then x else s[k - 1];
    }

    /** cJSON_ReplaceItemViaPointer */
    method ReplaceItemViaPointer(item: Item?, replacement: Item?, ghost at: nat) returns (ok: bool)
      requires Valid()
      requires item == NodeAt(at)
      requires replacement != null && replacement != item
        ==> replacement.Detached() && replacement !in kids && replacement != this
      modifies this`child, this`kids, Nodes()`next, Nodes()`prev
      modifies One(replacement)`next, One(replacement)`prev
      ensures Valid()
      ensures ok <==> item != null && replacement != null
      ensures kids == if ok then old(kids)[at := replacement] else old(kids)
      ensures ok && replacement != item ==> item.Detached()
      ensures !ok && replacement != null ==> replacement.Detached()
    {
      NextNode(at);
      if replacement == null || item == null {
        return false;
      }
      if replacement == item {
        return true;
      }
      hide Item.Valid;
      Swap(item, replacement, at);
      ok := true;
    }

    /** The second half of cJSON_ReplaceItemViaPointer: two items, one of them in the list. */
    method Swap(item: Item, replacement: Item, ghost at: nat)
      requires Valid() && at < |kids| && item == kids[at]
      requires replacement.Detached() && replacement !in kids && replacement != this
      modifies this`child, this`kids, Nodes()`next, Nodes()`prev, replacement`next, replacement`prev
      ensures Valid() && kids == old(kids)[at := replacement] && item.Detached()
    {
      Neighbours(at);
      replacement.next := item.next;
      replacement.prev := item.prev;
      if replacement.next != null {
        replacement.next.prev := replacement;
      }
      if child == item {
        if child.prev == child {
          replacement.prev := replacement;
        }
        child := replacement;
      } else {
        if replacement.prev != null {
          replacement.prev.next := replacement;
        }
        if replacement.next == null {
          child.prev := replacement;
        }
      }
      item.next := null;
      item.prev := null;
      ghost var was := kids;
      kids := kids[at := replacement];
      hide Item.Valid;
      Swapped(was, at, replacement);
    }

    /** Once an item has the place of another one in all links, the list with it is valid. */
    lemma Swapped(s: seq<Item>, at: nat, x: Item)
      requires at < |s| && this !in s && x !in s && x != this && kids == s[at := x]
      requires forall i, j :: 0 <= i < j < |s| ==> s[i] != s[j]
      requires forall i {:trigger s[i].next} :: 0 <= i < |s| - 1 && i != at && i + 1 != at ==> s[i].next == s[i + 1]
      requires forall i {:trigger s[i].prev} :: 0 < i < |s| && i != at && i != at + 1 ==> s[i].prev == s[i - 1]
      requires at > 0 ==> s[at - 1].next == x && x.prev == s[at - 1] && child == s[0]
      requires at + 1 < |s| ==> x.next == s[at + 1] && s[at + 1].prev == x && s[|s| - 1].next == null
      requires at + 1 == |s| ==> x.next == null
      requires at > 0 ==> s[0].prev == null || s[0].prev == if at + 1 == |s| then x else s[|s| - 1]
      requires at == 0 ==> child == x && (x.prev == null || x.prev == if |s| == 1 then x else s[|s| - 1])
      ensures Valid()
    {
      assert forall k {:trigger kids[k]} :: 0 <= k < |kids| ==> kids[k] == if k == at then x else s[k];
    }

    /** cJSON_ReplaceItemInArray */
    method ReplaceItemInArray(which: int, newitem: Item) returns (ok: bool)
      requires Valid()
      requires newitem.Detached() && newitem !in kids && newitem != this
      modifies this`child, this`kids, Nodes()`next, Nodes()`prev, newitem`next, newitem`prev
      ensures Valid()
      ensures ok <==> 0 <= which < |old(kids)|
      ensures !ok ==> newitem.Detached()
      ensures kids == if ok then old(kids)[which := newitem] else old(kids)
    {
      if which < 0 {
        return false;
      }
      var item := GetArrayItem(which);
      ok := ReplaceItemViaPointer(item, newitem, which);
    }

    /** The values of the children, in order. */
    ghost predicate Shows(vs: seq<int>)
      reads this, kids
    {
      Values(kids, vs)
    }

    static ghost predicate Values(items: seq<Item>, vs: seq<int>)
      reads items
    {
      |vs| == |items| && forall i :: 0 <= i < |vs| ==> items[i].valueint == vs[i]
    }

    /** What the edits of the sequence of items do to the sequence of their values. */
    static lemma EditedValues(items: seq<Item>, vs: seq<int>, i: nat, x: Item)
      requires Values(items, vs)
      ensures Values(items + [x], vs + [x.valueint])
      ensures Values(With(items, i, x), With(vs, i, x.valueint))
      ensures i < |items| ==> Values(Without(items, i), Without(vs, i)) && items[i].valueint == vs[i]
      ensures i < |items| ==> Values(items[i := x], vs[i := x.valueint])
    {
    }

    /** cJSON_CreateIntArray: the list it makes has no cached tail. */
    static method CreateIntArray(numbers: seq<int>) returns (a: Item)
      ensures fresh(a) && fresh(a.kids) && a.Valid() && a.Shows(numbers)
      ensures a.kids != [] ==> a.kids[0].prev == null
    {
      a := new Item(0);
      var p: Item? := null;
      var i := 0;
      while i < |numbers|
        invariant i == |a.kids| <= |numbers| && fresh(a) && fresh(a.kids)
        invariant a.Valid() && a.Shows(numbers[..i])
        invariant if i == 0 then p == null else p == a.kids[i - 1] && a.kids[0].prev == null
      {
        p := a.AddBehind(p, numbers[i], numbers[..i]);
        assert numbers[..i] + [numbers[i]] == numbers[..i + 1];
        i := i + 1;
      }
      assert numbers[..i] == numbers;
    }

    /** One round of the loop of cJSON_CreateIntArray; p is the item made in the round before. */
    method AddBehind(p: Item?, value: int, ghost vs: seq<int>) returns (n: Item)
      requires Valid() && Shows(vs)
      requires if kids == [] then p == null else p == kids[|kids| - 1] && kids[0].prev == null
      modifies this`child, this`kids, Nodes()`next, Nodes()`prev
      ensures fresh(n) && kids == old(kids) + [n] && kids[0].prev == null
      ensures Valid() && Shows(vs + [value])
    {
      hide Item.Valid;
      ghost var was := kids;
      n := new Item(value);
      LinkBehind(p, n);
      EditedValues(was, vs, 0, n);
    }

    method LinkBehind(p: Item?, n: Item)
      requires Valid() && n.Detached() && n !in kids && n != this
      requires if kids == [] then p == null else p == kids[|kids| - 1] && kids[0].prev == null
      modifies this`child, this`kids, Nodes()`next, n`prev
      ensures Valid() && kids == old(kids) + [n] && kids[0].prev == null
    {
      if p == null {
        child := n;
      } else {
        SuffixObject(p, n);
      }
      kids := kids + [n];
    }

    /** Items that are in no list, none of them twice. */
    ghost predicate AreSpare(spare: seq<Item>, vs: seq<int>)
      reads this`kids, spare
    {
      && Values(spare, vs) && this !in spare
      && (forall i :: 0 <= i < |spare| ==> spare[i].Detached() && spare[i] !in kids)
      && (forall i, j :: 0 <= i < j < |spare| ==> spare[i] != spare[j])
    }

    static ghost function SetOf(items: seq<Item>): set<Item> {
      set k | k in items
    }

    /** The item an edit needs, out of the spare ones or new, or null if there is none. */
    method Take(x: Source, spare: seq<Item>, ghost b: Book) returns (item: Item?, rest: seq<Item>)
      requires Valid() && AreSpare(spare, b.spare)
      ensures item != null <==> Exists(b, x)
      ensures item == null ==> rest == spare
      ensures item != null ==>
                && item.Detached() && item !in kids && item != this && item.valueint == ValueOf(b, x)
                && item !in rest && AreSpare(rest, SpareWithout(b, x)) && (item in spare || fresh(item))
      ensures forall k :: k in rest ==> k in spare
    {
      hide Item.Valid;
      rest := spare;
      match x
      case New(v) => item := new Item(v);
      case Spare(k) =>
        if k < |spare| {
          item := spare[k];
          rest := spare[..k] + spare[k + 1..];
          SplicedMembers(spare, k);
        } else {
          item := null;
        }
    }

    /** One edit, with the public functions of cJSON; `rest` are the items that are spare after it. */
    method Change(e: Edit, spare: seq<Item>, ghost b: Book) returns (rest: seq<Item>)
      requires Valid() && Shows(b.list) && AreSpare(spare, b.spare)
      modifies this`child, this`kids, Nodes()`next, Nodes()`prev, SetOf(spare)`next, SetOf(spare)`prev
      ensures Valid() && Shows(Edited(b, e).list) && AreSpare(rest, Edited(b, e).spare)
      ensures forall k :: k in kids || k in rest ==> k in old(Nodes()) || k in spare || fresh(k)
    {
      hide *;
      match e
      case Append(x) => rest := AppendFrom(x, spare, b);
      case Insert(which, x) => rest := InsertFrom(which, x, spare, b);
      case Detach(which) => rest := DetachTo(which, spare, b);
      case Replace(which, x) => rest := ReplaceFrom(which, x, spare, b);
    }

    method AppendFrom(x: Source, spare: seq<Item>, ghost b: Book) returns (rest: seq<Item>)
      requires Valid() && Shows(b.list) && AreSpare(spare, b.spare)
      modifies this`child, this`kids, Nodes()`next, Nodes()`prev, SetOf(spare)`next, SetOf(spare)`prev
      ensures Valid() && Shows(Edited(b, Append(x)).list) && AreSpare(rest, Edited(b, Append(x)).spare)
      ensures forall k :: k in kids || k in rest ==> k in old(Nodes()) || k in spare || fresh(k)
    {
      hide Item.Valid, ValueOf, SpareWithout, Exists;
      ghost var was := kids;
      var item;
      item, rest := Take(x, spare, b);
      if item != null {
        var ok := AddItemToArray(item);
        EditedValues(was, b.list, 0, item);
      }
    }

    method InsertFrom(which: int, x: Source, spare: seq<Item>, ghost b: Book) returns (rest: seq<Item>)
      requires Valid() && Shows(b.list) && AreSpare(spare, b.spare)
      modifies this`child, this`kids, Nodes()`next, Nodes()`prev, SetOf(spare)`next, SetOf(spare)`prev
      ensures Valid() && Shows(Edited(b, Insert(which, x)).list) && AreSpare(rest, Edited(b, Insert(which, x)).spare)
      ensures forall k :: k in kids || k in rest ==> k in old(Nodes()) || k in spare || fresh(k)
    {
      hide Item.Valid, ValueOf, SpareWithout, Exists, With;
      ghost var was := kids;
      var item;
      item, rest := Take(x, spare, b);
      if item != null {
        var ok := InsertItemInArray(which, item);
        if ok {
          WithMembers(was, which, item);
          EditedValues(was, b.list, which, item);
        } else {
          rest := spare;
        }
      }
    }

    static lemma WithMembers(s: seq<Item>, i: nat, x: Item)
      ensures forall k :: k in With(s, i, x) <==> k in s || k == x
    {
      assert i < |s| ==> s == s[..i] + s[i..];
    }

    method DetachTo(which: int, spare: seq<Item>, ghost b: Book) returns (rest: seq<Item>)
      requires Valid() && Shows(b.list) && AreSpare(spare, b.spare)
      modifies this`child, this`kids, Nodes()`next, Nodes()`prev, SetOf(spare)`next, SetOf(spare)`prev
      ensures Valid() && Shows(Edited(b, Detach(which)).list) && AreSpare(rest, Edited(b, Detach(which)).spare)
      ensures forall k :: k in kids || k in rest ==> k in old(Nodes()) || k in spare || fresh(k)
    {
      ghost var was := kids;
      NotThis();
      hide Item.Valid, Without, Item.Detached;
      var item := DetachItemFromArray(which);
      rest := spare;
      if item != null {
        hide Item.Values;
        AfterDetach(was, which, spare, item, b);
        rest := spare + [item];
      }
    }

    /** The detached item joins the spare ones. */
    lemma AfterDetach(was: seq<Item>, which: nat, spare: seq<Item>, item: Item, b: Book)
      requires which < |was| && this !in was && (forall i, j :: 0 <= i < j < |was| ==> was[i] != was[j])
      requires kids == Without(was, which) && item == was[which] && item.Detached()
      requires Values(was, b.list) && Values(spare, b.spare) && this !in spare
      requires forall i :: 0 <= i < |spare| ==> spare[i].Detached() && spare[i] !in was
      requires forall i, j :: 0 <= i < j < |spare| ==> spare[i] != spare[j]
      ensures which < |b.list| && Shows(Without(b.list, which))
      ensures AreSpare(spare + [item], b.spare + [b.list[which]])
      ensures forall k :: k in kids ==> k in was
    {
      hide Without;
      SplicedMembers(was, which);
      EditedValues(was, b.list, which, item);
    }

    lemma NotThis()
      requires Valid()
      ensures this !in kids && forall i, j :: 0 <= i < j < |kids| ==> kids[i] != kids[j]
    {
    }

    method ReplaceFrom(which: int, x: Source, spare: seq<Item>, ghost b: Book) returns (rest: seq<Item>)
      requires Valid() && Shows(b.list) && AreSpare(spare, b.spare)
      modifies this`child, this`kids, Nodes()`next, Nodes()`prev, SetOf(spare)`next, SetOf(spare)`prev
      ensures Valid() && Shows(Edited(b, Replace(which, x)).list) && AreSpare(rest, Edited(b, Replace(which, x)).spare)
      ensures forall k :: k in kids || k in rest ==> k in old(Nodes()) || k in spare || fresh(k)
    {
      hide Item.Valid, ValueOf, SpareWithout, Exists;
      ghost var was := kids;
      var item;
      item, rest := Take(x, spare, b);
      if item != null {
        var ok := Put(which, item, rest, SpareWithout(b, x));
        if ok {
          EditedValues(was, b.list, which, item);
        } else {
          rest := spare;
        }
      }
    }

    /** cJSON_ReplaceItemInArray, with an item that has been taken out of the spare ones */
    method Put(which: int, item: Item, ghost rest: seq<Item>, ghost vs: seq<int>) returns (ok: bool)
      requires Valid() && AreSpare(rest, vs)
      requires item.Detached() && item !in kids && item != this && item !in rest
      modifies this`child, this`kids, Nodes()`next, Nodes()`prev, item`next, item`prev
      ensures Valid() && AreSpare(rest, vs)
      ensures ok <==> 0 <= which < |old(kids)|
      ensures !ok ==> item.Detached()
      ensures kids == if ok then old(kids)[which := item] else old(kids)
      ensures forall k :: k in kids ==> k in old(kids) || k == item
    {
      hide Item.Valid;
      ghost var was := kids;
      ok := ReplaceItemInArray(which, item);
      if ok {
        SwappedMembers(was, which, item);
      }
    }

    static lemma SwappedMembers(s: seq<Item>, i: nat, x: Item)
      requires i < |s|
      ensures forall k :: k in s[i := x] ==> k in s || k == x
    {
    }

    /**
     * Any sequence of edits does to the list what it does to the sequence of values, also if items that were
     * detached are put back.
     */
    method ChangeAll(es: seq<Edit>, ghost vs: seq<int>) returns (spare: seq<Item>)
      requires Valid() && Shows(vs)
      modifies this`child, this`kids, Nodes()`next, Nodes()`prev
      ensures Valid() && Shows(EditedAll(Book(vs, []), es).list) && AreSpare(spare, EditedAll(Book(vs, []), es).spare)
    {
      NoneSpare();
      hide Item.Valid, Item.Shows, Item.AreSpare, Edited;
      spare := [];
      var i := 0;
      while i < |es|
        invariant i <= |es| && Valid()
        invariant forall k :: k in kids || k in spare ==> k in old(Nodes()) || fresh(k)
        invariant var b := EditedAll(Book(vs, []), es[..i]); Shows(b.list) && AreSpare(spare, b.spare)
      {
        assert es[..i + 1][..i] == es[..i];
        spare := Change(es[i], spare, EditedAll(Book(vs, []), es[..i]));
        i := i + 1;
      }
      assert es[..i] == es;
    }

    lemma NoneSpare()
      ensures AreSpare([], [])
    {
    }
  }
}
