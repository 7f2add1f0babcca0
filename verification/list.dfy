/** src/list.h: the intrusive doubly linked list, proved to behave as a sequence of items. */
module IntrusiveList {

  class ListItem {
    var next: ListItem?
    var prev: ListItem?

    constructor ()
    {
      next, prev := null, null;
    }
  }

  function At(s: seq<ListItem>, i: int): ListItem? {
    if 0 <= i < |s| then s[i] else null
  }

  /** The items outside `dead`, in their order. */
  ghost function Without(s: seq<ListItem>, dead: set<ListItem>): (r: seq<ListItem>)
  {
    if s == [] then [] else (if s[0] in dead then [] else [s[0]]) + Without(s[1..], dead)
  }

  /** A filter keeps the order of the items. */
  lemma {:induction false} WithoutJoins(a: seq<ListItem>, b: seq<ListItem>, dead: set<ListItem>)
    ensures Without(a + b, dead) == Without(a, dead) + Without(b, dead)
  {
    if a == [] {
      assert a + b == b;
    } else {
      var first := if a[0] in dead then [] else [a[0]];
      var more, rest := Without(a[1..], dead), Without(b, dead);
      assert (a + b)[0] == a[0] && (a + b)[1..] == a[1..] + b;
      WithoutJoins(a[1..], b, dead);
      assert first + (more + rest) == (first + more) + rest;
    }
  }

  /** It keeps exactly the items outside `dead`. */
  lemma {:induction false} WithoutKeeps(a: seq<ListItem>, dead: set<ListItem>, x: ListItem)
    ensures x in Without(a, dead) <==> x in a && x !in dead
  {
    if a != [] {
      assert a == [a[0]] + a[1..];
      WithoutKeeps(a[1..], dead, x);
    }
  }

  /** A walk over `was` that has reached index i and kept `kept` of the items before it. */
  lemma Here(was: seq<ListItem>, i: nat, kept: seq<ListItem>)
    requires i < |was|
    ensures var items := kept + was[i..];
            |kept| < |items| && items[|kept|] == was[i] && At(items, |kept| + 1) == At(was, i + 1)
  {
  }

  lemma Keep(was: seq<ListItem>, i: nat, kept: seq<ListItem>, dead: set<ListItem>)
    requires i < |was| && was[i] !in dead
    ensures (kept + [was[i]]) + was[i+1..] == kept + was[i..]
    ensures (kept + [was[i]]) + Without(was[i+1..], dead) == kept + Without(was[i..], dead)
  {
    assert was[i..][1..] == was[i+1..];
  }

  lemma Drop(was: seq<ListItem>, i: nat, kept: seq<ListItem>, dead: set<ListItem>)
    requires i < |was| && was[i] in dead
    ensures var items := kept + was[i..]; items[..|kept|] + items[|kept|+1..] == kept + was[i+1..]
    ensures Without(was[i+1..], dead) == Without(was[i..], dead)
  {
    assert was[i..][1..] == was[i+1..];
  }

  class List {
    var head: ListItem?
    var tail: ListItem?
    /** The items in order. */
    ghost var items: seq<ListItem>
    /** The items whose links the list may write. */
    ghost var repr: set<ListItem>

    ghost predicate Valid()
      reads this, repr
    {
      && (forall i :: 0 <= i < |items| ==> items[i] in repr)
      && head == At(items, 0)
      && tail == At(items, |items| - 1)
      && (forall i {:trigger items[i].next} :: 0 <= i < |items| ==>
          items[i].next == if i + 1 < |items| then items[i+1] else null)
      && (forall i {:trigger items[i].prev} :: 0 <= i < |items| ==> items[i].prev == if i > 0 then items[i-1] else null)
      && forall i, j :: 0 <= i < j < |items| ==> items[i] != items[j]
    }

    /** list_init */
    constructor ()
      ensures Valid() && items == [] && repr == {}
    {
      head, tail, items, repr := null, null, [], {};
    }

    /** list_append */
    method Append(item: ListItem)
      requires Valid() && forall i :: 0 <= i < |items| ==> items[i] != item
      modifies this, repr, item
      ensures Valid() && items == old(items) + [item] && repr == old(repr) + {item}
    {
      item.next := null;
      item.prev := tail;
      if tail != null {
        tail.next := item;
      } else {
        head := item;
      }
      tail := item;
      items, repr := items + [item], repr + {item};
    }

    /** list_insert with a non-null `after` */
    method InsertAfter(after: ListItem, item: ListItem, ghost k: nat)
      requires Valid() && (forall i :: 0 <= i < |items| ==> items[i] != item) && k < |items| && items[k] == after
      modifies this, repr, item
      ensures Valid() && items == old(items)[..k+1] + [item] + old(items)[k+1..] && repr == old(repr) + {item}
    {
      item.prev := after;
      item.next := after.next;
      after.next := item;
      if item.next != null {
        item.next.prev := item;
      }
      if tail == after {
        tail := item;
      }
      items, repr := items[..k+1] + [item] + items[k+1..], repr + {item};
    }

    /** list_remove */
    method Remove(item: ListItem, ghost k: nat)
      requires Valid() && k < |items| && items[k] == item
      modifies this, repr
      ensures Valid() && items == old(items)[..k] + old(items)[k+1..] && repr == old(repr)
      ensures item.next == null && item.prev == null
    {
      if item.next != null {
        item.next.prev := item.prev;
      }
      if head == item {
        head := item.next;
        if head == null {
          tail := null;
        }
      } else {
        item.prev.next := item.next;
        if tail == item {
          tail := item.prev;
        }
      }
      item.prev, item.next := null, null;
      items := items[..k] + items[k+1..];
    }

    /** list_pop */
    method Pop() returns (item: ListItem?)
      requires Valid()
      modifies this, repr
      ensures Valid() && repr == old(repr)
      ensures item == At(old(items), 0)
      ensures items == if old(items) == [] then [] else old(items)[1..]
    {
      item := head;
      if item == null {
        return;
      }
      Remove(item, 0);
    }

    /** One round of the loop below: the successor is read before the current item is unlinked. */
    method Visit(li: ListItem, dead: set<ListItem>, ghost was: seq<ListItem>, ghost i: nat, ghost kept: seq<ListItem>)
      returns (bkup: ListItem?, ghost kept': seq<ListItem>)
      requires Valid() && i < |was| && was[i] == li && items == kept + was[i..]
      modifies this, repr
      ensures Valid() && repr == old(repr) && items == kept' + was[i+1..]
      ensures bkup == At(was, i + 1)
      ensures kept' + Without(was[i+1..], dead) == kept + Without(was[i..], dead)
    {
      Here(was, i, kept);
      bkup := li.next;
      if li in dead {
        Drop(was, i, kept, dead);
        Remove(li, |kept|);
        kept' := kept;
      } else {
        Keep(was, i, kept, dead);
        kept' := kept + [was[i]];
      }
    }

    /** A list_for_each_safe loop that removes some of the items it visits; `dead` stands for the
        test in the loop body. */
    method RemoveAll(dead: set<ListItem>)
      requires Valid()
      modifies this, repr
      ensures Valid() && items == Without(old(items), dead) && repr == old(repr)
    {
      ghost var was, i := items, 0;
      ghost var kept: seq<ListItem> := [];
      var li := head;
      while li != null
        invariant Valid() && 0 <= i <= |was| && repr == old(repr)
        invariant items == kept + was[i..]
        invariant li == At(was, i)
        invariant kept + Without(was[i..], dead) == Without(was, dead)
        decreases |was| - i
      {
        li, kept := Visit(li, dead, was, i, kept);
        i := i + 1;
      }
    }
  }
}
