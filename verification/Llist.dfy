/** The kernel's circular doubly linked list, pointer by pointer, and the sequence it stands for. */
module Llist {
  import opened Options

  class Item {
    var prev: Item?
    var next: Item?

    constructor ()
      ensures prev == null && next == null
    {
      prev, next := null, null;
    }
  }

  function After(i: nat, n: nat): nat {
    if i + 1 == n then 0 else i + 1
  }

  function Before(i: nat, n: nat): int {
    if i == 0 then n - 1 else i - 1
  }

  predicate Distinct(s: seq<Item>) {
    forall i, j :: 0 <= i < j < |s| ==> s[i] != s[j]
  }

  function Without(s: seq<Item>, k: nat): seq<Item>
    requires k < |s|
  {
    s[..k] + s[k + 1..]
  }

  class List {
    var list: Item?

    constructor ()
      ensures list == null && Represents([])
    {
      list := null;
    }

    /** The list is the ring of exactly these items, in this order, from the head pointer on. */
    ghost predicate Represents(s: seq<Item>)
      reads this, s
    {
      && Distinct(s)
      && (if s == [] then list == null else list == s[0])
      && (forall i :: 0 <= i < |s| ==> s[i].next == s[After(i, |s|)] && s[i].prev == s[Before(i, |s|)])
    }

    method Append(item: Item, ghost s: seq<Item>)
      requires Represents(s) && item !in s
      modifies this, s, item
      ensures Represents(s + [item])
    {
      if list != null {
        list.prev.next := item;
        item.prev := list.prev;
        list.prev := item;
        item.next := list;
      } else {
        list := item;
        item.next := item;
        item.prev := item;
      }
    }

    /**
      The head pointer is never moved.  The list is left as the ring of the remaining items exactly
      when the removed item was not the head, or was alone.
      */
    method Remove(item: Item, ghost s: seq<Item>, ghost k: nat)
      requires Represents(s) && k < |s| && s[k] == item
      modifies this, s
      ensures Represents(Without(s, k)) <==> (k > 0 || |s| == 1)
      ensures item.next == null && item.prev == null
    {
      if list == item && item.next == item.prev {
        list := null;
        item.next := null;
        item.prev := null;
        assert |s| > 1 ==> Without(s, k) != [];
      } else {
        Unlink(item, s, k);
        if k > 0 {
          Relinked(s, k);
        } else {
          assert list != Without(s, k)[0];
        }
      }
    }

    /** Takes the item out of its neighbours' links; the head pointer stays. */
    method Unlink(item: Item, ghost s: seq<Item>, ghost k: nat)
      requires Represents(s) && k < |s| && s[k] == item && |s| > 1
      modifies s
      ensures item.next == null && item.prev == null
      ensures forall i :: 0 <= i < |s| && i != k ==>
                && s[i].next == (if i == Before(k, |s|) then s[After(k, |s|)] else s[After(i, |s|)])
                && s[i].prev == (if i == After(k, |s|) then s[Before(k, |s|)] else s[Before(i, |s|)])
    {
      assert item.prev == s[Before(k, |s|)] && item.next == s[After(k, |s|)];

      item.prev.next := item.next;
      item.next.prev := item.prev;
      item.next := null;
      item.prev := null;
    }

    /** The ring closed over the gap at `k`. */
    lemma {:induction false} Relinked(s: seq<Item>, k: nat)
      requires 0 < k < |s| && Distinct(s) && list == s[0]
      requires forall i :: 0 <= i < |s| && i != k ==>
                 && s[i].next == (if i == Before(k, |s|) then s[After(k, |s|)] else s[After(i, |s|)])
                 && s[i].prev == (if i == After(k, |s|) then s[Before(k, |s|)] else s[Before(i, |s|)])
      ensures Represents(Without(s, k))
    {
      var t := Without(s, k);
      forall i | 0 <= i < |t|
        ensures t[i].next == t[After(i, |t|)] && t[i].prev == t[Before(i, |t|)]
      {
        RelinkedAt(s, k, i);
      }
    }

    /** Where the neighbours of a remaining item are in the ring before the removal. */
    lemma {:induction false} RelinkedAt(s: seq<Item>, k: nat, i: nat)
      requires 0 < k < |s| && i < |s| - 1
      ensures var t, j, n := Without(s, k), if i < k then i else i + 1, |s|;
              && t[i] == s[j] && j != k
              && t[After(i, n - 1)] == (if j == Before(k, n) then s[After(k, n)] else s[After(j, n)])
              && t[Before(i, n - 1)] == (if j == After(k, n) then s[Before(k, n)] else s[Before(j, n)])
    {
      var t, n := Without(s, k), |s|;
      assert forall x :: 0 <= x < n - 1 ==> t[x] == s[if x < k then x else x + 1];
      if i == k - 1 {
        assert After(i, n - 1) == if k == n - 1 then 0 else k;
      }
    }

    /** Takes the item before the head off the list. */
    method Pop(ghost s: seq<Item>) returns (item: Item?)
      requires Represents(s)
      modifies this, s
      ensures s == [] ==> item == null && Represents([])
      ensures s != [] ==> item == s[|s| - 1] && Represents(s[..|s| - 1])
    {
      if list == null { return null; }
      item := list.prev;
      if list == item {
        list := null;
      } else {
        list.prev := item.prev;
        item.prev.next := list;
      }
    }

    method Count(ghost s: seq<Item>) returns (n: nat)
      requires Represents(s)
      ensures n == |s|
    {
      if list == null { return 0; }
      var item := list.next;
      n := 1;
      while item != list
        invariant 1 <= n <= |s| && item == s[if n == |s| then 0 else n]
        decreases |s| - n
      {
        item := item.next;
        n := n + 1;
      }
    }

    method Get(idx: nat, ghost s: seq<Item>) returns (r: Item?)
      requires Represents(s)
      ensures r == if idx < |s| then s[idx] else null
    {
      if list == null { return null; }
      if idx == 0 { return list; }
      var item, count := list.next, 1;
      while item != list
        invariant 1 <= count <= |s| && count <= idx && item == s[if count == |s| then 0 else count]
        decreases |s| - count
      {
        if count == idx { return item; }
        item := item.next;
        count := count + 1;
      }
      return null;
    }

    /** The position of an item, or a failure if it is not in the list. */
    method GetPosition(item: Item, ghost s: seq<Item>) returns (r: Option<nat>)
      requires Represents(s) && s != []
      ensures match r case Some(k) => k < |s| && s[k] == item case None => item !in s
    {
      if list == item { return Some(0); }
      var citem, i := list.next, 1;
      while citem != list
        invariant 1 <= i <= |s| && citem == s[if i == |s| then 0 else i] && item !in s[..i]
        decreases |s| - i
      {
        if citem == item { return Some(i); }
        citem := citem.next;
        i := i + 1;
      }
      return None;
    }

    /** A walk with the list's iterator visits every item once, in order. */
    method IterateAll(ghost s: seq<Item>) returns (visited: seq<Item>)
      requires Represents(s)
      ensures visited == s
    {
      visited := [];
      var it := new Iterator(list);
      var curr, more := it.Next(s);
      while more
        invariant it.first == list && Represents(s)
        invariant |visited| <= |s| && visited == s[..|visited|]
        invariant more ==> |visited| < |s| && curr == s[|visited|] && it.curr == curr
        invariant !more ==> |visited| == |s|
        decreases |s| - |visited|
      {
        visited := visited + [curr];
        curr, more := it.Next(s);
      }
    }
  }

  class Iterator {
    var first: Item?
    var curr: Item?

    constructor (head: Item?)
      ensures first == head && curr == null
    {
      first, curr := head, null;
    }

    /** llist_iterate: false at the end, when the walk is back at `first`. */
    method Next(ghost s: seq<Item>) returns (item: Item?, more: bool)
      requires forall i :: 0 <= i < |s| ==> s[i].next == s[After(i, |s|)]
      requires if s == [] then first == null else first in s && (curr == null || curr in s)
      modifies this`curr
      ensures first == null ==> !more && curr == old(curr)
      ensures first != null ==>
                && curr == (if old(curr) == null then first else old(curr.next))
                && (more <==> old(curr) == null || curr != first)
                && (more ==> item == curr)
    {
      item, more := null, false;
      if first == null { return; }
      if curr == null {
        curr := first;
      } else {
        curr := curr.next;
        if curr == first { return; }
      }
      return curr, true;
    }
  }
}
