/** The singly linked list with head and tail pointers that the driver manager's lists are made of. */
module DrvList {

  class Entry {
    var next: Entry?

    constructor ()
      ensures next == null
    {
      next := null;
    }
  }

  class List {
    var head: Entry?
    var tail: Entry?
    ghost var contents: seq<Entry>

    /** Head, tail and next pointers spell out `contents`, in which no entry occurs twice. */
    ghost predicate Valid()
      reads this, contents
    {
      && (forall i, j :: 0 <= i < j < |contents| ==> contents[i] != contents[j])
      && (head == null <==> contents == []) && (tail == null <==> contents == [])
      && (contents != [] ==> head == contents[0] && tail == contents[|contents| - 1] && tail.next == null)
      && (forall i {:trigger contents[i].next} :: 0 <= i < |contents| - 1 ==> contents[i].next == contents[i + 1])
    }

    constructor ()
      ensures Valid() && contents == []
    {
      head, tail, contents := null, null, [];
    }

    method Empty()
      modifies this
      ensures Valid() && contents == []
    {
      head, tail, contents := null, null, [];
    }

    method AddHead(entry: Entry)
      requires Valid() && entry !in contents
      modifies this, entry
      ensures Valid() && contents == [entry] + old(contents)
    {
      entry.next := head;
      if head == null {
        tail := entry;
      }
      head := entry;
      contents := [entry] + contents;
    }

    method AddTail(entry: Entry)
      requires Valid() && entry !in contents
      modifies this, entry, tail
      ensures Valid() && contents == old(contents) + [entry]
    {
      if tail == null {
        head := entry;
      } else {
        tail.next := entry;
      }
      entry.next := null;
      tail := entry;
      contents := contents + [entry];
    }

    method RemoveHead()
      requires Valid() && contents != []
      modifies this
      ensures Valid() && contents == old(contents)[1..]
    {
      head := head.next;
      if head == null {
        tail := null;
      }
      contents := contents[1..];
    }

    /** Unlinks `entry` wherever it is; the others keep their order. */
    method Remove(entry: Entry) returns (ghost k: nat)
      requires Valid() && entry in contents
      modifies this, contents
      ensures k < |old(contents)| && old(contents)[k] == entry
      ensures Valid() && contents == old(contents)[..k] + old(contents)[k + 1..]
    {
      var prev: Entry?, curr := null, head;
      k := 0;
      while curr != entry
        invariant k < |contents| && curr == contents[k]
        invariant prev == if k == 0 then null else contents[k - 1]
        invariant entry !in contents[..k]
        decreases |contents| - k
      {
        assert k + 1 < |contents|;
        prev := curr;
        curr := curr.next;
        k := k + 1;
      }
      if prev == null {
        head := entry.next;
      } else {
        prev.next := entry.next;
      }
      if tail == entry {
        tail := prev;
      }
      contents := contents[..k] + contents[k + 1..];
    }
  }

  /** No entry is on both lists. */
  ghost predicate Apart(a: List, b: List)
    reads a, b
  {
    a != b && forall e :: e in a.contents ==> e !in b.contents
  }

  /** What an initialisation step does with its lists: the first entry goes to the end, or the front, of another. */
  method MoveFirst(from: List, to: List, front: bool) returns (entry: Entry)
    requires from.Valid() && to.Valid() && from.contents != [] && Apart(from, to)
    modifies from, to, from.contents, to.contents
    ensures from.Valid() && to.Valid() && Apart(from, to) && entry == old(from.contents)[0]
    ensures from.contents == old(from.contents)[1..]
    ensures to.contents == if front then [entry] + old(to.contents) else old(to.contents) + [entry]
  {
    entry := from.head;
    ghost var all := from.contents;
    from.RemoveHead();
    assert forall e :: e in from.contents ==> e in all && e != entry;
    assert to.tail != null ==> to.tail in to.contents;
    if front {
      to.AddHead(entry);
    } else {
      to.AddTail(entry);
    }
  }
}
