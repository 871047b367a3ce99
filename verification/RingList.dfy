/**
 The circular doubly linked list of microkernel/include/kernel/list.h.  A head and the links
 embedded in the queued structures are both a `Link`; a list denotes the sequence of links met from
 head.next on.  Enqueueing and adding insert at the front; dequeueing takes the back (a queue) and
 removing takes the front (a stack).
 */
module RingList {

  /** A link is the head of a list or a member of a structure that can be queued. */
  datatype Field = Head | Member

  /** `owner` is the number of the head, or of the structure the link is embedded in, in place of the cast to it. */
  class Link {
    var next: Link?
    var prev: Link?
    const field: Field
    const owner: int

    constructor (field: Field, owner: int)
      ensures this.field == field && this.owner == owner
    {
      next, prev := null, null;
      this.field, this.owner := field, owner;
    }
  }

  /** The i-th link of the circle: the head at both ends, the members in between. */
  ghost function Nth(head: Link, s: seq<Link>, i: int): Link
    requires -1 <= i <= |s|
  {
    if 0 <= i < |s| then s[i] else head
  }

  ghost predicate Joined(a: Link, b: Link)
    reads a, b
  {
    a.next == b && b.prev == a
  }

  /** The circle through `head` carries exactly the members `s`, in both directions. */
  ghost predicate Ring(head: Link, s: seq<Link>)
    reads head, s
  {
    && head !in s
    && (forall i, j :: 0 <= i < j < |s| ==> s[i] != s[j])
    && (forall i {:trigger Nth(head, s, i)} :: -1 <= i < |s| ==> Joined(Nth(head, s, i), Nth(head, s, i + 1)))
  }

  ghost function Without<T>(s: seq<T>, k: nat): seq<T>
    requires k < |s|
  {
    s[..k] + s[k + 1..]
  }

  lemma WithoutKeeps<T>(s: seq<T>, k: nat)
    requires k < |s| && (forall i, j :: 0 <= i < j < |s| ==> s[i] != s[j])
    ensures forall i, j :: 0 <= i < j < |Without(s, k)| ==> Without(s, k)[i] != Without(s, k)[j]
    ensures forall x :: x in Without(s, k) ==> x in s
  {
    forall i, j | 0 <= i < j < |Without(s, k)| ensures Without(s, k)[i] != Without(s, k)[j] {
      assert Without(s, k)[i] == s[if i < k then i else i + 1];
      assert Without(s, k)[j] == s[if j < k then j else j + 1];
    }
  }

  lemma {:induction false} SameNth(head: Link, s: seq<Link>, t: seq<Link>, n: int)
    requires Ring(head, s) && Ring(head, t) && -1 <= n <= |s| && n <= |t|
    ensures Nth(head, s, n) == Nth(head, t, n)
    decreases n + 1
  {
    if n >= 0 {
      SameNth(head, s, t, n - 1);
      assert Joined(Nth(head, s, n - 1), Nth(head, s, n - 1 + 1));
      assert Joined(Nth(head, t, n - 1), Nth(head, t, n - 1 + 1));
    }
  }

  lemma SameLength(head: Link, s: seq<Link>, t: seq<Link>)
    requires Ring(head, s) && Ring(head, t)
    ensures |s| >= |t|
  {
    if |s| < |t| {
      SameNth(head, s, t, |s|);
      assert false;
    }
  }

  /** A ring has one reading only: the sequence it denotes is determined by the links. */
  lemma RingIsOneSequence(head: Link, s: seq<Link>, t: seq<Link>)
    requires Ring(head, s) && Ring(head, t)
    ensures s == t
  {
    SameLength(head, s, t);
    SameLength(head, t, s);
    forall i | 0 <= i < |s| ensures s[i] == t[i] { SameNth(head, s, t, i); }
  }

  /** list_init */
  method ListInit(l: Link)
    modifies l
    ensures Ring(l, [])
  {
    l.next := l;
    l.prev := l;
  }

  /** list_isempty */
  method ListIsEmpty(head: Link, ghost s: seq<Link>) returns (b: bool)
    requires Ring(head, s)
    ensures b <==> s == []
  {
    assert Joined(Nth(head, s, -1), Nth(head, s, 0));
    b := head.next == head;
  }

  /** last_entry: the member queued longest. */
  method LastEntry(head: Link, ghost s: seq<Link>) returns (p: Link)
    requires Ring(head, s) && s != []
    ensures p == s[|s| - 1]
  {
    assert Joined(Nth(head, s, |s| - 1), Nth(head, s, |s|));
    p := head.prev;
  }

  /** list_enqueue, and list_add, which is the same text: insert at the front. */
  method ListEnqueue(head: Link, pointer: Link, ghost s: seq<Link>)
    requires Ring(head, s) && pointer != head && pointer !in s
    modifies head, pointer, if s == [] then {} else {s[0]}
    ensures Ring(head, [pointer] + s)
  {
    assert Joined(Nth(head, s, -1), Nth(head, s, 0));
    var nxt := head.next;
    head.next := pointer;
    pointer.prev := head;
    pointer.next := nxt;
    if nxt == head {
      head.prev := pointer;
    } else {
      nxt.prev := pointer;
    }
    ghost var t := [pointer] + s;
    forall i | -1 <= i < |t|
      ensures Joined(Nth(head, t, i), Nth(head, t, i + 1))
    {
      if i >= 1 { assert old(Joined(Nth(head, s, i - 1), Nth(head, s, i))); }
    }
  }

  /** list_dequeue: take the back. */
  method ListDequeue(head: Link, ghost s: seq<Link>) returns (pointer: Link)
    requires Ring(head, s) && s != []
    modifies head, if |s| == 1 then {} else {s[|s| - 2]}
    ensures pointer == s[|s| - 1]
    ensures Ring(head, s[..|s| - 1])
  {
    assert Joined(Nth(head, s, |s| - 1), Nth(head, s, |s|));
    assert Joined(Nth(head, s, |s| - 2), Nth(head, s, |s| - 1));
    pointer := head.prev;
    var nxt := pointer.prev;
    head.prev := nxt;
    if nxt == head {
      head.next := head;
    } else {
      nxt.next := head;
    }
    ghost var t := s[..|s| - 1];
    forall i | -1 <= i < |t|
      ensures Joined(Nth(head, t, i), Nth(head, t, i + 1))
    {
      assert old(Joined(Nth(head, s, i), Nth(head, s, i + 1)));
    }
  }

  /** list_remove: take the front. */
  method ListRemove(head: Link, ghost s: seq<Link>) returns (pointer: Link)
    requires Ring(head, s) && s != []
    modifies head, if |s| == 1 then {} else {s[1]}
    ensures pointer == s[0]
    ensures Ring(head, s[1..])
  {
    assert Joined(Nth(head, s, -1), Nth(head, s, 0));
    assert Joined(Nth(head, s, 0), Nth(head, s, 1));
    pointer := head.next;
    var nxt := pointer.next;
    head.next := nxt;
    if nxt == head {
      head.prev := head;
    } else {
      nxt.prev := head;
    }
    ghost var t := s[1..];
    forall i | -1 <= i < |t|
      ensures Joined(Nth(head, t, i), Nth(head, t, i + 1))
    {
      assert old(Joined(Nth(head, s, i + 1), Nth(head, s, i + 2)));
    }
  }

  /** list_del: take a member out of the middle, wherever it stands. */
  method ListDel(head: Link, item: Link, ghost s: seq<Link>, ghost k: nat)
    requires Ring(head, s) && k < |s| && s[k] == item
    modifies Nth(head, s, k - 1), Nth(head, s, k + 1)
    ensures Ring(head, Without(s, k))
  {
    assert Joined(Nth(head, s, k - 1), Nth(head, s, k));
    assert Joined(Nth(head, s, k), Nth(head, s, k + 1));
    var prev, next := item.prev, item.next;
    // list.h stores through differently typed pointers when a neighbour is the head; here both are links.
    prev.next := next;
    next.prev := prev;
    ghost var t := Without(s, k);
    WithoutKeeps(s, k);
    forall i | -1 <= i < |t|
      ensures Joined(Nth(head, t, i), Nth(head, t, i + 1))
    {
      if i < k - 1 {
        assert old(Joined(Nth(head, s, i), Nth(head, s, i + 1)));
      } else if i >= k {
        assert old(Joined(Nth(head, s, i + 1), Nth(head, s, i + 2)));
      }
    }
  }

  // ---------- a queue: insert at the front, take from the back ----------

  /** The members from the one queued longest to the latest. */
  ghost function Arrivals<T>(s: seq<T>): seq<T> {
    seq(|s|, i requires 0 <= i < |s| => s[|s| - 1 - i])
  }

  /** Inserting at the front appends to the arrivals; taking out of the ring takes out of the arrivals. */
  lemma RingIsQueue<T>(s: seq<T>, p: T, k: nat)
    ensures Arrivals([p] + s) == Arrivals(s) + [p]
    ensures s != [] ==> Arrivals(s)[0] == s[|s| - 1] && Arrivals(s[..|s| - 1]) == Arrivals(s)[1..]
    ensures k < |s| ==> Arrivals(Without(s, k)) == Without(Arrivals(s), |s| - 1 - k)
  {
  }

  /** Dequeue until the list is empty: the members come out in the order they were queued. */
  method Drain(head: Link, ghost s: seq<Link>) returns (out: seq<Link>)
    requires Ring(head, s)
    modifies head, s
    ensures Ring(head, []) && out == Arrivals(s)
  {
    hide Ring;
    out := [];
    ghost var left := s;
    var empty := ListIsEmpty(head, left);
    while !empty
      invariant Ring(head, left) && (empty <==> left == [])
      invariant left <= s && out + Arrivals(left) == Arrivals(s)
      decreases |left|
    {
      RingIsQueue(left, head, 0);
      var p := ListDequeue(head, left);
      out := out + [p];
      left := left[..|left| - 1];
      empty := ListIsEmpty(head, left);
    }
  }

  /** Queue `items` one after the other, then drain: first in, first out. */
  method FirstInFirstOut(head: Link, items: seq<Link>) returns (out: seq<Link>)
    requires head !in items && (forall i, j :: 0 <= i < j < |items| ==> items[i] != items[j])
    modifies head, items
    ensures Ring(head, []) && out == items
  {
    hide Ring;
    ListInit(head);
    ghost var s: seq<Link> := [];
    for k := 0 to |items|
      invariant Ring(head, s) && Arrivals(s) == items[..k]
      invariant |s| == k && forall i :: 0 <= i < k ==> s[i] == items[k - 1 - i]
    {
      RingIsQueue(s, items[k], 0);
      ListEnqueue(head, items[k], s);
      s := [items[k]] + s;
    }
    assert items[..|items|] == items;
    out := Drain(head, s);
  }
}
