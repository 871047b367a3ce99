/**
 The linked lists of the kernel.  A `Family` is a set of lists threaded through the same member of the
 queued structures: the 32 run queues, through the runq member of each thread, and the receive queues,
 one per thread, through the sndq member of the senders waiting in them.  `q` says what each list
 denotes, oldest member first.  Every operation is one of list.h on one ring, and is proved to leave
 all other rings of the family alone.
 */
module ThreadLists {
  import opened Scheduler
  import opened SchedulerProofs
  import opened RingList

  ghost predicate Known(link: map<Tid, Link>, q: seq<Tid>) {
    forall i :: 0 <= i < |q| ==> q[i] in link
  }

  /** The ring whose members, from the oldest on, are the links of the threads in `q`. */
  ghost function Chain(link: map<Tid, Link>, q: seq<Tid>): seq<Link>
    requires Known(link, q)
  {
    seq(|q|, i requires 0 <= i < |q| => link[q[|q| - 1 - i]])
  }

  lemma EmptyChain(link: map<Tid, Link>)
    ensures Known(link, []) && Chain(link, []) == []
  {
  }

  lemma ChainAppend(link: map<Tid, Link>, q: seq<Tid>, t: Tid)
    requires t in link && Known(link, q)
    ensures Known(link, q + [t]) && Chain(link, q + [t]) == [link[t]] + Chain(link, q)
  {
  }

  lemma ChainOldest(link: map<Tid, Link>, q: seq<Tid>)
    requires q != [] && Known(link, q)
    ensures Known(link, q[1..])
    ensures var c := Chain(link, q);
            |c| == |q| && c[|c| - 1] == link[q[0]] && Chain(link, q[1..]) == c[..|c| - 1]
  {
  }

  lemma ChainWithout(link: map<Tid, Link>, q: seq<Tid>, k: nat)
    requires k < |q| && Known(link, q)
    ensures Known(link, Without(q, k))
    ensures |Chain(link, q)| == |q| && Chain(link, q)[|q| - 1 - k] == link[q[k]]
    ensures Chain(link, Without(q, k)) == Without(Chain(link, q), |q| - 1 - k)
  {
  }

  lemma NotEmpty(s: set<int>)
    requires s != {}
    ensures exists h :: h in s
  {
    assert (forall h :: h !in s) ==> s == {};
  }

  lemma AllHold(heads: map<int, Link>, link: map<Tid, Link>, all: set<Link>)
    requires all == (set h | h in heads :: heads[h]) + (set t | t in link :: link[t])
    ensures (forall h :: h in heads ==> heads[h] in all) && (forall t :: t in link ==> link[t] in all)
  {
  }

  method InitHeads(heads: map<int, Link>)
    requires forall h :: h in heads ==> heads[h].owner == h
    modifies set h | h in heads :: heads[h]
    ensures forall h :: h in heads ==> Ring(heads[h], [])
  {
    var todo: set<int> := heads.Keys;
    while todo != {}
      invariant todo <= heads.Keys
      invariant forall h :: h in heads && h !in todo ==> Ring(heads[h], [])
      decreases todo
    {
      NotEmpty(todo);
      var h :| h in todo;
      ListInit(heads[h]);
      todo := todo - {h};
    }
  }

  class Family {
    const heads: map<int, Link>
    const link: map<Tid, Link>
    ghost const all: set<Link>
    ghost var q: map<int, seq<Tid>>

    /** Every link is where it belongs, so two links of different structures are different. */
    ghost predicate Shape() {
      && (forall h :: h in heads ==> heads[h].field == Head && heads[h].owner == h && heads[h] in all)
      && (forall t :: t in link ==> link[t].field == Member && link[t].owner == t && link[t] in all)
    }

    /** No structure is in two lists. */
    ghost predicate Once()
      reads this
    {
      && q.Keys == heads.Keys && (forall h :: h in q ==> Known(link, q[h]))
      && forall h, x, t :: h in q && x in q && t in q[h] && t in q[x] ==> h == x
    }

    ghost predicate Valid()
      reads this, all
    {
      Shape() && Once() && forall h :: h in heads ==> Ok(h)
    }

    ghost predicate Ok(h: int)
      requires h in heads
      reads this, all
    {
      h in q && Known(link, q[h]) && heads[h] in all && (forall l :: l in Chain(link, q[h]) ==> l in all)
      && Ring(heads[h], Chain(link, q[h]))
    }

    /** The links of a list are those of its members. */
    lemma Links(s: seq<Tid>)
      requires Shape() && Known(link, s)
      ensures var c := Chain(link, s);
              |c| == |s| && forall k :: 0 <= k < |c| ==> c[k].field == Member && c[k].owner in s && c[k] in all
    {
      var c := Chain(link, s);
      forall k | 0 <= k < |c| ensures c[k].field == Member && c[k].owner in s && c[k] in all {
        var t := s[|s| - 1 - k];
        assert t in link && c[k] == link[t];
      }
    }

    /** The given heads and links, every list initialised and empty. */
    constructor (heads: map<int, Link>, link: map<Tid, Link>)
      requires forall h :: h in heads ==> heads[h].field == Head && heads[h].owner == h
      requires forall t :: t in link ==> link[t].field == Member && link[t].owner == t
      modifies set h | h in heads :: heads[h]
      ensures Valid() && this.heads == heads && this.link == link
      ensures all == (set h | h in heads :: heads[h]) + (set t | t in link :: link[t])
      ensures q == map h | h in heads :: []
    {
      hide Ring, Chain;
      this.heads, this.link := heads, link;
      all := (set h | h in heads :: heads[h]) + (set t | t in link :: link[t]);
      q := map h | h in heads :: [];
      new;
      AllHold(heads, link, all);
      InitHeads(heads);
      EmptyChain(link);
      forall h | h in heads ensures Ok(h) { assert q[h] == []; }
    }

    ghost predicate InNone(t: Tid)
      reads this
    {
      forall h :: h in q ==> t !in q[h]
    }

    /** list_enqueue */
    method Append(h: int, t: Tid)
      requires Valid() && h in heads && t in link && InNone(t)
      modifies this`q, all
      ensures Valid() && q == old(q)[h := old(q)[h] + [t]]
    {
      hide Ring, Chain, Without;
      ghost var q0 := q;
      assert Ok(h);
      ghost var s := Chain(link, q0[h]);
      ChainAppend(link, q0[h], t);
      Links(q0[h]);
      assert link[t] !in s;
      ListEnqueue(heads[h], link[t], s);
      forall x | x in heads && x != h ensures Ring(heads[x], Chain(link, q0[x])) {
        assert old(Ok(x));
        Links(q0[x]);
      }
      q := q0[h := q0[h] + [t]];
    }

    /** No structure is twice in a list. */
    lemma NotTwice(h: int)
      requires Valid() && h in heads
      ensures h in q && Distinct(q[h])
    {
      assert Ok(h);
      var s, c := q[h], Chain(link, q[h]);
      forall i, j | 0 <= i < j < |s| ensures s[i] != s[j] {
        assert c[|s| - 1 - j] != c[|s| - 1 - i];
      }
    }

    lemma Dropped(h: int, t: Tid)
      requires Valid() && h in heads && h in q && t in q[h]
      ensures t !in Drop(q[h], t) && (forall x :: x in Drop(q[h], t) ==> x in q[h])
      ensures forall x :: x in q && x != h ==> t !in q[x]
    {
      NotTwice(h);
      DropMember(q[h], t);
    }

    /** list_del */
    method Delete(h: int, t: Tid)
      requires Valid() && h in heads && h in q && t in q[h] && t in link
      modifies this`q, all
      ensures Valid() && q == old(q)[h := Drop(old(q)[h], t)] && InNone(t)
    {
      hide Ring, Chain, Without, Drop, Nth, Distinct;
      ghost var q0 := q;
      assert Ok(h);
      ghost var s := Chain(link, q0[h]);
      ghost var k := ChainDropped(link, q0[h], t);
      Links(q0[h]);
      Dropped(h, t);
      NeighboursInRing(heads[h], s, |s| - 1 - k);
      ListDel(heads[h], link[t], s, |s| - 1 - k);
      forall x | x in heads && x != h ensures Ring(heads[x], Chain(link, q0[x])) {
        assert old(Ok(x));
        Links(q0[x]);
      }
      q := q0[h := Drop(q0[h], t)];
      Links(q[h]);
    }

    /** list_dequeue: the member queued longest. */
    method TakeOldest(h: int) returns (t: Tid)
      requires Valid() && h in heads && h in q && q[h] != []
      modifies this`q, all
      ensures Valid() && t == old(q)[h][0] && q == old(q)[h := old(q)[h][1..]]
    {
      hide Ring, Chain, Without;
      ghost var q0 := q;
      assert Ok(h);
      ghost var s := Chain(link, q0[h]);
      ChainOldest(link, q0[h]);
      Links(q0[h]);
      var pointer := ListDequeue(heads[h], s);
      t := pointer.owner;
      assert t == q0[h][0] by { assert q0[h][0] in link; }
      forall x | x in heads && x != h ensures Ring(heads[x], Chain(link, q0[x])) {
        assert old(Ok(x));
        Links(q0[x]);
      }
      q := q0[h := q0[h][1..]];
      Links(q[h]);
    }

    /** last_entry */
    method Oldest(h: int) returns (t: Tid)
      requires Valid() && h in heads && h in q && q[h] != []
      ensures t == q[h][0]
    {
      hide Ring, Chain;
      assert Ok(h);
      ChainOldest(link, q[h]);
      var pointer := LastEntry(heads[h], Chain(link, q[h]));
      t := pointer.owner;
      assert q[h][0] in link;
    }

    /** list_isempty */
    method IsEmpty(h: int) returns (b: bool)
      requires Valid() && h in heads && h in q
      ensures b <==> q[h] == []
    {
      hide Ring, Chain;
      assert Ok(h);
      Links(q[h]);
      b := ListIsEmpty(heads[h], Chain(link, q[h]));
    }
  }

  /** Dropping a thread from a queue takes its link out of the ring. */
  lemma ChainDropped(link: map<Tid, Link>, q: seq<Tid>, t: Tid) returns (k: nat)
    requires Known(link, q) && t in q && t in link
    ensures Known(link, Drop(q, t))
    ensures k < |q| == |Chain(link, q)| && Chain(link, q)[|q| - 1 - k] == link[t]
    ensures Chain(link, Drop(q, t)) == Without(Chain(link, q), |q| - 1 - k)
  {
    hide Chain, Without, Drop;
    k := DropAt(q, t);
    DropIsWithout(q, k);
    ChainWithout(link, q, k);
  }

  lemma DropIsWithout(q: seq<Tid>, k: nat)
    requires k < |q| && Drop(q, q[k]) == q[..k] + q[k + 1..]
    ensures Drop(q, q[k]) == Without(q, k)
  {
  }

  lemma NeighboursInRing(head: Link, s: seq<Link>, k: nat)
    requires k < |s|
    ensures Nth(head, s, k - 1) == head || Nth(head, s, k - 1) in s
    ensures Nth(head, s, k + 1) == head || Nth(head, s, k + 1) in s
  {
  }
}
