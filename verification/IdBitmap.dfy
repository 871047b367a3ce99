/**
 The id allocator of microkernel/kernel/id.c: a page of 1024 words, of which the code uses the
 first 129 because its limit test at line 74 is `>` and not `>=`, and a hint to the word tried first.
 */
module IdBitmap {
  import opened Words

  const NWORDS := 1024
  const LAST_WORD := 128            // 4096 / BITS_PER_INT
  const NIDS := 4128                // ids 0..4127: words 0..128

  datatype Ids = Ids(words: seq<Word>, hint: nat)

  /** Words past the last one used stay clear, so the unbounded scan stops inside the page. */
  ghost predicate Good(s: Ids) {
    && |s.words| == NWORDS && s.hint <= LAST_WORD
    && forall i :: LAST_WORD < i < NWORDS ==> AllClear(s.words[i])
  }

  /** As id_init leaves it. */
  ghost predicate Cleared(s: Ids) {
    && |s.words| == NWORDS && s.hint == 0
    && forall i :: 0 <= i < NWORDS ==> AllClear(s.words[i])
  }

  predicate IsLive(words: seq<Word>, id: nat) {
    id / 32 < |words| && words[id / 32][id % 32]
  }

  /** Line 72: the first word from `i` on that has a clear bit. */
  function FirstNotFull(words: seq<Word>, i: nat): (j: nat)
    requires exists k :: i <= k < |words| && !AllSet(words[k])
    ensures i <= j < |words| && !AllSet(words[j])
    ensures forall k :: i <= k < j ==> AllSet(words[k])
    decreases |words| - i
  {
    if AllSet(words[i]) then FirstNotFull(words, i + 1) else i
  }

  lemma ScanStops(s: Ids)
    requires Good(s)
    ensures !AllSet(s.words[LAST_WORD + 1])
    ensures FirstNotFull(s.words, 0) <= LAST_WORD + 1
  {
    assert AllClear(s.words[LAST_WORD + 1]) && !s.words[LAST_WORD + 1][0];
  }

  function AllocIn(s: Ids): (r: (Ids, int))
    requires Good(s)
  {
    ScanStops(s);
    var hint := if AllSet(s.words[s.hint]) then FirstNotFull(s.words, 0) else s.hint;
    if AllSet(s.words[s.hint]) && hint > LAST_WORD then (s, -1)
    else
      var index := Ffc(s.words[hint]);
      (Ids(s.words[hint := SetBit(s.words[hint], index)], hint), index + hint * BITS_PER_INT)
  }

  function FreeIn(s: Ids, id: nat): Ids
    requires |s.words| == NWORDS && id < NIDS
  {
    Ids(s.words[id / BITS_PER_INT := ClearBit(s.words[id / BITS_PER_INT], id % BITS_PER_INT)], id / BITS_PER_INT)
  }

  /**
   An allocation fails exactly when every id from 0 to 4127 is live; otherwise it gives an id that
   was not live and makes that id, and no other, live.
   */
  lemma AllocExact(s: Ids)
    requires Good(s)
    ensures var (s', id) := AllocIn(s);
            && Good(s')
            && (id == -1 <==> forall x :: 0 <= x < 4128 ==> IsLive(s.words, x))
            && (id == -1 ==> s' == s)
            && (id != -1 ==>
                  && 0 <= id < 4128 && !IsLive(s.words, id)
                  && forall x: nat :: IsLive(s'.words, x) <==> IsLive(s.words, x) || x == id)
  {
    ScanStops(s);
    var (s', id) := AllocIn(s);
    if id == -1 {
      forall x | 0 <= x < NIDS ensures IsLive(s.words, x) {
        assert AllSet(s.words[x / 32]);
      }
    } else {
      assert id / 32 == s'.hint && id % 32 == Ffc(s.words[s'.hint]);
      assert !IsLive(s.words, id);
      forall x: nat ensures IsLive(s'.words, x) <==> IsLive(s.words, x) || x == id {
        assert x / 32 == id / 32 && x % 32 == id % 32 ==> x == id;
      }
    }
  }

  /** Freeing an id makes that id, and no other, not live, and makes its word the next to be tried. */
  lemma DeallocExact(s: Ids, id: nat)
    requires Good(s) && id < NIDS
    ensures Good(FreeIn(s, id))
    ensures forall x: nat :: IsLive(FreeIn(s, id).words, x) <==> IsLive(s.words, x) && x != id
    ensures AllocIn(FreeIn(s, id)).1 / 32 == id / 32
  {
    var s' := FreeIn(s, id);
    forall x: nat ensures IsLive(s'.words, x) <==> IsLive(s.words, x) && x != id {
      assert x / 32 == id / 32 && x % 32 == id % 32 ==> x == id;
    }
    assert !s'.words[s'.hint][id % 32];
  }

  // ---------- runs ----------

  datatype Op = Alloc | Free(id: nat)

  /** The allocator, and the set of ids handed out and not yet freed. */
  datatype Tracked = Tracked(ids: Ids, live: set<nat>)

  ghost predicate Matches(t: Tracked) {
    && Good(t.ids)
    && forall x: nat :: x in t.live <==> IsLive(t.ids.words, x)
  }

  ghost predicate Enabled(t: Tracked, op: Op) {
    op.Free? ==> op.id in t.live
  }

  lemma LiveBound(t: Tracked, x: nat)
    requires Matches(t) && x in t.live
    ensures x < NIDS
  {
    assert IsLive(t.ids.words, x);
    assert x / 32 > LAST_WORD ==> AllClear(t.ids.words[x / 32]);
  }

  ghost function Apply(t: Tracked, op: Op): Tracked
    requires Matches(t) && Enabled(t, op)
  {
    match op
    case Alloc =>
      var (ids, id) := AllocIn(t.ids);
      AllocExact(t.ids);
      Tracked(ids, if id == -1 then t.live else t.live + {id})
    case Free(id) => LiveBound(t, id); Tracked(FreeIn(t.ids, id), t.live - {id})
  }

  lemma OpKeeps(t: Tracked, op: Op)
    requires Matches(t) && Enabled(t, op)
    ensures Matches(Apply(t, op))
  {
    match op
    case Alloc => AllocExact(t.ids);
    case Free(id) => LiveBound(t, id); DeallocExact(t.ids, id);
  }

  ghost predicate IsRun(ts: seq<Tracked>, ops: seq<Op>) {
    && |ts| == |ops| + 1
    && Cleared(ts[0].ids) && ts[0].live == {}
    && forall i :: 0 <= i < |ops| && Matches(ts[i]) ==> Next(ts[i], ops[i], ts[i + 1])
  }

  ghost predicate Next(t: Tracked, op: Op, t': Tracked)
    requires Matches(t)
  {
    Enabled(t, op) && t' == Apply(t, op)
  }

  /** In every state of every run from id_init the bitmap is the set of live ids. */
  lemma {:induction false} RunMatches(ts: seq<Tracked>, ops: seq<Op>, n: nat)
    requires IsRun(ts, ops) && n < |ts|
    ensures Matches(ts[n])
  {
    if n > 0 {
      RunMatches(ts, ops, n - 1);
      assert Next(ts[n - 1], ops[n - 1], ts[n - 1 + 1]);
      OpKeeps(ts[n - 1], ops[n - 1]);
    }
  }

  /** So no run ever hands out an id that is live, and it refuses only when all 4128 are live. */
  lemma NeverHandedOutTwice(ts: seq<Tracked>, ops: seq<Op>, n: nat)
    requires IsRun(ts, ops) && n < |ts|
    ensures Good(ts[n].ids)
    ensures var id := AllocIn(ts[n].ids).1;
            && (id != -1 ==> id !in ts[n].live)
            && (id == -1 <==> forall x :: 0 <= x < 4128 ==> x in ts[n].live)
  {
    RunMatches(ts, ops, n);
    AllocExact(ts[n].ids);
  }

  // ---------- in place ----------

  class Bitmap {
    const words: array<Word>
    var hint: nat

    ghost function State(): Ids
      reads this, words
    {
      Ids(words[..], hint)
    }

    /** id_init */
    constructor ()
      ensures Cleared(State()) && fresh(words)
    {
      words := new Word[NWORDS](_ => ZERO);
      hint := 0;
    }

    method AllocId() returns (id: int)
      requires Good(State())
      modifies this, words
      ensures Good(State())
      ensures (State(), id) == AllocIn(old(State()))
    {
      AllocExact(State());
      ScanStops(State());
      var h := hint;
      if AllSet(words[h]) {
        h := 0;
        while AllSet(words[h])
          invariant h <= LAST_WORD + 1
          invariant forall k :: 0 <= k < h ==> AllSet(words[k])
          decreases NWORDS - h
        {
          h := h + 1;
        }
        assert h == FirstNotFull(words[..], 0);
        if h > LAST_WORD { return -1; }
      }
      var index := Ffc(words[h]);
      words[h] := SetBit(words[h], index);
      id := index + h * BITS_PER_INT;
      hint := h;
    }

    method DeallocId(id: nat)
      requires Good(State()) && id < NIDS
      modifies this, words
      ensures Good(State()) && State() == FreeIn(old(State()), id)
    {
      DeallocExact(State(), id);
      var h, index := id / BITS_PER_INT, id % BITS_PER_INT;
      words[h] := ClearBit(words[h], index);
      hint := h;
    }
  }
}
