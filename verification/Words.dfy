/** 32-bit words as their bits, bit 0 first, with the bit operations of microkernel/include/i386/asm/asm.h. */
module Words {

  const BITS_PER_INT := 32

  type Word = w: seq<bool> | |w| == 32 witness seq(32, _ => false)

  const ZERO: Word := seq(32, _ => false)

  /** The comparison with MAX_INT_VAL. */
  predicate AllSet(w: Word) {
    forall j :: 0 <= j < 32 ==> w[j]
  }

  predicate AllClear(w: Word) {
    forall j :: 0 <= j < 32 ==> !w[j]
  }

  function SetBit(w: Word, i: nat): Word
    requires i < 32
  {
    w[i := true]
  }

  function ClearBit(w: Word, i: nat): Word
    requires i < 32
  {
    w[i := false]
  }

  function HighestBelow(w: Word, n: nat): (r: int)
    requires n <= 32
    ensures -1 <= r < n
    ensures r >= 0 ==> w[r]
    ensures forall j :: r < j < n ==> !w[j]
  {
    if n == 0 then -1 else if w[n - 1] then n - 1 else HighestBelow(w, n - 1)
  }

  /** frs: the highest set bit, or -1. */
  function Frs(w: Word): (r: int)
    ensures -1 <= r < 32
    ensures r >= 0 ==> w[r]
    ensures forall j :: r < j < 32 ==> !w[j]
  {
    HighestBelow(w, 32)
  }

  function LowestClearFrom(w: Word, n: nat): (r: nat)
    requires n <= 32 && exists j :: n <= j < 32 && !w[j]
    ensures n <= r < 32 && !w[r]
    ensures forall j :: n <= j < r ==> w[j]
    decreases 32 - n
  {
    if !w[n] then n else LowestClearFrom(w, n + 1)
  }

  /** ffc: the lowest clear bit; undefined when every bit is set. */
  function Ffc(w: Word): (r: nat)
    requires !AllSet(w)
    ensures r < 32 && !w[r]
    ensures forall j :: 0 <= j < r ==> w[j]
  {
    LowestClearFrom(w, 0)
  }
}
