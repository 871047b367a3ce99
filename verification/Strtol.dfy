/**
 Number parsing: soft/libc/posix/strtol.c without digit grouping, in its signed and unsigned
 variants and for 32-bit `long` and 64-bit `long long` (QUAD), with the character classes of
 soft/libc/ansi/ctype/ctype.c.  Strings are given without their terminating NUL; reading at the end
 gives that NUL.
 */
module Strtol {
  import opened Arithmetic
  import opened Types

  // ---------- characters ----------

  predicate IsSpace(c: char) {
    var n := c as int; 9 <= n <= 13 || n == 32 || n == 160
  }

  predicate IsLower(c: char) {
    var n := c as int; 97 <= n <= 122 || 223 <= n <= 246 || 248 <= n <= 255
  }

  predicate IsUpper(c: char) {
    var n := c as int; 65 <= n <= 90 || 192 <= n <= 214 || 216 <= n <= 222
  }

  /** toupper, as a character code. */
  function ToUpper(c: char): int {
    if IsLower(c) then c as int - 32 else c as int
  }

  /** The digit a character stands for; no base reaches 255, which stands for "not a digit". */
  function DigitOf(c: char): (d: nat)
    ensures d <= 255
  {
    if '0' <= c <= '9' then c as int - '0' as int
    else if IsLower(c) || IsUpper(c) then ToUpper(c) - 'A' as int + 10
    else 255
  }

  predicate IsDigit(c: char, base: nat) {
    DigitOf(c) < base
  }

  function At(s: string, i: nat): char {
    if i < |s| then s[i] else '\0'
  }

  // ---------- the reference reading ----------

  datatype Errno = Unset | EINVAL | ERANGE

  /** The result, where `endptr` is left (None when it is not written), and `errno`. */
  datatype Parsed = Parsed(value: int, end: Option<nat>, errno: Errno)

  datatype Variant = Variant(unsigned: bool, quad: bool)

  function UMax(v: Variant): nat {
    if v.quad then 0xFFFF_FFFF_FFFF_FFFF else 0xFFFF_FFFF
  }

  function SMax(v: Variant): nat { UMax(v) / 2 }

  /** A number stored in the unsigned type. */
  function Wrapped(v: Variant, x: int): (r: nat)
    ensures r <= UMax(v)
  {
    if v.quad then x % 0x1_0000_0000_0000_0000 else x % 0x1_0000_0000
  }

  function SkipSpaces(s: string, i: nat): (j: nat)
    requires i <= |s|
    ensures i <= j <= |s|
    ensures j < |s| ==> !IsSpace(s[j])
    ensures forall k :: i <= k < j ==> IsSpace(s[k])
    decreases |s| - i
  {
    if i < |s| && IsSpace(s[i]) then SkipSpaces(s, i + 1) else i
  }

  /** The end of the longest run of digits from `i` on. */
  function RunEnd(s: string, i: nat, base: nat): (j: nat)
    requires i <= |s|
    ensures i <= j <= |s|
    ensures forall k :: i <= k < j ==> IsDigit(s[k], base)
    ensures j < |s| ==> !IsDigit(s[j], base)
    decreases |s| - i
  {
    if i < |s| && IsDigit(s[i], base) then RunEnd(s, i + 1, base) else i
  }

  /** One more digit on the right. */
  function Push(value: nat, base: nat, d: nat): nat { value * base + d }

  /** The number written by the digits s[i..j]. */
  function Value(s: string, i: nat, j: nat, base: nat): nat
    requires i <= j <= |s|
    decreases j - i
  {
    if i == j then 0 else Push(Value(s, i, j - 1, base), base, DigitOf(s[j - 1]))
  }

  predicate BadBase(base: int) { base < 0 || base == 1 || base > 36 }

  /** Is there a hexadecimal prefix at `k`? */
  predicate HexPrefix(s: string, k: nat, base: int) {
    At(s, k) == '0' && (base == 0 || base == 16) && ToUpper(At(s, k + 1)) == 'X' as int
  }

  function EffectiveBase(s: string, k: nat, base: int): (b: int)
    requires !BadBase(base)
    ensures 2 <= b <= 36
  {
    if HexPrefix(s, k, base) then 16
    else if base != 0 then base
    else if At(s, k) == '0' then 8
    else 10
  }

  /** The value the type can hold nearest to a magnitude with a sign, and whether it is exact. */
  function Clamp(v: Variant, negative: bool, mag: nat): (int, Errno) {
    if v.unsigned then
      if mag > UMax(v) then (UMax(v), ERANGE)
      else (Wrapped(v, if negative then -(mag as int) else mag), Unset)
    else if negative then
      if mag > SMax(v) + 1 then (-(SMax(v) as int) - 1, ERANGE) else (-(mag as int), Unset)
    else
      if mag > SMax(v) then (SMax(v), ERANGE) else (mag, Unset)
  }

  /** The conversion of section 7.20.1.4 of ISO/IEC 9899:1999; a bare `0x` stops at the `x`. */
  function Convert(s: string, base: int, v: Variant): Parsed {
    if BadBase(base) then Parsed(0, None, EINVAL)
    else
      var i := SkipSpaces(s, 0);
      if i == |s| then Parsed(0, Some(0), Unset)
      else
        var negative := s[i] == '-';
        var k := if s[i] == '-' || s[i] == '+' then i + 1 else i;
        var b := EffectiveBase(s, k, base);
        var d := if HexPrefix(s, k, base) then k + 2 else k;
        HexPrefixInside(s, k, base);
        var j := RunEnd(s, d, b);
        if j == d then Parsed(0, Some(if HexPrefix(s, k, base) then k + 1 else 0), Unset)
        else
          var (value, errno) := Clamp(v, negative, Value(s, d, j, b));
          Parsed(value, Some(j), errno)
  }

  lemma HexPrefixInside(s: string, k: nat, base: int)
    requires k <= |s|
    ensures HexPrefix(s, k, base) ==> k + 2 <= |s|
  {
  }

  // ---------- the digit loops ----------

  lemma {:induction false} RunEndStep(s: string, i: nat, j: nat, base: nat)
    requires i <= j <= |s|
    requires forall k :: i <= k < j ==> IsDigit(s[k], base)
    ensures RunEnd(s, i, base) == RunEnd(s, j, base)
    decreases j - i
  {
    if i < j { RunEndStep(s, i + 1, j, base); }
  }

  function Cutoff(max: nat, base: nat): nat requires base > 0 { max / base }

  function Cutlim(max: nat, base: nat): nat requires base > 0 { max % base }

  /** The test of line 479 is exact, and an overflow is never undone by further digits. */
  lemma OverflowExact(max: nat, base: nat, value: nat, d: nat)
    requires 2 <= base && d < base
    ensures Push(value, base, d) > max
       <==> value > Cutoff(max, base) || (value == Cutoff(max, base) && d > Cutlim(max, base))
    ensures Push(value, base, d) >= value
  {
    PushGrows(value, base, d);
    OverflowAt(max, max / base, max % base, base, value, d);
  }

  lemma PushGrows(value: nat, base: nat, d: nat)
    requires base > 0
    ensures Push(value, base, d) >= value
  {
    MulMonotone(1, base, value);
  }

  lemma OverflowAt(max: nat, q: nat, r: nat, base: nat, value: nat, d: nat)
    requires max == q * base + r && r < base && d < base
    ensures value * base + d > max <==> value > q || (value == q && d > r)
  {
    if value > q {
      MulMonotone(q + 1, value, base);
      NextMultiple(q, base);
    } else if value < q {
      MulMonotone(value + 1, q, base);
      NextMultiple(value, base);
    }
  }

  /** Lines 444-487, entered at `at` with the digits before it already read into `i0`. */
  method PlainLoop(s: string, start: nat, at: nat, base: nat, max: nat, i0: nat)
    returns (end: nat, i: nat, overflow: bool)
    requires start <= at <= |s| && 2 <= base <= 36
    requires forall k :: start <= k < at ==> IsDigit(s[k], base)
    requires i0 == Value(s, start, at, base) <= max
    ensures end == RunEnd(s, start, base)
    ensures overflow <==> Value(s, start, end, base) > max
    ensures !overflow ==> i == Value(s, start, end, base)
  {
    hide Push, Cutoff, Cutlim, DigitOf, RunEnd;
    var cutoff, cutlim := Cutoff(max, base), Cutlim(max, base);
    end, i, overflow := at, i0, false;
    while end < |s|
      invariant at <= end <= |s|
      invariant forall k :: start <= k < end ==> IsDigit(s[k], base)
      invariant overflow <==> Value(s, start, end, base) > max
      invariant !overflow ==> i == Value(s, start, end, base)
      invariant i <= max
    {
      var c := DigitOf(s[end]);
      if c >= base { break; }
      OverflowExact(max, base, Value(s, start, end, base), c);
      OverflowExact(max, base, i, c);
      if i > cutoff || (i == cutoff && c > cutlim) {
        overflow := true;
      } else {
        i := Push(i, base, c);
      }
      end := end + 1;
    }
    RunEndStep(s, start, end, base);
  }

  /**
   Lines 391-442: the QUAD variant reads in 32 bits while that is safe and then jumps into the
   middle of the plain loop.  Its contract is that of the plain loop.
   */
  method QuadLoop(s: string, start: nat, base: nat, max: nat) returns (end: nat, i: nat, overflow: bool)
    requires start <= |s| && 2 <= base <= 36 && max == 0xFFFF_FFFF_FFFF_FFFF
    ensures end == RunEnd(s, start, base)
    ensures overflow <==> Value(s, start, end, base) > max
    ensures !overflow ==> i == Value(s, start, end, base)
  {
    hide Push, Cutoff, Cutlim, DigitOf, RunEnd;
    var j, jmax := 0, Cutoff(0xFFFF_FFFF, base);
    end := start;
    while end < |s|
      invariant start <= end <= |s|
      invariant forall k :: start <= k < end ==> IsDigit(s[k], base)
      invariant j == Value(s, start, end, base) <= 0xFFFF_FFFF
    {
      var c := DigitOf(s[end]);
      if c >= base { break; }
      OverflowExact(0xFFFF_FFFF, base, j, c);
      if j >= jmax {
        Fits(j, base, c);
        end, i, overflow := PlainLoop(s, start, end + 1, base, max, Push(j, base, c));
        return;
      }
      j := Push(j, base, c);
      end := end + 1;
    }
    RunEndStep(s, start, end, base);
    i, overflow := j, false;
  }

  lemma Fits(j: nat, base: nat, c: nat)
    requires j <= 0xFFFF_FFFF && base <= 36 && c < base
    ensures Push(j, base, c) <= 0xFFFF_FFFF_FFFF_FFFF
  {
    MulMonotone(base, 36, j);
  }

  /** Lines 306-339: white space, sign and prefix.  Gives where the digits start and the base to read them in. */
  method ReadHead(s: string, base: int) returns (blank: bool, negative: bool, ghost k: nat, p: nat, b: nat)
    requires '\0' !in s && !BadBase(base)
    ensures blank <==> SkipSpaces(s, 0) == |s|
    ensures !blank ==>
              var i := SkipSpaces(s, 0);
              && negative == (s[i] == '-') && k == (if s[i] == '-' || s[i] == '+' then i + 1 else i)
              && b == EffectiveBase(s, k, base)
              && p == (if HexPrefix(s, k, base) then k + 2 else k) && p <= |s|
    ensures !blank ==> (HexPrefix(s, k, base) <==> p >= 2 && ToUpper(s[p - 1]) == 'X' as int && s[p - 2] == '0')
  {
    p, k, b, negative := 0, 0, 10, false;
    while IsSpace(At(s, p))
      invariant 0 <= p <= |s|
      invariant SkipSpaces(s, 0) == SkipSpaces(s, p)
      invariant forall i :: 0 <= i < p ==> IsSpace(s[i])
      decreases |s| - p
    {
      p := p + 1;
    }
    blank := p == |s|;
    if blank { return; }
    if s[p] == '-' {
      negative, p := true, p + 1;
    } else if s[p] == '+' {
      p := p + 1;
    }
    k := p;
    var base' := base;
    if At(s, p) == '0' {
      if (base' == 0 || base' == 16) && ToUpper(At(s, p + 1)) == 'X' as int {
        p, base' := p + 2, 16;
      } else if base' == 0 {
        base' := 8;
      }
    } else if base' == 0 {
      base' := 10;
    }
    b := base';
  }

  // ---------- the limits ----------

  /** STRTOL_LONG_MAX and STRTOL_LONG_MIN, whatever the headers make of them. */
  datatype Limits = Limits(max: int, min: int)

  function Standard(v: Variant): Limits { Limits(SMax(v), -(SMax(v) as int) - 1) }

  /** A number stored in the signed type. */
  function Signed(v: Variant, x: int): int {
    var u := Wrapped(v, x);
    if u <= SMax(v) then u else u - (UMax(v) + 1)
  }

  /** The right side of the comparison of lines 502-504, in the unsigned type. */
  function Bound(v: Variant, lim: Limits, negative: bool): int {
    if negative then Wrapped(v, 1 - Wrapped(v, lim.min + 1)) else Wrapped(v, lim.max)
  }

  /** Lines 498-519 with given limits: the result for the digits read, or for a number that did not fit. */
  function Conclude(v: Variant, lim: Limits, negative: bool, i: nat, overflow: bool): (int, Errno) {
    if overflow || (!v.unsigned && i > Bound(v, lim, negative)) then
      (if v.unsigned then UMax(v) else Signed(v, if negative then lim.min else lim.max), ERANGE)
    else
      var x := if negative then -(i as int) else i;
      (if v.unsigned then Wrapped(v, x) else Signed(v, x), Unset)
  }

  lemma WrapsOnce(v: Variant, x: int)
    requires -(UMax(v) as int) - 1 <= x <= UMax(v)
    ensures Wrapped(v, x) == if x < 0 then x + UMax(v) + 1 else x
  {
  }

  lemma WrappedNext(v: Variant, x: int)
    requires Wrapped(v, x) < UMax(v)
    ensures Wrapped(v, x + 1) == Wrapped(v, x) + 1
  {
  }

  lemma StandardBound(v: Variant, negative: bool)
    ensures Bound(v, Standard(v), negative) == if negative then SMax(v) + 1 else SMax(v)
    ensures Signed(v, Standard(v).max) == SMax(v) && Signed(v, Standard(v).min) == -(SMax(v) as int) - 1
  {
    hide Wrapped;
    WrapsOnce(v, SMax(v));
    WrapsOnce(v, -(SMax(v) as int) - 1);
    WrapsOnce(v, -(SMax(v) as int));
  }

  lemma ConcludeStandard(v: Variant, negative: bool, i: nat, overflow: bool, mag: nat)
    requires overflow <==> mag > UMax(v)
    requires !overflow ==> i == mag
    ensures Conclude(v, Standard(v), negative, i, overflow) == Clamp(v, negative, mag)
  {
    StandardBound(v, negative);
    hide Wrapped, Bound, Standard;
    if !overflow && !v.unsigned && i <= Bound(v, Standard(v), negative) {
      WrapsOnce(v, if negative then -(i as int) else i);
    }
  }

  ghost predicate Clamps(v: Variant, lim: Limits) {
    forall negative, i: nat :: i <= UMax(v) ==> Conclude(v, lim, negative, i, false) == Clamp(v, negative, i)
  }

  /** A signed variant clamps every number to its range if and only if the limits are those of its type. */
  lemma ClampsIff(v: Variant, lim: Limits)
    requires !v.unsigned
    ensures Clamps(v, lim) <==> Signed(v, lim.max) == SMax(v) && Signed(v, lim.min) == -(SMax(v) as int) - 1
  {
    var m := SMax(v);
    if Clamps(v, lim) {
      assert Conclude(v, lim, false, m, false) == Clamp(v, false, m);
      assert Conclude(v, lim, false, m + 1, false) == Clamp(v, false, m + 1);
      assert Conclude(v, lim, true, m + 2, false) == Clamp(v, true, m + 2);
    } else if Signed(v, lim.max) == m && Signed(v, lim.min) == -(m as int) - 1 {
      SameBound(v, lim);
      forall negative, i: nat | i <= UMax(v) ensures Conclude(v, lim, negative, i, false) == Clamp(v, negative, i) {
        ConcludeStandard(v, negative, i, false, i);
      }
      assert false;
    }
  }

  lemma SameBound(v: Variant, lim: Limits)
    requires Signed(v, lim.max) == SMax(v) && Signed(v, lim.min) == -(SMax(v) as int) - 1
    ensures Bound(v, lim, false) == Bound(v, Standard(v), false) && Bound(v, lim, true) == Bound(v, Standard(v), true)
    ensures Signed(v, lim.max) == Signed(v, Standard(v).max) && Signed(v, lim.min) == Signed(v, Standard(v).min)
  {
    hide Wrapped;
    StandardBound(v, true);
    StandardBound(v, false);
    WrappedNext(v, lim.min);
    WrappedNext(v, Standard(v).min);
  }

  /**
   With the limits of the repository's own header, LONG_MAX equal to ULONG_MAX and LONG_MIN zero, every
   negative number overflows and gives 0, and a positive one past the range of the type comes out negative.
   */
  lemma RepositoryLimits(v: Variant, i: nat)
    requires !v.unsigned && 0 < i <= UMax(v)
    ensures Conclude(v, Limits(UMax(v), 0), true, i, false) == (0, ERANGE)
    ensures i > SMax(v) ==> Conclude(v, Limits(UMax(v), 0), false, i, false) == (i - (UMax(v) + 1), Unset)
    ensures !Clamps(v, Limits(UMax(v), 0))
  {
    hide Wrapped, Clamps;
    ClampsIff(v, Limits(UMax(v), 0));
    WrapsOnce(v, UMax(v));
    WrapsOnce(v, 0);
    WrapsOnce(v, 1);
    WrapsOnce(v, i);
  }

  /** The same text on variables. */
  method Finish(v: Variant, lim: Limits, negative: bool, i: nat, overflow0: bool) returns (value: int, errno: Errno)
    ensures (value, errno) == Conclude(v, lim, negative, i, overflow0)
  {
    var overflow := overflow0;
    if !v.unsigned && !overflow && i > Bound(v, lim, negative) {
      overflow := true;
    }
    if overflow {
      value := if v.unsigned then UMax(v) else Signed(v, if negative then lim.min else lim.max);
      return value, ERANGE;
    }
    value := if negative then -(i as int) else i;
    value := if v.unsigned then Wrapped(v, value) else Signed(v, value);
    return value, Unset;
  }

  /** INTERNAL(strtol), lines 300-536. */
  method ParseInt(s: string, base: int, v: Variant) returns (r: Parsed)
    requires '\0' !in s
    ensures r == Convert(s, base, v)
  {
    hide Push, RunEnd, SkipSpaces, Clamp, Conclude, EffectiveBase, HexPrefix, ToUpper;
    if base < 0 || base == 1 || base > 36 { return Parsed(0, None, EINVAL); }
    var blank, negative, k, p, b := ReadHead(s, base);
    if blank { return Parsed(0, Some(0), Unset); }
    var end, i, overflow;
    if v.quad {
      end, i, overflow := QuadLoop(s, p, b, UMax(v));
    } else {
      end, i, overflow := PlainLoop(s, p, p, b, UMax(v), 0);
    }
    if end == p {
      if p >= 2 && ToUpper(s[p - 1]) == 'X' as int && s[p - 2] == '0' {
        return Parsed(0, Some(p - 1), Unset);
      }
      return Parsed(0, Some(0), Unset);
    }
    var value, errno := Finish(v, Standard(v), negative, i, overflow);
    ConcludeStandard(v, negative, i, overflow, Value(s, p, end, b));
    r := Parsed(value, Some(end), errno);
  }
}
