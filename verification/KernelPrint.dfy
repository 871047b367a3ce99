/**
 ctrl_to_str of microkernel/kernel/kernel_stdio.c, and the theorem that strtoul reads back what it
 prints.  Its branch for a sign is dead: `num` is unsigned.
 */
module KernelPrint {
  import opened Arithmetic
  import opened Types
  import opened Strtol

  const WORD := 0x1_0000_0000

  /** The digit tables; `upper` is the CASE flag. */
  function DigitChar(d: nat, upper: bool): (c: char)
    requires d < 16
    ensures DigitOf(c) == d
    ensures !IsSpace(c) && c != '-' && c != '+' && (c == '0' <==> d == 0)
  {
    if upper then "0123456789ABCDEF"[d] else "0123456789abcdef"[d]
  }

  /** The digits of `n`, most significant first, with no leading zero. */
  function Digits(n: nat, base: nat, upper: bool): (r: string)
    requires 2 <= base <= 16
    ensures r != ""
  {
    if n < base then [DigitChar(n, upper)]
    else Digits(n / base, base, upper) + [DigitChar(n % base, upper)]
  }

  /** Letters are lower-case without the CASE flag and upper-case with it. */
  lemma {:induction false} DigitsCase(n: nat, base: nat, upper: bool)
    requires 2 <= base <= 16
    ensures forall c :: c in Digits(n, base, upper) ==> c in (if upper then "0123456789ABCDEF" else "0123456789abcdef")
    decreases n
  {
    if n >= base {
      QuotientPositive(n, base);
      DigitsCase(n / base, base, upper);
    }
  }

  // ---------- reading back ----------

  lemma {:induction false} DigitsAllDigits(n: nat, base: nat, upper: bool)
    requires 2 <= base <= 16
    ensures forall k :: 0 <= k < |Digits(n, base, upper)| ==> IsDigit(Digits(n, base, upper)[k], base)
    ensures !IsSpace(Digits(n, base, upper)[0])
    ensures Digits(n, base, upper)[0] != '-' && Digits(n, base, upper)[0] != '+'
    ensures Digits(n, base, upper)[0] == '0' ==> n == 0 && |Digits(n, base, upper)| == 1
    decreases n
  {
    hide IsSpace;
    if n >= base {
      QuotientPositive(n, base);
      DigitsAllDigits(n / base, base, upper);
    }
  }

  lemma QuotientPositive(n: nat, base: nat)
    requires 2 <= base <= n
    ensures 0 < n / base < n
  {
  }

  lemma {:induction false} ValueFrame(s: string, t: string, i: nat, j: nat, base: nat)
    requires i <= j <= |s| && j <= |t| && s[..j] == t[..j]
    ensures Value(s, i, j, base) == Value(t, i, j, base)
    decreases j - i
  {
    if i < j {
      assert s[..j - 1] == s[..j][..j - 1] == t[..j][..j - 1] == t[..j - 1];
      ValueFrame(s, t, i, j - 1, base);
      assert s[j - 1] == s[..j][j - 1] == t[..j][j - 1] == t[j - 1];
    }
  }

  lemma {:induction false} ValueOfDigits(n: nat, base: nat, upper: bool)
    requires 2 <= base <= 16
    ensures Value(Digits(n, base, upper), 0, |Digits(n, base, upper)|, base) == n
    decreases n
  {
    hide DigitChar;
    var s := Digits(n, base, upper);
    if n < base {
      assert Value(s, 0, 0, base) == 0;
      assert Push(0, base, n) == n;
    } else {
      QuotientPositive(n, base);
      var t := Digits(n / base, base, upper);
      ValueOfDigits(n / base, base, upper);
      ValueFrame(s, t, 0, |t|, base);
      DivMod(n, base);
    }
  }

  lemma DivMod(n: nat, base: nat)
    requires base > 0
    ensures Push(n / base, base, n % base) == n
  {
  }

  /**
   Parsing undoes printing: for every 32-bit number, every base from 2 to 16 and either case of the
   digits, the unsigned variants of strtol return the number and consume all of its digits.
   */
  lemma ParseUndoesPrint(n: nat, base: nat, upper: bool, quad: bool)
    requires n < WORD && 2 <= base <= 16
    ensures Convert(Digits(n, base, upper), base, Variant(true, quad))
         == Parsed(n, Some(|Digits(n, base, upper)|), Unset)
  {
    hide Digits, Value;
    var s := Digits(n, base, upper);
    DigitsAllDigits(n, base, upper);
    ValueOfDigits(n, base, upper);
    RunEndStep(s, 0, |s|, base);
  }

  /** The number of digits is exact: it is the least count of digits that reaches `n`. */
  lemma {:induction false} DigitCountExact(n: nat, base: nat, upper: bool)
    requires 2 <= base <= 16
    ensures n < Pow(base, |Digits(n, base, upper)|)
    ensures n > 0 ==> n >= Pow(base, |Digits(n, base, upper)| - 1)
    decreases n
  {
    hide Pow, DigitChar;
    if n < base {
      PowSmall(base);
    } else {
      QuotientPositive(n, base);
      DigitCountExact(n / base, base, upper);
      CountStep(n, base, |Digits(n / base, base, upper)|);
    }
  }

  function Pow(b: nat, e: nat): nat { if e == 0 then 1 else b * Pow(b, e - 1) }

  lemma PowSmall(b: nat)
    ensures Pow(b, 0) == 1 && Pow(b, 1) == b
  {
    assert Pow(b, 1) == b * Pow(b, 0);
  }

  lemma CountStep(n: nat, base: nat, k: nat)
    requires base > 0 && k > 0 && Pow(base, k - 1) <= n / base < Pow(base, k)
    ensures Pow(base, k) <= n < Pow(base, k + 1)
  {
    DivBounds(n, base, Pow(base, k - 1), Pow(base, k));
  }

  lemma DivBounds(n: nat, base: nat, lo: nat, hi: nat)
    requires base > 0 && lo <= n / base < hi
    ensures base * lo <= n < base * hi
  {
    DivMod(n, base);
    MulMonotone(lo, n / base, base);
    MulMonotone(n / base + 1, hi, base);
    NextMultiple(n / base, base);
  }

  // ---------- in place ----------

  function Pow2(e: nat): nat { if e == 0 then 1 else 2 * Pow2(e - 1) }

  /** What the second loop writes: the filled buffer from its last cell to its first. */
  ghost function Backwards(s: seq<char>): seq<char> {
    if s == [] then [] else [s[|s| - 1]] + Backwards(s[..|s| - 1])
  }

  /** The digit that is produced after `k` others is written with `k` others behind it. */
  lemma {:induction false} BackwardsDigits(s: seq<char>)
    ensures |Backwards(s)| == |s|
    ensures forall k :: 0 <= k < |s| ==> Backwards(s)[|s| - 1 - k] == s[k]
  {
    if s != [] {
      var rest := s[..|s| - 1];
      BackwardsDigits(rest);
      assert Backwards(s) == [s[|s| - 1]] + Backwards(rest);
      hide Backwards;
      forall k | 0 <= k < |s| ensures Backwards(s)[|s| - 1 - k] == s[k] {
        if k < |s| - 1 { assert Backwards(s)[|s| - 1 - k] == Backwards(rest)[|rest| - 1 - k]; }
      }
    }
  }

  /** A word divided by a base of at least 2 loses at least one bit, so 36 places are enough. */
  lemma Halves(num: nat, base: nat, e: nat)
    requires 2 <= base && num < Pow2(e) && num > 0
    ensures e > 0 && 0 <= num / base < Pow2(e - 1) && num / base < num
  {
    assert num / base <= num / 2 by { HalfAtMost(num, base); }
  }

  lemma HalfAtMost(n: nat, base: nat)
    requires base >= 2
    ensures n / base <= n / 2
  {
    DivMod(n, base);
    MulMonotone(2, base, n / base);
  }

  /** The first loop: the digits of `num` into `tmps`, least significant first. */
  method FillDigits(tmps: array<char>, base: nat, upper: bool, num0: nat) returns (count: nat)
    requires tmps.Length == 36 && 2 <= base <= 16 && num0 < WORD
    modifies tmps
    ensures count <= 32 && Backwards(tmps[..count]) == Digits(num0, base, upper)
  {
    hide DigitChar, Pow2, Digits, Backwards;
    count := 0;
    var num := num0;
    Pow2At32();
    ZeroDigit(base, upper);
    if num == 0 {
      tmps[count] := '0';
      count := count + 1;
      assert tmps[..1] == "0";
    } else {
      assert tmps[..0] == "" && Digits(num, base, upper) + "" == Digits(num, base, upper);
    }
    while num != 0
      invariant count <= 32 && 0 <= num && (num > 0 ==> num < Pow2(32 - count))
      invariant num > 0 ==> Digits(num0, base, upper) == Digits(num, base, upper) + Backwards(tmps[..count])
      invariant num == 0 ==> Digits(num0, base, upper) == Backwards(tmps[..count])
    {
      Halves(num, base, 32 - count);
      ghost var before, n := tmps[..count], num;
      var tmp := num % base;
      num := num / base;
      tmps[count] := DigitChar(tmp, upper);
      count := count + 1;
      assert tmps[..count] == before + [DigitChar(tmp, upper)];
      NextDigit(n, base, upper, before);
    }
  }

  lemma Pow2At32()
    ensures Pow2(32) == WORD
  {
    assert Pow2(8) == 256;
    assert Pow2(16) == 65536;
    assert Pow2(24) == 16777216;
  }

  lemma ZeroDigit(base: nat, upper: bool)
    requires 2 <= base <= 16
    ensures Digits(0, base, upper) == Backwards("0") && Backwards("") == ""
  {
    assert Backwards("0") == ['0'] + Backwards("0"[..0]);
  }

  lemma SmallQuotient(n: nat, base: nat)
    requires n < base
    ensures n / base == 0 && n % base == n
  {
  }

  lemma DigitsSplit(n: nat, base: nat, upper: bool)
    requires 2 <= base <= 16
    ensures n < base ==> Digits(n, base, upper) == [DigitChar(n, upper)]
    ensures n >= base ==> Digits(n, base, upper) == Digits(n / base, base, upper) + [DigitChar(n % base, upper)]
  {
  }

  /** Moving the last digit of `n` over to the digits already peeled off. */
  lemma NextDigit(n: nat, base: nat, upper: bool, peeled: string)
    requires 2 <= base <= 16 && n > 0
    ensures var whole, more := Digits(n, base, upper) + Backwards(peeled), peeled + [DigitChar(n % base, upper)];
            && (n / base > 0 ==> whole == Digits(n / base, base, upper) + Backwards(more))
            && (n / base == 0 ==> whole == Backwards(more))
  {
    hide DigitChar, Digits;
    DigitsSplit(n, base, upper);
    var c := DigitChar(n % base, upper);
    assert (peeled + [c])[..|peeled|] == peeled;
    assert Backwards(peeled + [c]) == [c] + Backwards(peeled);
    if n < base { SmallQuotient(n, base); } else { QuotientPositive(n, base); }
  }

  lemma DigitCases(n: nat, base: nat, upper: bool)
    requires 2 <= base <= 16
    ensures forall k :: 0 <= k < |Digits(n, base, upper)| ==>
              Digits(n, base, upper)[k] in (if upper then "0123456789ABCDEF" else "0123456789abcdef")
  {
    hide Digits;
    DigitsCase(n, base, upper);
    assert forall k :: 0 <= k < |Digits(n, base, upper)| ==> Digits(n, base, upper)[k] in Digits(n, base, upper);
  }

  /** ctrl_to_str: print `num` at `at` in `buff`; the count of characters written is returned. */
  method CtrlToStr(buff: array<char>, at: nat, base: nat, upper: bool, num: nat) returns (ret: nat)
    requires 2 <= base <= 16 && num < WORD
    requires at + |Digits(num, base, upper)| <= buff.Length
    modifies buff
    ensures ret == |Digits(num, base, upper)|
    ensures buff[..] == old(buff[..at]) + Digits(num, base, upper) + old(buff[at + ret..])
    ensures forall k :: at <= k < at + ret ==>
              buff[k] in (if upper then "0123456789ABCDEF" else "0123456789abcdef")
  {
    hide Digits, Backwards;
    var tmps := new char[36];
    var count := FillDigits(tmps, base, upper, num);
    ret := count;
    ghost var digits := Digits(num, base, upper);
    BackwardsDigits(tmps[..count]);
    ghost var filled := tmps[..ret];
    var p := at;
    while count > 0
      invariant tmps[..ret] == filled
      invariant p == at + (ret - count) && 0 <= count <= ret
      invariant forall k :: at <= k < p ==> buff[k] == digits[k - at]
      invariant forall k :: 0 <= k < buff.Length && !(at <= k < p) ==> buff[k] == old(buff[k])
    {
      count := count - 1;
      assert tmps[count] == filled[count];
      buff[p] := tmps[count];
      p := p + 1;
    }
    DigitCases(num, base, upper);
    assert buff[at..p] == digits;
    assert buff[..at] == old(buff[..at]) && buff[p..] == old(buff[p..]);
    assert buff[..] == buff[..at] + buff[at..p] + buff[p..];
  }
}
