/**
 What the conversion of module Strtol does with the text around the digits, said of strings and results
 only: white space and a plus sign in front change nothing but the end pointer, a minus sign negates, and
 the prefixes select the base.
 */
module StrtolLaws {
  import opened Types
  import opened Strtol

  // ---------- one character more in front ----------

  /** The same result with the end pointer one further on, if there was a number at all. */
  function Later(p: Parsed): Parsed {
    if p.end.Some? && p.end.value > 0 then p.(end := Some(p.end.value + 1)) else p
  }

  predicate Sign(c: char) { c == '+' || c == '-' }

  /** The conversion from `k` on, after white space and sign. */
  ghost function From(s: string, k: nat, negative: bool, base: int, v: Variant): Parsed
    requires k <= |s| && !BadBase(base)
  {
    var b := EffectiveBase(s, k, base);
    var d := if HexPrefix(s, k, base) then k + 2 else k;
    HexPrefixInside(s, k, base);
    var j := RunEnd(s, d, b);
    if j == d then Parsed(0, Some(if HexPrefix(s, k, base) then k + 1 else 0), Unset)
    else
      var (value, errno) := Clamp(v, negative, Value(s, d, j, b));
      Parsed(value, Some(j), errno)
  }

  /** The conversion from `i` on, after white space. */
  ghost function AfterSpace(s: string, i: nat, base: int, v: Variant): Parsed
    requires i <= |s| && !BadBase(base)
  {
    if i == |s| then Parsed(0, Some(0), Unset)
    else From(s, if Sign(s[i]) then i + 1 else i, s[i] == '-', base, v)
  }

  lemma ConvertIs(s: string, base: int, v: Variant)
    requires !BadBase(base)
    ensures Convert(s, base, v) == AfterSpace(s, SkipSpaces(s, 0), base, v)
  {
    hide SkipSpaces, RunEnd, Value, Clamp, HexPrefix, EffectiveBase;
  }

  lemma {:induction false} SkipLater(c: char, t: string, i: nat)
    requires i <= |t|
    ensures SkipSpaces([c] + t, i + 1) == SkipSpaces(t, i) + 1
    decreases |t| - i
  {
    if i < |t| && IsSpace(t[i]) { SkipLater(c, t, i + 1); }
  }

  lemma {:induction false} RunLater(c: char, t: string, i: nat, base: nat)
    requires i <= |t|
    ensures RunEnd([c] + t, i + 1, base) == RunEnd(t, i, base) + 1
    decreases |t| - i
  {
    if i < |t| && IsDigit(t[i], base) { RunLater(c, t, i + 1, base); }
  }

  lemma {:induction false} ValueLater(c: char, t: string, i: nat, j: nat, base: nat)
    requires i <= j <= |t|
    ensures Value([c] + t, i + 1, j + 1, base) == Value(t, i, j, base)
    decreases j - i
  {
    hide Push, DigitOf;
    if i < j { ValueLater(c, t, i, j - 1, base); }
  }

  lemma PrefixLater(c: char, t: string, k: nat, base: int)
    requires k <= |t| && !BadBase(base)
    ensures HexPrefix([c] + t, k + 1, base) == HexPrefix(t, k, base)
    ensures EffectiveBase([c] + t, k + 1, base) == EffectiveBase(t, k, base)
  {
    hide ToUpper;
    assert At([c] + t, k + 1) == At(t, k) && At([c] + t, k + 2) == At(t, k + 1);
  }

  lemma FromLater(c: char, t: string, k: nat, negative: bool, base: int, v: Variant)
    requires k <= |t| && !BadBase(base)
    ensures From([c] + t, k + 1, negative, base, v) == Later(From(t, k, negative, base, v))
  {
    hide RunEnd, Value, Clamp, HexPrefix, EffectiveBase;
    PrefixLater(c, t, k, base);
    HexPrefixInside([c] + t, k + 1, base);
    HexPrefixInside(t, k, base);
    var d, b := if HexPrefix(t, k, base) then k + 2 else k, EffectiveBase(t, k, base);
    RunLater(c, t, d, b);
    ValueLater(c, t, d, RunEnd(t, d, b), b);
  }

  lemma AfterSpaceLater(c: char, t: string, i: nat, base: int, v: Variant)
    requires i <= |t| && !BadBase(base)
    ensures AfterSpace([c] + t, i + 1, base, v) == Later(AfterSpace(t, i, base, v))
  {
    hide From;
    if i < |t| { FromLater(c, t, if Sign(t[i]) then i + 1 else i, t[i] == '-', base, v); }
  }

  // ---------- text behind the number ----------

  lemma {:induction false} SkipBefore(t: string, u: string, i: nat)
    requires i <= |t| && SkipSpaces(t, i) < |t|
    ensures SkipSpaces(t + u, i) == SkipSpaces(t, i)
    decreases |t| - i
  {
    if i < |t| && IsSpace(t[i]) { SkipBefore(t, u, i + 1); }
  }

  lemma {:induction false} RunBefore(t: string, u: string, i: nat, base: nat)
    requires i <= |t| && (u == "" || !IsDigit(u[0], base))
    ensures RunEnd(t + u, i, base) == RunEnd(t, i, base)
    decreases |t| - i
  {
    if i < |t| && IsDigit(t[i], base) {
      RunBefore(t, u, i + 1, base);
    } else if i == |t| && u != "" {
      assert (t + u)[i] == u[0];
    } else if u == "" {
      assert t + u == t;
    }
  }

  lemma {:induction false} ValueBefore(t: string, u: string, i: nat, j: nat, base: nat)
    requires i <= j <= |t|
    ensures Value(t + u, i, j, base) == Value(t, i, j, base)
    decreases j - i
  {
    hide Push, DigitOf;
    if i < j { ValueBefore(t, u, i, j - 1, base); }
  }

  lemma FromBefore(t: string, u: string, k: nat, negative: bool, base: int, v: Variant)
    requires k < |t| && !BadBase(base) && (u == "" || (u[0] as int < 256 && !AlphaNumeric(u[0])))
    ensures From(t + u, k, negative, base, v) == From(t, k, negative, base, v)
  {
    hide RunEnd, Value, Clamp, HexPrefix, EffectiveBase, DigitOf;
    PrefixBefore(t, u, k, base);
    HexPrefixInside(t, k, base);
    var d, b := if HexPrefix(t, k, base) then k + 2 else k, EffectiveBase(t, k, base);
    if u != "" { DigitTable(u[0]); }
    RunBefore(t, u, d, b);
    ValueBefore(t, u, d, RunEnd(t, d, b), b);
  }

  lemma PrefixBefore(t: string, u: string, k: nat, base: int)
    requires k < |t| && !BadBase(base) && (u == "" || (u[0] as int < 256 && !AlphaNumeric(u[0])))
    ensures HexPrefix(t + u, k, base) == HexPrefix(t, k, base)
    ensures EffectiveBase(t + u, k, base) == EffectiveBase(t, k, base)
  {
    assert (t + u)[k] == t[k];
    if k + 1 < |t| { assert (t + u)[k + 1] == t[k + 1]; }
    else if u != "" { assert (t + u)[k + 1] == u[0]; }
    else { assert t + u == t; }
  }

  /** Text behind a number that begins with neither digit nor letter is not read: the end pointer stays before it. */
  lemma TailLaw(t: string, u: string, base: int, v: Variant)
    requires u == "" || (u[0] as int < 256 && !AlphaNumeric(u[0]))
    requires Convert(t, base, v).end.Some? && Convert(t, base, v).end.value > 0
    ensures Convert(t + u, base, v) == Convert(t, base, v)
  {
    hide Convert, SkipSpaces, From, AlphaNumeric;
    if BadBase(base) {
      RefusedBase(t, base, v);
      assert false;
    } else {
      ConvertIs(t, base, v);
      ConvertIs(t + u, base, v);
      var i := SkipSpaces(t, 0);
      SkipBefore(t, u, 0);
      assert (t + u)[i] == t[i];
      var k := if Sign(t[i]) then i + 1 else i;
      if k < |t| { FromBefore(t, u, k, t[i] == '-', base, v); } else { NothingLeft(t, t[i] == '-', base, v); }
    }
  }

  lemma NothingLeft(t: string, negative: bool, base: int, v: Variant)
    requires !BadBase(base)
    ensures From(t, |t|, negative, base, v) == Parsed(0, Some(0), Unset)
  {
  }

  // ---------- bases ----------

  /** A base is refused, and the end pointer not written, if and only if it is neither 0 nor 2 to 36. */
  lemma BaseLaw(t: string, base: int, v: Variant)
    ensures Convert(t, base, v).errno == EINVAL <==> base != 0 && !(2 <= base <= 36)
    ensures Convert(t, base, v).end == None <==> base != 0 && !(2 <= base <= 36)
  {
    hide RunEnd, Value, SkipSpaces, HexPrefix, EffectiveBase;
  }

  // ---------- white space ----------

  /** Blank, tab, newline, vertical tab, form feed, carriage return, and the blank of Latin-1. */
  predicate White(c: char) { c in " \t\n" || c as int in {11, 12, 13, 160} }

  lemma WhiteIsSpace(c: char)
    ensures White(c) <==> IsSpace(c)
  {
  }

  /** White space in front moves the end pointer and nothing else. */
  lemma WhiteSpaceLaw(c: char, t: string, base: int, v: Variant)
    requires White(c)
    ensures Convert([c] + t, base, v) == Later(Convert(t, base, v))
  {
    hide AfterSpace, Convert, IsSpace;
    WhiteIsSpace(c);
    if BadBase(base) {
      RefusedBase([c] + t, base, v);
      RefusedBase(t, base, v);
    } else {
      SkipLater(c, t, 0);
      ConvertIs([c] + t, base, v);
      ConvertIs(t, base, v);
      AfterSpaceLater(c, t, SkipSpaces(t, 0), base, v);
    }
  }

  lemma RefusedBase(t: string, base: int, v: Variant)
    requires BadBase(base)
    ensures Convert(t, base, v) == Parsed(0, None, EINVAL)
  {
  }

  // ---------- signs ----------

  /** Nothing in front of a number's digits and prefix. */
  predicate Bare(t: string) { t == "" || (!White(t[0]) && !Sign(t[0])) }

  lemma BareFrom(t: string, base: int, v: Variant)
    requires Bare(t) && !BadBase(base)
    ensures Convert(t, base, v) == From(t, 0, false, base, v)
  {
    hide From, IsSpace;
    ConvertIs(t, base, v);
    hide Convert;
    if t == "" { EmptyFrom(base, v); } else { WhiteIsSpace(t[0]); }
  }

  lemma EmptyFrom(base: int, v: Variant)
    requires !BadBase(base)
    ensures From("", 0, false, base, v) == Parsed(0, Some(0), Unset)
  {
  }

  lemma SignedFrom(c: char, t: string, base: int, v: Variant)
    requires Sign(c) && !BadBase(base)
    ensures Convert([c] + t, base, v) == Later(From(t, 0, c == '-', base, v))
  {
    hide From, IsSpace, Convert;
    WhiteIsSpace(c);
    ConvertIs([c] + t, base, v);
    FromLater(c, t, 0, c == '-', base, v);
  }

  /** A plus sign moves the end pointer and nothing else. */
  lemma PlusLaw(t: string, base: int, v: Variant)
    requires Bare(t)
    ensures Convert("+" + t, base, v) == Later(Convert(t, base, v))
  {
    hide From, Convert;
    if BadBase(base) {
      RefusedBase("+" + t, base, v);
      RefusedBase(t, base, v);
    } else {
      BareFrom(t, base, v);
      SignedFrom('+', t, base, v);
    }
  }

  /** What a minus sign makes of a result `p` and, where that is out of range, of the unsigned reading `u`. */
  ghost predicate Negated(v: Variant, p: (int, Errno), u: (int, Errno), q: (int, Errno)) {
    var half := if v.quad then 0x8000_0000_0000_0000 else 0x8000_0000;
    match p.1
    case EINVAL => q == p
    case Unset => q == (if v.unsigned && p.0 > 0 then 2 * half - p.0 else -p.0, Unset)
    case ERANGE =>
      if v.unsigned then q == (2 * half - 1, ERANGE)
      else q == (-half, if u.1 == ERANGE || u.0 > half then ERANGE else Unset)
  }

  function Result(p: Parsed): (int, Errno) { (p.value, p.errno) }

  /** A minus sign negates within the range of a signed type and complements in an unsigned one. */
  lemma MinusLaw(t: string, base: int, v: Variant)
    requires Bare(t)
    ensures var p, q := Convert(t, base, v), Convert("-" + t, base, v);
            && q.end == Later(p).end
            && Negated(v, Result(p), Result(Convert(t, base, v.(unsigned := true))), Result(q))
  {
    hide Convert, RunEnd, Value, EffectiveBase, HexPrefix, Wrapped, Clamp;
    if BadBase(base) {
      RefusedBase("-" + t, base, v);
      RefusedBase(t, base, v);
    } else {
      BareFrom(t, base, v);
      BareFrom(t, base, v.(unsigned := true));
      SignedFrom('-', t, base, v);
      var d, b := if HexPrefix(t, 0, base) then 2 else 0, EffectiveBase(t, 0, base);
      HexPrefixInside(t, 0, base);
      ClampNegated(v, Value(t, d, RunEnd(t, d, b), b));
    }
  }

  lemma ClampNegated(v: Variant, mag: nat)
    ensures Negated(v, Clamp(v, false, mag), Clamp(v.(unsigned := true), false, mag), Clamp(v, true, mag))
  {
    hide Wrapped;
    if mag <= UMax(v) {
      WrapsOnce(v, mag);
      WrapsOnce(v, -(mag as int));
      WrapsOnce(v.(unsigned := true), mag);
    }
  }

  /** A sign must stand directly before the number. */
  lemma SignAlone(c: char, t: string, base: int, v: Variant)
    requires Sign(c) && !Bare(t) && !BadBase(base)
    ensures Convert([c] + t, base, v) == Parsed(0, Some(0), Unset)
  {
    SignedFrom(c, t, base, v);
    hide Convert;
  }

  /** Nothing is read from a text that begins with neither white space, sign, digit nor letter. */
  lemma NothingToRead(t: string, base: int, v: Variant)
    requires Bare(t) && !BadBase(base)
    requires t != "" ==> t[0] as int < 128 && !('0' <= t[0] <= '9' || 'A' <= t[0] <= 'Z' || 'a' <= t[0] <= 'z')
    ensures Convert(t, base, v) == Parsed(0, Some(0), Unset)
  {
    BareFrom(t, base, v);
    hide Convert;
  }

  // ---------- digits and prefixes ----------

  predicate AlphaNumeric(c: char) { '0' <= c <= '9' || 'a' <= c <= 'z' || 'A' <= c <= 'Z' }

  /** The digits of every base up to 36, in either case, and no others. */
  lemma DigitTable(c: char)
    requires c as int < 256
    ensures '0' <= c <= '9' ==> DigitOf(c) == c as int - '0' as int
    ensures 'a' <= c <= 'z' ==> DigitOf(c) == c as int - 'a' as int + 10
    ensures 'A' <= c <= 'Z' ==> DigitOf(c) == c as int - 'A' as int + 10
    ensures !AlphaNumeric(c) ==> DigitOf(c) >= 36
  {
  }

  /**
   The number that the type holds nearest to `mag` with its sign, and ERANGE if and only if that is another
   number; an unsigned type holds the negative of a number it can hold modulo its range.
   */
  lemma ClampNearest(v: Variant, negative: bool, mag: nat)
    ensures var x := if negative then -(mag as int) else mag;
            var half := if v.quad then 0x8000_0000_0000_0000 else 0x8000_0000;
            var (value, errno) := Clamp(v, negative, mag);
            if v.unsigned then
              && 0 <= value < 2 * half
              && (mag < 2 * half ==> errno == Unset && (value == x || value == x + 2 * half))
              && (mag >= 2 * half ==> errno == ERANGE && value == 2 * half - 1)
            else
              && value == (if x < -half then -half else if x >= half then half - 1 else x)
              && (errno == if value == x then Unset else ERANGE)
  {
    hide Wrapped;
    if mag <= UMax(v) { WrapsOnce(v, if negative then -(mag as int) else mag); }
  }

  /** With base 0 a number that begins with 1 to 9 is decimal. */
  lemma DecimalLaw(t: string, v: Variant)
    requires t != "" && '1' <= t[0] <= '9'
    ensures Convert(t, 0, v) == Convert(t, 10, v)
  {
    BareFrom(t, 0, v);
    BareFrom(t, 10, v);
    hide Convert;
  }

  /** With base 0 a number that begins with 0 and no x is octal. */
  lemma OctalLaw(t: string, v: Variant)
    requires t == "" || (t[0] != 'x' && t[0] != 'X')
    ensures Convert("0" + t, 0, v) == Convert("0" + t, 8, v)
  {
    BareFrom("0" + t, 0, v);
    BareFrom("0" + t, 8, v);
    hide Convert;
  }

  predicate HexDigit(c: char) { '0' <= c <= '9' || 'a' <= c <= 'f' || 'A' <= c <= 'F' }

  /** With base 0 or 16, 0x in front of hexadecimal digits moves the end pointer by two and nothing else. */
  lemma HexLaw(x: char, t: string, base: int, v: Variant)
    requires x in "xX" && base in {0, 16} && t != "" && HexDigit(t[0])
    requires t[0] == '0' ==> |t| == 1 || t[1] !in "xX"
    ensures Convert("0" + [x] + t, base, v) == Later(Later(Convert(t, 16, v)))
  {
    var s := ['0'] + ([x] + t);
    hide Convert, From;
    assert "0" + [x] + t == s;
    BareFrom(s, base, v);
    BareFrom(t, 16, v);
    HexDigitsFrom(x, t, base, v);
    FromLater(x, t, 0, false, 16, v);
    FromLater('0', [x] + t, 1, false, 16, v);
  }

  lemma HexDigitsFrom(x: char, t: string, base: int, v: Variant)
    requires x in "xX" && base in {0, 16} && t != "" && HexDigit(t[0])
    requires t[0] == '0' ==> |t| == 1 || t[1] !in "xX"
    ensures From(['0'] + ([x] + t), 0, false, base, v) == From(['0'] + ([x] + t), 2, false, 16, v)
  {
    var s := ['0'] + ([x] + t);
    assert s[2] == t[0] && (|t| > 1 ==> s[3] == t[1]);
    assert HexPrefix(s, 0, base) && !HexPrefix(s, 2, 16);
    assert IsDigit(s[2], 16);
    hide Value, Clamp;
    assert RunEnd(s, 2, 16) > 2;
  }

  /** A bare 0x is read as 0, up to the x. */
  lemma BareHexLaw(x: char, t: string, base: int, v: Variant)
    requires x in "xX" && base in {0, 16} && (t == "" || !IsDigit(t[0], 16))
    ensures Convert("0" + [x] + t, base, v) == Parsed(0, Some(1), Unset)
  {
    BareFrom("0" + [x] + t, base, v);
    hide Convert;
  }
}
