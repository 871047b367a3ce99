/**
 The environment array of soft/libc/posix/env.c: an array of `name=value` strings ended by a null
 pointer, searched, extended and filtered in place.  Strings are given without their terminating
 NUL and hold bytes.
 */
module Environ {
  import opened Types

  // ---------- matching a name ----------

  /** Entry `e` defines `name`. */
  predicate Matches(e: string, name: string) {
    name + "=" <= e
  }

  function Entry(name: string, value: string): string { name + "=" + value }

  function At(s: string, i: nat): char { if i < |s| then s[i] else '\0' }

  predicate ByteString(s: string) {
    forall i :: 0 <= i < |s| ==> 0 < s[i] as int < 256
  }

  function TwoBytes(lo: char, hi: char): int { lo as int + hi as int * 256 }

  /** strncmp(a, b, n) == 0 for a `b` of at least n bytes. */
  predicate SamePrefix(a: string, b: string, n: nat)
    requires n <= |b|
  {
    forall i :: 0 <= i < n ==> At(a, i) == b[i]
  }

  /** The test of getenv: the first two bytes as one 16-bit number, then the rest (lines 348-397). */
  predicate FastTest(e: string, name: string)
    requires name != "" && e != ""
  {
    if |name| == 1 then TwoBytes(name[0], '=') == TwoBytes(At(e, 0), At(e, 1))
    else
      && TwoBytes(name[0], name[1]) == TwoBytes(At(e, 0), At(e, 1))
      && |e| >= 2
      && SamePrefix(e[2..], name[2..], |name| - 2) && At(e, |name|) == '='
  }

  /** The two-byte test agrees with the plain prefix test. */
  lemma FastTestExact(e: string, name: string)
    requires name != "" && e != "" && ByteString(e) && ByteString(name)
    ensures FastTest(e, name) <==> Matches(e, name)
  {
    if Matches(e, name) {
      assert e[..|name| + 1] == name + "=";
      forall i | 0 <= i <= |name| ensures At(e, i) == (name + "=")[i] {
        assert e[..|name| + 1][i] == e[i];
      }
    }
    if FastTest(e, name) {
      assert At(e, 0) == name[0];
      assert forall i :: 2 <= i < |name| ==> At(e, i) == At(e[2..], i - 2) == name[2..][i - 2] == name[i];
      assert |e| > |name| by { LongEnough(e, name); }
      assert e[..|name| + 1] == name + "=";
    }
  }

  lemma LongEnough(e: string, name: string)
    requires name != "" && At(e, |name|) == '='
    ensures |e| > |name|
  {
  }

  /** The plain test of lines 143 and 297. */
  predicate PlainTest(e: string, name: string) {
    SamePrefix(e, name, |name|) && At(e, |name|) == '='
  }

  lemma PlainTestExact(e: string, name: string)
    ensures PlainTest(e, name) <==> Matches(e, name)
  {
    if PlainTest(e, name) {
      assert e[..|name| + 1] == name + "=" by {
        assert |e| > |name|;
      }
    }
    if Matches(e, name) {
      assert e[..|name| + 1] == name + "=";
      forall i | 0 <= i <= |name| ensures At(e, i) == (name + "=")[i] {
        assert e[..|name| + 1][i] == e[i];
      }
    }
  }

  /** A name up to its first `=`, or all of it. */
  function UpToEquals(name: string): (r: string)
    ensures |r| <= |name| && r == name[..|r|] && '=' !in r
    ensures if |r| < |name| then name[|r|] == '=' else '=' !in name
  {
    if name == "" || name[0] == '=' then "" else [name[0]] + UpToEquals(name[1..])
  }

  /** Of all =-free names, the entry made for a name defines the part of it before its first `=`, and no other. */
  lemma DefinesUpToEquals(name: string, value: string, other: string)
    requires '=' !in other
    ensures Matches(Entry(name, value), other) <==> other == UpToEquals(name)
  {
    var e, u := Entry(name, value), UpToEquals(name);
    assert e[..|name|] == name && e[|name|] == '=';
    assert e[..|u|] == name[..|u|] == u && e[|u|] == '=';
    assert e[..|u| + 1] == u + "=";
    if Matches(e, other) {
      var p := e[..|other| + 1];
      assert p == other + "=";
      assert forall i :: 0 <= i <= |other| ==> e[i] == p[i];
      assert p[|other|] == '=' && forall i :: 0 <= i < |other| ==> p[i] == other[i];
      assert |other| == |u|;
      assert other == p[..|other|] == e[..|u|];
    }
  }

  ghost predicate DefinesAnother(name: string, value: string) {
    exists other :: other != "" && '=' !in other && other != name && Matches(Entry(name, value), other)
  }

  /**
   Setting a name defines another one if and only if the name has an `=` somewhere but not in front.
   */
  lemma LeaksIff(name: string, value: string)
    ensures DefinesAnother(name, value) <==> '=' in name && name[0] != '='
  {
    var u := UpToEquals(name);
    DefinesUpToEquals(name, value, u);
    assert u != "" && u != name <==> '=' in name && name[0] != '=';
    if DefinesAnother(name, value) {
      var other :| other != "" && '=' !in other && other != name && Matches(Entry(name, value), other);
      DefinesUpToEquals(name, value, other);
    }
  }

  /** An entry made for one =-free name defines no other =-free name. */
  lemma OneName(name: string, value: string, other: string)
    requires '=' !in name && '=' !in other
    ensures Matches(Entry(name, value), other) <==> other == name
  {
    DefinesUpToEquals(name, value, other);
  }

  /** So setting `A=B` also defines `A`. */
  lemma EqualsSignLeaks(value: string)
    ensures Matches(Entry("A=B", value), "A") && Matches(Entry("A=B", value), "A=B")
  {
    var e := Entry("A=B", value);
    assert e[..2] == "A=" && e[..4] == "A=B=";
  }

  // ---------- the environment as a list of entries ----------

  /** The index of the first entry for `name`, or the number of entries. */
  function FirstMatch(es: seq<string>, name: string): (k: nat)
    ensures k <= |es|
    ensures k < |es| ==> Matches(es[k], name)
    ensures forall i :: 0 <= i < k ==> !Matches(es[i], name)
  {
    if es == [] || Matches(es[0], name) then 0 else 1 + FirstMatch(es[1..], name)
  }

  /** What getenv gives: the text after the `=` of the first entry. */
  function Lookup(es: seq<string>, name: string): Option<string> {
    var k := FirstMatch(es, name);
    if name == "" || k == |es| then None else Some(es[k][|name| + 1..])
  }

  function SetIn(es: seq<string>, name: string, value: string, replace: bool): seq<string> {
    var k := FirstMatch(es, name);
    if k == |es| then es + [Entry(name, value)]
    else if replace then es[k := Entry(name, value)]
    else es
  }

  /** The entries that do not define `name`, in order. */
  function UnsetIn(es: seq<string>, name: string): seq<string> {
    if es == [] then []
    else (if Matches(es[0], name) then [] else [es[0]]) + UnsetIn(es[1..], name)
  }

  /** Setting changes the entry that is found first, or adds one behind all others, and moves none. */
  lemma SetKeepsPlaces(es: seq<string>, name: string, value: string, replace: bool)
    ensures var k, es' := FirstMatch(es, name), SetIn(es, name, value, replace);
            && |es'| == (if k == |es| then |es| + 1 else |es|)
            && (forall i :: 0 <= i < |es| && i != k ==> es'[i] == es[i])
            && (k == |es| || replace ==> es'[k] == name + "=" + value)
            && (k < |es| && !replace ==> es' == es)
  {
  }

  lemma MatchesOwn(name: string, value: string)
    ensures Matches(Entry(name, value), name) && Entry(name, value)[|name| + 1..] == value
  {
    assert Entry(name, value)[..|name| + 1] == name + "=";
  }

  lemma FirstMatchIs(es: seq<string>, name: string, k: nat)
    requires k <= |es| && (k < |es| ==> Matches(es[k], name))
    requires forall i :: 0 <= i < k ==> !Matches(es[i], name)
    ensures FirstMatch(es, name) == k
  {
    var j := FirstMatch(es, name);
  }

  /** Getting after setting: the new value if it replaces or is the first, the old one otherwise. */
  lemma GetAfterSet(es: seq<string>, name: string, value: string, replace: bool)
    requires name != ""
    ensures Lookup(SetIn(es, name, value, replace), name)
         == if replace || Lookup(es, name) == None then Some(value) else Lookup(es, name)
  {
    MatchesOwn(name, value);
    FirstMatchIs(SetIn(es, name, value, replace), name, FirstMatch(es, name));
  }

  /** Setting one =-free name leaves every other =-free name as it was. */
  lemma SetLeavesOthers(es: seq<string>, name: string, value: string, replace: bool, other: string)
    requires '=' !in name && '=' !in other && other != name
    ensures Lookup(SetIn(es, name, value, replace), other) == Lookup(es, other)
  {
    var k, e := FirstMatch(es, name), Entry(name, value);
    OneName(name, value, other);
    if k < |es| { MatchesBoth(es[k], name, other); }
    var j := FirstMatch(es, other);
    var es' := SetIn(es, name, value, replace);
    if j < |es| {
      FirstMatchIs(es', other, j);
    } else {
      FirstMatchIs(es', other, |es'|);
    }
  }

  /** One entry cannot define two =-free names. */
  lemma MatchesBoth(e: string, name: string, other: string)
    requires '=' !in name && '=' !in other && Matches(e, name)
    ensures Matches(e, other) <==> other == name
  {
    var value := e[|name| + 1..];
    assert e == Entry(name, value) by { assert e[..|name| + 1] == name + "="; }
    OneName(name, value, other);
  }

  lemma {:induction false} UnsetRemoves(es: seq<string>, name: string)
    ensures forall e :: e in UnsetIn(es, name) <==> e in es && !Matches(e, name)
    ensures Lookup(UnsetIn(es, name), name) == None
  {
    if es != [] {
      UnsetRemoves(es[1..], name);
      assert es == [es[0]] + es[1..];
    }
    var us := UnsetIn(es, name);
    forall i | 0 <= i < |us| ensures !Matches(us[i], name) { assert us[i] in us; }
    FirstMatchIs(us, name, |us|);
  }

  lemma {:induction false} UnsetLeavesOthers(es: seq<string>, name: string, other: string)
    requires '=' !in name && '=' !in other && other != name
    ensures Lookup(UnsetIn(es, name), other) == Lookup(es, other)
  {
    if es != [] {
      UnsetLeavesOthers(es[1..], name, other);
      LookupTail(es, other);
      var us := UnsetIn(es, name);
      if Matches(es[0], name) {
        MatchesBoth(es[0], name, other);
        assert us == UnsetIn(es[1..], name);
      } else {
        assert us[0] == es[0] && us[1..] == UnsetIn(es[1..], name);
        LookupTail(us, other);
      }
    }
  }

  // ---------- runs ----------

  datatype Op = Set(name: string, value: string, replace: bool) | Unset(name: string)

  ghost predicate ProperName(name: string) { name != "" && '=' !in name }

  function Apply(es: seq<string>, op: Op): seq<string> {
    match op
    case Set(name, value, replace) => SetIn(es, name, value, replace)
    case Unset(name) => UnsetIn(es, name)
  }

  /** What an operation means for one name of a finite map, given the value that name had. */
  function Meaning(op: Op, before: Option<string>, name: string): Option<string> {
    match op
    case Set(x, value, replace) => if x == name && (replace || before == None) then Some(value) else before
    case Unset(x) => if x == name then None else before
  }

  ghost predicate IsRun(ess: seq<seq<string>>, ops: seq<Op>) {
    && |ess| == |ops| + 1
    && forall i :: 0 <= i < |ops| ==> ProperName(ops[i].name) && ess[i + 1] == Apply(ess[i], ops[i])
  }

  /** The value of a name in the finite map after the first `n` operations. */
  ghost function Expected(es: seq<string>, ops: seq<Op>, n: nat, name: string): Option<string>
    requires n <= |ops|
  {
    if n == 0 then Lookup(es, name) else Meaning(ops[n - 1], Expected(es, ops, n - 1, name), name)
  }

  /** Over every run of sets and unsets of proper names, the array is the finite map. */
  lemma {:induction false} RunIsFiniteMap(ess: seq<seq<string>>, ops: seq<Op>, n: nat, name: string)
    requires IsRun(ess, ops) && n < |ess| && ProperName(name)
    ensures Lookup(ess[n], name) == Expected(ess[0], ops, n, name)
  {
    hide SetIn, UnsetIn, Lookup;
    if n > 0 {
      RunIsFiniteMap(ess, ops, n - 1, name);
      var es, op := ess[n - 1], ops[n - 1];
      assert ProperName(op.name) && ess[n - 1 + 1] == Apply(es, op);
      match op
      case Set(x, value, replace) =>
        if x == name { GetAfterSet(es, x, value, replace); } else { SetLeavesOthers(es, x, value, replace, name); }
      case Unset(x) =>
        if x == name { UnsetRemoves(es, x); } else { UnsetLeavesOthers(es, x, name); }
    }
  }

  lemma LookupTail(es: seq<string>, name: string)
    requires es != []
    ensures Matches(es[0], name) ==> Lookup(es, name) == if name == "" then None else Some(es[0][|name| + 1..])
    ensures !Matches(es[0], name) ==> Lookup(es, name) == Lookup(es[1..], name)
  {
  }

  lemma {:induction false} UnsetConcat(a: seq<string>, b: seq<string>, name: string)
    ensures UnsetIn(a + b, name) == UnsetIn(a, name) + UnsetIn(b, name)
  {
    if a == [] {
      assert a + b == b;
    } else {
      assert (a + b)[0] == a[0] && (a + b)[1..] == a[1..] + b;
      UnsetConcat(a[1..], b, name);
    }
  }
}
