/**
 getopt.c in its own form: file-level variables updated across calls, and an argument vector
 permuted in place by the nested loops of `exchange`.  Each method is proved against the value
 function of module GetOpt.
 */
module GetOptInPlace {
  import opened Types
  import opened GetOptSpec
  import opened GetOpt
  import opened GetOptProofs

  /** Two equal blocks of `a`, at `lo` and `hi`, swapped. */
  ghost function Swapped(a: seq<string>, lo: nat, hi: nat, len: nat): seq<string>
    requires lo + len <= hi && hi + len <= |a|
  {
    a[..lo] + a[hi..hi + len] + a[lo + len..hi] + a[lo..lo + len] + a[hi + len..]
  }

  lemma SwappedAt(a: seq<string>, lo: nat, hi: nat, len: nat, k: nat)
    requires lo + len <= hi && hi + len <= |a| && k < |a|
    ensures |Swapped(a, lo, hi, len)| == |a|
    ensures Swapped(a, lo, hi, len)[k]
         == if lo <= k < lo + len then a[hi + (k - lo)] else if hi <= k < hi + len then a[lo + (k - hi)] else a[k]
  {
  }

  lemma SwappedNone(a: seq<string>, lo: nat, hi: nat)
    requires lo <= hi <= |a|
    ensures Swapped(a, lo, hi, 0) == a
  {
  }

  lemma SwappedNext(a: seq<string>, lo: nat, hi: nat, i: nat)
    requires lo + i < hi && hi + i < |a|
    ensures var s := Swapped(a, lo, hi, i);
            && |s| == |a| && s[lo + i] == a[lo + i] && s[hi + i] == a[hi + i]
            && Swapped(a, lo, hi, i + 1) == s[lo + i := a[hi + i]][hi + i := a[lo + i]]
  {
    hide Swapped;
    SwappedAt(a, lo, hi, i, lo + i);
    SwappedAt(a, lo, hi, i, hi + i);
    var s, s' := Swapped(a, lo, hi, i), Swapped(a, lo, hi, i + 1);
    SwappedAt(a, lo, hi, i + 1, lo + i);
    forall k | 0 <= k < |a| ensures s'[k] == s[lo + i := a[hi + i]][hi + i := a[lo + i]][k] {
      SwappedAt(a, lo, hi, i, k);
      SwappedAt(a, lo, hi, i + 1, k);
    }
  }

  /** Either inner loop of `exchange`: swap two blocks of equal length that do not overlap. */
  method SwapBlocks(argv: array<string>, lo: nat, hi: nat, len: nat)
    requires lo + len <= hi && hi + len <= argv.Length
    modifies argv
    ensures argv[..] == Swapped(old(argv[..]), lo, hi, len)
  {
    hide Swapped;
    ghost var a := argv[..];
    SwappedNone(a, lo, hi);
    for i := 0 to len
      invariant argv[..] == Swapped(a, lo, hi, i)
    {
      SwappedNext(a, lo, hi, i);
      assert argv[lo + i] == argv[..][lo + i] && argv[hi + i] == argv[..][hi + i];
      var tem := argv[lo + i];
      argv[lo + i] := argv[hi + i];
      argv[hi + i] := tem;
    }
  }

  /** `a` is `goal` except that two blocks meeting at `middle` inside [bottom, top) are still to be swapped. */
  ghost predicate RotationLeft(a: seq<string>, goal: seq<string>, bottom: nat, middle: nat, top: nat) {
    && |a| == |goal| && bottom <= middle <= top <= |a|
    && a[..bottom] == goal[..bottom]
    && a[middle..top] + a[bottom..middle] == goal[bottom..top]
    && a[top..] == goal[top..]
  }

  lemma RotationStart(a: seq<string>, first: nat, middle: nat, top: nat)
    requires first <= middle <= top <= |a|
    ensures RotationLeft(a, Rotated(a, first, middle, top), first, middle, top)
  {
  }

  /** With one block used up nothing is left to swap. */
  lemma RotationDone(a: seq<string>, goal: seq<string>, bottom: nat, middle: nat, top: nat)
    requires RotationLeft(a, goal, bottom, middle, top)
    requires top == middle || middle == bottom
    ensures a == goal
  {
    assert a == a[..bottom] + a[bottom..top] + a[top..];
    assert goal == goal[..bottom] + goal[bottom..top] + goal[top..];
  }

  /** The short bottom block goes to the far end. */
  lemma BottomMoved(a: seq<string>, a': seq<string>, goal: seq<string>, bottom: nat, middle: nat, top: nat)
    requires RotationLeft(a, goal, bottom, middle, top)
    requires top - middle > middle - bottom
    requires a' == Swapped(a, bottom, top - (middle - bottom), middle - bottom)
    ensures RotationLeft(a', goal, bottom, middle, top - (middle - bottom))
  {
    var cut := top - (middle - bottom);
    assert a'[..bottom] == a[..bottom];
    assert a'[bottom..middle] == a[cut..top];
    assert a'[middle..cut] == a[middle..cut];
    assert a'[cut..] == a[bottom..middle] + a[top..];
    assert a[middle..top] == a[middle..cut] + a[cut..top];
    assert goal[bottom..top] == goal[bottom..cut] + goal[cut..top];
    assert goal[bottom..cut] == goal[bottom..top][..top - middle] == a[middle..top];
    assert goal[cut..top] == goal[bottom..top][top - middle..] == a[bottom..middle];
    assert goal[cut..] == goal[cut..top] + goal[top..];
  }

  /** The short top block goes to the front. */
  lemma TopMoved(a: seq<string>, a': seq<string>, goal: seq<string>, bottom: nat, middle: nat, top: nat)
    requires RotationLeft(a, goal, bottom, middle, top)
    requires top - middle <= middle - bottom
    requires a' == Swapped(a, bottom, middle, top - middle)
    ensures RotationLeft(a', goal, bottom + (top - middle), middle, top)
  {
    var cut := bottom + (top - middle);
    assert a'[..cut] == a[..bottom] + a[middle..top];
    assert a'[cut..middle] == a[cut..middle];
    assert a'[middle..top] == a[bottom..cut];
    assert a'[top..] == a[top..];
    assert goal[bottom..top] == goal[bottom..cut] + goal[cut..top];
    assert goal[bottom..cut] == goal[bottom..top][..top - middle] == a[middle..top];
    assert goal[cut..top] == goal[bottom..top][top - middle..] == a[bottom..middle];
    assert a[bottom..middle] == a[bottom..cut] + a[cut..middle];
    assert goal[..cut] == goal[..bottom] + goal[bottom..cut];
  }

  /**
   The loops of `exchange`: swap two adjacent blocks in place by exchanging the shorter one with
   the far end of the longer one until one of them is used up.
   */
  method RotateInPlace(argv: array<string>, first: nat, last: nat, end: nat)
    requires first <= last <= end <= argv.Length
    modifies argv
    ensures argv[..] == Rotated(old(argv[..]), first, last, end)
  {
    hide RotationLeft, Rotated, Swapped;
    var bottom, middle, top := first, last, end;
    ghost var goal := Rotated(argv[..], first, last, end);
    RotationStart(argv[..], first, last, end);
    while top > middle && middle > bottom
      invariant 0 <= bottom <= middle <= top <= argv.Length
      invariant RotationLeft(argv[..], goal, bottom, middle, top)
      decreases top - bottom
    {
      ghost var before := argv[..];
      if top - middle > middle - bottom {
        var len := middle - bottom;
        SwapBlocks(argv, bottom, top - len, len);
        BottomMoved(before, argv[..], goal, bottom, middle, top);
        top := top - len;
      } else {
        var len := top - middle;
        SwapBlocks(argv, bottom, middle, len);
        TopMoved(before, argv[..], goal, bottom, middle, top);
        bottom := bottom + len;
      }
    }
    RotationDone(argv[..], goal, bottom, middle, top);
  }

  class Getopt {
    var initialized: bool
    var optind: nat
    var nextchar: string
    var firstNonopt: nat
    var lastNonopt: nat
    var ordering: Ordering
    var optarg: Option<string>
    var optopt: char

    function Vars(): State
      reads this
    {
      State(initialized, optind, nextchar, firstNonopt, lastNonopt, ordering, optarg, optopt)
    }

    constructor ()
      ensures Vars() == State(false, 1, "", 0, 0, RequireOrder, None, '?')
    {
      initialized, optind, nextchar := false, 1, "";
      firstNonopt, lastNonopt, ordering := 0, 0, RequireOrder;
      optarg, optopt := None, '?';
    }

    /** `exchange`: swap the skipped operands with the options read since, and relocate their range. */
    method Exchange(argv: array<string>)
      requires Ranged(argv[..], Vars())
      modifies this`firstNonopt, this`lastNonopt, argv
      ensures argv[..] == Rotated(old(argv[..]), old(firstNonopt), old(lastNonopt), optind)
      ensures Vars() == ExchangeState(old(Vars()))
    {
      RotateInPlace(argv, firstNonopt, lastNonopt, optind);
      firstNonopt := firstNonopt + (optind - lastNonopt);
      lastNonopt := optind;
    }

    /** Lines 565-586: move to the next element, permuting when the order is PERMUTE. */
    method NextElement(argv: array<string>)
      requires firstNonopt <= lastNonopt && optind <= argv.Length
      modifies this, argv
      ensures (argv[..], Vars()) == Advance(old(argv[..]), Clamp(old(Vars())))
    {
      hide Rotated, IsOption, SkipOperands;
      if lastNonopt > optind { lastNonopt := optind; }
      if firstNonopt > optind { firstNonopt := optind; }
      if ordering == Permute {
        ghost var a, s := argv[..], Vars();
        if firstNonopt != lastNonopt && lastNonopt != optind {
          Exchange(argv);
        } else if lastNonopt != optind {
          firstNonopt := optind;
        }
        assert argv[..] == SettleArgs(a, s) && Vars() == SettleState(s);
        SkipNonOptions(argv);
      }
    }

    /** Lines 583-585. */
    method SkipNonOptions(argv: array<string>)
      requires optind <= argv.Length
      modifies this`optind, this`lastNonopt
      ensures Vars() == SkipState(argv[..], old(Vars()))
    {
      hide IsOption;
      while optind < argv.Length && !IsOption(argv[optind])
        invariant old(optind) <= optind <= argv.Length
        invariant SkipOperands(argv[..], optind) == SkipOperands(argv[..], old(optind))
      {
        optind := optind + 1;
      }
      lastNonopt := optind;
    }

    /** Lines 891-1198: decode one short option character. */
    method NextLetter(argv: array<string>, optstring: string) returns (ret: Answer)
      requires nextchar != "" && optind < argv.Length
      modifies this
      ensures Call(argv[..], Vars(), ret) == Decode(argv[..], optstring, old(Vars()))
    {
      var c := nextchar[0];
      nextchar := nextchar[1..];
      var temp := Index(optstring, c);
      if nextchar == "" { optind := optind + 1; }
      if temp < 0 || c == ':' {
        optopt := c;
        return Letter('?');
      }
      ret := Letter(c);
      if HasAt(optstring, temp + 1, ':') {
        if HasAt(optstring, temp + 2, ':') {
          if nextchar != "" {
            optarg := Some(nextchar);
            optind := optind + 1;
          } else {
            optarg := None;
          }
          nextchar := "";
        } else {
          if nextchar != "" {
            optarg := Some(nextchar);
            optind := optind + 1;
          } else if optind == argv.Length {
            optopt := c;
            ret := Letter(if HasAt(optstring, 0, ':') then ':' else '?');
          } else {
            optarg := Some(argv[optind]);
            optind := optind + 1;
          }
          nextchar := "";
        }
      }
    }

    /** `_getopt_initialize` under the test of line 539; gives the option string with any order mark stepped over. */
    method InitializeVars(optstring: string, posixlyCorrect: bool) returns (opts: string)
      modifies this
      ensures Vars() == Initialize(old(Vars()), optstring, posixlyCorrect)
      ensures opts == Effective(old(Vars()), optstring)
    {
      optarg := None;
      opts := optstring;
      if optind == 0 || !initialized {
        if optind == 0 { optind := 1; }
        firstNonopt, lastNonopt, nextchar := optind, optind, "";
        if HasAt(opts, 0, '-') {
          ordering, opts := ReturnInOrder, opts[1..];
        } else if HasAt(opts, 0, '+') {
          ordering, opts := RequireOrder, opts[1..];
        } else if posixlyCorrect {
          ordering := RequireOrder;
        } else {
          ordering := Permute;
        }
        initialized := true;
      }
    }

    /** Lines 595-603: `--` stands at `optind`. */
    method EndOfOptions(argv: array<string>)
      requires Ranged(argv[..], Vars()) && optind < argv.Length
      modifies this, argv
      ensures (argv[..], Vars()) == DoubleDash(old(argv[..]), old(Vars()))
    {
      hide Rotated;
      optind := optind + 1;
      if firstNonopt != lastNonopt && lastNonopt != optind {
        Exchange(argv);
      } else if firstNonopt == lastNonopt {
        firstNonopt := optind;
      }
      lastNonopt := argv.Length;
      optind := argv.Length;
    }

    /** getopt(argc, argv, optstring); `posixlyCorrect` tells whether that variable is in the environment. */
    method GetOpt(argv: array<string>, optstring: string, posixlyCorrect: bool) returns (ret: Answer)
      requires Usable(argv[..], Vars()) && NoLongW(optstring)
      modifies this, argv
      ensures Call(argv[..], Vars(), ret) == GetOptCall(old(argv[..]), optstring, posixlyCorrect, old(Vars()))
    {
      hide Advance, DoubleDash, Decode, Clamp, Effective;
      if argv.Length < 1 { return Done; }
      var opts := InitializeVars(optstring, posixlyCorrect);
      if nextchar == "" {
        NextElement(argv);
        if optind != argv.Length && argv[optind] == "--" {
          EndOfOptions(argv);
        }
        if optind == argv.Length {
          if firstNonopt != lastNonopt { optind := firstNonopt; }
          return Done;
        }
        if !IsOption(argv[optind]) {
          if ordering == RequireOrder { return Done; }
          optarg := Some(argv[optind]);
          optind := optind + 1;
          return Operand;
        }
        nextchar := argv[optind][1..];
      }
      ret := NextLetter(argv, opts);
    }

    /** The loop of a program that calls getopt until it returns -1 (lines 1229-1273). */
    method ParseAll(argv: array<string>, optstring: string) returns (replies: seq<Reply>)
      requires Fresh(optstring, argv[..], Vars()) && NoLongW(optstring)
      modifies this, argv
      ensures var k, args := StartIndex(old(Vars())), old(argv[..]);
              && argv[..] == args[..k] + Options(optstring, args[k..]) + Operands(optstring, args[k..])
              && optind == k + |Options(optstring, args[k..])|
              && replies == Replies(Events(Permute, optstring, args[k..]), old(optopt))
    {
      hide GetOptCall, Options, Operands, Events, Replies, FinalArgs, FinalOptind, Pending;
      replies := [];
      ghost var a, s := argv[..], Started(optstring, argv[..], Vars());
      RunIsStablePartition(optstring, argv[..], Vars());
      ghost var goal := Run(optstring, argv[..], s);
      var ret := GetOpt(argv, optstring, false);
      while ret != Done
        invariant Good(a, s)
        invariant Call(argv[..], Vars(), ret) == GetOptCall(a, optstring, false, s)
        invariant goal == Finished(Run(optstring, a, s).argv, Run(optstring, a, s).st,
                                   replies + Run(optstring, a, s).replies)
        decreases argv.Length - s.optind, CharsLeft(a, s)
      {
        CallKeeps(optstring, a, s);
        var e := Reply(Code(ret), optarg, optopt);
        assert replies + Run(optstring, a, s).replies
            == (replies + [e]) + Run(optstring, argv[..], Vars()).replies;
        replies := replies + [e];
        a, s := argv[..], Vars();
        ret := GetOpt(argv, optstring, false);
      }
    }
  }
}
