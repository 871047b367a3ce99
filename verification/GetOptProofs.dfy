/**
 Over a run of calls up to the first -1 in PERMUTE order, the scanner of module GetOpt computes the
 stable partition and the answers of module GetOptSpec.  The proof carries three predictions made
 from the middle of a run (the final vector, the final `optind`, the answers still to come) that
 every call conserves.
 */
module GetOptProofs {
  import opened Types
  import opened GetOptSpec
  import opened GetOpt

  ghost predicate Good(argv: seq<string>, s: State) {
    && s.initialized && 1 <= s.optind && s.ordering == Permute
    && Ranged(argv, s)
    && (s.nextchar != "" ==> s.optind < |argv|)
  }

  /** The index at which the scan of whole elements resumes. */
  ghost function Resume(optstring: string, argv: seq<string>, s: State): (k: nat)
    requires s.optind <= |argv| && (s.nextchar != "" ==> s.optind < |argv|)
    ensures s.optind <= k <= |argv|
  {
    if s.nextchar == "" then s.optind
    else if TakesNext(optstring, s.nextchar) && s.optind + 1 < |argv| then s.optind + 2
    else s.optind + 1
  }

  /** Skipped operands are at [first, last), elements from `k` on are unread, all others are options. */
  ghost function Assemble(optstring: string, argv: seq<string>, first: nat, last: nat, k: nat): seq<string>
    requires first <= last <= k <= |argv|
  {
    argv[..first] + argv[last..k] + Options(optstring, argv[k..])
    + argv[first..last] + Operands(optstring, argv[k..])
  }

  /** The argument vector this run will end with. */
  ghost function FinalArgs(optstring: string, argv: seq<string>, s: State): seq<string>
    requires Good(argv, s)
  {
    Assemble(optstring, argv, s.firstNonopt, s.lastNonopt, Resume(optstring, argv, s))
  }

  /** The `optind` this run will end with. */
  ghost function FinalOptind(optstring: string, argv: seq<string>, s: State): nat
    requires Good(argv, s)
  {
    var k := Resume(optstring, argv, s);
    s.firstNonopt + (k - s.lastNonopt) + |Options(optstring, argv[k..])|
  }

  ghost predicate Midway(argv: seq<string>, s: State) {
    s.optind <= |argv| && (s.nextchar != "" ==> s.optind < |argv|)
  }

  /** The answers this run has still to give. */
  ghost function Pending(optstring: string, argv: seq<string>, s: State): seq<Event>
    requires Midway(argv, s)
  {
    if s.nextchar == "" then Events(s.ordering, optstring, argv[s.optind..])
    else Cluster(s.ordering, optstring, s.nextchar, argv[s.optind + 1..])
  }

  /** A call made in state `s` answers as the reading says. */
  ghost predicate Gives(r: Call, s: State, e: Event) {
    r.ret != Done && Code(r.ret) == e.ret && r.st.optarg == e.optarg && r.st.optopt == Blamed(e, s.optopt)
  }

  /** It gives the first pending answer and leaves the others. */
  ghost predicate GivesNext(optstring: string, argv: seq<string>, s: State, r: Call)
    requires Midway(argv, s)
  {
    && Midway(r.argv, r.st) && Pending(optstring, argv, s) != []
    && Gives(r, s, Pending(optstring, argv, s)[0])
    && Pending(optstring, argv, s)[1..] == Pending(optstring, r.argv, r.st)
  }

  /** Characters left in the current element, or in the next one. */
  ghost function CharsLeft(argv: seq<string>, s: State): nat {
    if s.nextchar != "" then |s.nextchar|
    else if s.optind < |argv| then |argv[s.optind]|
    else 0
  }

  ghost predicate Smaller(argv': seq<string>, s': State, argv: seq<string>, s: State)
    requires |argv'| == |argv|
  {
    s'.optind > s.optind || (s'.optind == s.optind && CharsLeft(argv', s') < CharsLeft(argv, s))
  }

  /** Two states of a run that will end alike. */
  ghost predicate Agree(optstring: string, argv: seq<string>, s: State, argv': seq<string>, s': State)
  {
    && Good(argv, s) && Good(argv', s')
    && FinalArgs(optstring, argv', s') == FinalArgs(optstring, argv, s)
    && FinalOptind(optstring, argv', s') == FinalOptind(optstring, argv, s)
    && multiset(argv') == multiset(argv) && |argv'| == |argv|
    && argv'[s.optind..] == argv[s.optind..]
  }

  /** Element `i` is an operand that has been skipped. */
  ghost predicate SetAside(s: State, i: nat) { s.firstNonopt <= i < s.lastNonopt }

  /** A caller that moves `optind` back cuts the skipped operands off there, and one that does not changes nothing. */
  lemma ClampExact(s: State)
    requires s.firstNonopt <= s.lastNonopt
    ensures var s' := Clamp(s);
            && s' == s.(firstNonopt := s'.firstNonopt, lastNonopt := s'.lastNonopt)
            && (forall i: nat :: SetAside(s', i) <==> SetAside(s, i) && i < s.optind)
            && (s.lastNonopt <= s.optind ==> s' == s)
            && (s.firstNonopt >= s.optind ==> s'.firstNonopt == s'.lastNonopt == s.optind)
  {
    var s' := Clamp(s);
    if s.firstNonopt < s.optind < s.lastNonopt {
      assert s'.firstNonopt == s.firstNonopt && s'.lastNonopt == s.optind;
    }
  }

  // ---------- the exchange of blocks ----------

  lemma RotatedIsPermutation<T>(a: seq<T>, first: nat, middle: nat, top: nat)
    requires first <= middle <= top <= |a|
    ensures multiset(Rotated(a, first, middle, top)) == multiset(a)
  {
    assert a == a[..first] + a[first..middle] + a[middle..top] + a[top..];
  }

  /** Settling with the range of operands then closed at `optind`, as line 585 does. */
  ghost function Settled(s: State): State
    requires s.lastNonopt <= s.optind
  {
    SettleState(s).(lastNonopt := s.optind)
  }

  lemma ExchangeKeeps(optstring: string, argv: seq<string>, s: State)
    requires Good(argv, s) && s.nextchar == ""
    ensures Agree(optstring, argv, s, ExchangeArgs(argv, s), ExchangeState(s))
  {
    var f, l, o := s.firstNonopt, s.lastNonopt, s.optind;
    var a, f' := ExchangeArgs(argv, s), f + (o - l);
    RotatedIsPermutation(argv, f, l, o);
    assert a[..f'] == argv[..f] + argv[l..o];
    assert a[f'..o] == argv[f..l];
    assert a[o..] == argv[o..];
    assert a[o..o] == [];
  }

  lemma SettleKeeps(optstring: string, argv: seq<string>, s: State)
    requires Good(argv, s) && s.nextchar == ""
    ensures Agree(optstring, argv, s, SettleArgs(argv, s), Settled(s))
  {
    if s.lastNonopt != s.optind {
      if s.firstNonopt != s.lastNonopt {
        ExchangeKeeps(optstring, argv, s);
      } else {
        var f, o := s.firstNonopt, s.optind;
        assert argv[..o] == argv[..f] + argv[f..o];
        assert argv[f..f] == argv[o..o] == [];
      }
    }
  }

  // ---------- skipping operands ----------

  lemma {:induction false} SkipKeeps(optstring: string, argv: seq<string>, s: State)
    requires Good(argv, s) && s.nextchar == "" && s.lastNonopt == s.optind
    ensures Agree(optstring, argv, s, argv, SkipState(argv, s))
    ensures Pending(optstring, argv, SkipState(argv, s)) == Pending(optstring, argv, s)
    decreases |argv| - s.optind
  {
    var o := s.optind;
    if o < |argv| && !IsOption(argv[o]) {
      var s' := s.(optind := o + 1, lastNonopt := o + 1);
      SkipOneKeeps(optstring, argv, s);
      hide FinalArgs, FinalOptind, Pending;
      SkipKeeps(optstring, argv, s');
    }
  }

  lemma SkipOneKeeps(optstring: string, argv: seq<string>, s: State)
    requires Good(argv, s) && s.nextchar == "" && s.lastNonopt == s.optind
    requires s.optind < |argv| && !IsOption(argv[s.optind])
    ensures var s' := s.(optind := s.optind + 1, lastNonopt := s.optind + 1);
            Agree(optstring, argv, s, argv, s') && Pending(optstring, argv, s') == Pending(optstring, argv, s)
  {
    var o := s.optind;
    assert argv[o..][1..] == argv[o + 1..];
    assert argv[s.firstNonopt..o] + argv[o..][..1] == argv[s.firstNonopt..o + 1];
    assert argv[o..o] == argv[o + 1..o + 1] == [];
  }

  lemma {:induction false} SkipStops(argv: seq<string>, i: nat)
    requires i <= |argv|
    ensures var j := SkipOperands(argv, i); j == |argv| || IsOption(argv[j])
    decreases |argv| - i
  {
    if i < |argv| && !IsOption(argv[i]) { SkipStops(argv, i + 1); }
  }

  lemma AdvanceKeeps(optstring: string, argv: seq<string>, s: State)
    requires Good(argv, s) && s.nextchar == ""
    ensures var (a, s') := Advance(argv, s);
            && Agree(optstring, argv, s, a, s')
            && Pending(optstring, a, s') == Pending(optstring, argv, s)
            && s'.nextchar == "" && s'.optarg == s.optarg && s'.optopt == s.optopt
            && s'.lastNonopt == s'.optind && s.optind <= s'.optind
            && (s'.optind == |a| || IsOption(a[s'.optind]))
  {
    SettleKeeps(optstring, argv, s);
    var a := SettleArgs(argv, s);
    SkipKeeps(optstring, a, Settled(s));
    SkipStops(a, s.optind);
    assert SkipState(a, SettleState(s)) == SkipState(a, Settled(s));
  }

  // ---------- option elements ----------

  lemma OptionSplits(optstring: string, argv: seq<string>, o: nat)
    requires o < |argv| && IsOption(argv[o]) && argv[o] != "--"
    ensures var k := o + Span(optstring, argv[o..]);
            && k <= |argv| && Options(optstring, argv[o..]) == argv[o..k] + Options(optstring, argv[k..])
            && Operands(optstring, argv[o..]) == Operands(optstring, argv[k..])
  {
    hide TakesNext;
    var n := Span(optstring, argv[o..]);
    assert argv[o..][n..] == argv[o + n..];
    assert argv[o..][..n] == argv[o..o + n];
  }

  lemma AssembleShift(optstring: string, argv: seq<string>, first: nat, o: nat, k: nat)
    requires first <= o <= k <= |argv|
    requires Options(optstring, argv[o..]) == argv[o..k] + Options(optstring, argv[k..])
    requires Operands(optstring, argv[o..]) == Operands(optstring, argv[k..])
    ensures Assemble(optstring, argv, first, o, o) == Assemble(optstring, argv, first, o, k)
  {
    hide Options, Operands;
    assert argv[o..o] == [];
  }

  lemma EnterPending(optstring: string, argv: seq<string>, s: State)
    requires Midway(argv, s) && s.nextchar == ""
    requires s.optind < |argv| && IsOption(argv[s.optind]) && argv[s.optind] != "--"
    ensures Pending(optstring, argv, s.(nextchar := argv[s.optind][1..])) == Pending(optstring, argv, s)
  {
    hide KindOf, Cluster;
    assert argv[s.optind..][1..] == argv[s.optind + 1..];
  }

  /** Entering an option element changes none of the predictions. */
  lemma EnterKeeps(optstring: string, argv: seq<string>, s: State)
    requires Good(argv, s) && s.nextchar == ""
    requires s.optind < |argv| && IsOption(argv[s.optind]) && argv[s.optind] != "--"
    requires s.lastNonopt == s.optind
    ensures var s' := s.(nextchar := argv[s.optind][1..]);
            && Agree(optstring, argv, s, argv, s')
            && Pending(optstring, argv, s') == Pending(optstring, argv, s)
  {
    hide TakesNext, Options, Operands, Assemble, Pending;
    EnterPending(optstring, argv, s);
    var o := s.optind;
    OptionSplits(optstring, argv, o);
    AssembleShift(optstring, argv, s.firstNonopt, o, o + Span(optstring, argv[o..]));
  }

  /** Decoding one character leaves the resumption point, and so both final predictions, alone. */
  lemma DecodeResume(optstring: string, argv: seq<string>, s: State)
    requires Good(argv, s) && s.nextchar != ""
    ensures var r := Decode(argv, optstring, s);
            && r.argv == argv
            && Agree(optstring, argv, s, argv, r.st)
            && Resume(optstring, argv, r.st) == Resume(optstring, argv, s)
            && Smaller(argv, r.st, argv, s)
  {
    hide Options, Operands, Assemble, MissingArg, TakesNext, KindOf;
    ResumeStays(optstring, argv, s);
  }

  lemma ResumeStays(optstring: string, argv: seq<string>, s: State)
    requires Midway(argv, s) && s.nextchar != ""
    ensures var r := Decode(argv, optstring, s);
            && r.argv == argv && Midway(argv, r.st)
            && Resume(optstring, argv, r.st) == Resume(optstring, argv, s)
  {
    hide MissingArg;
    var c, tail := s.nextchar[0], s.nextchar[1..];
    assert TakesNext(optstring, s.nextchar)
        == match KindOf(optstring, c)
           case Unlisted => TakesNext(optstring, tail)
           case Plain => TakesNext(optstring, tail)
           case Optional => false
           case Required => tail == "";
    hide KindOf;
    if tail == "" { assert !TakesNext(optstring, tail); }
  }

  lemma InnerAnswers(optstring: string, argv: seq<string>, s: State)
    requires Midway(argv, s) && s.nextchar != "" && s.nextchar[1..] != "" && s.optarg == None
    ensures GivesNext(optstring, argv, s, Decode(argv, optstring, s))
  {
    ClusterReads(s.ordering, optstring, s.nextchar, argv[s.optind + 1..]);
    hide KindOf, Events, Cluster, MissingArg;
  }

  lemma LastAnswers(optstring: string, argv: seq<string>, s: State)
    requires Midway(argv, s) && s.nextchar != "" && s.nextchar[1..] == "" && s.optarg == None
    ensures GivesNext(optstring, argv, s, Decode(argv, optstring, s))
  {
    var o, rest := s.optind, argv[s.optind + 1..];
    ClusterEnds(s.ordering, optstring, s.nextchar[1..], rest);
    ClusterReads(s.ordering, optstring, s.nextchar, rest);
    hide KindOf, Events, Cluster, MissingArg;
    assert Pending(optstring, argv, s) == Cluster(s.ordering, optstring, s.nextchar, rest);
    var r := Decode(argv, optstring, s);
    assert Midway(argv, r.st);
    assert Pending(optstring, argv, r.st) == Events(s.ordering, optstring, argv[r.st.optind..]);
    hide Pending;
    if KindOf(optstring, s.nextchar[0]) == Required && rest != [] {
      assert rest[1..] == argv[o + 2..] && rest[0] == argv[o + 1];
    }
  }

  /** Decoding one character gives the next answer of the reference reading. */
  lemma DecodeAnswers(optstring: string, argv: seq<string>, s: State)
    requires Midway(argv, s) && s.nextchar != "" && s.optarg == None
    ensures GivesNext(optstring, argv, s, Decode(argv, optstring, s))
  {
    hide Decode, GivesNext;
    if s.nextchar[1..] != "" { InnerAnswers(optstring, argv, s); } else { LastAnswers(optstring, argv, s); }
  }

  lemma ClusterEnds(mode: Ordering, optstring: string, tail: string, rest: seq<string>)
    ensures Events(mode, optstring, []) == []
    ensures tail == "" ==> Cluster(mode, optstring, tail, rest) == Events(mode, optstring, rest)
  {
  }

  lemma ClusterReads(mode: Ordering, optstring: string, chars: string, rest: seq<string>)
    requires chars != ""
    ensures var es, c, tail := Cluster(mode, optstring, chars, rest), chars[0], chars[1..];
            && es != []
            && match KindOf(optstring, c)
               case Unlisted => es[0] == Event('?', None, Some(c)) && es[1..] == Cluster(mode, optstring, tail, rest)
               case Plain => es[0] == Event(c, None, None) && es[1..] == Cluster(mode, optstring, tail, rest)
               case Optional =>
                 && es[0] == Event(c, if tail == "" then None else Some(tail), None)
                 && es[1..] == Events(mode, optstring, rest)
               case Required =>
                 if tail != "" then es[0] == Event(c, Some(tail), None) && es[1..] == Events(mode, optstring, rest)
                 else if rest == [] then es[0] == Event(MissingArg(optstring), None, Some(c)) && es[1..] == []
                 else es[0] == Event(c, Some(rest[0]), None) && es[1..] == Events(mode, optstring, rest[1..])
  {
  }

  // ---------- the end of the run ----------

  /** What the reference reading predicts when `--` is next. */
  lemma DoubleDashPredicts(optstring: string, argv: seq<string>, s: State)
    requires Good(argv, s) && s.nextchar == "" && s.lastNonopt == s.optind
    requires s.optind < |argv| && argv[s.optind] == "--"
    ensures FinalArgs(optstring, argv, s) == Rotated(argv, s.firstNonopt, s.optind, s.optind + 1)
    ensures FinalOptind(optstring, argv, s) == s.firstNonopt + 1
    ensures Pending(optstring, argv, s) == []
  {
    var o := s.optind;
    assert argv[o..][..1] == argv[o..o + 1] && argv[o..][1..] == argv[o + 1..];
    assert argv[o..o] == [];
  }

  lemma DoubleDashEnds(optstring: string, argv: seq<string>, s: State)
    requires Good(argv, s) && s.nextchar == "" && s.lastNonopt == s.optind
    requires s.optind < |argv| && argv[s.optind] == "--"
    ensures var (a, s') := DoubleDash(argv, s);
            && a == FinalArgs(optstring, argv, s)
            && Finish(s').optind == FinalOptind(optstring, argv, s)
            && multiset(a) == multiset(argv)
            && Pending(optstring, argv, s) == []
            && s'.initialized
  {
    hide FinalArgs, FinalOptind, Pending, IsOption;
    DoubleDashPredicts(optstring, argv, s);
    var f, o := s.firstNonopt, s.optind;
    RotatedIsPermutation(argv, f, o, o + 1);
    if f == o {
      assert argv == Rotated(argv, o, o, o + 1);
    }
  }

  lemma EndOfArgs(optstring: string, argv: seq<string>, s: State)
    requires Good(argv, s) && s.nextchar == "" && s.lastNonopt == s.optind == |argv|
    ensures argv == FinalArgs(optstring, argv, s)
    ensures Finish(s).optind == FinalOptind(optstring, argv, s)
    ensures Pending(optstring, argv, s) == []
  {
    assert argv[..s.firstNonopt] + argv[s.firstNonopt..] == argv;
  }

  // ---------- one call, and runs of calls ----------

  /**
   Every call of a run in PERMUTE order keeps the two final predictions and permutes the vector.
   A call that answers gives the first pending answer and leaves the rest pending; a call that
   returns -1 has nothing pending and leaves the predicted vector and `optind`.
   */
  lemma CallKeeps(optstring: string, argv: seq<string>, s: State)
    requires Good(argv, s)
    ensures var r := GetOptCall(argv, optstring, false, s);
            && multiset(r.argv) == multiset(argv) && |r.argv| == |argv|
            && (r.ret != Done ==>
                  && Agree(optstring, argv, s, r.argv, r.st)
                  && GivesNext(optstring, argv, s, r)
                  && Smaller(r.argv, r.st, argv, s))
            && (r.ret == Done ==>
                  && Pending(optstring, argv, s) == []
                  && r.argv == FinalArgs(optstring, argv, s)
                  && r.st.optind == FinalOptind(optstring, argv, s)
                  && r.st.initialized)
  {
    hide Options, Operands, Events, Cluster, KindOf, TakesNext, Decode, Advance, DoubleDash, Assemble;
    var s0 := s.(optarg := None);
    assert Agree(optstring, argv, s, argv, s0);
    assert Clamp(s0) == s0;
    hide FinalArgs, FinalOptind;
    if s.nextchar != "" {
      DecodeResume(optstring, argv, s0);
      DecodeAnswers(optstring, argv, s0);
    } else {
      AdvanceKeeps(optstring, argv, s0);
      var (a, s1) := Advance(argv, s0);
      if s1.optind < |a| && a[s1.optind] == "--" {
        DoubleDashEnds(optstring, a, s1);
      } else if s1.optind == |a| {
        EndOfArgs(optstring, a, s1);
      } else {
        EnterKeeps(optstring, a, s1);
        var s2 := s1.(nextchar := a[s1.optind][1..]);
        DecodeResume(optstring, a, s2);
        DecodeAnswers(optstring, a, s2);
      }
    }
  }

  /** What a run leaves behind. */
  datatype Finished = Finished(argv: seq<string>, st: State, replies: seq<Reply>)

  /** What the caller finds after a call. */
  ghost function Shown(r: Call): Reply
    requires r.ret != Done
  {
    Reply(Code(r.ret), r.st.optarg, r.st.optopt)
  }

  /** Call getopt until it returns -1, as the driver of lines 1229-1273 does. */
  ghost function Run(optstring: string, argv: seq<string>, s: State): Finished
    requires Good(argv, s)
    decreases |argv| - s.optind, CharsLeft(argv, s)
  {
    CallKeeps(optstring, argv, s);
    var r := GetOptCall(argv, optstring, false, s);
    if r.ret == Done then Finished(r.argv, r.st, [])
    else
      var rest := Run(optstring, r.argv, r.st);
      Finished(rest.argv, rest.st, [Shown(r)] + rest.replies)
  }

  lemma {:induction false} RunReaches(optstring: string, argv: seq<string>, s: State)
    requires Good(argv, s)
    ensures Run(optstring, argv, s).argv == FinalArgs(optstring, argv, s)
    ensures Run(optstring, argv, s).st.optind == FinalOptind(optstring, argv, s)
    ensures Run(optstring, argv, s).replies == Replies(Pending(optstring, argv, s), s.optopt)
    decreases |argv| - s.optind, CharsLeft(argv, s)
  {
    CallKeeps(optstring, argv, s);
    var r := GetOptCall(argv, optstring, false, s);
    if r.ret != Done { RunReaches(optstring, r.argv, r.st); }
  }

  /** The index the first call starts from. */
  function StartIndex(s: State): nat { if s.optind == 0 then 1 else s.optind }

  /** A fresh scan: the first call initialises. */
  ghost predicate Fresh(optstring: string, argv: seq<string>, s: State) {
    && argv != [] && s.optind <= |argv| && (s.optind == 0 || !s.initialized)
    && !HasOrderMark(optstring)
  }

  /** The state the first call works from; that call is then a call of a run already under way. */
  ghost function Started(optstring: string, argv: seq<string>, s: State): (s': State)
    requires Fresh(optstring, argv, s)
    ensures Good(argv, s')
    ensures GetOptCall(argv, optstring, false, s) == GetOptCall(argv, optstring, false, s')
  {
    Initialize(s, optstring, false)
  }

  lemma StartPredicts(optstring: string, argv: seq<string>, s: State)
    requires Good(argv, s) && s.nextchar == "" && s.firstNonopt == s.lastNonopt == s.optind
    ensures FinalArgs(optstring, argv, s)
         == argv[..s.optind] + Options(optstring, argv[s.optind..]) + Operands(optstring, argv[s.optind..])
  {
    hide Options, Operands;
    assert argv[s.optind..s.optind] == [];
  }

  /**
   A whole run ends with the stable partition: options with their arguments and `--` in the
   original order, then every operand in the original order, `optind` at the first operand, the
   elements before the start untouched, and the answers those of a left-to-right reading of the
   unpermuted vector, with `optopt` the last character that was unlisted or lacked its argument.
   */
  lemma RunIsStablePartition(optstring: string, argv: seq<string>, s: State)
    requires Fresh(optstring, argv, s)
    ensures var r, k := Run(optstring, argv, Started(optstring, argv, s)), StartIndex(s);
            var options := Options(optstring, argv[k..]);
            && r.argv == argv[..k] + options + Operands(optstring, argv[k..])
            && r.st.optind == k + |options|
            && r.replies == Replies(Events(Permute, optstring, argv[k..]), s.optopt)
            && multiset(r.argv) == multiset(argv)
  {
    hide Options, Operands, Events, Run, GetOptCall, FinalArgs;
    var k := StartIndex(s);
    RunReaches(optstring, argv, Started(optstring, argv, s));
    StartPredicts(optstring, argv, Started(optstring, argv, s));
    PartitionIsPermutation(optstring, argv[k..]);
    assert argv == argv[..k] + argv[k..];
  }

  /** The k-th call of a run, counting from 0, and the state it starts from. */
  ghost function After(optstring: string, argv: seq<string>, s: State, n: nat): (r: Call)
    requires Good(argv, s)
    ensures r.ret != Done ==> Good(r.argv, r.st)
    ensures |r.argv| == |argv|
    decreases n
  {
    if n == 0 then Call(argv, s, Operand)
    else
      var p := After(optstring, argv, s, n - 1);
      if p.ret == Done then p
      else CallKeeps(optstring, p.argv, p.st); GetOptCall(p.argv, optstring, false, p.st)
  }

  /**
   After any number of calls the vector is a permutation of the original, and until -1 is returned
   first_nonopt <= last_nonopt <= optind <= argc, with nothing before the first element disturbed.
   */
  lemma {:induction false} EveryCallInRange(optstring: string, argv: seq<string>, s: State, n: nat)
    requires Good(argv, s)
    ensures var r := After(optstring, argv, s, n);
            && multiset(r.argv) == multiset(argv)
            && (r.ret != Done ==> Ranged(r.argv, r.st) && s.optind <= r.st.optind)
            && r.st.optind <= |argv|
  {
    hide GetOptCall, FinalArgs, FinalOptind, Pending;
    if n > 0 {
      EveryCallInRange(optstring, argv, s, n - 1);
      var p := After(optstring, argv, s, n - 1);
      if p.ret != Done {
        CallKeeps(optstring, p.argv, p.st);
        FinalOptindBound(optstring, p.argv, p.st);
      }
    }
  }

  lemma FinalOptindBound(optstring: string, argv: seq<string>, s: State)
    requires Good(argv, s)
    ensures FinalOptind(optstring, argv, s) <= |argv|
  {
    var k := Resume(optstring, argv, s);
    PartitionIsPermutation(optstring, argv[k..]);
    assert |multiset(argv[k..])| == |argv[k..]|;
  }
}
