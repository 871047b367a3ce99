/**
 The calls of a program that asks getopt until it returns -1, in every ordering: PERMUTE, and the two
 that a leading `-` or `+` or POSIXLY_CORRECT select, in which the vector is left alone.
 */
module GetOptOrders {
  import opened Types
  import opened GetOptSpec
  import opened GetOpt
  import opened GetOptProofs

  /** Characters and elements not yet read; no more calls than that can still answer. */
  ghost function Unread(argv: seq<string>, i: nat): nat
    requires i <= |argv|
    decreases |argv| - i
  {
    if i == |argv| then 0 else |argv[i]| + 1 + Unread(argv, i + 1)
  }

  lemma {:induction false} EventsBounded(mode: Ordering, optstring: string, args: seq<string>)
    ensures |Events(mode, optstring, args)| <= Unread(args, 0)
    decreases |args|, 0
  {
    if args != [] {
      UnreadTail(args, 0);
      if args[0] != "--" {
        if IsOption(args[0]) { ClusterBounded(mode, optstring, args[0][1..], args[1..]); }
        else { EventsBounded(mode, optstring, args[1..]); }
      }
    }
  }

  lemma {:induction false} ClusterBounded(mode: Ordering, optstring: string, chars: string, rest: seq<string>)
    ensures |Cluster(mode, optstring, chars, rest)| <= |chars| + Unread(rest, 0)
    decreases |rest|, 1 + |chars|
  {
    hide KindOf, MissingArg;
    if chars == "" {
      EventsBounded(mode, optstring, rest);
    } else {
      ClusterBounded(mode, optstring, chars[1..], rest);
      EventsBounded(mode, optstring, rest);
      if rest != [] {
        UnreadTail(rest, 0);
        EventsBounded(mode, optstring, rest[1..]);
      }
    }
  }

  lemma {:induction false} UnreadTail(args: seq<string>, i: nat)
    requires i < |args|
    ensures Unread(args, i + 1) == Unread(args[1..], i)
    decreases |args| - i
  {
    if i + 1 < |args| { UnreadTail(args, i + 1); }
  }

  // ---------- the orderings that do not permute ----------

  ghost predicate Ordered(argv: seq<string>, s: State) {
    && s.initialized && 1 <= s.optind <= |argv| && s.ordering != Permute
    && s.firstNonopt <= s.lastNonopt
    && (s.nextchar != "" ==> s.optind < |argv|)
  }

  /** Characters and elements that an ordered run has still to read. */
  ghost function Budget(argv: seq<string>, s: State): nat
    requires Ordered(argv, s)
  {
    if s.nextchar == "" then Unread(argv, s.optind) else |s.nextchar| + Unread(argv, s.optind + 1)
  }

  lemma DecodeShrinks(optstring: string, argv: seq<string>, s: State)
    requires Ordered(argv, s) && s.nextchar != ""
    ensures var r := Decode(argv, optstring, s);
            r.argv == argv && Ordered(argv, r.st) && Budget(argv, r.st) < Budget(argv, s)
  {
    hide KindOf, MissingArg;
  }

  lemma OrderedCall(optstring: string, argv: seq<string>, posixlyCorrect: bool, s: State)
    requires Ordered(argv, s)
    ensures var r := GetOptCall(argv, optstring, posixlyCorrect, s);
            r.ret != Done ==> r.argv == argv && Ordered(argv, r.st) && Budget(argv, r.st) < Budget(argv, s)
  {
    hide Decode, DoubleDash, Finish;
    var s0 := s.(optarg := None);
    if s.nextchar != "" {
      DecodeShrinks(optstring, argv, s0);
    } else {
      var s1 := Clamp(s0);
      assert Advance(argv, s1) == (argv, s1);
      if s.optind < |argv| && IsOption(argv[s.optind]) && argv[s.optind] != "--" {
        DecodeShrinks(optstring, argv, s1.(nextchar := argv[s.optind][1..]));
      }
    }
  }

  /** No operand is set aside. */
  ghost predicate InOrder(argv: seq<string>, s: State) { Ordered(argv, s) && s.firstNonopt == s.lastNonopt }

  /** The `optind` an ordered run will end with. */
  ghost function EndsAt(optstring: string, argv: seq<string>, s: State): nat
    requires Midway(argv, s)
  {
    var k := Resume(optstring, argv, s);
    k + Consumed(s.ordering, optstring, argv[k..])
  }

  lemma EnterEnds(optstring: string, argv: seq<string>, s: State)
    requires Midway(argv, s) && s.nextchar == ""
    requires s.optind < |argv| && IsOption(argv[s.optind]) && argv[s.optind] != "--"
    ensures EndsAt(optstring, argv, s.(nextchar := argv[s.optind][1..])) == EndsAt(optstring, argv, s)
  {
    hide TakesNext;
    var n := Span(optstring, argv[s.optind..]);
    assert argv[s.optind..][n..] == argv[s.optind + n..];
  }

  /** What the reading says at the start of an element that is not an option. */
  lemma AtElement(optstring: string, argv: seq<string>, s: State)
    requires Midway(argv, s) && s.nextchar == "" && s.ordering != Permute
    requires s.optind == |argv| || argv[s.optind] == "--" || !IsOption(argv[s.optind])
    ensures var o, es := s.optind, Pending(optstring, argv, s);
            if o < |argv| && argv[o] != "--" && s.ordering == ReturnInOrder then
              var s' := s.(optind := o + 1);
              && es != [] && es[0] == Event(OPERAND, Some(argv[o]), None)
              && es[1..] == Pending(optstring, argv, s') && EndsAt(optstring, argv, s') == EndsAt(optstring, argv, s)
            else
              && es == []
              && EndsAt(optstring, argv, s) == if o < |argv| && argv[o] == "--" then o + 1 else o
  {
    hide Span;
    if s.optind < |argv| { assert argv[s.optind..][1..] == argv[s.optind + 1..]; }
  }

  lemma DoubleDashInOrder(argv: seq<string>, s: State)
    requires InOrder(argv, s) && Ranged(argv, s) && s.optind < |argv|
    ensures var (a, s') := DoubleDash(argv, s); a == argv && Finish(s').optind == s.optind + 1
  {
  }

  /**
   In the orderings that do not permute, every call leaves the vector alone.  A call that answers gives the
   next answer of the left-to-right reading; a call that returns -1 has none left and stops where it stops.
   */
  lemma OrderedReads(optstring: string, argv: seq<string>, posixlyCorrect: bool, s: State)
    requires InOrder(argv, s)
    ensures var r := GetOptCall(argv, optstring, posixlyCorrect, s);
            && r.argv == argv
            && (r.ret == Done ==>
                  Pending(optstring, argv, s) == [] && r.st.optind == EndsAt(optstring, argv, s))
            && (r.ret != Done ==>
                  && InOrder(argv, r.st) && GivesNext(optstring, argv, s, r)
                  && EndsAt(optstring, argv, r.st) == EndsAt(optstring, argv, s)
                  && Budget(argv, r.st) < Budget(argv, s))
  {
    hide Decode, DoubleDash, Events, Cluster, Consumed, Resume, IsOption, Pending, EndsAt;
    OrderedCall(optstring, argv, posixlyCorrect, s);
    var s0 := s.(optarg := None);
    SameReading(optstring, argv, s, s0);
    if s.nextchar != "" {
      DecodeInOrder(optstring, argv, s0);
    } else {
      var s1 := Clamp(s0);
      SameReading(optstring, argv, s0, s1);
      assert Advance(argv, s1) == (argv, s1);
      if s.optind < |argv| && IsOption(argv[s.optind]) && argv[s.optind] != "--" {
        LongerThanDash(argv[s.optind]);
        var s2 := s1.(nextchar := argv[s.optind][1..]);
        EnterPending(optstring, argv, s1);
        EnterEnds(optstring, argv, s1);
        DecodeInOrder(optstring, argv, s2);
      } else {
        AtElement(optstring, argv, s1);
        if s.optind < |argv| && argv[s.optind] == "--" { DoubleDashInOrder(argv, s1); }
        else if s.optind < |argv| {
          SameReading(optstring, argv, s1.(optind := s.optind + 1),
                      s1.(optind := s.optind + 1, optarg := Some(argv[s.optind])));
        }
      }
    }
  }

  lemma LongerThanDash(e: string)
    requires IsOption(e)
    ensures |e| > 1 && e[1..] != ""
  {
  }

  /** The reading looks at the cursor and the ordering only. */
  lemma SameReading(optstring: string, argv: seq<string>, s: State, s': State)
    requires Midway(argv, s) && s'.optind == s.optind && s'.nextchar == s.nextchar && s'.ordering == s.ordering
    ensures Pending(optstring, argv, s') == Pending(optstring, argv, s)
    ensures EndsAt(optstring, argv, s') == EndsAt(optstring, argv, s)
  {
  }

  lemma DecodeInOrder(optstring: string, argv: seq<string>, s: State)
    requires InOrder(argv, s) && s.nextchar != "" && s.optarg == None
    ensures var r := Decode(argv, optstring, s);
            && r.argv == argv && InOrder(argv, r.st) && GivesNext(optstring, argv, s, r)
            && EndsAt(optstring, argv, r.st) == EndsAt(optstring, argv, s)
  {
    hide KindOf, MissingArg, TakesNext, Events, Cluster, Consumed, Pending;
    DecodeAnswers(optstring, argv, s);
    ResumeStays(optstring, argv, s);
  }

  /** Call getopt until it returns -1. */
  ghost function OrderedRun(optstring: string, argv: seq<string>, posixlyCorrect: bool, s: State): Finished
    requires InOrder(argv, s)
    decreases Budget(argv, s)
  {
    OrderedReads(optstring, argv, posixlyCorrect, s);
    var r := GetOptCall(argv, optstring, posixlyCorrect, s);
    if r.ret == Done then Finished(r.argv, r.st, [])
    else
      var rest := OrderedRun(optstring, r.argv, posixlyCorrect, r.st);
      Finished(rest.argv, rest.st, [Shown(r)] + rest.replies)
  }

  lemma {:induction false} OrderedRunReads(optstring: string, argv: seq<string>, posixlyCorrect: bool, s: State)
    requires InOrder(argv, s)
    ensures var f := OrderedRun(optstring, argv, posixlyCorrect, s);
            && f.argv == argv && f.st.optind == EndsAt(optstring, argv, s)
            && f.replies == Replies(Pending(optstring, argv, s), s.optopt)
    decreases Budget(argv, s)
  {
    hide GetOptCall, Pending, EndsAt;
    OrderedReads(optstring, argv, posixlyCorrect, s);
    var r := GetOptCall(argv, optstring, posixlyCorrect, s);
    if r.ret != Done { OrderedRunReads(optstring, argv, posixlyCorrect, r.st); }
  }

  // ---------- every ordering ----------

  ghost predicate Running(argv: seq<string>, s: State) { Good(argv, s) || Ordered(argv, s) }

  /** No more calls than this can still answer. */
  ghost function Left(optstring: string, argv: seq<string>, s: State): nat
    requires Running(argv, s)
  {
    if s.ordering == Permute then |Pending(optstring, argv, s)| else Budget(argv, s)
  }

  lemma CallShrinks(optstring: string, argv: seq<string>, posixlyCorrect: bool, s: State)
    requires Running(argv, s)
    ensures var r := GetOptCall(argv, optstring, posixlyCorrect, s);
            r.ret != Done ==>
              && Running(r.argv, r.st) && (r.st.ordering == Permute <==> s.ordering == Permute)
              && Left(optstring, r.argv, r.st) < Left(optstring, argv, s)
  {
    hide Scan, Pending, Budget, FinalArgs, FinalOptind;
    if s.ordering == Permute {
      CallKeeps(optstring, argv, s);
    } else {
      OrderedCall(optstring, argv, posixlyCorrect, s);
    }
  }

  /** A caller's variables between calls: never used, set back to 0, or as the last call left them. */
  ghost predicate Ready(argv: seq<string>, s: State) {
    argv == [] || (s.optind <= |argv| && (s.optind == 0 || !s.initialized || Running(argv, s)))
  }

  /** The first call is a call from the variables it initialises, on the option string after the mark. */
  lemma FirstCall(optstring: string, argv: seq<string>, posixlyCorrect: bool, s: State)
    requires argv != [] && s.optind <= |argv| && (s.optind == 0 || !s.initialized)
    ensures var s1 := Initialize(s, optstring, posixlyCorrect);
            && Running(argv, s1) && s1.optind == StartIndex(s) && s1.nextchar == ""
            && GetOptCall(argv, optstring, posixlyCorrect, s)
               == GetOptCall(argv, Effective(s, optstring), posixlyCorrect, s1)
            && (s1.ordering == Permute ==> Effective(s, optstring) == optstring)
  {
    hide Scan;
  }

  /** With no arguments at all, not even a program name, there is nothing to answer and nothing changes. */
  lemma NoArguments(optstring: string, posixlyCorrect: bool, s: State)
    ensures GetOptCall([], optstring, posixlyCorrect, s) == Call([], s, Done)
  {
  }

  lemma CallReady(optstring: string, argv: seq<string>, posixlyCorrect: bool, s: State)
    requires Ready(argv, s)
    ensures var r := GetOptCall(argv, optstring, posixlyCorrect, s); r.ret != Done ==> Running(r.argv, r.st)
  {
    hide Scan, Good, Ordered, Left;
    if argv != [] {
      if s.optind == 0 || !s.initialized {
        FirstCall(optstring, argv, posixlyCorrect, s);
        CallShrinks(Effective(s, optstring), argv, posixlyCorrect, Initialize(s, optstring, posixlyCorrect));
      } else {
        CallShrinks(optstring, argv, posixlyCorrect, s);
      }
    }
  }

  /** `n` calls with the same option string, or as many as there are up to the first -1. */
  ghost function Calls(optstring: string, argv: seq<string>, posixlyCorrect: bool, s: State, n: nat): Call
    requires Ready(argv, s)
    decreases n
  {
    if n == 0 then Call(argv, s, Operand)
    else
      CallReady(optstring, argv, posixlyCorrect, s);
      var r := GetOptCall(argv, optstring, posixlyCorrect, s);
      if r.ret == Done then r else Calls(optstring, r.argv, posixlyCorrect, r.st, n - 1)
  }

  lemma {:induction false} CallsEnd(optstring: string, argv: seq<string>, posixlyCorrect: bool, s: State, n: nat)
    requires Running(argv, s) && n > Left(optstring, argv, s)
    ensures Calls(optstring, argv, posixlyCorrect, s, n).ret == Done
    decreases n
  {
    hide GetOptCall, Left;
    var r := GetOptCall(argv, optstring, posixlyCorrect, s);
    CallShrinks(optstring, argv, posixlyCorrect, s);
    if r.ret != Done { CallsEnd(optstring, r.argv, posixlyCorrect, r.st, n - 1); }
  }

  /** At the start of an element, what is left is bounded by what is unread. */
  lemma LeftUnread(optstring: string, argv: seq<string>, s: State)
    requires Running(argv, s) && s.nextchar == ""
    ensures Left(optstring, argv, s) <= Unread(argv, s.optind)
  {
    EventsBounded(s.ordering, optstring, argv[s.optind..]);
    UnreadSlice(argv, s.optind);
  }

  lemma {:induction false} UnreadSlice(argv: seq<string>, k: nat)
    requires k <= |argv|
    ensures Unread(argv[k..], 0) == Unread(argv, k)
    decreases |argv| - k
  {
    if k < |argv| {
      UnreadTail(argv[k..], 0);
      assert argv[k..][1..] == argv[k + 1..];
      UnreadSlice(argv, k + 1);
    }
  }

  /**
   Whatever the option string and POSIXLY_CORRECT say, from a fresh start -1 comes after at most as
   many answers as there are characters and elements to read.
   */
  lemma RunTerminates(optstring: string, argv: seq<string>, posixlyCorrect: bool, s: State)
    requires argv == [] || (s.optind <= |argv| && (s.optind == 0 || !s.initialized))
    ensures var n := if argv == [] then 0 else Unread(argv, StartIndex(s));
            Calls(optstring, argv, posixlyCorrect, s, n + 1).ret == Done
  {
    hide Scan, Good, Ordered, Unread, Left;
    if argv != [] {
      var e, s1 := Effective(s, optstring), Initialize(s, optstring, posixlyCorrect);
      FirstCall(optstring, argv, posixlyCorrect, s);
      LeftUnread(e, argv, s1);
      CallShrinks(e, argv, posixlyCorrect, s1);
      var r := GetOptCall(argv, optstring, posixlyCorrect, s);
      if r.ret != Done {
        LeftMark(e, optstring, r.argv, r.st);
        CallsEnd(optstring, r.argv, posixlyCorrect, r.st, Unread(argv, s1.optind));
      }
    }
  }

  /** Only in PERMUTE order does what is left depend on the option string. */
  lemma LeftMark(e: string, optstring: string, argv: seq<string>, s: State)
    requires Running(argv, s) && (s.ordering == Permute ==> e == optstring)
    ensures Left(e, argv, s) == Left(optstring, argv, s)
  {
  }

  // ---------- whole runs in the orderings that do not permute ----------

  /** What a leading `-`, a leading `+` and POSIXLY_CORRECT select, when one of them is there. */
  function Mode(optstring: string): Ordering { if HasAt(optstring, 0, '-') then ReturnInOrder else RequireOrder }

  /** The option string as it is meant, without the mark. */
  function Unmarked(optstring: string): string { if HasOrderMark(optstring) then optstring[1..] else optstring }

  lemma StartsInOrder(optstring: string, argv: seq<string>, posixlyCorrect: bool, s: State)
    requires argv != [] && s.optind <= |argv| && (s.optind == 0 || !s.initialized)
    requires HasOrderMark(optstring) || posixlyCorrect
    ensures var s1 := Initialize(s, optstring, posixlyCorrect);
            && InOrder(argv, s1) && s1.optopt == s.optopt && s1.ordering == Mode(optstring)
            && Effective(s, optstring) == Unmarked(optstring)
            && Pending(Unmarked(optstring), argv, s1)
               == Events(Mode(optstring), Unmarked(optstring), argv[StartIndex(s)..])
  {
  }

  /**
   A whole run from a fresh start.  The vector stays as it is.  The first answer is that of a left-to-right
   reading with the option string without its mark; the others are those of a reading that goes on from
   there with the option string as it stands, mark included, because only the first call steps over it.
   */
  lemma RunReadsInOrder(optstring: string, argv: seq<string>, posixlyCorrect: bool, s: State)
    requires argv != [] && s.optind <= |argv| && (s.optind == 0 || !s.initialized)
    requires HasOrderMark(optstring) || posixlyCorrect
    ensures var r := GetOptCall(argv, optstring, posixlyCorrect, s);
            var k, mode, e := StartIndex(s), Mode(optstring), Unmarked(optstring);
            var es := Events(mode, e, argv[k..]);
            && r.argv == argv
            && (es == [] ==> r.ret == Done && r.st.optind == k + Consumed(mode, e, argv[k..]))
            && (es != [] ==>
                  && Gives(r, s, es[0]) && InOrder(argv, r.st)
                  && var f := OrderedRun(optstring, argv, posixlyCorrect, r.st);
                     && f.argv == argv && f.st.optind == EndsAt(optstring, argv, r.st)
                     && f.replies == Replies(Pending(optstring, argv, r.st), r.st.optopt))
  {
    hide Scan, Events, Consumed, Pending, Ordered;
    var s1, e := Initialize(s, optstring, posixlyCorrect), Unmarked(optstring);
    StartsInOrder(optstring, argv, posixlyCorrect, s);
    FirstCall(optstring, argv, posixlyCorrect, s);
    OrderedReads(e, argv, posixlyCorrect, s1);
    var r := GetOptCall(argv, optstring, posixlyCorrect, s);
    if r.ret != Done { OrderedRunReads(optstring, argv, posixlyCorrect, r.st); }
  }

  /** Without a mark, as with POSIXLY_CORRECT, the whole run is one left-to-right reading. */
  lemma PosixRunReads(optstring: string, argv: seq<string>, s: State)
    requires argv != [] && s.optind <= |argv| && (s.optind == 0 || !s.initialized) && !HasOrderMark(optstring)
    ensures var s1, k := Initialize(s, optstring, true), StartIndex(s);
            && InOrder(argv, s1) && GetOptCall(argv, optstring, true, s) == GetOptCall(argv, optstring, true, s1)
            && var f := OrderedRun(optstring, argv, true, s1);
               && f.argv == argv && f.st.optind == k + Consumed(RequireOrder, optstring, argv[k..])
               && f.replies == Replies(Events(RequireOrder, optstring, argv[k..]), s.optopt)
  {
    hide Scan, Events, Consumed, Pending, OrderedRun;
    StartsInOrder(optstring, argv, true, s);
    FirstCall(optstring, argv, true, s);
    OrderedRunReads(optstring, argv, true, Initialize(s, optstring, true));
  }

  // ---------- the mark that only the first call steps over ----------

  /** The two option strings say the same of every option and of a missing argument, where there can be one. */
  ghost predicate MarkHarmless(optstring: string)
    requires HasOrderMark(optstring)
  {
    && KindOf(optstring, optstring[0]) == KindOf(optstring[1..], optstring[0])
    && (HasAt(optstring, 1, ':') ==> forall c :: KindOf(optstring[1..], c) != Required)
  }

  lemma OtherKinds(optstring: string, c: char)
    requires HasOrderMark(optstring) && c != optstring[0]
    ensures KindOf(optstring, c) == KindOf(optstring[1..], c)
  {
  }

  lemma {:induction false} SameEvents(mode: Ordering, optstring: string, args: seq<string>)
    requires HasOrderMark(optstring) && MarkHarmless(optstring)
    ensures Events(mode, optstring, args) == Events(mode, optstring[1..], args)
    decreases |args|, 0
  {
    if args != [] && args[0] != "--" {
      if IsOption(args[0]) { SameCluster(mode, optstring, args[0][1..], args[1..]); }
      else { SameEvents(mode, optstring, args[1..]); }
    }
  }

  lemma {:induction false} SameCluster(mode: Ordering, optstring: string, chars: string, rest: seq<string>)
    requires HasOrderMark(optstring) && MarkHarmless(optstring)
    ensures Cluster(mode, optstring, chars, rest) == Cluster(mode, optstring[1..], chars, rest)
    decreases |rest|, 1 + |chars|
  {
    SameEvents(mode, optstring, rest);
    if chars != "" {
      if chars[0] != optstring[0] { OtherKinds(optstring, chars[0]); }
      SameCluster(mode, optstring, chars[1..], rest);
      if rest != [] { SameEvents(mode, optstring, rest[1..]); }
    }
  }

  /**
   The reading that later calls give is the one that is meant, for every argument list, if and only if the
   mark character stands for the same kind of option with and without the mark in front, and either no
   colon follows the mark or no option takes an argument.
   */
  lemma MarkHarmlessIff(mode: Ordering, optstring: string)
    requires HasOrderMark(optstring)
    ensures MarkHarmless(optstring) <==>
            forall args :: Events(mode, optstring, args) == Events(mode, optstring[1..], args)
  {
    if MarkHarmless(optstring) {
      forall args ensures Events(mode, optstring, args) == Events(mode, optstring[1..], args) {
        SameEvents(mode, optstring, args);
      }
    } else {
      var args := MarkHarms(mode, optstring);
    }
  }

  lemma MarkHarms(mode: Ordering, optstring: string) returns (args: seq<string>)
    requires HasOrderMark(optstring) && !MarkHarmless(optstring)
    ensures Events(mode, optstring, args) != Events(mode, optstring[1..], args)
  {
    var m, e := optstring[0], optstring[1..];
    var k, k' := KindOf(optstring, m), KindOf(e, m);
    if k != k' && (k' == Unlisted || k' == Plain || k == Plain) {
      var chars := [m, '?'];
      args := ["-" + chars];
      OneElement(mode, optstring, chars);
      OneElement(mode, e, chars);
      ClusterReads(mode, optstring, chars, []);
      ClusterReads(mode, e, chars, []);
      NeverUnlisted(optstring);
      hide Events, Cluster, KindOf;
      assert chars[1..] == "?";
    } else {
      var c := if KindOf(optstring, m) != KindOf(e, m) then m else var c :| KindOf(e, c) == Required; c;
      if c != m { OtherKinds(optstring, c); }
      NeverUnlisted(optstring);
      args := ["-" + [':', c]];
      AfterColon(mode, optstring, c);
      AfterColon(mode, e, c);
      hide Events, Cluster, KindOf;
    }
  }

  lemma NeverUnlisted(optstring: string)
    requires HasOrderMark(optstring)
    ensures KindOf(optstring, optstring[0]) != Unlisted && MissingArg(optstring) == '?'
  {
  }

  lemma OneElement(mode: Ordering, optstring: string, chars: string)
    requires chars != "" && chars != "-"
    ensures Events(mode, optstring, ["-" + chars]) == Cluster(mode, optstring, chars, [])
  {
    var args := ["-" + chars];
    assert args[0][1..] == chars && args[1..] == [] && args[0][0] == '-';
    assert "--"[1..] == "-";
    hide Cluster;
  }

  /** The second answer for an element of a colon, which is never an option, and one character. */
  lemma AfterColon(mode: Ordering, optstring: string, c: char)
    ensures var es := Events(mode, optstring, ["-" + [':', c]]);
            && |es| > 1
            && (KindOf(optstring, c) == Required ==> es[1] == Event(MissingArg(optstring), None, Some(c)))
            && (KindOf(optstring, c) == Optional ==> es[1] == Event(c, None, None))
  {
    var chars := [':', c];
    OneElement(mode, optstring, chars);
    ClusterReads(mode, optstring, chars, []);
    assert chars[1..] == [c];
    assert [c][1..] == "";
    ClusterReads(mode, optstring, [c], []);
    hide Cluster;
  }

  lemma ColonKinds()
    ensures KindOf(":a:", 'x') == Unlisted && KindOf(":a:", 'a') == Required && KindOf("+:a:", 'a') == Required
    ensures MissingArg(":a:") == ':' && MissingArg("+:a:") == '?'
  {
    KindLaws(":", 'a', "");
    KindLaws("+:", 'a', "");
    assert ":" + ['a'] + ":" == ":a:" && "+:" + ['a'] + ":" == "+:a:";
    assert 'x' !in ":a:";
  }

  lemma ColonMeant()
    ensures Events(RequireOrder, ":a:", ["-xa"]) == [Event('?', None, Some('x')), Event(':', None, Some('a'))]
  {
    ColonKinds();
    assert "-" + "xa" == "-xa" && "xa"[1..] == "a" && "a"[1..] == "";
    OneElement(RequireOrder, ":a:", "xa");
    ClusterReads(RequireOrder, ":a:", "xa", []);
    ClusterReads(RequireOrder, ":a:", "a", []);
    hide KindOf, Cluster, Events, MissingArg;
  }

  /** A missing argument is to be answered with a colon; the second call answers with a question mark. */
  lemma ColonForgotten(s: State)
    requires s.optind == 0
    ensures Events(RequireOrder, ":a:", ["-xa"]) == [Event('?', None, Some('x')), Event(':', None, Some('a'))]
    ensures var r := GetOptCall(["p", "-xa"], "+:a:", false, s);
            && r.ret == Letter('?') && r.st.initialized && Usable(r.argv, r.st)
            && GetOptCall(r.argv, "+:a:", false, r.st).ret == Letter('?')
  {
    ColonMeant();
    ColonKinds();
    hide KindOf, Events, Replies, MissingArg;
    var s1 := Initialize(s, "+:a:", false);
    assert "+:a:"[1..] == ":a:" && "-xa"[1..] == "xa" && "xa"[1..] == "a" && "a"[1..] == "";
    assert Advance(["p", "-xa"], Clamp(s1)) == (["p", "-xa"], s1);
  }
}
