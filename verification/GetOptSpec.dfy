/**
 A reference reading of a command line, from left to right over an unpermuted argument list,
 following the Utility Syntax Guidelines (section 12.2 of the Base Definitions volume of
 IEEE Std 1003.1-2001) with the GNU extensions for optional arguments and for operands that
 stand between options.  Nothing here mentions a cursor or a permuted array: the state machine
 in module GetOpt is proved to compute these functions.
 */
module GetOptSpec {
  import opened Types

  /** What the option string says about one option character. */
  datatype ArgKind = Unlisted | Plain | Required | Optional

  /** What an operand does: end the reading, be left for later, or be an answer of its own. */
  datatype Ordering = RequireOrder | Permute | ReturnInOrder

  /** One answer: the returned character, `optarg`, and the option character that is to blame, if one is. */
  datatype Event = Event(ret: char, optarg: Option<string>, bad: Option<char>)

  /** The code that announces an operand. */
  const OPERAND: char := 1 as char

  /** What the caller finds after an answer; `optopt` is the last character that was to blame. */
  datatype Reply = Reply(ret: char, optarg: Option<string>, optopt: char)

  function Blamed(e: Event, optopt: char): char { if e.bad.Some? then e.bad.value else optopt }

  function Replies(es: seq<Event>, optopt: char): seq<Reply> {
    if es == [] then []
    else [Reply(es[0].ret, es[0].optarg, Blamed(es[0], optopt))] + Replies(es[1..], Blamed(es[0], optopt))
  }

  /** The first index of `c` in `s`, or -1. */
  function Index(s: string, c: char): (i: int)
    ensures -1 <= i < |s|
    ensures i >= 0 ==> s[i] == c && c !in s[..i]
    ensures i == -1 <==> c !in s
  {
    if s == "" then -1
    else if s[0] == c then 0
    else var j := Index(s[1..], c);
         if j < 0 then -1 else j + 1
  }

  predicate HasAt(s: string, i: int, c: char) {
    0 <= i < |s| && s[i] == c
  }

  function KindOf(optstring: string, c: char): ArgKind {
    var i := Index(optstring, c);
    if i < 0 || c == ':' then Unlisted
    else if !HasAt(optstring, i + 1, ':') then Plain
    else if HasAt(optstring, i + 2, ':') then Optional
    else Required
  }

  /** The answer for an option whose required argument is missing. */
  function MissingArg(optstring: string): char {
    if HasAt(optstring, 0, ':') then ':' else '?'
  }

  predicate IsOption(e: string) {
    |e| >= 2 && e[0] == '-'
  }

  /** Does a cluster of option characters end in an option that takes the next argument? */
  predicate TakesNext(optstring: string, chars: string) {
    if chars == "" then false
    else match KindOf(optstring, chars[0])
      case Unlisted => TakesNext(optstring, chars[1..])
      case Plain => TakesNext(optstring, chars[1..])
      case Optional => false
      case Required => |chars| == 1
  }

  /** How many elements an option element at the front of the list takes up: itself and perhaps an argument. */
  function Span(optstring: string, args: seq<string>): (n: nat)
    requires args != [] && IsOption(args[0])
    ensures 1 <= n <= |args|
  {
    if TakesNext(optstring, args[0][1..]) && |args| >= 2 then 2 else 1
  }

  /** Options, their separate arguments and `--`, in order. */
  function Options(optstring: string, args: seq<string>): seq<string> {
    if args == [] then []
    else if !IsOption(args[0]) then Options(optstring, args[1..])
    else if args[0] == "--" then args[..1]
    else var n := Span(optstring, args);
         args[..n] + Options(optstring, args[n..])
  }

  /** Everything else, in order. */
  function Operands(optstring: string, args: seq<string>): seq<string> {
    if args == [] then []
    else if !IsOption(args[0]) then args[..1] + Operands(optstring, args[1..])
    else if args[0] == "--" then args[1..]
    else Operands(optstring, args[Span(optstring, args)..])
  }

  /** The answers, in order, of a left-to-right reading of an argument list. */
  function Events(mode: Ordering, optstring: string, args: seq<string>): seq<Event>
    decreases |args|, 0
  {
    if args == [] || args[0] == "--" then []
    else if IsOption(args[0]) then Cluster(mode, optstring, args[0][1..], args[1..])
    else match mode
      case RequireOrder => []
      case Permute => Events(mode, optstring, args[1..])
      case ReturnInOrder => [Event(OPERAND, Some(args[0]), None)] + Events(mode, optstring, args[1..])
  }

  /** The answers for the characters `chars` of an option element followed by `rest`. */
  function Cluster(mode: Ordering, optstring: string, chars: string, rest: seq<string>): seq<Event>
    decreases |rest|, 1 + |chars|
  {
    if chars == "" then Events(mode, optstring, rest)
    else
      var c, tail := chars[0], chars[1..];
      match KindOf(optstring, c)
      case Unlisted => [Event('?', None, Some(c))] + Cluster(mode, optstring, tail, rest)
      case Plain => [Event(c, None, None)] + Cluster(mode, optstring, tail, rest)
      case Optional =>
        [Event(c, if tail == "" then None else Some(tail), None)] + Events(mode, optstring, rest)
      case Required =>
        if tail != "" then [Event(c, Some(tail), None)] + Events(mode, optstring, rest)
        else if rest == [] then [Event(MissingArg(optstring), None, Some(c))]
        else [Event(c, Some(rest[0]), None)] + Events(mode, optstring, rest[1..])
  }

  /** How many elements a reading that does not permute gets past. */
  function Consumed(mode: Ordering, optstring: string, args: seq<string>): (n: nat)
    ensures n <= |args|
  {
    if args == [] then 0
    else if args[0] == "--" then 1
    else if IsOption(args[0]) then
      var n := Span(optstring, args);
      n + Consumed(mode, optstring, args[n..])
    else if mode == RequireOrder then 0
    else 1 + Consumed(mode, optstring, args[1..])
  }

  /** What is an option: at least two characters, of which the first is a dash. */
  lemma ElementLaws(mode: Ordering, optstring: string, t: string, chars: string, args: seq<string>)
    requires t == "" || t == "-" || t[0] != '-'
    requires chars != "" && chars != "-"
    ensures Options(optstring, [t] + args) == Options(optstring, args)
    ensures Operands(optstring, [t] + args) == [t] + Operands(optstring, args)
    ensures Options(optstring, ["--"] + args) == ["--"] && Operands(optstring, ["--"] + args) == args
    ensures Options(optstring, ["-" + chars] + args)[..1] == ["-" + chars]
    ensures Events(mode, optstring, ["-" + chars] + args) == Cluster(mode, optstring, chars, args)
    ensures Events(mode, optstring, ["--"] + args) == []
  {
    var e := "-" + chars;
    assert e[1..] == chars && e[0] == '-' && "--"[1..] == "-";
    assert e != "--";
    assert ([t] + args)[1..] == args && (["--"] + args)[1..] == args && ([e] + args)[1..] == args;
    hide Cluster, Span;
  }

  /** What the option string says about a character it lists as `pre`, the character, and `post`. */
  lemma KindLaws(pre: string, c: char, post: string)
    requires c !in pre && c != ':'
    ensures KindOf(pre, c) == Unlisted && KindOf(pre + [c] + post, ':') == Unlisted
    ensures post == "" || post[0] != ':' ==> KindOf(pre + [c] + post, c) == Plain
    ensures KindOf(pre + [c] + ":" , c) == Required
    ensures post != "" && post[0] != ':' ==> KindOf(pre + [c] + ":" + post, c) == Required
    ensures KindOf(pre + [c] + "::" + post, c) == Optional
  {
    KindAt(pre, c, "");
    KindAt(pre, c, post);
    KindAt(pre, c, ":");
    KindAt(pre, c, ":" + post);
    KindAt(pre, c, "::" + post);
    assert pre + [c] + ":" + post == pre + [c] + (":" + post);
    assert pre + [c] + "::" + post == pre + [c] + ("::" + post);
    hide KindOf;
  }

  lemma KindAt(pre: string, c: char, post: string)
    requires c !in pre && c != ':'
    ensures KindOf(pre, c) == Unlisted && KindOf(pre + [c] + post, ':') == Unlisted
    ensures KindOf(pre + [c] + post, c)
         == if !HasAt(post, 0, ':') then Plain else if HasAt(post, 1, ':') then Optional else Required
  {
    IndexOf(pre, c, post);
    hide Index;
    var s := pre + [c] + post;
    assert forall i :: 0 <= i < |post| ==> s[|pre| + 1 + i] == post[i];
    assert HasAt(s, |pre| + 1, ':') == HasAt(post, 0, ':') && HasAt(s, |pre| + 2, ':') == HasAt(post, 1, ':');
  }

  lemma {:induction false} IndexOf(pre: string, c: char, post: string)
    requires c !in pre
    ensures Index(pre + [c] + post, c) == |pre|
  {
    if pre != "" {
      IndexOf(pre[1..], c, post);
      assert (pre + [c] + post)[1..] == pre[1..] + [c] + post;
    }
  }

  /** The partition neither loses, invents nor duplicates an argument. */
  lemma {:induction false} PartitionIsPermutation(optstring: string, args: seq<string>)
    ensures multiset(Options(optstring, args)) + multiset(Operands(optstring, args)) == multiset(args)
  {
    if args != [] {
      var n := if IsOption(args[0]) && args[0] != "--" then Span(optstring, args) else 1;
      assert args == args[..n] + args[n..];
      PartitionIsPermutation(optstring, args[n..]);
    }
  }
}
