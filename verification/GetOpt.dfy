/**
 The argument scanner of soft/libc/posix/getopt.c as a state machine on values.  A call takes the
 argument vector and the file-level variables and gives their new values and the answer.
 `nextchar` is the text still to be decoded in the current element; a null pointer and a pointer
 to an empty string are tested alike by the code, and both are "" here.
 */
module GetOpt {
  import opened Types
  import opened GetOptSpec

  /** -1, the code 1 that announces an operand, or a character. */
  datatype Answer = Done | Operand | Letter(c: char)

  function Code(ret: Answer): char
    requires ret != Done
  {
    if ret == Operand then OPERAND else ret.c
  }

  /** The file-level variables of getopt.c. */
  datatype State = State(
    initialized: bool,
    optind: nat,
    nextchar: string,
    firstNonopt: nat,
    lastNonopt: nat,
    ordering: Ordering,
    optarg: Option<string>,
    optopt: char)

  datatype Call = Call(argv: seq<string>, st: State, ret: Answer)

  /** `W;` sends the code into the long-option table, which getopt() passes as a null pointer. */
  predicate NoLongW(optstring: string) {
    var i := Index(optstring, 'W');
    i < 0 || !HasAt(optstring, i + 1, ';')
  }

  predicate HasOrderMark(optstring: string) {
    HasAt(optstring, 0, '-') || HasAt(optstring, 0, '+')
  }

  /** What the code needs of its variables between calls; `optind` may be moved by the caller. */
  predicate Usable(argv: seq<string>, s: State) {
    argv == [] ||
    (&& s.optind <= |argv|
     && (s.initialized && s.optind != 0 ==>
           && s.firstNonopt <= s.lastNonopt
           && (s.nextchar != "" ==> s.optind < |argv|)))
  }

  function InitialOrdering(optstring: string, posixlyCorrect: bool): Ordering {
    if HasAt(optstring, 0, '-') then ReturnInOrder
    else if HasAt(optstring, 0, '+') || posixlyCorrect then RequireOrder
    else Permute
  }

  /** Line 537 and the first-call initialisation of lines 539-545. */
  function Initialize(s: State, optstring: string, posixlyCorrect: bool): State {
    var s := s.(optarg := None);
    if s.optind == 0 || !s.initialized then
      var i := if s.optind == 0 then 1 else s.optind;
      State(true, i, "", i, i, InitialOrdering(optstring, posixlyCorrect), None, s.optopt)
    else s
  }

  /** The first call steps over a leading `-` or `+`; later calls do not. */
  function Effective(s: State, optstring: string): string {
    if (s.optind == 0 || !s.initialized) && HasOrderMark(optstring) then optstring[1..] else optstring
  }

  function Min(a: nat, b: nat): nat { if a < b then a else b }

  /** Lines 565-568: bring the range back when the caller has moved `optind` down. */
  function Clamp(s: State): State {
    s.(lastNonopt := Min(s.lastNonopt, s.optind), firstNonopt := Min(s.firstNonopt, s.optind))
  }

  predicate Ranged(argv: seq<string>, s: State) {
    s.firstNonopt <= s.lastNonopt <= s.optind <= |argv|
  }

  /** What `exchange` makes of the argument vector. */
  function Rotated<T>(a: seq<T>, first: nat, middle: nat, top: nat): (r: seq<T>)
    requires first <= middle <= top <= |a|
    ensures |r| == |a|
  {
    a[..first] + a[middle..top] + a[first..middle] + a[top..]
  }

  function ExchangeArgs(argv: seq<string>, s: State): seq<string>
    requires Ranged(argv, s)
  {
    Rotated(argv, s.firstNonopt, s.lastNonopt, s.optind)
  }

  function ExchangeState(s: State): State
    requires s.lastNonopt <= s.optind
  {
    s.(firstNonopt := s.firstNonopt + (s.optind - s.lastNonopt), lastNonopt := s.optind)
  }

  /** The first index from `i` on that is the end or holds an option element. */
  function SkipOperands(argv: seq<string>, i: nat): (j: nat)
    requires i <= |argv|
    ensures i <= j <= |argv|
    decreases |argv| - i
  {
    if i < |argv| && !IsOption(argv[i]) then SkipOperands(argv, i + 1) else i
  }

  /** Lines 575-576: settle the options read since the last operands. */
  function SettleArgs(argv: seq<string>, s: State): (r: seq<string>)
    requires Ranged(argv, s)
    ensures |r| == |argv|
  {
    if s.firstNonopt != s.lastNonopt && s.lastNonopt != s.optind then ExchangeArgs(argv, s) else argv
  }

  /** Lines 575-578 on the variables. */
  function SettleState(s: State): State
    requires s.lastNonopt <= s.optind
  {
    if s.firstNonopt != s.lastNonopt && s.lastNonopt != s.optind then ExchangeState(s)
    else if s.lastNonopt != s.optind then s.(firstNonopt := s.optind)
    else s
  }

  /** Lines 583-585. */
  function SkipState(argv: seq<string>, s: State): State
    requires s.optind <= |argv|
  {
    var j := SkipOperands(argv, s.optind);
    s.(optind := j, lastNonopt := j)
  }

  /** Lines 570-586. */
  function Advance(argv: seq<string>, s: State): (r: (seq<string>, State))
    requires Ranged(argv, s)
    ensures Ranged(r.0, r.1) && |r.0| == |argv|
  {
    if s.ordering == Permute then
      var a := SettleArgs(argv, s);
      (a, SkipState(a, SettleState(s)))
    else (argv, s)
  }

  /** Lines 593-604: `--` ends the options; everything after it is an operand. */
  function DoubleDash(argv: seq<string>, s: State): (r: (seq<string>, State))
    requires Ranged(argv, s) && s.optind < |argv|
    ensures Ranged(r.0, r.1) && |r.0| == |argv| && r.1.optind == |argv|
  {
    var s := s.(optind := s.optind + 1);
    var a, s' :=
      if s.firstNonopt != s.lastNonopt then ExchangeArgs(argv, s) else argv,
      if s.firstNonopt != s.lastNonopt then ExchangeState(s) else s.(firstNonopt := s.optind);
    (a, s'.(lastNonopt := |argv|, optind := |argv|))
  }

  /** Lines 609-616. */
  function Finish(s: State): State {
    if s.firstNonopt != s.lastNonopt then s.(optind := s.firstNonopt) else s
  }

  /** Lines 891-1198: decode one option character. */
  function Decode(argv: seq<string>, optstring: string, s: State): Call
    requires s.nextchar != "" && s.optind < |argv|
  {
    var c, tail := s.nextchar[0], s.nextchar[1..];
    var s := s.(nextchar := tail, optind := if tail == "" then s.optind + 1 else s.optind);
    match KindOf(optstring, c)
    case Unlisted => Call(argv, s.(optopt := c), Letter('?'))
    case Plain => Call(argv, s, Letter(c))
    case Optional =>
      Call(argv,
           if tail != "" then s.(optarg := Some(tail), optind := s.optind + 1, nextchar := "")
           else s.(optarg := None, nextchar := ""),
           Letter(c))
    case Required =>
      if tail != "" then
        Call(argv, s.(optarg := Some(tail), optind := s.optind + 1, nextchar := ""), Letter(c))
      else if s.optind == |argv| then
        Call(argv, s.(optopt := c, nextchar := ""), Letter(MissingArg(optstring)))
      else
        Call(argv, s.(optarg := Some(argv[s.optind]), optind := s.optind + 1, nextchar := ""), Letter(c))
  }

  /** Lines 559-1198, after initialisation. */
  function Scan(argv: seq<string>, optstring: string, s: State): Call
    requires s.optind <= |argv| && s.firstNonopt <= s.lastNonopt
    requires s.nextchar != "" ==> s.optind < |argv|
  {
    if s.nextchar != "" then Decode(argv, optstring, s)
    else
      var (a, s) := Advance(argv, Clamp(s));
      if s.optind < |a| && a[s.optind] == "--" then
        var (b, s) := DoubleDash(a, s);
        Call(b, Finish(s), Done)
      else if s.optind == |a| then Call(a, Finish(s), Done)
      else if !IsOption(a[s.optind]) then
        if s.ordering == RequireOrder then Call(a, s, Done)
        else Call(a, s.(optarg := Some(a[s.optind]), optind := s.optind + 1), Operand)
      else Decode(a, optstring, s.(nextchar := a[s.optind][1..]))
  }

  /** One call of getopt(argc, argv, optstring). */
  function GetOptCall(argv: seq<string>, optstring: string, posixlyCorrect: bool, s: State): Call
    requires Usable(argv, s)
  {
    if argv == [] then Call(argv, s, Done)
    else Scan(argv, Effective(s, optstring), Initialize(s, optstring, posixlyCorrect))
  }
}
