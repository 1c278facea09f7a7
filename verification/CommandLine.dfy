// src/fuseadf.c: the scan of the command line, which deletes from argv what
// FUSE is not to see while getopt is still walking over it, and the "-s"
// that is put into a slot so freed.
module CommandLine {
  import opened PathStrings

  type Argv = array<Option<string>>

  // ------------------------------------------------------------------
  // Deleting and appending
  // ------------------------------------------------------------------

  // Every slot from argc on is NULL.
  predicate NullTail(argv: seq<Option<string>>, argc: nat) {
    argc < |argv| && forall i :: argc <= i < |argv| ==> argv[i] == None
  }

  method DropArg(argv: Argv, argc: nat, index: nat) returns (left: nat)
    requires index < argc && NullTail(argv[..], argc)
    modifies argv
    ensures left == argc - 1 && NullTail(argv[..], left)
    ensures argv[..left] == old(argv[..index] + argv[index + 1..argc])
  {
    for i := index to argc - 1
      invariant argv[..i] == old(argv[..index] + argv[index + 1..i + 1])
      invariant argv[i..] == old(argv[i..])
    {
      argv[i] := argv[i + 1];
    }
    left := argc - 1;
    argv[left] := None;
  }

  method DropArgs(argv: Argv, argc: nat, index: nat, num: nat) returns (left: nat)
    requires index + num <= argc && NullTail(argv[..], argc)
    modifies argv
    ensures left == argc - num && NullTail(argv[..], left)
    ensures argv[..left] == old(argv[..index] + argv[index + num..argc])
  {
    ShiftDown(argv, argc, index, num);
    left := argc - num;
    assert argv[argc..] == argv[left..][num..] == old(argv[left..])[num..];
    SameTail(old(argv[..]), argv[..], argc);
    ClearSlots(argv, left, argc);
  }

  // The first loop of drop_args.
  method ShiftDown(argv: Argv, argc: nat, index: nat, num: nat)
    requires index + num <= argc <= argv.Length
    modifies argv
    ensures argv[..argc - num] == old(argv[..index] + argv[index + num..argc])
    ensures argv[argc - num..] == old(argv[argc - num..])
  {
    ghost var was := argv[..];
    for i := index to argc - num
      invariant argv[..] == ShiftedTo(was, index, num, i)
    {
      argv[i] := argv[i + num];
    }
    Shifted(was, index, num, argc - num);
  }

  // The elements from index on replaced, up to i, by those num places further.
  function ShiftedTo(was: seq<Option<string>>, index: nat, num: nat, i: nat): (now: seq<Option<string>>)
    requires index <= i && i + num <= |was|
    ensures |now| == |was|
    ensures forall j :: 0 <= j < |now| ==> now[j] == if index <= j < i then was[j + num] else was[j]
  {
    seq(|was|, j requires 0 <= j < |was| => if index <= j < i then was[j + num] else was[j])
  }

  lemma Shifted(was: seq<Option<string>>, index: nat, num: nat, i: nat)
    requires index <= i && i + num <= |was|
    ensures ShiftedTo(was, index, num, i)[..i] == was[..index] + was[index + num..i + num]
    ensures ShiftedTo(was, index, num, i)[i..] == was[i..]
  {
  }

  lemma SameTail(a: seq<Option<string>>, b: seq<Option<string>>, argc: nat)
    requires NullTail(a, argc) && |a| == |b| && a[argc..] == b[argc..]
    ensures NullTail(b, argc)
  {
    forall j | argc <= j < |b|
      ensures b[j] == None
    {
      assert b[j] == b[argc..][j - argc] == a[argc..][j - argc];
    }
  }

  // The second loop of drop_args.
  method ClearSlots(argv: Argv, left: nat, argc: nat)
    requires left <= argc && NullTail(argv[..], argc)
    modifies argv
    ensures NullTail(argv[..], left) && argv[..left] == old(argv[..left])
  {
    for i := left to argc
      invariant argv[..left] == old(argv[..left])
      invariant forall j :: left <= j < i || argc <= j < argv.Length ==> argv[j] == None
    {
      argv[i] := None;
    }
  }

  method AddArg(argv: Argv, argc: nat, arg: string) returns (more: nat)
    requires NullTail(argv[..], argc) && argc + 1 < argv.Length
    modifies argv
    ensures more == argc + 1 && NullTail(argv[..], more)
    ensures argv[..more] == old(argv[..argc]) + [Some(arg)]
  {
    argv[argc] := Some(arg);
    more := argc + 1;
  }

  // ------------------------------------------------------------------
  // getopt ( argc, argv, "p:l::o:fdshiwV" ) on one option per element
  // ------------------------------------------------------------------

  // An element at which the scan stops: a word, or a lone "-".
  predicate IsOperand(a: string) {
    a == "" || a[0] != '-' || a == "-"
  }

  predicate TakesArgument(c: char) {
    c == 'p' || c == 'o'
  }

  // The end of the options, a recognised option, or '?'.
  datatype Getopt = Done(optind: nat) | Found(opt: char, optarg: Option<string>, optind: nat) | Refused

  function GetOpt(args: seq<Option<string>>, optind: nat): Getopt {
    if optind >= |args| || args[optind].None? || IsOperand(args[optind].value) then Done(optind)
    else if args[optind].value == "--" then Done(optind + 1)
    else
      var c := args[optind].value[1];
      if TakesArgument(c) then
        if optind + 1 < |args| then Found(c, args[optind + 1], optind + 2) else Refused
      else if c in "lfdshiwV" then Found(c, None, optind + 1)
      else Refused
  }

  // ------------------------------------------------------------------
  // The partition number: strtoul and a cast to unsigned int
  // ------------------------------------------------------------------

  predicate IsSpace(c: char) {
    c == ' ' || '\t' <= c <= '\r'
  }

  predicate IsDigit(c: char) {
    '0' <= c <= '9'
  }

  function SkipSpace(s: string): string {
    if s != "" && IsSpace(s[0]) then SkipSpace(s[1..]) else s
  }

  function Digits(s: string): (n: nat)
    ensures n <= |s| && forall i :: 0 <= i < n ==> IsDigit(s[i])
  {
    if s != "" && IsDigit(s[0]) then 1 + Digits(s[1..]) else 0
  }

  function DigitValue(c: char): nat
    requires IsDigit(c)
  {
    c as int - '0' as int
  }

  function Decimal(s: string): nat
    requires forall i :: 0 <= i < |s| ==> IsDigit(s[i])
  {
    if s == "" then 0 else Decimal(s[..|s| - 1]) * 10 + DigitValue(s[|s| - 1])
  }

  const TWO64: nat := 0x1_0000_0000_0000_0000
  const TWO32: nat := 0x1_0000_0000

  // Saturated on overflow, otherwise negated as an unsigned number.
  function Saturate(v: nat, negative: bool): nat {
    if v >= TWO64 then TWO64 - 1 else if negative then (TWO64 - v) % TWO64 else v
  }

  function LeadingNumber(u: string, negative: bool): Option<nat> {
    if Digits(u) == 0 then None else Some(Saturate(Decimal(u[..Digits(u)]), negative))
  }

  // None when no number is found (endptr == optarg).
  function StrToUL(s: string): Option<nat> {
    var t := SkipSpace(s);
    if t != "" && t[0] == '-' then LeadingNumber(t[1..], true)
    else if t != "" && t[0] == '+' then LeadingNumber(t[1..], false)
    else LeadingNumber(t, false)
  }

  function ParseVolume(s: string): (r: Option<nat>)
    ensures r.Some? ==> r.value <= 10
  {
    match StrToUL(s)
    case None => None
    case Some(v) => if v % TWO32 > 10 then None else Some(v % TWO32)
  }

  predicate AllSpace(s: string) {
    forall i :: 0 <= i < |s| ==> IsSpace(s[i])
  }

  predicate AllDigit(s: string) {
    forall i :: 0 <= i < |s| ==> IsDigit(s[i])
  }

  predicate Sign(s: string) {
    s == "" || s == "+" || s == "-"
  }

  // The six white-space characters of the C locale.
  lemma SpacesAre(c: char)
    ensures IsSpace(c) <==> c as int in {32, 9, 10, 11, 12, 13}
  {
  }

  // The integer that a sign and digits stand for.
  function SignedValue(sign: string, digits: string): int
    requires AllDigit(digits)
  {
    var v: int := Decimal(digits);
    if sign == "-" then -v else v
  }

  // Any number, with leading space, a sign and whatever follows the digits, is
  // accepted by its value modulo 2^32, so numbers up to 10 as themselves, but
  // also negative and larger ones that wrap around; from 2^64 on none is.
  lemma ParseVolumeWraps(space: string, sign: string, digits: string, tail: string)
    requires AllSpace(space) && Sign(sign) && digits != "" && AllDigit(digits)
    requires tail == "" || !IsDigit(tail[0])
    ensures Decimal(digits) < TWO64 ==>
              ParseVolume(space + sign + digits + tail) ==
                var v := SignedValue(sign, digits) % TWO32; if v <= 10 then Some(v) else None
    ensures Decimal(digits) >= TWO64 ==> ParseVolume(space + sign + digits + tail) == None
  {
    hide Decimal, StrToUL, AllSpace, IsDigit;
    var v: int := Decimal(digits);
    NumberFound(space, sign, digits, tail);
    if sign == "-" && v < TWO64 {
      WrapsTwice(v);
    }
  }

  // Without digits behind the sign there is no number.
  lemma NoNumberRefused(space: string, sign: string, tail: string)
    requires AllSpace(space) && Sign(sign) && (tail == "" || !IsDigit(tail[0]))
    requires sign == "" && tail != "" ==> !IsSpace(tail[0]) && tail[0] != '+' && tail[0] != '-'
    ensures ParseVolume(space + sign + tail) == None
  {
    hide AllSpace, IsDigit;
    AfterSpace(space, sign + tail);
    assert space + sign + tail == space + (sign + tail);
    assert sign != "" ==> (sign + tail)[1..] == tail;
    assert sign == "" ==> sign + tail == tail;
  }

  lemma NumberFound(space: string, sign: string, digits: string, tail: string)
    requires AllSpace(space) && Sign(sign) && digits != "" && AllDigit(digits)
    requires tail == "" || !IsDigit(tail[0])
    ensures StrToUL(space + sign + digits + tail) == Some(Saturate(Decimal(digits), sign == "-"))
  {
    hide Decimal, Digits, LeadingNumber, AllSpace, Saturate;
    var u := digits + tail;
    assert IsDigit(u[0]);
    assert space + sign + digits + tail == space + (sign + u);
    assert sign == "" ==> sign + u == u;
    assert sign != "" ==> (sign + u)[1..] == u;
    AfterSpace(space, sign + u);
    LeadingFound(digits, tail, sign == "-");
    hide IsDigit, AllDigit;
  }

  lemma {:induction false} AfterSpace(space: string, t: string)
    requires AllSpace(space) && (t == "" || !IsSpace(t[0]))
    ensures SkipSpace(space + t) == t
  {
    if space == "" {
      assert space + t == t;
    } else {
      assert (space + t)[1..] == space[1..] + t;
      AfterSpace(space[1..], t);
    }
  }

  lemma LeadingFound(digits: string, tail: string, negative: bool)
    requires digits != "" && AllDigit(digits) && (tail == "" || !IsDigit(tail[0]))
    ensures LeadingNumber(digits + tail, negative) == Some(Saturate(Decimal(digits), negative))
  {
    hide Decimal, Digits, Saturate, IsDigit;
    DigitsEnd(digits, tail);
    assert (digits + tail)[..|digits|] == digits;
  }

  lemma {:induction false} DigitsEnd(digits: string, tail: string)
    requires AllDigit(digits) && (tail == "" || !IsDigit(tail[0]))
    ensures Digits(digits + tail) == |digits|
  {
    if digits == "" {
      assert digits + tail == tail;
    } else {
      assert (digits + tail)[1..] == digits[1..] + tail;
      DigitsEnd(digits[1..], tail);
    }
  }

  lemma WrapsTwice(v: int)
    requires 0 <= v < TWO64
    ensures (TWO64 - v) % TWO64 % TWO32 == (-v) % TWO32
  {
    if v > 0 {
      assert (TWO64 - v) % TWO64 == TWO64 - v;
      AddMultiple(-v, TWO32, TWO32);
    }
  }

  lemma AddMultiple(a: int, k: int, m: int)
    requires m > 0
    ensures (a + k * m) % m == a % m
  {
    var q := a / m;
    assert a == q * m + a % m;
    assert a + k * m == (q + k) * m + a % m;
    ModUnique(a + k * m, q + k, a % m, m);
  }

  lemma ModUnique(x: int, q: int, r: int, m: int)
    requires 0 <= r < m && x == q * m + r
    ensures x % m == r
  {
    var d := x / m - q;
    assert d * m == r - x % m;
    assert -m < d * m < m;
    MultipleBounds(d, m);
  }

  lemma MultipleBounds(d: int, m: int)
    requires m > 0
    ensures d >= 1 ==> d * m >= m
    ensures d <= -1 ==> d * m <= -m
  {
  }

  // ------------------------------------------------------------------
  // What the scan is for: a filter on the list of arguments
  // ------------------------------------------------------------------

  datatype Options = Options(image: Option<string>, mountPoint: Option<string>, volume: nat, writeMode: bool,
                             single: bool, logFile: Option<string>, ignoreChecksums: bool, help: bool, version: bool)

  const DEFAULTS := Options(None, None, 0, true, false, None, false, false, false)

  // How the scan ends: at the operands, at -h or -V, or with an error.
  datatype End = AtOperands | Early | Error

  // kept: what FUSE is to see, in order; rest: what follows the last option
  // looked at.
  datatype Scan = Scan(kept: seq<string>, rest: seq<string>, options: Options, end: End)

  function Keep(args: seq<string>, s: Scan): Scan {
    s.(kept := args + s.kept)
  }

  // The options meant for FUSE.
  predicate ForFuse(c: char) {
    c == 's' || c == 'd' || c == 'f' || c == 'o'
  }

  function Width(c: char): nat {
    if TakesArgument(c) then 2 else 1
  }

  // What an option does to the options collected so far.
  function Updated(c: char, optarg: Option<string>, o: Options): Options {
    match c
    case 'p' =>
      if optarg.Some? && ParseVolume(optarg.value).Some? then o.(volume := ParseVolume(optarg.value).value) else o
    case 'l' => o.(logFile := Some("fuseadf.log"))
    case 'i' => o.(ignoreChecksums := true)
    case 's' => o.(single := true)
    case 'o' => if optarg == Some("ro") then o.(writeMode := false) else o
    case 'h' => o.(help := true)
    case 'V' => o.(version := true)
    case _ => o
  }

  // Options that end the scan with an error: -w, and -p without a number.
  predicate Rejected(c: char, optarg: Option<string>) {
    !(ForFuse(c) || c in "plihV") || (c == 'p' && (optarg.None? || ParseVolume(optarg.value).None?))
  }

  function Filter(args: seq<string>, o: Options): Scan
    decreases |args|
  {
    if args == [] || IsOperand(args[0]) then Scan([], args, o, AtOperands)
    else if args[0] == "--" then Scan(["--"], args[1..], o, AtOperands)
    else
      var c := args[0][1];
      var num := Width(c);
      if num > |args| then Scan([], args, o, Error)
      else
        var optarg := if num == 2 then Some(args[1]) else None;
        if Rejected(c, optarg) then Scan([], args, o, Error)
        else if c == 'h' || c == 'V' then Scan([], args[num..], Updated(c, optarg, o), Early)
        else if ForFuse(c) then Keep(args[..num], Filter(args[num..], Updated(c, optarg, o)))
        else Filter(args[num..], Updated(c, optarg, o))
  }

  // One option per element, with no attached argument, and no option behind
  // the first operand.
  predicate OnePerElement(args: seq<string>)
    decreases |args|
  {
    if args == [] then true
    else if IsOperand(args[0]) then forall i :: 0 <= i < |args| ==> IsOperand(args[i])
    else
      args[0] == "--" ||
      (|args[0]| == 2 && if Width(args[0][1]) <= |args| then OnePerElement(args[Width(args[0][1])..]) else true)
  }

  // parse_args succeeds at -h or -V, or with exactly two operands.
  predicate Accepted(s: Scan) {
    s.end == Early || (s.end == AtOperands && |s.rest| == 2)
  }

  // The arguments left in argv behind the program name.
  function Remaining(s: Scan): seq<string> {
    s.kept + if s.end == AtOperands && |s.rest| == 2 then s.rest[1..] else s.rest
  }

  function Final(s: Scan, realpath: string -> Option<string>): Options {
    if s.end == AtOperands && |s.rest| == 2 then
      s.options.(image := Some(s.rest[0]), mountPoint := realpath(s.rest[1]))
    else s.options
  }

  function Wrap(args: seq<string>): (w: seq<Option<string>>)
    ensures |w| == |args| && forall i :: 0 <= i < |w| ==> w[i] == Some(args[i])
  {
    seq(|args|, i requires 0 <= i < |args| => Some(args[i]))
  }

  // ------------------------------------------------------------------
  // The loop
  // ------------------------------------------------------------------

  // argv holds the program name, the kept arguments and the unscanned ones,
  // and optind points at the first unscanned one.
  ghost predicate Scanning(argv: seq<Option<string>>, argc: nat, optind: nat,
                           prog: string, kept: seq<string>, rest: seq<string>) {
    && NullTail(argv, argc) && optind == 1 + |kept| && argc == optind + |rest|
    && argv[..argc] == Wrap([prog] + kept + rest)
  }

  // What getopt sees of such an argv.
  function Next(rest: seq<string>, optind: nat): Getopt {
    if rest == [] || IsOperand(rest[0]) then Done(optind)
    else if rest[0] == "--" then Done(optind + 1)
    else
      var c := rest[0][1];
      if TakesArgument(c) then
        if |rest| > 1 then Found(c, Some(rest[1]), optind + 2) else Refused
      else if c in "lfdshiwV" then Found(c, None, optind + 1)
      else Refused
  }

  lemma GetOptSees(argv: seq<Option<string>>, argc: nat, optind: nat, prog: string, kept: seq<string>,
                   rest: seq<string>)
    requires Scanning(argv, argc, optind, prog, kept, rest)
    ensures GetOpt(argv[..argc], optind) == Next(rest, optind)
  {
    var seen := argv[..argc];
    if rest != [] {
      SlotHolds(argv, argc, optind, prog, kept, rest, 0);
    }
    if |rest| > 1 {
      SlotHolds(argv, argc, optind, prog, kept, rest, 1);
    }
    assert |seen| == optind + |rest|;
    hide Wrap, IsOperand, TakesArgument;
  }

  lemma SlotHolds(argv: seq<Option<string>>, argc: nat, optind: nat, prog: string, kept: seq<string>,
                  rest: seq<string>, i: nat)
    requires Scanning(argv, argc, optind, prog, kept, rest) && i < |rest|
    ensures argc <= |argv| && optind + i < argc && argv[..argc][optind + i] == Some(rest[i])
  {
    var all := [prog] + kept + rest;
    assert all[optind + i] == rest[i];
    assert argv[..argc][optind + i] == Wrap(all)[optind + i];
  }

  // Dropping the scanned option, or keeping it.
  lemma Dropped(argv: seq<Option<string>>, after: seq<Option<string>>, argc: nat, optind: nat, num: nat,
                prog: string, kept: seq<string>, rest: seq<string>)
    requires Scanning(argv, argc, optind, prog, kept, rest) && num <= |rest|
    requires NullTail(after, argc - num) && after[..argc - num] == argv[..optind] + argv[optind + num..argc]
    ensures Scanning(after, argc - num, optind, prog, kept, rest[num..])
  {
    var all := [prog] + kept + rest;
    assert argv[..optind] == argv[..argc][..optind] == Wrap(all)[..optind];
    assert argv[optind + num..argc] == argv[..argc][optind + num..] == Wrap(all)[optind + num..];
    assert all[..optind] + all[optind + num..] == [prog] + kept + rest[num..];
    assert Wrap(all)[..optind] + Wrap(all)[optind + num..] == Wrap([prog] + kept + rest[num..]);
  }

  lemma Kept(argv: seq<Option<string>>, argc: nat, optind: nat, num: nat, prog: string, kept: seq<string>,
             rest: seq<string>)
    requires Scanning(argv, argc, optind, prog, kept, rest) && num <= |rest|
    ensures Scanning(argv, argc, optind + num, prog, kept + rest[..num], rest[num..])
  {
    assert [prog] + kept + rest == [prog] + (kept + rest[..num]) + rest[num..];
  }

  lemma KeepTwice(a: seq<string>, b: seq<string>, s: Scan)
    ensures Keep(a, Keep(b, s)) == Keep(a + b, s)
    ensures Keep([], s) == s
  {
    assert a + (b + s.kept) == (a + b) + s.kept;
    assert [] + s.kept == s.kept;
  }

  // Going back over the option just scanned and deleting it.
  method DropScanned(argv: Argv, argc: nat, optind: nat, num: nat,
                     ghost prog: string, ghost kept: seq<string>, ghost rest: seq<string>)
    returns (left: nat, back: nat)
    requires num <= optind && num <= |rest| && Scanning(argv[..], argc, optind - num, prog, kept, rest)
    modifies argv
    ensures back == optind - num && left == argc - num
    ensures Scanning(argv[..], left, back, prog, kept, rest[num..])
  {
    ghost var before := argv[..];
    back := optind - num;
    if num == 1 {
      left := DropArg(argv, argc, back);
    } else {
      left := DropArgs(argv, argc, back, num);
    }
    assert argv[..][..left] == before[..back] + before[back + num..argc];
    Dropped(before, argv[..], argc, back, num, prog, kept, rest);
  }

  // One round of the scan loop, seen from the filter.
  ghost predicate FiltersAs(rest: seq<string>, o: Options, g: Getopt, optind: nat) {
    if g.Refused? then Filter(rest, o) == Scan([], rest, o, Error)
    else if g.Done? then
      && optind <= g.optind <= optind + |rest|
      && Filter(rest, o) == Scan(rest[..g.optind - optind], rest[g.optind - optind..], o, AtOperands)
    else
      var num := Width(g.opt);
      && g.optind == optind + num && num <= |rest| && OnePerElement(rest[num..])
      && (num == 2 ==> g.optarg == Some(rest[1]))
      && Filter(rest, o) ==
         (if Rejected(g.opt, g.optarg) then Scan([], rest, o, Error)
          else if g.opt == 'h' || g.opt == 'V' then Scan([], rest[num..], Updated(g.opt, g.optarg, o), Early)
          else if ForFuse(g.opt) then Keep(rest[..num], Filter(rest[num..], Updated(g.opt, g.optarg, o)))
          else Filter(rest[num..], Updated(g.opt, g.optarg, o)))
  }

  lemma FilterStep(rest: seq<string>, o: Options, optind: nat)
    requires OnePerElement(rest)
    ensures FiltersAs(rest, o, Next(rest, optind), optind)
  {
    hide ParseVolume, Updated;
    var g := Next(rest, optind);
    if g.Refused? {
      assert "lfdshiwV" == ['l', 'f', 'd', 's', 'h', 'i', 'w', 'V'];
    }
  }

  // What the filter makes of the option found, case by case.
  ghost predicate OptionSays(rest: seq<string>, o: Options, c: char, optarg: Option<string>) {
    if c == 'p' then
      && |rest| >= 2 && optarg.Some? && OnePerElement(rest[2..])
      && Filter(rest, o) == match ParseVolume(optarg.value)
                            case None => Scan([], rest, o, Error)
                            case Some(v) => Filter(rest[2..], o.(volume := v))
    else if c == 'o' then
      && |rest| >= 2 && optarg.Some? && OnePerElement(rest[2..])
      && Filter(rest, o) ==
         Keep(rest[..2], Filter(rest[2..], if optarg.value == "ro" then o.(writeMode := false) else o))
    else
      && |rest| >= 1 && OnePerElement(rest[1..])
      && Filter(rest, o) ==
         match c
         case 'l' => Filter(rest[1..], o.(logFile := Some("fuseadf.log")))
         case 'i' => Filter(rest[1..], o.(ignoreChecksums := true))
         case 'h' => Scan([], rest[1..], o.(help := true), Early)
         case 'V' => Scan([], rest[1..], o.(version := true), Early)
         case 's' => Keep(rest[..1], Filter(rest[1..], o.(single := true)))
         case 'd' => Keep(rest[..1], Filter(rest[1..], o))
         case 'f' => Keep(rest[..1], Filter(rest[1..], o))
         case _ => Scan([], rest, o, Error)
  }

  lemma FoundSays(rest: seq<string>, o: Options, optind: nat)
    requires OnePerElement(rest) && Next(rest, optind).Found?
    ensures var g := Next(rest, optind);
            OptionSays(rest, o, g.opt, g.optarg) && g.optind == optind + (if TakesArgument(g.opt) then 2 else 1)
  {
    hide Filter, OnePerElement, ParseVolume, Next;
    FilterStep(rest, o, optind);
    assert "plihV" == ['p', 'l', 'i', 'h', 'V'];
  }

  // How one round of the loop ends: with the next option, with true, or with
  // false returned.
  datatype Round = Continue | Succeed | Fail

  // The switch on the option found.
  method ScanOption(argv: Argv, argc: nat, g: Getopt, o: Options,
                    ghost prog: string, ghost kept: seq<string>, ghost rest: seq<string>)
    returns (round: Round, left: nat, optind: nat, options: Options, ghost kept': seq<string>, ghost rest': seq<string>)
    requires g.Found? && g == Next(rest, 1 + |kept|) && OnePerElement(rest)
    requires Scanning(argv[..], argc, 1 + |kept|, prog, kept, rest)
    modifies argv
    ensures round == Fail ==> Filter(rest, o).end == Error
    ensures round != Fail ==> Scanning(argv[..], left, optind, prog, kept', rest') && |rest'| < |rest|
    ensures round == Continue ==>
              OnePerElement(rest') && Keep(kept', Filter(rest', options)) == Keep(kept, Filter(rest, o))
    ensures round == Succeed ==> kept' == kept && Filter(rest, o) == Scan([], rest', options, Early)
    ensures round == Fail ==> NullTail(argv[..], left)
  {
    hide Filter, OnePerElement, ParseVolume, Wrap, IsOperand, Next, NullTail, Scanning, Keep;
    FoundSays(rest, o, 1 + |kept|);
    round, left, optind, options, kept', rest' := Continue, argc, g.optind, o, kept, rest;
    ghost var num := if TakesArgument(g.opt) then 2 else 1;
    match g.opt {
      case 'p' =>
        var v := ParseVolume(g.optarg.value);
        if v.None? {
          round := Fail;
          StillNull(argv[..], argc, prog, kept, rest);
          return;
        }
        options := options.(volume := v.value);
        left, optind := DropScanned(argv, left, optind, 2, prog, kept, rest);
        rest' := rest[2..];
      case 'l' =>
        options := options.(logFile := Some("fuseadf.log"));
        left, optind := DropScanned(argv, left, optind, 1, prog, kept, rest);
        rest' := rest[1..];
      case 'i' =>
        options := options.(ignoreChecksums := true);
        left, optind := DropScanned(argv, left, optind, 1, prog, kept, rest);
        rest' := rest[1..];
      case 'h' =>
        round := Succeed;
        options := options.(help := true);
        left, optind := DropScanned(argv, left, optind, 1, prog, kept, rest);
        rest' := rest[1..];
      case 'V' =>
        round := Succeed;
        options := options.(version := true);
        left, optind := DropScanned(argv, left, optind, 1, prog, kept, rest);
        rest' := rest[1..];
      case _ =>
        // 's', 'd', 'f' and 'o' stay in argv, anything else is refused
        if g.opt != 's' && g.opt != 'd' && g.opt != 'f' && g.opt != 'o' {
          round := Fail;
          StillNull(argv[..], argc, prog, kept, rest);
          return;
        }
        if g.opt == 's' {
          options := options.(single := true);
        }
        if g.opt == 'o' && g.optarg.value == "ro" {
          options := options.(writeMode := false);
        }
        Kept(argv[..], argc, 1 + |kept|, num, prog, kept, rest);
        KeepTwice(kept, rest[..num], Filter(rest[num..], options));
        kept', rest' := kept + rest[..num], rest[num..];
    }
  }

  lemma StillNull(argv: seq<Option<string>>, argc: nat, prog: string, kept: seq<string>, rest: seq<string>)
    requires Scanning(argv, argc, 1 + |kept|, prog, kept, rest)
    ensures NullTail(argv, argc) && argv[..argc] == Wrap([prog] + kept + rest)
  {
  }

  // What parse_args leaves: the freed slots are NULL in any case; on success
  // argv is the program name and what the filter leaves.
  ghost predicate Parsed(argv: seq<Option<string>>, ok: bool, left: nat, options: Options,
                         scan: Scan, prog: string, realpath: string -> Option<string>) {
    && ok == Accepted(scan)
    && NullTail(argv, left)
    && (ok ==> argv[..left] == Wrap([prog] + Remaining(scan)))
    && (ok ==> options == Final(scan, realpath))
  }

  lemma EarlyParsed(argv: seq<Option<string>>, left: nat, optind: nat, o: Options, prog: string,
                    kept: seq<string>, rest: seq<string>, realpath: string -> Option<string>)
    requires Scanning(argv, left, optind, prog, kept, rest)
    ensures Parsed(argv, true, left, o, Keep(kept, Scan([], rest, o, Early)), prog, realpath)
  {
    assert [prog] + (kept + [] + rest) == [prog] + kept + rest;
  }

  // parse_args. On command lines with one option per element argv ends up as
  // the program name followed by what the filter leaves, the freed slots are
  // NULL, and the options are those the filter collects.
  method ParseArgs(argv: Argv, argc: nat, realpath: string -> Option<string>, ghost prog: string,
                   ghost args: seq<string>)
    returns (ok: bool, left: nat, options: Options)
    requires Scanning(argv[..], argc, 1, prog, [], args) && OnePerElement(args)
    modifies argv
    ensures Parsed(argv[..], ok, left, options, Filter(args, DEFAULTS), prog, realpath)
  {
    hide Filter, OnePerElement, Wrap, IsOperand, Scanning, GetOpt, Next;
    options := DEFAULTS;
    left := argc;
    var optind: nat := 1;
    ghost var kept: seq<string>, rest := [], args;
    KeepTwice([], [], Filter(args, DEFAULTS));
    while true
      invariant optind == 1 + |kept| && Scanning(argv[..], left, optind, prog, kept, rest) && OnePerElement(rest)
      invariant Keep(kept, Filter(rest, options)) == Filter(args, DEFAULTS)
      decreases |rest|
    {
      FilterStep(rest, options, optind);
      GetOptSees(argv[..], left, optind, prog, kept, rest);
      StillNull(argv[..], left, prog, kept, rest);
      var g := GetOpt(argv[..left], optind);
      if g.Refused? {
        return false, left, options;
      }
      if g.Done? {
        ghost var k := g.optind - optind;
        Kept(argv[..], left, optind, k, prog, kept, rest);
        hide Parsed;
        ok, left, options := TakeOperands(argv, left, g.optind, options, realpath, prog, kept + rest[..k], rest[k..]);
        return;
      }
      var round;
      ghost var before := kept;
      round, left, optind, options, kept, rest := ScanOption(argv, left, g, options, prog, kept, rest);
      if round == Fail {
        return false, left, options;
      }
      ScanningPlace(argv[..], left, optind, prog, kept, rest);
      if round == Succeed {
        EarlyParsed(argv[..], left, optind, options, prog, kept, rest, realpath);
        hide Parsed;
        return true, left, options;
      }
    }
  }

  lemma ScanningPlace(argv: seq<Option<string>>, argc: nat, optind: nat, prog: string, kept: seq<string>,
                      rest: seq<string>)
    requires Scanning(argv, argc, optind, prog, kept, rest)
    ensures optind == 1 + |kept|
  {
  }

  // The end of parse_args: exactly two operands, of which the first is taken
  // out of argv.
  method TakeOperands(argv: Argv, argc: nat, optind: nat, o: Options, realpath: string -> Option<string>,
                      ghost prog: string, ghost kept: seq<string>, ghost rest: seq<string>)
    returns (ok: bool, left: nat, options: Options)
    requires Scanning(argv[..], argc, optind, prog, kept, rest)
    modifies argv
    ensures Parsed(argv[..], ok, left, options, Scan(kept, rest, o, AtOperands), prog, realpath)
  {
    options, left := o, argc;
    if optind + 2 != argc {
      return false, left, options;
    }
    SlotHolds(argv[..], argc, optind, prog, kept, rest, 0);
    SlotHolds(argv[..], argc, optind, prog, kept, rest, 1);
    options := options.(image := argv[argc - 2]);
    options := options.(mountPoint := realpath(argv[argc - 1].value));
    ghost var back;
    left, back := DropScanned(argv, argc, argc - 1, 1, prog, kept, rest);
    assert [prog] + (kept + rest[1..]) == [prog] + kept + rest[1..];
    ok := true;
  }

  // ------------------------------------------------------------------
  // What FUSE receives
  // ------------------------------------------------------------------

  // An option that is kept, as an option and not as the argument of one.
  predicate HasOption(kept: seq<string>, c: char)
    decreases |kept|
  {
    kept != [] && |kept[0]| == 2 &&
    (kept[0][1] == c ||
     (if TakesArgument(kept[0][1]) && |kept| > 1 then HasOption(kept[2..], c) else HasOption(kept[1..], c)))
  }

  lemma HasOptionCons(args: seq<string>, num: nat, kept: seq<string>)
    requires 0 < num <= |args| && |args[0]| == 2 && (TakesArgument(args[0][1]) <==> num == 2) && num <= 2
    ensures HasOption(args[..num] + kept, 's') <==> args[0][1] == 's' || HasOption(kept, 's')
  {
    var all := args[..num] + kept;
    assert all[num..] == kept;
  }

  // The flag says whether -s is among the kept options.
  lemma {:induction false} SingleIsKept(args: seq<string>, o: Options)
    requires OnePerElement(args) && Filter(args, o).end == AtOperands
    ensures Filter(args, o).options.single <==> o.single || HasOption(Filter(args, o).kept, 's')
    decreases |args|
  {
    hide Filter, Next, OnePerElement, IsOperand, ParseVolume, HasOption;
    FilterStep(args, o, 0);
    var g := Next(args, 0);
    if g.Done? {
      OnlyDashes(args, g.optind);
    } else if g.Found? {
      var o' := Updated(g.opt, g.optarg, o);
      SingleIsKept(args[g.optind..], o');
      FoundElement(args, g.opt);
      HasOptionCons(args, g.optind, Filter(args[g.optind..], o').kept);
    }
  }

  // What is kept consists of options meant for FUSE, each with its argument,
  // and at most a closing "--".
  predicate OnlyForFuse(kept: seq<string>)
    decreases |kept|
  {
    kept == [] || kept == ["--"] ||
    (&& |kept[0]| == 2 && !IsOperand(kept[0]) && ForFuse(kept[0][1]) && Width(kept[0][1]) <= |kept|
     && OnlyForFuse(kept[Width(kept[0][1])..]))
  }

  lemma {:induction false} KeptIsForFuse(args: seq<string>, o: Options)
    requires OnePerElement(args)
    ensures OnlyForFuse(Filter(args, o).kept)
    decreases |args|
  {
    hide Filter, Next, OnePerElement, IsOperand, ParseVolume;
    FilterStep(args, o, 0);
    var g := Next(args, 0);
    if g.Done? {
      OnlyDashes(args, g.optind);
    } else if g.Found? {
      KeptIsForFuse(args[g.optind..], Updated(g.opt, g.optarg, o));
      FoundElement(args, g.opt);
      var k := Filter(args[g.optind..], Updated(g.opt, g.optarg, o)).kept;
      assert (args[..g.optind] + k)[g.optind..] == k;
    }
  }

  // The scan never adds arguments, and it stops early exactly with one of the
  // flags for that.
  lemma {:induction false} ScanBounds(args: seq<string>, o: Options)
    requires OnePerElement(args)
    ensures var scan := Filter(args, o);
            && |scan.kept| + |scan.rest| <= |args|
            && (scan.end == Early ==> scan.options.help || scan.options.version)
            && (scan.end == AtOperands ==> scan.options.help == o.help && scan.options.version == o.version)
    decreases |args|
  {
    hide Filter, Next, OnePerElement, IsOperand, ParseVolume, Updated, Rejected, ForFuse, TakesArgument;
    FilterStep(args, o, 0);
    var g := Next(args, 0);
    if g.Found? {
      UpdatedFlags(g.opt, g.optarg, o);
      ScanBounds(args[g.optind..], Updated(g.opt, g.optarg, o));
    }
  }

  lemma UpdatedFlags(c: char, optarg: Option<string>, o: Options)
    ensures c == 'h' ==> Updated(c, optarg, o).help
    ensures c == 'V' ==> Updated(c, optarg, o).version
    ensures c != 'h' && c != 'V' ==> Updated(c, optarg, o).help == o.help && Updated(c, optarg, o).version == o.version
  {
  }

  lemma OnlyDashes(args: seq<string>, k: nat)
    requires Next(args, 0) == Done(k) && k <= |args|
    ensures !HasOption(args[..k], 's') && (args[..k] == [] || args[..k] == ["--"])
  {
  }

  lemma FoundElement(args: seq<string>, c: char)
    requires OnePerElement(args) && Next(args, 0).Found? && Next(args, 0).opt == c
    ensures args != [] && |args[0]| == 2 && args[0][1] == c && !IsOperand(args[0])
  {
  }

  // The word list carries an option, reading options with their arguments up
  // to a "--" that is not itself the argument of one.
  predicate Carries(words: seq<string>, c: char)
    decreases |words|
  {
    words != [] && words[0] != "--" &&
    if IsOperand(words[0]) || |words[0]| != 2 then Carries(words[1..], c)
    else
      words[0][1] == c ||
      (Width(words[0][1]) <= |words| && Carries(words[Width(words[0][1])..], c))
  }

  // The options on the command line are closed by such a "--".
  predicate ClosedByDashes(args: seq<string>)
    decreases |args|
  {
    args != [] && !IsOperand(args[0]) &&
    (args[0] == "--" || (Width(args[0][1]) <= |args| && ClosedByDashes(args[Width(args[0][1])..])))
  }

  lemma {:induction false} KeptClosed(args: seq<string>, o: Options)
    requires OnePerElement(args) && Filter(args, o).end == AtOperands
    ensures ClosedByDashes(args) <==> ClosedByDashes(Filter(args, o).kept)
    ensures !ClosedByDashes(args) ==> forall i :: 0 <= i < |Filter(args, o).rest| ==> IsOperand(Filter(args, o).rest[i])
    decreases |args|
  {
    hide Filter, Next, OnePerElement, IsOperand, ParseVolume, ClosedByDashes;
    FilterStep(args, o, 0);
    var g := Next(args, 0);
    if g.Done? {
      DoneClosed(args, g.optind);
    } else if g.Found? {
      KeptClosed(args[g.optind..], Updated(g.opt, g.optarg, o));
      FoundClosed(args, g.opt, Filter(args[g.optind..], Updated(g.opt, g.optarg, o)).kept);
    }
  }

  lemma DoneClosed(args: seq<string>, k: nat)
    requires OnePerElement(args) && Next(args, 0) == Done(k) && k <= |args|
    ensures ClosedByDashes(args) <==> ClosedByDashes(args[..k])
    ensures !ClosedByDashes(args) ==> forall i :: 0 <= i < |args[k..]| ==> IsOperand(args[k..][i])
  {
    if k == 0 {
      assert args[..k] == [] && args[k..] == args;
    }
  }

  lemma FoundClosed(args: seq<string>, c: char, kept: seq<string>)
    requires OnePerElement(args) && Next(args, 0).Found? && Next(args, 0).opt == c && Width(c) <= |args|
    ensures ClosedByDashes(args) <==> ClosedByDashes(args[Width(c)..])
    ensures ClosedByDashes(args[..Width(c)] + kept) <==> ClosedByDashes(kept)
  {
    FoundElement(args, c);
    var all := args[..Width(c)] + kept;
    assert all[0] == args[0] && all[Width(c)..] == kept;
    hide OnePerElement;
  }

  // Options for FUSE, a mount point behind them, and perhaps the enforced one.
  lemma {:induction false} CarriesExactly(kept: seq<string>, mount: string, tail: seq<string>)
    requires OnlyForFuse(kept) && (tail == [] || tail == ["-s"])
    requires !ClosedByDashes(kept) ==> IsOperand(mount)
    ensures Carries(kept + [mount] + tail, 's') <==>
              HasOption(kept, 's') || (tail == ["-s"] && !ClosedByDashes(kept))
    decreases |kept|
  {
    var all := kept + [mount] + tail;
    if kept == [] {
      assert all[0] == mount && all[1..] == tail;
      assert tail != [] ==> tail[1..] == [];
    } else if kept == ["--"] {
      assert all[0] == "--";
      assert kept[1..] == [];
    } else {
      var w := Width(kept[0][1]);
      assert all[0] == kept[0] && all[w..] == kept[w..] + [mount] + tail;
      CarriesExactly(kept[w..], mount, tail);
    }
  }

  // What FUSE is started with, behind the program name.
  function FuseWords(scan: Scan): seq<string>
    requires |scan.rest| == 2
  {
    scan.kept + [scan.rest[1]] + if HasOption(scan.kept, 's') then [] else ["-s"]
  }

  // FUSE is single-threaded, unless the options on the command line are closed
  // by "--" and -s is not among them: the appended word is an operand then.
  lemma SingleEnforcedExactly(args: seq<string>)
    requires OnePerElement(args) && Filter(args, DEFAULTS).end == AtOperands && |Filter(args, DEFAULTS).rest| == 2
    ensures Carries(FuseWords(Filter(args, DEFAULTS)), 's') <==>
              HasOption(Filter(args, DEFAULTS).kept, 's') || !ClosedByDashes(args)
  {
    hide Filter, OnePerElement, HasOption, Carries, ClosedByDashes, OnlyForFuse, IsOperand;
    var scan := Filter(args, DEFAULTS);
    KeptIsForFuse(args, DEFAULTS);
    KeptClosed(args, DEFAULTS);
    CarriesExactly(scan.kept, scan.rest[1], if HasOption(scan.kept, 's') then [] else ["-s"]);
  }

  lemma DashesLoseSingle()
    ensures var args := ["--", "img", "mnt"];
            && OnePerElement(args)
            && Filter(args, DEFAULTS) == Scan(["--"], ["img", "mnt"], DEFAULTS, AtOperands)
            && FuseWords(Filter(args, DEFAULTS)) == ["--", "mnt", "-s"]
            && !Carries(["--", "mnt", "-s"], 's')
  {
    var args := ["--", "img", "mnt"];
    assert args[1..] == ["img", "mnt"];
    assert ["--"][1..] == [];
    assert !HasOption(["--"], 's');
  }

  // Options that the scan passes, arguments included, up to the end.
  predicate Passes(options: seq<string>, o: Options) {
    Filter(options, o).end == AtOperands && Filter(options, o).rest == [] && !ClosedByDashes(options)
  }

  // Behind such options the scan goes on with what they have collected.
  lemma {:induction false} FilterBehind(options: seq<string>, more: seq<string>, o: Options)
    requires Passes(options, o)
    ensures Filter(options + more, o) ==
            Keep(Filter(options, o).kept, Filter(more, Filter(options, o).options))
    decreases |options|
  {
    hide ParseVolume;
    var all := options + more;
    if options == [] {
      assert all == more;
      KeepTwice([], [], Filter(more, o));
    } else {
      var c := options[0][1];
      var num := Width(c);
      var optarg := if num == 2 then Some(options[1]) else None;
      assert all[0] == options[0] && all[num..] == options[num..] + more && all[..num] == options[..num];
      hide Updated, Rejected;
      FilterBehind(options[num..], more, Updated(c, optarg, o));
      var rest := Filter(options[num..], Updated(c, optarg, o));
      KeepTwice(options[..num], rest.kept, Filter(more, rest.options));
    }
  }

  // A word behind -l is no log file name, whatever options stand in front: the
  // scan stops at it, and takes it for the first operand.
  lemma SeparateLogFile(options: seq<string>, args: seq<string>, o: Options, realpath: string -> Option<string>)
    requires Passes(options, o) && |args| >= 2 && args[0] == "-l" && IsOperand(args[1])
    ensures var scan, before := Filter(options + args, o), Filter(options, o);
            && scan == Scan(before.kept, args[1..], before.options.(logFile := Some("fuseadf.log")), AtOperands)
            && (Accepted(scan) <==> |args| == 3)
            && (|args| == 3 ==> Final(scan, realpath).image == Some(args[1]))
  {
    hide Filter, IsOperand, Passes;
    var before := Filter(options, o);
    FilterBehind(options, args, o);
    LogFileDropped(args, before.options);
    StopsAtWord(args[1..], before.options.(logFile := Some("fuseadf.log")));
    assert before.kept + [] == before.kept;
  }

  lemma LogFileDropped(args: seq<string>, o: Options)
    requires args != [] && args[0] == "-l"
    ensures Filter(args, o) == Filter(args[1..], o.(logFile := Some("fuseadf.log")))
  {
    assert args[0][1] == 'l' && "plihV" == ['p', 'l', 'i', 'h', 'V'];
    hide ParseVolume;
  }

  lemma StopsAtWord(args: seq<string>, o: Options)
    requires args != [] && IsOperand(args[0])
    ensures Filter(args, o) == Scan([], args, o, AtOperands)
  {
  }

  lemma WrapMore(words: seq<string>, word: string)
    ensures Wrap(words) + [Some(word)] == Wrap(words + [word]) && Wrap(words) == Wrap(words + [])
  {
    assert words + [] == words;
  }

  // The beginning of main up to fuse_main: None when FUSE is not started. The
  // append always fits: at least the image name has been deleted.
  method FuseArgs(argv: Argv, argc: nat, realpath: string -> Option<string>, ghost prog: string,
                  ghost args: seq<string>)
    returns (run: Option<Options>, left: nat)
    requires Scanning(argv[..], argc, 1, prog, [], args) && OnePerElement(args)
    modifies argv
    ensures var scan := Filter(args, DEFAULTS);
            && (run.Some? <==> scan.end == AtOperands && |scan.rest| == 2)
            && NullTail(argv[..], left)
            && (run.Some? ==>
                  && left <= argc
                  && run.value == Final(scan, realpath)
                  && argv[..left] == Wrap([prog] + FuseWords(scan))
                  && (Carries(FuseWords(scan), 's') <==> HasOption(scan.kept, 's') || !ClosedByDashes(args)))
  {
    var ok, options;
    ok, left, options := ParseArgs(argv, argc, realpath, prog, args);
    ghost var scan := Filter(args, DEFAULTS);
    ScanBounds(args, DEFAULTS);
    hide Filter, OnePerElement, Scanning, HasOption, Wrap;
    if !ok || options.help || options.version {
      return None, left;
    }
    SingleIsKept(args, DEFAULTS);
    SingleEnforcedExactly(args);
    hide Carries, ClosedByDashes;
    ghost var words := [prog] + scan.kept + [scan.rest[1]];
    assert [prog] + (scan.kept + scan.rest[1..]) == words;
    WrapMore(words, "-s");
    assert [prog] + FuseWords(scan) == words + if HasOption(scan.kept, 's') then [] else ["-s"];
    hide NullTail;
    if !options.single {
      left := AddArg(argv, left, "-s");
    }
    run := Some(options);
  }
}
