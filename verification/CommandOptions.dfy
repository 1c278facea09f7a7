// What a command line of fuseadf means, read off its words: which options
// stand in front of the operands, and what each of them decides.
module CommandOptions {
  import opened PathStrings
  import opened CommandLine

  // An option, with its word and the argument if it takes one.
  datatype Opt = Opt(c: char, word: string, arg: Option<string>)

  function Words(opt: Opt): seq<string> {
    [opt.word] + if opt.arg.Some? then [opt.arg.value] else []
  }

  function FirstOpt(args: seq<string>): Opt
    requires args != [] && !IsOperand(args[0]) && args[0] != "--" && Width(args[0][1]) <= |args|
  {
    Opt(args[0][1], args[0], if Width(args[0][1]) == 2 then Some(args[1]) else None)
  }

  // The options in front of the first operand or "--", whatever they are.
  function Given(args: seq<string>): seq<Opt>
    decreases |args|
  {
    if args == [] || IsOperand(args[0]) || args[0] == "--" || Width(args[0][1]) > |args| then []
    else [FirstOpt(args)] + Given(args[Width(args[0][1])..])
  }

  // What stands behind them.
  function Behind(args: seq<string>): seq<string>
    decreases |args|
  {
    if args == [] || IsOperand(args[0]) || args[0] == "--" || Width(args[0][1]) > |args| then args
    else Behind(args[Width(args[0][1])..])
  }

  predicate Dashes(args: seq<string>) {
    Behind(args) != [] && Behind(args)[0] == "--"
  }

  function Operands(args: seq<string>): seq<string> {
    if Dashes(args) then Behind(args)[1..] else Behind(args)
  }

  // The options are not cut short in front of a missing argument.
  predicate Complete(args: seq<string>) {
    var r := Behind(args);
    r == [] || IsOperand(r[0]) || r[0] == "--"
  }

  // Options that let the scan go on.
  predicate Fine(opt: Opt) {
    opt.c in {'s', 'd', 'f', 'o', 'l', 'i'} || (opt.c == 'p' && opt.arg.Some? && ParseVolume(opt.arg.value).Some?)
  }

  // The options that FUSE is to see.
  const FOR_FUSE: set<char> := {'s', 'd', 'f', 'o'}

  // The words of the options among the given ones, in order.
  function WordsOf(g: seq<Opt>, cs: set<char>): seq<string> {
    if g == [] then [] else (if g[0].c in cs then Words(g[0]) else []) + WordsOf(g[1..], cs)
  }

  predicate Occurs(g: seq<Opt>, c: char) {
    exists i :: 0 <= i < |g| && g[i].c == c
  }

  // Some -o has the argument "ro".
  predicate ReadOnly(g: seq<Opt>)
  {
    exists i :: 0 <= i < |g| && g[i].c == 'o' && g[i].arg == Some("ro")
  }

  // The number of the last -p, or v.
  function Volume(g: seq<Opt>, v: nat): nat {
    if g == [] then v
    else
      var last := g[|g| - 1];
      if last.c == 'p' && last.arg.Some? && ParseVolume(last.arg.value).Some? then ParseVolume(last.arg.value).value
      else Volume(g[..|g| - 1], v)
  }

  lemma OccursCons(g: seq<Opt>, c: char)
    requires g != []
    ensures Occurs(g, c) <==> g[0].c == c || Occurs(g[1..], c)
  {
    if Occurs(g[1..], c) {
      var i :| 0 <= i < |g[1..]| && g[1..][i].c == c;
      assert g[i + 1].c == c;
    }
    if Occurs(g, c) && g[0].c != c {
      var i :| 0 <= i < |g| && g[i].c == c;
      assert g[1..][i - 1].c == c;
    }
  }

  lemma ReadOnlyCons(g: seq<Opt>)
    requires g != []
    ensures ReadOnly(g) <==> (g[0].c == 'o' && g[0].arg == Some("ro")) || ReadOnly(g[1..])
  {
    var rest := g[1..];
    if ReadOnly(rest) {
      var i :| 0 <= i < |rest| && rest[i].c == 'o' && rest[i].arg == Some("ro");
      assert g[i + 1].c == 'o' && g[i + 1].arg == Some("ro");
    }
    if ReadOnly(g) && !(g[0].c == 'o' && g[0].arg == Some("ro")) {
      var i :| 0 <= i < |g| && g[i].c == 'o' && g[i].arg == Some("ro");
      assert rest[i - 1].c == 'o' && rest[i - 1].arg == Some("ro");
    }
  }

  lemma {:induction false} VolumeCons(g: seq<Opt>, v: nat)
    requires g != []
    ensures Volume(g, v) ==
            Volume(g[1..], if g[0].c == 'p' && g[0].arg.Some? && ParseVolume(g[0].arg.value).Some? then
                             ParseVolume(g[0].arg.value).value
                           else v)
    decreases |g|
  {
    hide ParseVolume;
    if |g| > 1 {
      var init := g[..|g| - 1];
      assert g[1..][..|g[1..]| - 1] == init[1..] && g[1..][|g[1..]| - 1] == g[|g| - 1];
      VolumeCons(init, v);
    }
  }

  // ------------------------------------------------------------------
  // How the scan ends
  // ------------------------------------------------------------------

  lemma GivenCons(args: seq<string>)
    requires args != [] && !IsOperand(args[0]) && args[0] != "--" && Width(args[0][1]) <= |args|
    ensures var num := Width(args[0][1]);
            && Given(args) == [FirstOpt(args)] + Given(args[num..])
            && Given(args)[0] == FirstOpt(args) && Given(args)[1..] == Given(args[num..])
            && args[..num] == Words(FirstOpt(args))
            && Behind(args) == Behind(args[num..])
            && (Complete(args) <==> Complete(args[num..])) && (Dashes(args) <==> Dashes(args[num..]))
            && Operands(args) == Operands(args[num..])
  {
  }

  // The scan reaches the operands iff every option is fine and none lacks its
  // argument; it stops early at a -h or -V with nothing but fine options in
  // front, and is refused otherwise.
  lemma {:induction false} ScanEnds(args: seq<string>, o: Options)
    ensures Filter(args, o).end == AtOperands <==>
              Complete(args) && forall i :: 0 <= i < |Given(args)| ==> Fine(Given(args)[i])
    ensures Filter(args, o).end == Early <==>
              exists i: nat :: StopsAt(Given(args), i)
    decreases |args|
  {
    hide ParseVolume, Updated, Filter, Fine, Given, Complete, FirstOpt;
    if args == [] || IsOperand(args[0]) || args[0] == "--" || Width(args[0][1]) > |args| {
      ScanStops(args, o);
    } else {
      GivenCons(args);
      FilterOne(args, o);
      if Fine(FirstOpt(args)) {
        ScanEnds(args[Width(args[0][1])..], Updated(args[0][1], FirstOpt(args).arg, o));
      }
      AllFineCons(Given(args));
      EarlyCons(Given(args));
    }
  }

  lemma ScanStops(args: seq<string>, o: Options)
    requires args == [] || IsOperand(args[0]) || args[0] == "--" || Width(args[0][1]) > |args|
    ensures Given(args) == [] && Filter(args, o).end == if Complete(args) then AtOperands else Error
  {
    hide ParseVolume, Updated;
  }

  lemma FilterOne(args: seq<string>, o: Options)
    requires args != [] && !IsOperand(args[0]) && args[0] != "--" && Width(args[0][1]) <= |args|
    ensures FirstOpt(args).c == args[0][1]
    ensures Filter(args, o).end ==
            if Fine(FirstOpt(args)) then
              Filter(args[Width(args[0][1])..], Updated(args[0][1], FirstOpt(args).arg, o)).end
            else if args[0][1] in {'h', 'V'} then Early else Error
    ensures Fine(FirstOpt(args)) ==> args[0][1] !in {'h', 'V'}
  {
    OptionFine(FirstOpt(args));
    hide ParseVolume, Updated, Rejected, Fine;
  }

  lemma OptionFine(opt: Opt)
    requires opt.arg.Some? <==> Width(opt.c) == 2
    ensures Fine(opt) <==> !Rejected(opt.c, opt.arg) && opt.c != 'h' && opt.c != 'V'
    ensures opt.c == 'h' || opt.c == 'V' ==> !Rejected(opt.c, opt.arg)
  {
    hide ParseVolume;
    assert "plihV" == ['p', 'l', 'i', 'h', 'V'];
  }

  lemma AllFineCons(g: seq<Opt>)
    requires g != []
    ensures (forall i :: 0 <= i < |g| ==> Fine(g[i])) <==>
              Fine(g[0]) && forall i :: 0 <= i < |g[1..]| ==> Fine(g[1..][i])
  {
    hide Fine;
    assert forall i :: 0 <= i < |g[1..]| ==> g[1..][i] == g[i + 1];
    assert forall i :: 1 <= i < |g| ==> g[i] == g[1..][i - 1];
  }

  // The option i ends the scan early.
  predicate StopsAt(g: seq<Opt>, i: nat) {
    i < |g| && g[i].c in {'h', 'V'} && forall j :: 0 <= j < i ==> Fine(g[j])
  }

  lemma EarlyCons(g: seq<Opt>)
    requires g != []
    ensures (exists i: nat :: StopsAt(g, i)) <==>
              g[0].c in {'h', 'V'} || (Fine(g[0]) && exists i: nat :: StopsAt(g[1..], i))
  {
    hide Fine, StopsAt;
    if g[0].c in {'h', 'V'} {
      StopsFirst(g);
    }
    if exists i: nat :: StopsAt(g, i) {
      var i: nat :| StopsAt(g, i);
      StopsCons(g, i);
    }
    if Fine(g[0]) && exists i: nat :: StopsAt(g[1..], i) {
      var i: nat :| StopsAt(g[1..], i);
      StopsCons(g, i + 1);
    }
  }

  lemma StopsFirst(g: seq<Opt>)
    requires g != [] && g[0].c in {'h', 'V'}
    ensures StopsAt(g, 0)
  {
  }

  lemma StopsCons(g: seq<Opt>, i: nat)
    requires g != []
    ensures StopsAt(g, i) <==> if i == 0 then g[0].c in {'h', 'V'} else Fine(g[0]) && StopsAt(g[1..], i - 1)
  {
    hide Fine;
    if i > 0 {
      assert i < |g| ==> g[1..][i - 1] == g[i];
      assert forall j :: 0 <= j < i - 1 && j + 1 < |g| ==> g[1..][j] == g[j + 1];
      assert forall j :: 1 <= j < i && j < |g| ==> g[j] == g[1..][j - 1];
    }
  }

  // ------------------------------------------------------------------
  // What it collects and what it leaves
  // ------------------------------------------------------------------

  // The options after a scan that reached the operands, from those before it.
  predicate Collected(args: seq<string>, o: Options, r: Options) {
    var g := Given(args);
    && (r.writeMode <==> o.writeMode && !ReadOnly(g))
    && (r.ignoreChecksums <==> o.ignoreChecksums || Occurs(g, 'i'))
    && (r.single <==> o.single || Occurs(g, 's'))
    && r.logFile == (if Occurs(g, 'l') then Some("fuseadf.log") else o.logFile)
    && r.volume == Volume(g, o.volume)
    && r.image == o.image && r.mountPoint == o.mountPoint && r.help == o.help && r.version == o.version
  }

  // What the scan leaves of the arguments.
  predicate Leaves(args: seq<string>, scan: Scan) {
    && scan.kept == WordsOf(Given(args), FOR_FUSE) + (if Dashes(args) then ["--"] else [])
    && scan.rest == Operands(args)
  }

  lemma {:induction false} ScanCollects(args: seq<string>, o: Options)
    requires Filter(args, o).end == AtOperands
    ensures Collected(args, o, Filter(args, o).options) && Leaves(args, Filter(args, o))
    decreases |args|
  {
    hide ParseVolume, Filter, Updated, Given, Fine, FirstOpt, Collected, Leaves, Complete;
    ScanEnds(args, o);
    if args == [] || IsOperand(args[0]) || args[0] == "--" || Width(args[0][1]) > |args| {
      StopCollects(args, o);
    } else {
      var num := Width(args[0][1]);
      var o' := Updated(args[0][1], FirstOpt(args).arg, o);
      GivenCons(args);
      assert Fine(Given(args)[0]);
      FilterOne(args, o);
      FilterGoesOn(args, o);
      ScanCollects(args[num..], o');
      CollectOne(args, o, Filter(args[num..], o').options);
      LeaveOne(args, Filter(args[num..], o'));
    }
  }

  lemma StopCollects(args: seq<string>, o: Options)
    requires args == [] || IsOperand(args[0]) || args[0] == "--" || Width(args[0][1]) > |args|
    requires Filter(args, o).end == AtOperands
    ensures Collected(args, o, Filter(args, o).options) && Leaves(args, Filter(args, o))
  {
    hide ParseVolume, Updated;
  }

  lemma LeaveOne(args: seq<string>, scan: Scan)
    requires args != [] && !IsOperand(args[0]) && args[0] != "--" && Width(args[0][1]) <= |args|
    requires Leaves(args[Width(args[0][1])..], scan)
    ensures Leaves(args, if args[0][1] in FOR_FUSE then Keep(args[..Width(args[0][1])], scan) else scan)
  {
    GivenCons(args);
    WordsCons(Given(args), if Dashes(args) then ["--"] else []);
    FirstOptIs(args);
    hide Given, WordsOf, Words, Dashes, Operands, Behind, IsOperand, FirstOpt, Complete;
    assert [] + scan.kept == scan.kept;
  }

  lemma FirstOptIs(args: seq<string>)
    requires args != [] && !IsOperand(args[0]) && args[0] != "--" && Width(args[0][1]) <= |args|
    ensures FirstOpt(args).c == args[0][1]
  {
  }

  lemma FilterGoesOn(args: seq<string>, o: Options)
    requires args != [] && !IsOperand(args[0]) && args[0] != "--" && Width(args[0][1]) <= |args|
    requires Fine(FirstOpt(args))
    ensures var c := args[0][1];
            var rest := Filter(args[Width(c)..], Updated(c, FirstOpt(args).arg, o));
            Filter(args, o) == if c in FOR_FUSE then Keep(args[..Width(c)], rest) else rest
  {
    OptionFine(FirstOpt(args));
    hide ParseVolume, Updated, Rejected, Fine;
  }

  lemma WordsCons(g: seq<Opt>, dashes: seq<string>)
    requires g != []
    ensures WordsOf(g, FOR_FUSE) + dashes ==
            (if g[0].c in FOR_FUSE then Words(g[0]) else []) + (WordsOf(g[1..], FOR_FUSE) + dashes)
  {
    hide Words, WordsOf;
    FirstWords(g);
    Reassociate(if g[0].c in FOR_FUSE then Words(g[0]) else [], WordsOf(g[1..], FOR_FUSE), dashes);
  }

  lemma FirstWords(g: seq<Opt>)
    requires g != []
    ensures WordsOf(g, FOR_FUSE) == (if g[0].c in FOR_FUSE then Words(g[0]) else []) + WordsOf(g[1..], FOR_FUSE)
  {
    hide Words;
  }

  lemma Reassociate(a: seq<string>, b: seq<string>, c: seq<string>)
    ensures (a + b) + c == a + (b + c)
  {
  }

  lemma CollectOne(args: seq<string>, o: Options, r: Options)
    requires args != [] && !IsOperand(args[0]) && args[0] != "--" && Width(args[0][1]) <= |args|
    requires Fine(FirstOpt(args))
    requires Collected(args[Width(args[0][1])..], Updated(args[0][1], FirstOpt(args).arg, o), r)
    ensures Collected(args, o, r)
  {
    var g := Given(args);
    GivenCons(args);
    UpdatedIs(FirstOpt(args), o);
    hide Given, ParseVolume, Occurs, ReadOnly, Volume, Behind, Operands, Complete, Dashes, Fine, Updated, FirstOpt,
         Words;
    ReadOnlyCons(g);
    VolumeCons(g, o.volume);
    OccursCons(g, 'i');
    OccursCons(g, 's');
    OccursCons(g, 'l');
  }

  lemma UpdatedIs(opt: Opt, o: Options)
    requires Fine(opt)
    ensures var r := Updated(opt.c, opt.arg, o);
            && r.writeMode == (o.writeMode && !(opt.c == 'o' && opt.arg == Some("ro")))
            && r.ignoreChecksums == (o.ignoreChecksums || opt.c == 'i')
            && r.single == (o.single || opt.c == 's')
            && r.logFile == (if opt.c == 'l' then Some("fuseadf.log") else o.logFile)
            && r.volume == (if opt.c == 'p' && opt.arg.Some? && ParseVolume(opt.arg.value).Some? then
                              ParseVolume(opt.arg.value).value
                            else o.volume)
            && r.image == o.image && r.mountPoint == o.mountPoint && r.help == o.help && r.version == o.version
  {
    hide ParseVolume;
  }

  // The whole command line, for a program started with FUSE: what is opened
  // how, and what FUSE is handed.
  lemma CommandLineMeans(args: seq<string>, realpath: string -> Option<string>)
    requires Filter(args, DEFAULTS).end == AtOperands && |Filter(args, DEFAULTS).rest| == 2
    ensures var scan, g := Filter(args, DEFAULTS), Given(args);
            var r := Final(scan, realpath);
            && |Operands(args)| == 2
            && r.image == Some(Operands(args)[0]) && r.mountPoint == realpath(Operands(args)[1])
            && (r.writeMode <==> !ReadOnly(g))
            && (r.ignoreChecksums <==> Occurs(g, 'i'))
            && (r.single <==> Occurs(g, 's'))
            && r.logFile == (if Occurs(g, 'l') then Some("fuseadf.log") else None)
            && r.volume == Volume(g, 0)
            && !r.help && !r.version
            && FuseWords(scan) ==
               WordsOf(g, FOR_FUSE) + (if Dashes(args) then ["--"] else []) + [Operands(args)[1]] +
               if HasOption(scan.kept, 's') then [] else ["-s"]
  {
    hide Filter, Given, Occurs, ReadOnly, Volume, Operands, Dashes, WordsOf, HasOption;
    ScanCollects(args, DEFAULTS);
  }

  // So without options the image is opened for writing, its first volume,
  // checksums respected, without a log.
  lemma PlainCommandLine(image: string, mount: string, realpath: string -> Option<string>)
    requires IsOperand(image)
    ensures var r := Final(Filter([image, mount], DEFAULTS), realpath);
            && r.image == Some(image) && r.mountPoint == realpath(mount) && r.writeMode && r.volume == 0
            && !r.ignoreChecksums && r.logFile == None && !r.single
  {
    hide IsOperand;
  }
}
