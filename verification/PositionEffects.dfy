// What the positions left by FUSE operations are good for, and what not: the
// size reported for the root, the agreement of cwd and position, and the
// length of cwd over whole runs.
module PositionEffects {
  import opened PathStrings
  import opened Volume
  import opened Permissions
  import opened Walking
  import opened ImageState
  import opened CwdMachine
  import opened CwdLimits
  import opened FuseState
  import opened Reference
  import opened Positions
  import PathRewrite

  // ------------------------------------------------------------------
  // Runs
  // ------------------------------------------------------------------

  function PlaceAfter(s: Store, pl: Place, ops: seq<Op>): Place
    decreases |ops|
  {
    if ops == [] then pl
    else
      var next := MovedAll(s, pl, Moves(s, ops[0]));
      var (t, answer) := RefStep(s, ops[0]);
      if answer.NoReturn? then next else PlaceAfter(t, next, ops[1..])
  }

  lemma {:induction false} RunPlace(st: State, ops: seq<Op>)
    requires Absolute(st.cwd) && forall i :: 0 <= i < |ops| ==> AbsoluteOp(ops[i])
    ensures PlaceOf(Run(st, ops).0) == PlaceAfter(st.store, PlaceOf(st), ops)
    ensures Absolute(Run(st, ops).0.cwd)
    decreases |ops|
  {
    hide Step, RefStep, SameAnswer, AbsoluteOp, MovedAll, Moves;
    if ops != [] {
      StepRefines(st, ops[0]);
      SameReturn(ops[0], Step(st, ops[0]).1, RefStep(st.store, ops[0]).1);
      StepPlace(st, ops[0]);
      RunPlace(Step(st, ops[0]).0, ops[1..]);
    }
  }

  // ------------------------------------------------------------------
  // The size of the root
  // ------------------------------------------------------------------

  lemma RootSizeIs(st: State, path: string)
    requires Absolute(path) && SkipSlashes(path) == ""
    ensures Step(st, Getattr(path)).1.Attributes? && RefStep(st.store, Getattr(path)).1.Attributes?
    ensures Step(st, Getattr(path)).1.stat.size == |GetDirEnt(st.store, st.cur)|
    ensures Step(st, Getattr(path)).1 == RefStep(st.store, Getattr(path)).1 <==>
              |GetDirEnt(st.store, st.cur)| == |GetDirEnt(st.store, st.store.root)|
  {
    hide GetDirEnt, SkipSlashes;
  }

  // After a run the size of the root is right iff the directory in which the
  // moves of the run end has as many entries as the root.
  lemma RootSizeExactly(st: State, ops: seq<Op>, path: string)
    requires Absolute(st.cwd) && forall i :: 0 <= i < |ops| ==> AbsoluteOp(ops[i])
    requires Absolute(path) && SkipSlashes(path) == ""
    ensures var t := RefRun(st.store, ops).0;
            Step(Run(st, ops).0, Getattr(path)).1 == RefStep(t, Getattr(path)).1 <==>
              |GetDirEnt(t, PlaceAfter(st.store, PlaceOf(st), ops).cur)| == |GetDirEnt(t, t.root)|
  {
    hide *;
    RunRefines(st, ops);
    RunPlace(st, ops);
    RootSizeIs(Run(st, ops).0, path);
    PlaceCur(Run(st, ops).0);
  }

  lemma PlaceCur(st: State)
    ensures PlaceOf(st).cur == st.cur && PlaceOf(st).cwd == st.cwd
  {
  }

  // Where the last move of an operation ends; before is where it starts.
  function EndOf(s: Store, before: Place, mv: Move): Sector {
    match mv
    case HomeFrom(path) => s.root
    case GrowHome(rel) => s.root
    case Into(path) => Reach(s, s.root, PathComponents(path))
    case GrowInto(rel) => Reach(s, s.root, PathComponents(rel))
    case Back => Reach(s, s.root, PathComponents(before.cwd))
  }

  // After one operation that moves, the root is reported with its own size if
  // the last move goes to the root, else with that of the directory where a
  // walk stopped, or where the old cwd leads.
  lemma RootSizeAfterStep(st: State, op: Op)
    requires Absolute(st.cwd) && AbsoluteOp(op) && Moves(st.store, op) != []
    ensures var r, mvs := Step(st, op).0, Moves(st.store, op);
            var before := MovedAll(st.store, PlaceOf(st), mvs[..|mvs| - 1]);
            && r.cur == EndOf(st.store, before, mvs[|mvs| - 1])
            && GetattrStep(r, "/").2.size == |GetDirEnt(r.store, r.cur)|
  {
    hide *;
    var mvs := Moves(st.store, op);
    var before := MovedAll(st.store, PlaceOf(st), mvs[..|mvs| - 1]);
    StepPlace(st, op);
    PlaceCur(Step(st, op).0);
    LastMove(st.store, PlaceOf(st), mvs);
    MoveEnds(st.store, before, mvs[|mvs| - 1]);
    RootSizeOf(Step(st, op).0);
  }

  lemma MoveEnds(s: Store, before: Place, mv: Move)
    ensures Moved(s, before, mv).cur == EndOf(s, before, mv)
  {
    hide Reach, PathComponents, Depth;
  }

  predicate GoesHome(mv: Move) {
    mv.HomeFrom? || mv.GrowHome?
  }

  // Whether the last operation of a run that moves at all moves to the root:
  // a readdir, a getattr below a directory that resolves, or a mkdir, rmdir,
  // create or unlink that gets into the parent.
  predicate EndsHome(s: Store, home: bool, ops: seq<Op>)
    decreases |ops|
  {
    if ops == [] then home
    else
      var mvs := Moves(s, ops[0]);
      var next := if mvs == [] then home else GoesHome(mvs[|mvs| - 1]);
      var (t, answer) := RefStep(s, ops[0]);
      if answer.NoReturn? then next else EndsHome(t, next, ops[1..])
  }

  lemma {:induction false} LastMove(s: Store, pl: Place, mvs: seq<Move>)
    requires mvs != []
    ensures MovedAll(s, pl, mvs) == Moved(s, MovedAll(s, pl, mvs[..|mvs| - 1]), mvs[|mvs| - 1])
  {
    hide Moved, MovedAll;
    var init, mv := mvs[..|mvs| - 1], mvs[|mvs| - 1];
    assert mvs == init + [mv];
    MovedConcat(s, pl, init, [mv]);
    OneMove(s, MovedAll(s, pl, init), mv);
  }

  lemma HomeIsRoot(s: Store, pl: Place, mv: Move)
    requires GoesHome(mv)
    ensures Moved(s, pl, mv).cur == s.root
  {
  }

  lemma {:induction false} EndsAtRoot(s: Store, pl: Place, home: bool, ops: seq<Op>)
    requires EndsHome(s, home, ops) && (home ==> pl.cur == s.root)
    ensures PlaceAfter(s, pl, ops).cur == s.root
    decreases |ops|
  {
    hide Moves, MovedAll, Moved, RefStep, GoesHome;
    if ops != [] {
      var mvs := Moves(s, ops[0]);
      if mvs == [] {
        OneMove(s, pl, Back);
      } else {
        LastMove(s, pl, mvs);
        if GoesHome(mvs[|mvs| - 1]) {
          HomeIsRoot(s, MovedAll(s, pl, mvs[..|mvs| - 1]), mvs[|mvs| - 1]);
        }
      }
      RootStays(s, ops[0]);
      if !RefStep(s, ops[0]).1.NoReturn? {
        EndsAtRoot(RefStep(s, ops[0]).0, MovedAll(s, pl, mvs),
                   if mvs == [] then home else GoesHome(mvs[|mvs| - 1]), ops[1..]);
      }
    }
  }

  // No operation moves the root block.
  lemma RootStays(s: Store, op: Op)
    ensures RefStep(s, op).0.root == s.root
  {
    hide GetattrRef, ReaddirRef, ReadlinkRef, ReadRef, FileOf, ParentDir, DentryAt, SkipSlashes, Dirname, Basename,
         CreateEntry, RemoveEntry, RenameEntry, SetPerm, WriteAt, Resize, ToUnsigned, ToInt32, DentryValid,
         ParentSector,
         PathRewrite.Fuse2AmigaDosW;
    forall d, name {
      CallsKeepRoot(s, d, name);
    }
    forall p, n, q, m {
      RenameKeepsRoot(s, p, n, q, m);
    }
  }

  lemma RenameKeepsRoot(s: Store, p: Sector, n: string, q: Sector, m: string)
    ensures RenameEntry(s, p, n, q, m).0.root == s.root
  {
  }

  // So it is right after every run, from whatever state, that ends home.
  lemma RootSizeRight(st: State, ops: seq<Op>, path: string)
    requires Absolute(st.cwd) && forall i :: 0 <= i < |ops| ==> AbsoluteOp(ops[i])
    requires Absolute(path) && SkipSlashes(path) == ""
    requires EndsHome(st.store, st.cur == st.store.root, ops)
    ensures Step(Run(st, ops).0, Getattr(path)).1 == RefStep(RefRun(st.store, ops).0, Getattr(path)).1
  {
    hide *;
    PlaceCur(st);
    EndsAtRoot(st.store, PlaceOf(st), st.cur == st.store.root, ops);
    RootSizeExactly(st, ops, path);
    RunKeepsRoot(st.store, ops);
  }

  lemma {:induction false} RunKeepsRoot(s: Store, ops: seq<Op>)
    ensures RefRun(s, ops).0.root == s.root
    decreases |ops|
  {
    hide RefStep;
    if ops != [] {
      RootStays(s, ops[0]);
      RunKeepsRoot(RefStep(s, ops[0]).0, ops[1..]);
    }
  }

  // An operation that changes no directory and ends by going back.
  predicate GoesBack(s: Store, op: Op) {
    Moves(s, op) == [Back]
  }

  // Everything can succeed and the size still be wrong: once a directory has
  // been listed, cwd prints it, and the next operation that goes back goes
  // there. The root is then reported with the size of that directory.
  lemma RootSizeAfterListing(st: State, d: string, room: nat, op: Op)
    requires Absolute(st.cwd) && Absolute(d) && AbsoluteOp(op)
    requires Walk(st.store, st.store.root, PathComponents(d)).Some?
    requires GoesBack(st.store, op)
    ensures var r := Run(st, [Readdir(d, room), op]).0;
            && r.store == RefStep(st.store, op).0
            && r.cur == Walk(st.store, st.store.root, PathComponents(d)).value
            && GetattrStep(r, "/").2.size == |GetDirEnt(r.store, r.cur)|
  {
    var look := Readdir(d, room);
    var t := Step(st, look).0;
    TwoSteps(st, look, op);
    hide *;
    assert AbsoluteOp(look) && Moves(st.store, look) == [HomeFrom(d)] && RefStep(st.store, look).0 == st.store by {
      ReaddirMoves(st.store, d, room);
    }
    StepRefines(st, look);
    StepRefines(t, op);
    StepPlace(st, look);
    StepPlace(t, op);
    GoesBackMoves(t.store, op);
    OneMove(st.store, PlaceOf(st), HomeFrom(d));
    OneMove(t.store, PlaceOf(t), Back);
    PlaceCur(t);
    PlaceCur(Step(t, op).0);
    PrintedStop(st.store, PlaceOf(st), PlaceOf(t), d);
    RootSizeOf(Step(t, op).0);
  }

  lemma GoesBackMoves(s: Store, op: Op)
    ensures GoesBack(s, op) <==> Moves(s, op) == [Back]
  {
  }

  lemma ReaddirMoves(s: Store, d: string, room: nat)
    requires Absolute(d)
    ensures AbsoluteOp(Readdir(d, room)) && Moves(s, Readdir(d, room)) == [HomeFrom(d)]
    ensures RefStep(s, Readdir(d, room)).0 == s && RefStep(s, Readdir(d, room)).1.Names?
    ensures !GoesBack(s, Readdir(d, room))
  {
    hide ReaddirRef;
  }

  lemma TwoSteps(st: State, a: Op, b: Op)
    requires a.Readdir?
    ensures Run(st, [a, b]).0 == Step(Step(st, a).0, b).0
  {
    assert [a, b][1..] == [b];
    hide ReaddirStep;
    assert Step(st, a).1.Names?;
    hide Step;
    OneStepRun(Step(st, a).0, b);
  }

  lemma OneStepRun(st: State, op: Op)
    ensures Run(st, [op]).0 == Step(st, op).0
  {
    hide Step;
    assert [op][1..] == [];
    assert Run(Step(st, op).0, []).0 == Step(st, op).0;
  }

  // Listing a directory prints it into cwd, and its parse leads there.
  lemma PrintedStop(s: Store, before: Place, after: Place, d: string)
    requires Walk(s, s.root, PathComponents(d)).Some? && after == Moved(s, before, HomeFrom(d))
    ensures Moved(s, after, Back).cur == Walk(s, s.root, PathComponents(d)).value
  {
    hide *;
    var cs := PathComponents(d);
    MovesByStop(s, before, d);
    MovesByStop(s, after, d);
    StopWhole(s, d);
    ComponentsPrintable(d);
    PrintParse(cs);
    StopWhole(s, Print(cs));
  }

  lemma MovesByStop(s: Store, pl: Place, d: string)
    ensures Moved(s, pl, HomeFrom(d)) == Place(s.root, StopOf(s, d).cwd)
    ensures Moved(s, pl, Back) == StopOf(s, pl.cwd)
  {
    hide StopOf;
  }

  lemma RootSizeOf(st: State)
    ensures GetattrStep(st, "/").2.size == |GetDirEnt(st.store, st.cur)|
  {
    assert SkipSlashes("/") == "";
  }

  // A root directory with three entries: the directory d, holding one file,
  // and the files f and g.
  function ThreeEntries(): Store {
    Store(880, false, Masks(0, 1, 2),
          map[880 := Block(Root, "disk", {}, 0, "", [900, 901, 902], []),
              900 := Block(Dir, "d", {}, 0, "", [903], []),
              901 := Block(File, "f", {}, 0, "", [], []),
              902 := Block(File, "g", {}, 0, "", [], []),
              903 := Block(File, "x", {}, 0, "", [], [])], [])
  }

  // Listing /d, reading /f and asking for the root, from open on: the root
  // is reported with one entry instead of three.
  lemma RootSizeWrong(room: nat, size: int, offset: int)
    ensures var s := ThreeEntries();
            var r := Run(Opened(s), [Readdir("/d", room), Read("/f", size, offset)]).0;
            r.store == s && GetattrStep(r, "/").2.size == 1 && |GetDirEnt(s, s.root)| == 3
  {
    hide *;
    PrintOne("d");
    PrintOne("f");
    assert "/" + "d" == "/d" && "/" + "f" == "/f";
    ThreeEntriesSizes();
    ThreeEntriesFacts();
    ListedThenRead(ThreeEntries(), room, size, offset);
  }

  lemma ListedThenRead(s: Store, room: nat, size: int, offset: int)
    requires Walk(s, s.root, ["d"]) == Some(900) && FileAt(s, s.root, "f") == Some(901)
    ensures var r := Run(Opened(s), [Readdir(Print(["d"]), room), Read(Print(["f"]), size, offset)]).0;
            r.store == s && GetattrStep(r, "/").2.size == |GetDirEnt(s, 900)|
  {
    PrintParse(["d"]);
    FileInRoot(s);
    OpenedIs(s);
    ReadGoesBack(s, Print(["f"]), size, offset, 901);
    hide *;
    RootSizeAfterListing(Opened(s), Print(["d"]), room, Read(Print(["f"]), size, offset));
  }

  lemma OpenedIs(s: Store)
    ensures Opened(s).store == s && Absolute(Opened(s).cwd)
    ensures forall path, size, offset :: AbsoluteOp(Read(path, size, offset)) <==> Absolute(path)
  {
  }

  lemma ReadGoesBack(s: Store, path: string, size: int, offset: int, f: Sector)
    requires FileOf(s, path) == Some(f)
    ensures GoesBack(s, Read(path, size, offset)) && RefStep(s, Read(path, size, offset)).0 == s
  {
    hide FileOf, ReadRef;
  }

  lemma ThreeEntriesSizes()
    ensures var s := ThreeEntries(); |GetDirEnt(s, s.root)| == 3 && |GetDirEnt(s, 900)| == 1
  {
  }

  lemma ThreeEntriesFacts()
    ensures var s := ThreeEntries(); Walk(s, s.root, ["d"]) == Some(900) && FileAt(s, s.root, "f") == Some(901)
  {
    FindsD();
    FindsF();
    hide FindFolded, SameName;
  }

  lemma FindsD()
    ensures FindFolded(ThreeEntries(), [900, 901, 902], "d") == Some(900)
  {
  }

  lemma FindsF()
    ensures FindFolded(ThreeEntries(), [900, 901, 902], "f") == Some(901)
  {
    var kids := [900, 901, 902];
    assert kids[1..] == [901, 902];
    assert "d"[0] == 'd' && "f"[0] == 'f' && Upper('d', false) == 'D' && Upper('f', false) == 'F';
  }

  lemma FileInRoot(s: Store)
    requires FileAt(s, s.root, "f") == Some(901)
    ensures FileOf(s, Print(["f"])) == Some(901)
  {
    var p := Print(["f"]);
    assert p == "" + "/" + "f";
    DirnameOfJoined("", "f");
    NoComponents();
    assert StripTrailing("") == "";
    hide Dirname, Basename, PathComponents, FileAt;
  }
}
