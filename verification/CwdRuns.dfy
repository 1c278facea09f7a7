// The printed cwd over runs of FUSE operations: after which of them it still
// agrees with the position, and how long it gets.
module CwdRuns {
  import opened PathStrings
  import opened Volume
  import opened VolumeLaws
  import opened Walking
  import opened ImageState
  import opened CwdMachine
  import opened CwdLimits
  import opened FuseState
  import opened Reference
  import opened Positions
  import PathRewrite

  // ------------------------------------------------------------------
  // Agreement, move by move
  // ------------------------------------------------------------------

  // readdir and getattr go to the root and leave cwd behind: the two agree
  // only when cwd prints no component.
  lemma HomeFromAgrees(s: Store, pl: Place, path: string)
    requires IsKind(s, s.root, Root)
    ensures Agrees(At(s, Moved(s, pl, HomeFrom(path)))) <==> Depth(s, s.root, PathComponents(path)) == 0
  {
    var cs := PathComponents(path);
    var k := Depth(s, s.root, cs);
    AtRootAgrees(At(s, Moved(s, pl, HomeFrom(path))));
    ComponentsPrintable(path);
    PrintIsRoot(cs[..k]);
    hide Agrees, PathComponents, Depth, Reach, Print;
  }

  lemma PrintIsRoot(cs: seq<string>)
    requires cs != [] ==> cs[0] != ""
    ensures Print(cs) == "/" <==> cs == []
  {
    if cs != [] {
      JoinLonger(cs);
    }
  }

  // So do mkdir, rmdir, create and unlink that get into the parent.
  lemma GrowHomeAgrees(s: Store, pl: Place, rel: string)
    requires IsKind(s, s.root, Root) && Absolute(pl.cwd)
    ensures Agrees(At(s, Moved(s, pl, GrowHome(rel)))) <==> pl.cwd == "/" && PathComponents(rel) == []
  {
    AtRootAgrees(At(s, Moved(s, pl, GrowHome(rel))));
    ComponentsPrintable(rel);
    AppendAllIsRoot(pl.cwd, PathComponents(rel));
    hide Agrees, PathComponents, AppendAll;
  }

  // When they get no further than a prefix of the way, the position agrees
  // with the components walked behind the old cwd only if these lead where
  // they lead from the root.
  lemma GrowIntoAgrees(s: Store, pl: Place, rel: string)
    requires DotFree(s) && pl.cwd == Print(PathComponents(pl.cwd))
    ensures var cs := PathComponents(rel);
            var walked := cs[..Depth(s, s.root, cs)];
            Agrees(At(s, Moved(s, pl, GrowInto(rel)))) <==>
              Walk(s, s.root, PathComponents(pl.cwd) + walked) == Walk(s, s.root, walked)
  {
    hide *;
    var cs := PathComponents(rel);
    var all := PathComponents(pl.cwd) + cs[..Depth(s, s.root, cs)];
    LongestPrefix(s, s.root, cs);
    GrownCwd(s, pl, rel);
    PrintParse(all);
    GrownAgrees(s, pl, rel, all);
  }

  lemma GrownCwd(s: Store, pl: Place, rel: string)
    requires DotFree(s) && pl.cwd == Print(PathComponents(pl.cwd))
    ensures var cs := PathComponents(rel);
            var all := PathComponents(pl.cwd) + cs[..Depth(s, s.root, cs)];
            Printable(all) && Moved(s, pl, GrowInto(rel)).cwd == Print(all)
  {
    hide PathComponents, Depth, Reach, Print, AppendAll, DotFree;
    var a, cs := PathComponents(pl.cwd), PathComponents(rel);
    var walked := cs[..Depth(s, s.root, cs)];
    ComponentsPrintable(pl.cwd);
    ComponentsPrintable(rel);
    AppendAllPrint(a, walked);
    DotDepth(s, cs);
    PrintableConcat(a, walked);
  }

  lemma GrownAgrees(s: Store, pl: Place, rel: string, all: seq<string>)
    requires PathComponents(Print(all)) == all && Moved(s, pl, GrowInto(rel)).cwd == Print(all)
    ensures Agrees(At(s, Moved(s, pl, GrowInto(rel)))) <==>
              Walk(s, s.root, all) == Some(Reach(s, s.root, PathComponents(rel)))
  {
    hide PathComponents, Depth, Reach, Print, Walk, AppendAll;
  }

  lemma PrintableConcat(a: seq<string>, b: seq<string>)
    requires Printable(a) && b != ["."]
    requires (forall i :: 0 <= i < |b| ==> '/' !in b[i]) && (b != [] ==> b[0] != "")
    ensures Printable(a + b)
  {
    assert a == [] ==> a + b == b;
    assert b == [] ==> a + b == a;
    assert |a + b| == |a| + |b|;
  }

  lemma DotDepth(s: Store, cs: seq<string>)
    requires DotFree(s)
    ensures cs[..Depth(s, s.root, cs)] != ["."]
  {
    assert ChangeDir(s, s.root, ".").None?;
  }

  // Going into a directory, or back, does agree.
  lemma IntoAgrees(s: Store, pl: Place, path: string)
    requires DotFree(s)
    ensures Agrees(At(s, Moved(s, pl, Into(path))))
    ensures Absolute(pl.cwd) ==> Agrees(At(s, Moved(s, pl, Back)))
  {
    StopAgrees(s, path);
    StopAgrees(s, pl.cwd);
    hide Agrees, StopOf;
  }

  lemma StopAgrees(s: Store, path: string)
    requires DotFree(s)
    ensures Agrees(At(s, StopOf(s, path)))
  {
    var cs := PathComponents(path);
    LongestPrefix(s, s.root, cs);
    ComponentsPrintable(path);
    WalkedAgrees(s, cs[..Depth(s, s.root, cs)], Reach(s, s.root, cs));
    hide Agrees, PathComponents, Depth, Reach, Print, Walk;
  }

  function PathOf(op: Op): string {
    match op
    case Rename(src, dst) => src
    case _ => op.path
  }

  // ------------------------------------------------------------------
  // Agreement, operation by operation
  // ------------------------------------------------------------------

  // The operations that leave every name where it is.
  predicate KeepsNames(op: Op) {
    op.Getattr? || op.Readdir? || op.Readlink? || op.Open? || op.Read? || op.Write? || op.Truncate? || op.Chmod?
  }

  lemma RefKeepsTree(s: Store, op: Op)
    requires KeepsNames(op)
    ensures SameTree(s, RefStep(s, op).0)
  {
    hide GetattrRef, ReaddirRef, ReadlinkRef, ReadRef, FileOf, DentryAt, WriteAt, Resize, ToUnsigned, ToInt32;
    match op {
      case Write(path, buffer, offset) =>
        if FileOf(s, path).Some? {
          var f := FileOf(s, path).value;
          DataKeepsTree(s, f, RefStep(s, op).0.blocks[f].data);
        }
      case Truncate(path, size) =>
        if FileOf(s, path).Some? {
          var f := FileOf(s, path).value;
          DataKeepsTree(s, f, RefStep(s, op).0.blocks[f].data);
        }
      case Chmod(path, mode) =>
        var d := DentryAt(s, path);
        if DentryValid(d) && d.value.sector in s.blocks {
          AccessKeepsTree(s, d.value.sector, RefStep(s, op).0.blocks[d.value.sector].access);
        }
      case _ =>
    }
  }

  // The condition under which an operation that changes no name leaves cwd and
  // position in agreement: readdir only if it stays in the root, getattr only
  // below the root directory; an operation that does not move keeps what there
  // was; and every other one restores the agreement.
  predicate AgreesAfterLooking(st: State, op: Op) {
    match op
    case Readdir(path, room) => Depth(st.store, st.store.root, PathComponents(path)) == 0
    case Getattr(path) =>
      if SkipSlashes(path) == "" then Agrees(st)
      else ParentDir(st.store, path).Some? ==> PathComponents(Dirname(path)) == []
    case Chmod(path, mode) => path == "/" ==> Agrees(st)
    case _ => true
  }

  lemma KeepsAgreementExactly(st: State, op: Op)
    requires AbsoluteOp(op) && KeepsNames(op) && Absolute(st.cwd) && DotFree(st.store)
    requires IsKind(st.store, st.store.root, Root)
    ensures Agrees(Step(st, op).0) <==> AgreesAfterLooking(st, op)
  {
    hide Step, Agrees, MovedAll, Moves, RefStep, DotFree, SameTree, At, KeepsNames, AgreesAfterLooking;
    StepRefines(st, op);
    StepPlace(st, op);
    RefKeepsTree(st.store, op);
    AtPlace(Step(st, op).0);
    TreeAgreesBoth(st.store, RefStep(st.store, op).0, MovedAll(st.store, PlaceOf(st), Moves(st.store, op)));
    MovesAgree(st, op);
  }

  lemma AtPlace(st: State)
    ensures At(st.store, PlaceOf(st)) == st
  {
  }

  lemma TreeAgreesBoth(s: Store, t: Store, pl: Place)
    requires SameTree(s, t)
    ensures Agrees(At(s, pl)) <==> Agrees(At(t, pl))
  {
    SameTreeWalk(s, t, s.root, PathComponents(pl.cwd));
    hide Walk, PathComponents, Print;
  }

  lemma MovesAgree(st: State, op: Op)
    requires KeepsNames(op) && DotFree(st.store) && Absolute(st.cwd)
    requires IsKind(st.store, st.store.root, Root)
    ensures Agrees(At(st.store, MovedAll(st.store, PlaceOf(st), Moves(st.store, op)))) <==> AgreesAfterLooking(st, op)
  {
    hide MovedAll, Moved, DotFree, SkipSlashes, Dirname, PathComponents, Walk, GetDirEnt, FileOf, StopOf, Depth, Agrees;
    var s, pl := st.store, PlaceOf(st);
    assert At(s, pl) == st;
    OneMove(s, pl, Back);
    match op {
      case Readdir(path, room) => OneMove(s, pl, HomeFrom(path)); HomeFromAgrees(s, pl, path);
      case Getattr(path) =>
        OneMove(s, pl, HomeFrom(Dirname(path)));
        OneMove(s, pl, Into(Dirname(path)));
        HomeFromAgrees(s, pl, Dirname(path));
        IntoAgrees(s, pl, Dirname(path));
        LongestPrefix(s, s.root, PathComponents(Dirname(path)));
      case _ =>
        OneMove(s, pl, Into(Dirname(PathOf(op))));
        IntoAgrees(s, pl, Dirname(PathOf(op)));
    }
  }

  predicate Makes(op: Op) {
    op.Mkdir? || op.Rmdir? || op.Unlink? || op.Create?
  }

  // mkdir, rmdir, create or unlink that fails on the way to the parent, called
  // in an agreeing state: the agreement survives exactly when the components
  // walked lead to the same place behind the old cwd as from the root.
  lemma FailedMakeAgreesExactly(st: State, op: Op)
    requires AbsoluteOp(op) && Makes(op) && SkipSlashes(op.path) != "" && ParentDir(st.store, op.path).None?
    requires Agrees(st) && DotFree(st.store)
    ensures var s, cs := st.store, PathComponents(Dirname(op.path));
            var walked := cs[..Depth(s, s.root, cs)];
            Agrees(Step(st, op).0) <==>
              Walk(s, s.root, PathComponents(st.cwd) + walked) == Walk(s, s.root, walked)
  {
    var s, rel := st.store, Dirname(SkipSlashes(op.path));
    StepRefines(st, op);
    StepPlace(st, op);
    FailedMakeKeeps(s, op);
    hide Step, Moves, RefStep, ParentDir, SkipSlashes, Dirname, Walk, Depth, DotFree, PathComponents, MovedAll, Moved;
    SameParent(op.path);
    OneMove(s, PlaceOf(st), GrowInto(rel));
    GrowIntoAgrees(s, PlaceOf(st), rel);
    assert Step(st, op).0 == At(s, PlaceOf(Step(st, op).0));
  }

  lemma FailedMakeKeeps(s: Store, op: Op)
    requires Makes(op) && SkipSlashes(op.path) != "" && ParentDir(s, op.path).None?
    ensures RefStep(s, op).0 == s && Moves(s, op) == [GrowInto(Dirname(SkipSlashes(op.path)))]
  {
    hide ParentDir, SkipSlashes, Dirname;
  }

  // When they reach the parent, the position is the root and cwd has grown, so
  // the two agree only if cwd was "/" and the parent is the root.
  lemma ReachedMakeAgreesExactly(st: State, op: Op)
    requires AbsoluteOp(op) && Makes(op) && SkipSlashes(op.path) != "" && ParentDir(st.store, op.path).Some?
    requires Absolute(st.cwd) && Valid(st.store)
    ensures Agrees(Step(st, op).0) <==> st.cwd == "/" && PathComponents(Dirname(op.path)) == []
  {
    var s, rel := st.store, Dirname(SkipSlashes(op.path));
    StepRefines(st, op);
    StepPlace(st, op);
    ReachedMakeMoves(s, op);
    RootKindKept(s, op);
    hide Step, Moves, RefStep, ParentDir, SkipSlashes, Dirname, PathComponents, MovedAll, Moved, Valid, Agrees;
    SameParent(op.path);
    OneMove(s, PlaceOf(st), GrowHome(rel));
    AtPlace(Step(st, op).0);
    HomeOf(s, RefStep(s, op).0, PlaceOf(st), rel);
    GrowHomeAgrees(RefStep(s, op).0, PlaceOf(st), rel);
  }

  lemma ReachedMakeMoves(s: Store, op: Op)
    requires Makes(op) && SkipSlashes(op.path) != "" && ParentDir(s, op.path).Some?
    ensures Moves(s, op) == [GrowHome(Dirname(SkipSlashes(op.path)))]
  {
    hide ParentDir, SkipSlashes, Dirname;
  }

  lemma HomeOf(s: Store, t: Store, pl: Place, rel: string)
    requires s.root == t.root
    ensures Moved(s, pl, GrowHome(rel)) == Moved(t, pl, GrowHome(rel))
  {
  }

  lemma RootKindKept(s: Store, op: Op)
    requires Valid(s) && Makes(op)
    ensures var t := RefStep(s, op).0; t.root == s.root && IsKind(t, t.root, Root)
  {
    hide ParentDir, SkipSlashes, Basename, CreateEntry, RemoveEntry, Valid;
    match ParentDir(s, op.path) {
      case None => ValidRoot(s);
      case Some(d) =>
        ValidRoot(s);
        CreateKeepsRootKind(s, d, Basename(op.path), Dir);
        CreateKeepsRootKind(s, d, Basename(op.path), File);
        RemoveKeepsRootKind(s, d, Basename(op.path));
    }
  }

  lemma ValidRoot(s: Store)
    requires Valid(s)
    ensures IsKind(s, s.root, Root)
  {
  }

  lemma CreateKeepsRootKind(s: Store, d: Sector, name: string, kind: Kind)
    requires Valid(s)
    ensures var t := CreateEntry(s, d, name, kind).0; t.root == s.root && IsKind(t, t.root, Root)
  {
    if CreateEntry(s, d, name, kind).1 {
      CreateEffect(s, d, name, kind);
      hide CreateEntry;
    }
  }

  lemma RemoveKeepsRootKind(s: Store, d: Sector, name: string)
    requires Valid(s)
    ensures var t := RemoveEntry(s, d, name).0; t.root == s.root && IsKind(t, t.root, Root)
  {
    if RemoveEntry(s, d, name).1 {
      RemoveEffect(s, d, name);
      hide RemoveEntry;
    }
  }

  // On the root itself they do nothing.
  lemma RootMakeKeeps(st: State, op: Op)
    requires Makes(op) && SkipSlashes(op.path) == ""
    ensures Step(st, op).0 == st
  {
    hide SkipSlashes;
  }

  // ------------------------------------------------------------------
  // Volumes without hard links
  // ------------------------------------------------------------------

  ghost predicate NoLinks(s: Store) {
    forall c :: c in s.blocks ==> s.blocks[c].linked == 0
  }

  // A step into a directory leads to one of its entries.
  lemma StepIsChild(s: Store, d: Sector, name: string)
    requires NoLinks(s) && ChangeDir(s, d, name).Some?
    ensures ChangeDir(s, d, name).value in Children(s, d)
  {
  }

  lemma LastStep(s: Store, cs: seq<string>)
    requires cs != [] && Walk(s, s.root, cs).Some?
    ensures var init := cs[..|cs| - 1];
            && Walk(s, s.root, init).Some?
            && Walk(s, s.root, cs) == ChangeDir(s, Walk(s, s.root, init).value, cs[|cs| - 1])
  {
    hide ChangeDir;
    var init, last := cs[..|cs| - 1], cs[|cs| - 1];
    assert cs == init + [last];
    WalkConcat(s, s.root, init, [last]);
    assert [last][1..] == [];
  }

  lemma PlacesAre(s: Store)
    requires Valid(s)
    ensures forall d :: s.root !in Children(s, d)
    ensures forall d, e, c :: c in Children(s, d) && c in Children(s, e) ==> d == e
  {
  }

  // All ways to a directory are equally long.
  lemma {:induction false} SameDepth(s: Store, a: seq<string>, b: seq<string>)
    requires Valid(s) && NoLinks(s)
    requires Walk(s, s.root, a).Some? && Walk(s, s.root, a) == Walk(s, s.root, b)
    ensures |a| == |b|
    decreases |a|
  {
    PlacesAre(s);
    hide Valid, NoLinks, Walk, ChangeDir, Children;
    RootWalk(s);
    if a != [] {
      LastStep(s, a);
      StepIsChild(s, Walk(s, s.root, a[..|a| - 1]).value, a[|a| - 1]);
    }
    if b != [] {
      LastStep(s, b);
      StepIsChild(s, Walk(s, s.root, b[..|b| - 1]).value, b[|b| - 1]);
    }
    if a != [] && b != [] {
      SameDepth(s, a[..|a| - 1], b[..|b| - 1]);
    }
  }

  lemma RootWalk(s: Store)
    ensures Walk(s, s.root, []) == Some(s.root)
  {
  }

  // So on a well-formed volume without hard links a call that fails on the way
  // to the parent keeps the agreement exactly when cwd was "/".
  lemma FailedMakeInTree(st: State, op: Op)
    requires AbsoluteOp(op) && Makes(op) && SkipSlashes(op.path) != "" && ParentDir(st.store, op.path).None?
    requires Agrees(st) && Valid(st.store) && NoLinks(st.store)
    ensures Agrees(Step(st, op).0) <==> st.cwd == "/"
  {
    var path := op.path;
    hide *;
    var s, a, cs := st.store, PathComponents(st.cwd), PathComponents(Dirname(path));
    var walked := cs[..Depth(s, s.root, cs)];
    AgreesParts(st);
    ValidIsDotFree(s);
    FailedMakeAgreesExactly(st, op);
    LongestPrefix(s, s.root, cs);
    if a == [] {
      assert a + walked == walked;
    } else if Walk(s, s.root, a + walked) == Walk(s, s.root, walked) {
      SameDepth(s, walked, a + walked);
    }
  }

  lemma AgreesParts(st: State)
    requires Agrees(st)
    ensures Absolute(st.cwd) && (st.cwd == "/" <==> PathComponents(st.cwd) == [])
    ensures Walk(st.store, st.store.root, PathComponents(st.cwd)) == Some(st.cur)
    ensures Print(PathComponents(st.cwd)) == st.cwd
  {
    ComponentsPrintable(st.cwd);
    PrintIsRoot(PathComponents(st.cwd));
    hide PathComponents, Walk, Print;
  }

  // ------------------------------------------------------------------
  // The length of cwd over runs
  // ------------------------------------------------------------------

  function Max(a: nat, b: nat): nat {
    if a >= b then a else b
  }

  // mkdir, rmdir, create and unlink may lengthen cwd by their path, the others
  // leave it no longer than it was or than their path.
  function LengthAfter(len: nat, op: Op): nat {
    if Makes(op) then len + |op.path|
    else if op.Rename? then Max(len, Max(|op.src|, |op.dst|))
    else Max(len, |op.path|)
  }

  function LengthBudget(len: nat, ops: seq<Op>): nat
    decreases |ops|
  {
    if ops == [] then len else LengthBudget(LengthAfter(len, ops[0]), ops[1..])
  }

  lemma DirnameShort(path: string)
    requires path != ""
    ensures |Dirname(path)| <= |path|
    ensures path[0] != '/' && Dirname(path) != "." ==> |Dirname(path)| < |path|
  {
    hide StripTrailing, AfterLastSlash;
    var t := StripTrailing(path);
    if t != "" {
      var i := AfterLastSlash(t);
      var u := StripTrailing(t[..i]);
      assert i > 0 && u != "" ==> u[|u| - 1] != '/' && t[i - 1] == '/';
    }
  }

  lemma StopShort(s: Store, path: string)
    requires Absolute(path)
    ensures |StopOf(s, path).cwd| <= |path|
  {
    ChdirStops(State(s, s.root, "/"), path);
    AbsoluteCwdLength(State(s, s.root, "/"), path);
    hide Chdir, StopOf, SkipSlashes;
  }

  lemma GrownShort(cwd: string, rel: string, k: nat)
    requires Absolute(cwd) && rel != "" && !Absolute(rel) && k <= |PathComponents(rel)|
    ensures |AppendAll(cwd, PathComponents(rel)[..k])| <= |cwd| + if rel == "." then 0 else 1 + |rel|
  {
    var cs := PathComponents(rel);
    ComponentsPrintable(rel);
    if k > 0 {
      JoinSplit(SkipSlashes(rel));
      JoinPrefix(cs, k);
      AppendAllJoin(cwd, cs[..k]);
    }
  }

  lemma MoveLength(s: Store, pl: Place, mv: Move, n: nat)
    requires Absolute(pl.cwd)
    requires match mv
             case HomeFrom(path) => Absolute(path) && |path| <= n
             case Into(path) => Absolute(path) && |path| <= n
             case Back => |pl.cwd| <= n
             case GrowHome(rel) => rel != "" && !Absolute(rel) && |pl.cwd| + (if rel == "." then 0 else 1 + |rel|) <= n
             case GrowInto(rel) => rel != "" && !Absolute(rel) && |pl.cwd| + (if rel == "." then 0 else 1 + |rel|) <= n
    ensures |Moved(s, pl, mv).cwd| <= n
  {
    hide StopOf, AppendAll, PathComponents, Depth, Reach;
    match mv {
      case HomeFrom(path) => StopShort(s, path);
      case Into(path) => StopShort(s, path);
      case Back => StopShort(s, pl.cwd);
      case GrowHome(rel) =>
        var cs := PathComponents(rel);
        assert cs[..|cs|] == cs;
        GrownShort(pl.cwd, rel, |cs|);
      case GrowInto(rel) =>
        GrownShort(pl.cwd, rel, Depth(s, s.root, PathComponents(rel)));
    }
  }

  lemma LookupLength(s: Store, pl: Place, path: string, n: nat)
    requires Absolute(path) && Absolute(pl.cwd) && |path| <= n && |pl.cwd| <= n
    ensures |MovedAll(s, pl, LookupMoves(s, path)).cwd| <= n
  {
    hide Moved, MovedAll, GetDirEnt, StopOf, Dirname;
    DirnameShort(path);
    DirnameAbsolute(path);
    OneMove(s, pl, Back);
    OneMove(s, pl, Into(Dirname(path)));
    MoveLength(s, pl, Back, n);
    MoveLength(s, pl, Into(Dirname(path)), n);
  }

  lemma RenameLength(s: Store, pl: Place, src: string, dst: string, n: nat)
    requires Absolute(src) && Absolute(dst) && Absolute(pl.cwd) && |src| <= n && |dst| <= n && |pl.cwd| <= n
    ensures |MovedAll(s, pl, RenameMoves(s, src, dst)).cwd| <= n
  {
    hide MovedAll, LookupMoves, Dirname, DentryAt, ParentSector, PathRewrite.Fuse2AmigaDosW;
    DirnameAbsolute(src);
    DirnameAbsolute(dst);
    DirnameShort(src);
    DirnameShort(dst);
    OneMove(s, pl, Back);
    var srcDir := PathRewrite.Fuse2AmigaDosW(Dirname(src));
    var dstDir := PathRewrite.Fuse2AmigaDosW(Dirname(dst));
    if srcDir.Some? && dstDir.Some? {
      PathRewrite.Fuse2AmigaDosShape(Dirname(src));
      PathRewrite.Fuse2AmigaDosShape(Dirname(dst));
      var a, b := LookupMoves(s, srcDir.value), LookupMoves(s, dstDir.value);
      LookupLength(s, pl, srcDir.value, n);
      MovesAbsolute(s, pl, a);
      LookupLength(s, MovedAll(s, pl, a), dstDir.value, n);
      MovedConcat(s, pl, a, b);
      assert a + [] == a;
    }
  }

  lemma MakeLength(s: Store, pl: Place, path: string)
    requires Absolute(path) && Absolute(pl.cwd)
    ensures |MovedAll(s, pl, MakeMoves(s, path)).cwd| <= |pl.cwd| + |path|
  {
    hide MovedAll, Moved, Dirname, SkipSlashes, ParentDir;
    OneMove(s, pl, Back);
    var rel := SkipSlashes(path);
    if rel != "" {
      var d := Dirname(rel);
      SkipShortens(path);
      DirnameShort(rel);
      RelativeDirname(rel);
      OneMove(s, pl, GrowHome(d));
      OneMove(s, pl, GrowInto(d));
      MoveLength(s, pl, GrowHome(d), |pl.cwd| + |path|);
      MoveLength(s, pl, GrowInto(d), |pl.cwd| + |path|);
    }
  }

  lemma FileLength(s: Store, pl: Place, path: string, n: nat)
    requires Absolute(path) && Absolute(pl.cwd) && |path| <= n && |pl.cwd| <= n
    ensures |Moved(s, pl, Back).cwd| <= n && |Moved(s, pl, Into(Dirname(path))).cwd| <= n
    ensures |Moved(s, pl, HomeFrom(Dirname(path))).cwd| <= n && |Moved(s, pl, HomeFrom(path)).cwd| <= n
  {
    hide Moved, Dirname;
    DirnameShort(path);
    DirnameAbsolute(path);
    MoveLength(s, pl, Back, n);
    MoveLength(s, pl, Into(Dirname(path)), n);
    MoveLength(s, pl, HomeFrom(Dirname(path)), n);
    MoveLength(s, pl, HomeFrom(path), n);
  }

  lemma OneMoveLength(s: Store, pl: Place, op: Op, n: nat)
    requires AbsoluteOp(op) && Absolute(pl.cwd) && !op.Rename? && !op.Chmod? && !Makes(op)
    requires |PathOf(op)| <= n && |pl.cwd| <= n
    ensures |MovedAll(s, pl, Moves(s, op)).cwd| <= n
  {
    hide Moved, MovedAll, FileOf, SkipSlashes, ParentDir, Dirname;
    var path := PathOf(op);
    FileLength(s, pl, path, n);
    OneMove(s, pl, Back);
    OneMove(s, pl, Into(Dirname(path)));
    OneMove(s, pl, HomeFrom(Dirname(path)));
    OneMove(s, pl, HomeFrom(path));
  }

  lemma StepLength(st: State, op: Op)
    requires AbsoluteOp(op) && Absolute(st.cwd)
    ensures |Step(st, op).0.cwd| <= LengthAfter(|st.cwd|, op)
  {
    StepPlace(st, op);
    PlaceLength(st.store, PlaceOf(st), op);
    hide Step, MovedAll, Moves, LengthAfter;
  }

  lemma PlaceLength(s: Store, pl: Place, op: Op)
    requires AbsoluteOp(op) && Absolute(pl.cwd)
    ensures |MovedAll(s, pl, Moves(s, op)).cwd| <= LengthAfter(|pl.cwd|, op)
  {
    hide MovedAll, Moves, Makes, LookupMoves, MakeMoves, RenameMoves;
    var n := LengthAfter(|pl.cwd|, op);
    MovesAre(s, op);
    if Makes(op) {
      MakeLength(s, pl, op.path);
    } else if op.Rename? {
      RenameLength(s, pl, op.src, op.dst, n);
    } else if op.Chmod? {
      LookupLength(s, pl, op.path, n);
    } else {
      OneMoveLength(s, pl, op, n);
    }
  }

  lemma MovesAre(s: Store, op: Op)
    ensures Makes(op) ==> !op.Rename? && Moves(s, op) == MakeMoves(s, op.path)
    ensures op.Rename? ==> Moves(s, op) == RenameMoves(s, op.src, op.dst)
    ensures op.Chmod? ==> Moves(s, op) == LookupMoves(s, op.path)
  {
    hide LookupMoves, MakeMoves, RenameMoves, FileMoves, ParentDir, SkipSlashes;
  }

  lemma {:induction false} BudgetGrows(a: nat, b: nat, ops: seq<Op>)
    requires a <= b
    ensures a <= LengthBudget(a, ops) <= LengthBudget(b, ops)
    decreases |ops|
  {
    if ops != [] {
      BudgetGrows(LengthAfter(a, ops[0]), LengthAfter(b, ops[0]), ops[1..]);
    }
  }

  // Over a whole run cwd grows by no more than the paths of mkdir, rmdir,
  // create and unlink, from the longest of the others.
  lemma {:induction false} RunLength(st: State, ops: seq<Op>)
    requires Absolute(st.cwd) && forall i :: 0 <= i < |ops| ==> AbsoluteOp(ops[i])
    ensures |Run(st, ops).0.cwd| <= LengthBudget(|st.cwd|, ops)
    decreases |ops|
  {
    hide Step, AbsoluteOp, LengthAfter;
    if ops != [] {
      StepLength(st, ops[0]);
      StepPlace(st, ops[0]);
      RunLength(Step(st, ops[0]).0, ops[1..]);
      BudgetGrows(|Step(st, ops[0]).0.cwd|, LengthAfter(|st.cwd|, ops[0]), ops[1..]);
    }
  }
}
