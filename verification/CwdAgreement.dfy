// Which FUSE operations keep cwd and position in agreement: exactly, for all
// thirteen. A rename keeps it unless it cuts the way that cwd prints.
module CwdAgreement {
  import opened PathStrings
  import opened Volume
  import opened Walking
  import opened ImageState
  import opened CwdMachine
  import opened FuseState
  import opened Reference
  import opened Canonical
  import opened Renaming
  import opened RenameEffects
  import opened RenameCalls
  import opened Positions
  import opened CwdRuns
  import opened PathRewrite

  // ------------------------------------------------------------------
  // A renamed entry on the way that cwd prints
  // ------------------------------------------------------------------

  lemma TookAgrees(st: State, t: Store, p: Sector, q: Sector, c: Sector, m: string)
    requires Agrees(st) && Took(st.store, t, p, q, c, m)
    ensures c in st.store.blocks
    ensures Agrees(st.(store := t)) <==>
              || !Uses(st.store, st.store.root, PathComponents(st.cwd), p, c)
              || (p == q && SameName(st.store.intl, m, st.store.blocks[c].name))
  {
    var s, cs := st.store, PathComponents(st.cwd);
    TookFacts(s, t, p, q, c, m);
    hide Took, Uses, Walk, PathComponents, Print, SameName, Valid;
    if Uses(s, s.root, cs, p, c) {
      WalkThrough(s, t, p, q, c, m, s.root, cs);
    } else {
      WalkKept(s, t, p, q, c, m, s.root, cs);
    }
  }

  // The parent that rename takes for a path.
  function ParentTaken(s: Store, path: string): Option<Sector> {
    match Fuse2AmigaDosW(Dirname(path))
    case None => None
    case Some(dir) =>
      match DentryAt(s, dir)
      case None => None
      case Some(e) => ParentSector(e)
  }

  // The way cwd prints leads through the entry that rename moves away.
  predicate CutsCwd(s: Store, cwd: string, src: string, dst: string) {
    var p, q := ParentTaken(s, src), ParentTaken(s, dst);
    && p.Some? && q.Some? && Lookup(s, p.value, Basename(src)).Some?
    && Uses(s, s.root, PathComponents(cwd), p.value, Lookup(s, p.value, Basename(src)).value)
    && !RespellsOnly(s, p.value, Basename(src), q.value, Basename(dst))
  }

  lemma RenameChanges(s: Store, src: string, dst: string)
    ensures var (t, answer) := RenameRef(s, src, dst);
            var p, q := ParentTaken(s, src), ParentTaken(s, dst);
            if answer == Status(0) then
              p.Some? && q.Some? && RenameEntry(s, p.value, Basename(src), q.value, Basename(dst)) == (t, true)
            else t == s
  {
    hide DentryAt, Dirname, Basename, RenameEntry, Fuse2AmigaDosW, ParentSector;
    forall p, n, q, m {
      FailedRenameKeeps(s, p, n, q, m);
    }
  }

  // Looking a parent up leaves an agreeing state agreeing, and unchanged when
  // it is found.
  lemma LookupAgrees(st: State, path: string)
    requires Agrees(st) && DotFree(st.store) && Absolute(path)
    ensures var pl := MovedAll(st.store, PlaceOf(st), LookupMoves(st.store, path));
            && Agrees(At(st.store, pl))
            && (DentryAt(st.store, path).Some? ==> pl == PlaceOf(st))
  {
    hide Agrees, DotFree, MovedAll, Moved, Dirname, StopOf, DentryAt, GetDirEnt, PathComponents, Print, At, Walk;
    var s, pl := st.store, PlaceOf(st);
    AtPlace(st);
    AgreesParts(st);
    StopWhole(s, st.cwd);
    FoundNotEmpty(s, path);
    OneMove(s, pl, Back);
    OneMove(s, pl, Into(Dirname(path)));
    IntoAgrees(s, pl, Dirname(path));
    BackIsStop(s, pl);
  }

  lemma BackIsStop(s: Store, pl: Place)
    ensures Moved(s, pl, Back) == StopOf(s, pl.cwd)
  {
    hide StopOf;
  }

  lemma FoundNotEmpty(s: Store, path: string)
    ensures path != "/" && DentryAt(s, path).Some? ==> GetDirEnt(s, StopOf(s, Dirname(path)).cur) != []
  {
    hide GetDirEnt, Reach, Dirname, Basename, PathComponents, Print, Depth;
  }

  lemma RenamePlaceAgrees(st: State, src: string, dst: string)
    requires Agrees(st) && DotFree(st.store) && Absolute(src) && Absolute(dst)
    ensures var pl := MovedAll(st.store, PlaceOf(st), RenameMoves(st.store, src, dst));
            && Agrees(At(st.store, pl))
            && (RenameRef(st.store, src, dst).1 == Status(0) ==> pl == PlaceOf(st))
  {
    hide Agrees, DotFree, MovedAll, LookupMoves, Dirname, Basename, DentryAt, ParentSector, Fuse2AmigaDosW, At,
         RenameIn;
    var s, pl := st.store, PlaceOf(st);
    DirnameAbsolute(src);
    DirnameAbsolute(dst);
    AtPlace(st);
    OneMove(s, pl, Back);
    var srcDir, dstDir := Fuse2AmigaDosW(Dirname(src)), Fuse2AmigaDosW(Dirname(dst));
    if srcDir.Some? && dstDir.Some? {
      Fuse2AmigaDosShape(Dirname(src));
      Fuse2AmigaDosShape(Dirname(dst));
      var a, b := LookupMoves(s, srcDir.value), LookupMoves(s, dstDir.value);
      LookupAgrees(st, srcDir.value);
      var mid := At(s, MovedAll(s, pl, a));
      PlaceBack(s, MovedAll(s, pl, a));
      LookupAgrees(mid, dstDir.value);
      MovedConcat(s, pl, a, b);
      assert a + [] == a;
    }
  }

  lemma PlaceBack(s: Store, pl: Place)
    ensures PlaceOf(At(s, pl)) == pl && At(s, pl).store == s
  {
  }

  // rename in an agreeing state: it fails, or does not cut the way that cwd
  // prints, exactly when cwd and position agree afterwards.
  lemma RenameAgreesExactly(st: State, src: string, dst: string)
    requires Agrees(st) && Valid(st.store) && Absolute(src) && Absolute(dst) && ValidName(Basename(dst))
    ensures var (after, answer) := Step(st, FuseState.Rename(src, dst));
            Agrees(after) <==> answer != Status(0) || !CutsCwd(st.store, st.cwd, src, dst)
  {
    hide *;
    var op := FuseState.Rename(src, dst);
    var after := Step(st, op).0;
    RenameOpIs(st.store, src, dst);
    AgreesParts(st);
    ValidIsDotFree(st.store);
    RenameForgets(st, src, dst);
    StepPlace(st, op);
    RenamePlaceAgrees(st, src, dst);
    RenameChanges(st.store, src, dst);
    AtPlace(after);
    AtPlace(st);
    if Step(st, op).1 == Status(0) {
      AtIs(st, after.store);
      CutExactly(st, after.store, src, dst);
    }
  }

  lemma RenameOpIs(s: Store, src: string, dst: string)
    requires Absolute(src) && Absolute(dst)
    ensures AbsoluteOp(FuseState.Rename(src, dst))
    ensures Moves(s, FuseState.Rename(src, dst)) == RenameMoves(s, src, dst)
  {
    hide RenameMoves;
  }

  lemma AtIs(st: State, t: Store)
    ensures At(t, PlaceOf(st)) == st.(store := t)
  {
  }

  lemma CutExactly(st: State, t: Store, src: string, dst: string)
    requires Agrees(st) && Valid(st.store) && ValidName(Basename(dst))
    requires ParentTaken(st.store, src).Some? && ParentTaken(st.store, dst).Some?
    requires RenameEntry(st.store, ParentTaken(st.store, src).value, Basename(src),
                         ParentTaken(st.store, dst).value, Basename(dst)) == (t, true)
    ensures Agrees(st.(store := t)) <==> !CutsCwd(st.store, st.cwd, src, dst)
  {
    hide ParentTaken, Agrees, Valid, ValidName, Basename, RenameEntry, Lookup, Uses, PathComponents, SameName, Took;
    var s, n, m := st.store, Basename(src), Basename(dst);
    var p, q := ParentTaken(s, src).value, ParentTaken(s, dst).value;
    if p == q && n == m {
      SameRename(s, p, n);
      SameNameRefl(s.intl, n);
      assert st.(store := t) == st;
    } else {
      RenameTook(s, p, n, q, m);
      var c := Lookup(s, p, n).value;
      TookAgrees(st, t, p, q, c, m);
      RespellsEntry(s, p, n, c, m);
    }
  }

  lemma SameRename(s: Store, p: Sector, n: string)
    ensures RenameEntry(s, p, n, p, n) == (s, true)
  {
  }

  // ------------------------------------------------------------------
  // All operations
  // ------------------------------------------------------------------

  predicate KeepsAgreement(st: State, op: Op) {
    var s := st.store;
    if KeepsNames(op) then AgreesAfterLooking(st, op)
    else if op.Rename? then RenameRef(s, op.src, op.dst).1 != Status(0) || !CutsCwd(s, st.cwd, op.src, op.dst)
    else if SkipSlashes(op.path) == "" then true
    else
      var cs := PathComponents(Dirname(op.path));
      var walked := cs[..Depth(s, s.root, cs)];
      if ParentDir(s, op.path).Some? then st.cwd == "/" && cs == []
      else Walk(s, s.root, PathComponents(st.cwd) + walked) == Walk(s, s.root, walked)
  }

  // Every FUSE operation on absolute paths, called in an agreeing state of a
  // well-formed volume, leaves an agreeing state exactly when this holds.
  lemma AgreementExactly(st: State, op: Op)
    requires Agrees(st) && Valid(st.store) && AbsoluteOp(op)
    requires op.Rename? ==> ValidName(Basename(op.dst))
    ensures Agrees(Step(st, op).0) <==> KeepsAgreement(st, op)
  {
    AgreesParts(st);
    ValidIsDotFree(st.store);
    ValidRoot(st.store);
    hide Agrees, Valid, DotFree, ValidName, Step, AgreesAfterLooking, CutsCwd, RenameRef, SkipSlashes, Dirname,
         Basename,
         PathComponents, Depth, Walk, ParentDir;
    if KeepsNames(op) {
      KeepsAgreementExactly(st, op);
    } else if op.Rename? {
      RenameForgets(st, op.src, op.dst);
      RenameAgreesExactly(st, op.src, op.dst);
    } else if SkipSlashes(op.path) == "" {
      RootMakeKeeps(st, op);
    } else if ParentDir(st.store, op.path).Some? {
      ReachedMakeAgreesExactly(st, op);
    } else {
      FailedMakeAgreesExactly(st, op);
    }
  }

  // ------------------------------------------------------------------
  // A rename that loses the agreement
  // ------------------------------------------------------------------

  // A read of the missing file /d/nope leaves cwd and position in /d; renaming
  // /d to /f then succeeds, and cwd leads nowhere.
  lemma RenameLosesAgreement(size: int, offset: int)
    ensures var st := Step(Opened(TwoDirectories()), Read("/d/nope", size, offset)).0;
            var (after, answer) := Step(st, FuseState.Rename("/d", "/f"));
            && Agrees(st) && st.cwd == "/d" && st.cur == 900
            && answer == Status(0) && after.cwd == "/d" && after.cur == 900
            && Walk(after.store, after.store.root, PathComponents(after.cwd)).None?
            && !Agrees(after)
  {
    hide *;
    var s := TwoDirectories();
    LosingVolume();
    LosingPaths(s, size, offset);
    LosingRead(s, size, offset);
    LosingRename(State(s, 900, "/d"));
    LosingAgrees(State(s, 900, "/d"));
  }

  lemma LosingVolume()
    ensures var s := TwoDirectories();
            var (t, done) := RenameEntry(s, 880, "d", 880, "f");
            && s.root == 880 && IsKind(s, 880, Root) && done && t.root == 880
            && Walk(s, 880, ["d"]) == Some(900) && FileAt(s, 900, "nope").None?
            && Walk(t, 880, ["d"]).None?
  {
    var s := TwoDirectories();
    FoundD();
    LosingLookups();
    hide FindFolded, SameName;
    assert ["d"][1..] == [];
  }

  lemma FoundD()
    ensures FindFolded(TwoDirectories(), [900, 901], "d") == Some(900)
    ensures FindFolded(TwoDirectories(), [902], "nope").None?
  {
  }

  lemma LosingLookups()
    ensures var s := TwoDirectories();
            var u := Detach(s, 880, 900);
            var t := RenameEntry(s, 880, "d", 880, "f").0;
            && Children(u, 880) == [901] && FindFolded(u, [901], "f").None?
            && Children(t, 880) == [901, 900] && FindFolded(t, [901, 900], "d").None?
  {
    var s := TwoDirectories();
    FoundD();
    OtherLetters();
    assert Without([900, 901], 900) == [901];
    var u := Detach(s, 880, 900);
    hide SameName;
    assert FindFolded(u, [901], "f").None?;
    var t := RenameEntry(s, 880, "d", 880, "f").0;
    assert t.blocks[900].name == "f" && t.blocks[901].name == "e";
    assert [901, 900][1..] == [900];
    assert FindFolded(t, [900], "d").None?;
  }

  lemma OtherLetters()
    ensures !SameName(false, "e", "f") && !SameName(false, "e", "d") && !SameName(false, "f", "d")
  {
    assert Upper('d', false) == 'D' && Upper('e', false) == 'E' && Upper('f', false) == 'F';
    assert "d"[0] == 'd' && "e"[0] == 'e' && "f"[0] == 'f';
  }

  lemma LosingPaths(s: Store, size: int, offset: int)
    ensures Dirname("/d/nope") == "/d" && Basename("/d/nope") == "nope" && PathComponents("/d") == ["d"]
    ensures Dirname("/d") == "/" && Basename("/d") == "d" && Dirname("/f") == "/" && Basename("/f") == "f"
    ensures Print(["d"]) == "/d" && Fuse2AmigaDosW("/") == Some("/")
    ensures Absolute("/d") && Absolute("/f") && Absolute("/d/nope")
  {
    hide Print, Fuse2AmigaDosW, Dirname, Basename, PathComponents, SkipSlashes;
    LosingNames();
    PrintedParent(["d"], "nope");
    PrintedParent([], "d");
    PrintedParent([], "f");
    PlainPrintable(["d"]);
    PrintOne("d");
    PrintOne("f");
    assert "/" + "d" == "/d" && "/" + "f" == "/f" && "/d" + "/" + "nope" == "/d/nope";
    PrintSnoc(["d"], "nope");
    PrintNothing();
    RewriteOfPrinted([]);
    assert [] + ["d"] == ["d"] && [] + ["f"] == ["f"];
  }

  lemma LosingNames()
    ensures PlainName("d") && PlainName("f") && PlainName("nope") && PlainNames(["d"]) && PlainNames([])
    ensures Rewritable([])
  {
  }

  lemma LosingRead(s: Store, size: int, offset: int)
    requires Dirname("/d/nope") == "/d" && Basename("/d/nope") == "nope" && PathComponents("/d") == ["d"]
    requires Print(["d"]) == "/d" && Absolute("/d/nope")
    requires Walk(s, s.root, ["d"]) == Some(900) && FileAt(s, 900, "nope").None?
    ensures Step(Opened(s), Read("/d/nope", size, offset)).0 == State(s, 900, "/d")
  {
    hide Dirname, Basename, PathComponents, Print, Walk, FileAt, Step, FileOf, MovedAll, StopOf, Moves, RefStep;
    var op := Read("/d/nope", size, offset);
    LosingMoves(s, size, offset);
    StepPlace(Opened(s), op);
    StepRefines(Opened(s), op);
    OneMove(s, PlaceOf(Opened(s)), Into("/d"));
    StopWhole(s, "/d");
    AtPlace(Step(Opened(s), op).0);
  }

  lemma LosingMoves(s: Store, size: int, offset: int)
    requires Dirname("/d/nope") == "/d" && Basename("/d/nope") == "nope" && PathComponents("/d") == ["d"]
    requires Walk(s, s.root, ["d"]) == Some(900) && FileAt(s, 900, "nope").None?
    ensures var op := Read("/d/nope", size, offset); Moves(s, op) == [Into("/d")] && RefStep(s, op).0 == s
  {
    hide Dirname, Basename, PathComponents, Walk, FileAt, ReadRef;
  }

  lemma LosingRename(st: State)
    requires Dirname("/d") == "/" && Basename("/d") == "d" && Dirname("/f") == "/" && Basename("/f") == "f"
    requires Fuse2AmigaDosW("/") == Some("/") && Absolute("/d") && Absolute("/f") && st.cwd == "/d"
    requires st.store.root == 880 && IsKind(st.store, 880, Root) && RenameEntry(st.store, 880, "d", 880, "f").1
    ensures Step(st, FuseState.Rename("/d", "/f")) ==
            (st.(store := RenameEntry(st.store, 880, "d", 880, "f").0), Status(0))
  {
    hide Dirname, Basename, Fuse2AmigaDosW, Step, RenameEntry, MovedAll;
    var op := FuseState.Rename("/d", "/f");
    RenameForgets(st, "/d", "/f");
    RenameOpIs(st.store, "/d", "/f");
    StepPlace(st, op);
    OneMove(st.store, PlaceOf(st), Back);
    AtPlace(Step(st, op).0);
  }

  lemma LosingAgrees(st: State)
    requires st.cwd == "/d" && st.cur == 900 && PathComponents("/d") == ["d"] && Print(["d"]) == "/d"
    ensures Agrees(st) <==> Walk(st.store, st.store.root, ["d"]) == Some(900)
    ensures forall t :: Agrees(st.(store := t)) ==> Walk(t, t.root, ["d"]) == Some(900)
  {
    hide PathComponents, Print, Walk;
  }
}
