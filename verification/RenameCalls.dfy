// rename ( src, dst ) on canonical paths: when it returns, which directories
// it acts on, and what every path denotes afterwards.
module RenameCalls {
  import opened PathStrings
  import opened Volume
  import opened VolumeLaws
  import opened Walking
  import opened ImageState
  import opened FuseState
  import opened Reference
  import opened Canonical
  import opened Renaming
  import opened RenameEffects
  import opened PathRewrite

  // ------------------------------------------------------------------
  // The parents that rename takes
  // ------------------------------------------------------------------

  // The entry taken for the parent with the components cs: the entry of its
  // last name in the longest resolvable prefix of the way to it.
  function TakenEntry(s: Store, cs: seq<string>): Option<Entry> {
    if cs == [] then RootDentry(s)
    else FindExact(GetDirEnt(s, Reach(s, s.root, cs[..|cs| - 1])), cs[|cs| - 1])
  }

  function Taken(s: Store, cs: seq<string>): Option<Sector> {
    match TakenEntry(s, cs)
    case None => None
    case Some(e) => ParentSector(e)
  }

  lemma TakenIs(s: Store, cs: seq<string>)
    requires PlainNames(cs)
    ensures DentryAt(s, Print(cs)) == TakenEntry(s, cs)
  {
    if cs == [] {
      PrintNothing();
    } else {
      var init, k := cs[..|cs| - 1], cs[|cs| - 1];
      assert cs == init + [k];
      hide Print, GetDirEnt, FindExact, Reach, Dirname, Basename, PlainName, SkipSlashes;
      PrintedParent(init, k);
      PlainPrintable(init);
      SkipSlash();
    }
  }

  // A taken parent is the directory its path denotes exactly when the way to
  // it resolves, and a link taken for it leads to a directory.
  ghost predicate WayResolves(s: Store, cs: seq<string>) {
    cs == [] || ParentDir(s, Print(cs)).Some?
  }

  lemma TakenDirectory(s: Store, cs: seq<string>)
    requires Valid(s) && PlainNames(cs) && Taken(s, cs).Some? && Taken(s, cs).value != 0
    ensures Walk(s, s.root, cs) == Taken(s, cs) <==>
              WayResolves(s, cs) && (cs == [] || IsKind(s, Taken(s, cs).value, Dir))
  {
    hide Taken, Walk, ParentDir, Print, PlainName, Valid, IsKind;
    if cs == [] {
      TakenRoot(s);
    } else {
      var init, k := cs[..|cs| - 1], cs[|cs| - 1];
      assert cs == init + [k];
      TakenBelow(s, init, k);
    }
  }

  lemma TakenRoot(s: Store)
    requires Taken(s, []).Some?
    ensures Walk(s, s.root, []) == Taken(s, [])
  {
  }

  lemma TakenBelow(s: Store, init: seq<string>, k: string)
    requires Valid(s) && PlainNames(init) && PlainName(k)
    requires Taken(s, init + [k]).Some? && Taken(s, init + [k]).value != 0
    ensures Walk(s, s.root, init + [k]) == Taken(s, init + [k]) <==>
              ParentDir(s, Print(init + [k])).Some? && IsKind(s, Taken(s, init + [k]).value, Dir)
  {
    hide Print, GetDirEnt, FindExact, Reach, Dirname, Basename, PlainName, PlainNames, SkipSlashes, Valid, Walk,
         PathComponents;
    PrintedParent(init, k);
    PlainPrintable(init);
    WalkConcat(s, s.root, init, [k]);
    LongestPrefix(s, s.root, init);
    assert (init + [k])[..|init + [k]| - 1] == init;
    if Walk(s, s.root, init).Some? {
      var d := Walk(s, s.root, init).value;
      OneStep(s, d, k);
      TakenStep(s, d, k);
    }
  }

  lemma TakenStep(s: Store, d: Sector, k: string)
    requires Valid(s) && FindExact(GetDirEnt(s, d), k).Some?
    requires ParentSector(FindExact(GetDirEnt(s, d), k).value).Some?
    requires ParentSector(FindExact(GetDirEnt(s, d), k).value).value != 0
    ensures var x := ParentSector(FindExact(GetDirEnt(s, d), k).value).value;
            ChangeDir(s, d, k) == if IsKind(s, x, Dir) then Some(x) else None
  {
    FoundIsChild(s, d, k);
    var c := FindExact(GetDirEnt(s, d), k).value.sector;
    SameNameRefl(s.intl, k);
    LookupIs(s, d, k, c);
    ChildKind(s, d, c);
    hide SameName, FindExact, GetDirEnt, Lookup, Valid;
  }

  lemma ChildKind(s: Store, d: Sector, c: Sector)
    requires Valid(s) && c in Children(s, d)
    ensures c in s.blocks && s.blocks[c].kind != Root
    ensures s.blocks[c].kind == Dir ==> s.blocks[c].linked == 0
  {
  }

  // ------------------------------------------------------------------
  // When rename succeeds, and on which directories
  // ------------------------------------------------------------------

  // rename of canonical paths does not return exactly when a name on the way to one of the
  // parents confuses the path rewriting.
  lemma RenameHangsExactly(s: Store, cs: seq<string>, n: string, ds: seq<string>, m: string)
    requires PlainNames(cs) && PlainName(n) && PlainNames(ds) && PlainName(m)
    ensures RenameRef(s, Print(cs + [n]), Print(ds + [m])).1 == NoReturn <==> !Rewritable(cs) || !Rewritable(ds)
  {
    hide Print, Dirname, Basename, RenameRef, Fuse2AmigaDosW, PlainName, PlainNames, Rewritable;
    PrintedParent(cs, n);
    PrintedParent(ds, m);
    RewriteOfPrinted(cs);
    RewriteOfPrinted(ds);
    HangsInRewriting(s, Print(cs + [n]), Print(ds + [m]));
  }

  lemma HangsInRewriting(s: Store, src: string, dst: string)
    ensures RenameRef(s, src, dst).1 == NoReturn <==>
              Fuse2AmigaDosW(Dirname(src)).None? || Fuse2AmigaDosW(Dirname(dst)).None?
  {
    hide Dirname, Basename, DentryAt, RenameIn, Fuse2AmigaDosW;
  }

  // rename of canonical paths succeeds exactly when the rewriting returns,
  // parents are found, and the volume renames between them; otherwise it
  // changes nothing.
  lemma RenameActs(s: Store, cs: seq<string>, n: string, ds: seq<string>, m: string)
    requires PlainNames(cs) && PlainName(n) && PlainNames(ds) && PlainName(m)
    ensures var (t, answer) := RenameRef(s, Print(cs + [n]), Print(ds + [m]));
            var p, q := Taken(s, cs), Taken(s, ds);
            && (answer == Status(0) <==>
                  && Rewritable(cs) && Rewritable(ds) && p.Some? && q.Some? && p.value >= 2 && q.value >= 2
                  && RenameEntry(s, p.value, n, q.value, m).1)
            && t == if answer == Status(0) then RenameEntry(s, p.value, n, q.value, m).0 else s
  {
    hide Print, Dirname, Basename, DentryAt, RenameEntry, Fuse2AmigaDosW, PlainName, PlainNames, Rewritable, TakenEntry,
         ParentSector;
    PrintedParent(cs, n);
    PrintedParent(ds, m);
    RewriteOfPrinted(cs);
    RewriteOfPrinted(ds);
    TakenIs(s, cs);
    TakenIs(s, ds);
    forall p, q {
      FailedRenameKeeps(s, p, n, q, m);
    }
  }

  lemma FailedRenameKeeps(s: Store, p: Sector, n: string, q: Sector, m: string)
    ensures !RenameEntry(s, p, n, q, m).1 ==> RenameEntry(s, p, n, q, m).0 == s
  {
  }

  // The sector of a directory, or of the directory a link stands for.
  function DirectoryOf(e: Entry): Option<Sector> {
    if e.kind == Root || e.kind == Dir then Some(e.sector) else if e.kind == LinkDir then Some(e.linked) else None
  }

  // Every answer of rename on canonical paths, in the order of the checks.
  lemma RenameAnswers(s: Store, cs: seq<string>, n: string, ds: seq<string>, m: string)
    requires PlainNames(cs) && PlainName(n) && PlainNames(ds) && PlainName(m)
    ensures var answer := RenameRef(s, Print(cs + [n]), Print(ds + [m])).1;
            if !Rewritable(cs) || !Rewritable(ds) then answer == NoReturn
            else if TakenEntry(s, cs).None? then answer == Status(-2)
            else if DirectoryOf(TakenEntry(s, cs).value).None? then answer == Status(-22)
            else if TakenEntry(s, ds).None? then answer == Status(-2)
            else if DirectoryOf(TakenEntry(s, ds).value).None? then answer == Status(-22)
            else answer == Status(0) || answer == Status(-1)
  {
    hide Print, Dirname, Basename, DentryAt, RenameIn, Fuse2AmigaDosW, PlainName, PlainNames, Rewritable, TakenEntry;
    PrintedParent(cs, n);
    PrintedParent(ds, m);
    RewriteOfPrinted(cs);
    RewriteOfPrinted(ds);
    TakenIs(s, cs);
    TakenIs(s, ds);
    RenameInCodes(s, n, m);
  }

  lemma RenameInCodes(s: Store, n: string, m: string)
    ensures forall p, q :: RenameIn(s, p, n, q, m).1 == 0 || RenameIn(s, p, n, q, m).1 == -1
  {
    hide RenameEntry;
  }

  // On a well-formed volume it succeeds exactly when the paths can be
  // rewritten, directories are taken for the parents, and there is nothing to
  // change, or the old name is found and no other entry has the new one.
  lemma RenameSucceeds(s: Store, cs: seq<string>, n: string, ds: seq<string>, m: string)
    requires Valid(s) && PlainNames(cs) && PlainName(n) && PlainNames(ds) && PlainName(m)
    ensures RenameRef(s, Print(cs + [n]), Print(ds + [m])).1 == Status(0) <==>
              && Rewritable(cs) && Rewritable(ds) && Taken(s, cs).Some? && Taken(s, ds).Some?
              && var p, q := Taken(s, cs).value, Taken(s, ds).value;
                 && p >= 2 && q >= 2
                 && (|| (p == q && n == m)
                     || (&& Lookup(s, p, n).Some? && q in s.blocks
                         && forall a :: a in Children(s, q) && a != Lookup(s, p, n).value ==>
                                          !SameName(s.intl, s.blocks[a].name, m)))
  {
    ReadableEntries(s);
    hide Valid, Print, RenameRef, RenameEntry, Taken, Lookup, SameName, PlainName, PlainNames, Rewritable, Children;
    RenameActs(s, cs, n, ds, m);
    if Taken(s, cs).Some? && Taken(s, ds).Some? {
      RenameSucceedsExactly(s, Taken(s, cs).value, n, Taken(s, ds).value, m);
    }
  }

  lemma ReadableEntries(s: Store)
    requires Valid(s)
    ensures forall d, a :: a in Children(s, d) ==> a in s.blocks
  {
  }

  // As written the way to a parent is not checked. A successful rename acts on
  // the directories its paths denote exactly when the dirname of each parent
  // resolves (and a hard link taken for a parent leads to a directory);
  // otherwise it has acted on an entry of the same last name in the longest
  // resolvable prefix.
  lemma RenameWithoutDirectory(s: Store, cs: seq<string>, n: string, ds: seq<string>, m: string)
    requires Valid(s) && PlainNames(cs) && PlainName(n) && PlainNames(ds) && PlainName(m)
    requires RenameRef(s, Print(cs + [n]), Print(ds + [m])).1 == Status(0)
    ensures Taken(s, cs).Some? && Taken(s, ds).Some?
    ensures Walk(s, s.root, cs) == Taken(s, cs) && Walk(s, s.root, ds) == Taken(s, ds) <==>
              && WayResolves(s, cs) && (cs == [] || IsKind(s, Taken(s, cs).value, Dir))
              && WayResolves(s, ds) && (ds == [] || IsKind(s, Taken(s, ds).value, Dir))
  {
    hide Print, RenameRef, RenameEntry, Valid, PlainName, PlainNames, Rewritable, Taken, WayResolves, Walk;
    RenameActs(s, cs, n, ds, m);
    TakenDirectory(s, cs);
    TakenDirectory(s, ds);
  }

  // A root directory with the directories d, holding the file x, and e.
  function TwoDirectories(): Store {
    Store(880, false, Masks(0, 1, 2),
          map[880 := Block(Root, "disk", {}, 0, "", [900, 901], []),
              900 := Block(Dir, "d", {}, 0, "", [902], []),
              901 := Block(Dir, "e", {}, 0, "", [], []),
              902 := Block(File, "x", {}, 0, "", [], [])], [])
  }

  // Renaming /nope/d/x to /e/y succeeds, from any state of that volume, and
  // moves the file /d/x, although getattr finds nothing at /nope/d/x.
  lemma RenameFromNowhere(st: State)
    requires st.store == TwoDirectories()
    ensures GetattrStep(st, "/nope/d/x").1 == -ENOENT
    ensures var (t, answer) := Step(st, FuseState.Rename("/nope/d/x", "/e/y"));
            answer == Status(0) && Children(t.store, 900) == [] && Children(t.store, 901) == [902]
  {
    hide *;
    NowherePaths();
    NowhereTaken();
    NowhereMoved();
    NowhereMissing(TwoDirectories());
    NowhereActs(TwoDirectories());
    GetattrForgets(st, "/nope/d/x");
    RenameForgets(st, "/nope/d/x", "/e/y");
  }

  lemma NowherePaths()
    ensures Print(["nope", "d"] + ["x"]) == "/nope/d/x" && Print(["e"] + ["y"]) == "/e/y"
    ensures Absolute("/nope/d/x") && Absolute("/e/y") && TwoDirectories().root == 880
  {
    hide Print;
    PrintSnoc(["nope", "d"], "x");
    PrintSnoc(["nope"], "d");
    PrintSnoc(["e"], "y");
    assert ["nope", "d"] == ["nope"] + ["d"];
    PrintOne("nope");
    PrintOne("e");
  }

  lemma NowhereActs(s: Store)
    requires Taken(s, ["nope", "d"]) == Some(900) && Taken(s, ["e"]) == Some(901)
    requires RenameEntry(s, 900, "x", 901, "y").1
    ensures RenameRef(s, Print(["nope", "d"] + ["x"]), Print(["e"] + ["y"])) ==
            (RenameEntry(s, 900, "x", 901, "y").0, Status(0))
  {
    hide *;
    NowherePlain();
    RenameActs(s, ["nope", "d"], "x", ["e"], "y");
  }

  lemma NowherePlain()
    ensures PlainNames(["nope", "d"]) && PlainNames(["e"]) && PlainName("x") && PlainName("y")
    ensures Rewritable(["nope", "d"]) && Rewritable(["e"])
  {
  }

  lemma NowhereTaken()
    ensures Taken(TwoDirectories(), ["nope", "d"]) == Some(900) && Taken(TwoDirectories(), ["e"]) == Some(901)
    ensures Walk(TwoDirectories(), 880, ["nope", "d"]).None?
  {
    var s := TwoDirectories();
    assert ["nope", "d"][..1] == ["nope"] && ["e"][..0] == [];
    NowhereLeads();
    NowhereListed();
    hide ChangeDir, GetDirEnt, FindExact;
  }

  lemma NowhereLeads()
    ensures ChangeDir(TwoDirectories(), 880, "nope").None?
  {
    assert FindFolded(TwoDirectories(), [900, 901], "nope").None?;
  }

  lemma NowhereListed()
    ensures var list := GetDirEnt(TwoDirectories(), 880);
            && FindExact(list, "d") == Some(EntryOf(TwoDirectories(), 900))
            && FindExact(list, "e") == Some(EntryOf(TwoDirectories(), 901))
  {
    var s := TwoDirectories();
    var list := GetDirEnt(s, 880);
    assert list == [EntryOf(s, 900), EntryOf(s, 901)];
    assert list[1..] == [EntryOf(s, 901)];
  }

  lemma NowhereMoved()
    ensures var (t, done) := RenameEntry(TwoDirectories(), 900, "x", 901, "y");
            done && Children(t, 900) == [] && Children(t, 901) == [902]
  {
    var s := TwoDirectories();
    assert FindFolded(s, [902], "x") == Some(902);
    assert Without([902], 902) == [];
  }

  lemma NowhereMissing(s: Store)
    requires Walk(s, s.root, ["nope", "d"]).None?
    ensures GetattrRef(s, Print(["nope", "d"] + ["x"])).0 == -ENOENT
  {
    PrintedParent(["nope", "d"], "x");
    PlainPrintable(["nope", "d"]);
    hide Print, Walk, Dirname, Basename, SkipSlashes, PathComponents;
  }

  // ------------------------------------------------------------------
  // End to end
  // ------------------------------------------------------------------

  // What a successful rename of two different places does to every path. If
  // the new parent is the directory its path denotes, the new path denotes
  // the old entry under its new name iff the way to that parent did not lead
  // through the moved entry (or only the spelling of the name changed). If
  // the old parent is, the old path denotes nothing. Every other entry not
  // reached through the moved one is denoted as before, and no path denotes
  // an entry it did not denote before; and what was found below the old path
  // is found below the new one, and nothing else.
  lemma RenameEndToEnd(s: Store, cs: seq<string>, n: string, ds: seq<string>, m: string)
    requires Valid(s) && PlainNames(cs) && PlainName(n) && PlainNames(ds) && PlainName(m)
    requires RenameRef(s, Print(cs + [n]), Print(ds + [m])).1 == Status(0)
    requires !(Taken(s, cs) == Taken(s, ds) && n == m)
    ensures Taken(s, cs).Some? && Taken(s, ds).Some?
    ensures var p, q := Taken(s, cs).value, Taken(s, ds).value;
            var t := RenameRef(s, Print(cs + [n]), Print(ds + [m])).0;
            && Lookup(s, p, n).Some? && MovedEntry(s, p, n, m).Some?
            && var c := Lookup(s, p, n).value;
               && (Walk(s, s.root, ds) == Some(q) ==>
                     (Denotes(t, Print(ds + [m]), MovedEntry(s, p, n, m).value) <==>
                        !Uses(s, s.root, ds, p, c) || RespellsOnly(s, p, n, q, m)))
               && (Walk(s, s.root, cs) == Some(p) ==> forall e :: !Denotes(t, Print(cs + [n]), e))
               && OthersStay(s, t, p, c) && OthersStay(t, s, q, c)
               && (Walk(s, s.root, cs) == Some(p) && Walk(t, t.root, ds) == Some(q) ==>
                     ContentsFollow(s, cs + [n], t, ds + [m], p, c) && ContentsFollow(t, ds + [m], s, cs + [n], q, c))
  {
    RenameActs(s, cs, n, ds, m);
    hide Valid, Walk, Print, RenameRef, RenameEntry, Took, Uses, Denotes, PlainName, PlainNames, Rewritable, Taken,
         Lookup,
         OthersStay, ContentsFollow;
    var p, q := Taken(s, cs).value, Taken(s, ds).value;
    var t := RenameRef(s, Print(cs + [n]), Print(ds + [m])).0;
    PlainIsValid(m);
    RenameTook(s, p, n, q, m);
    var c := Lookup(s, p, n).value;
    EndToEnd(s, t, cs, n, ds, m, p, q, c);
  }

  lemma PlainIsValid(m: string)
    requires PlainName(m)
    ensures ValidName(m)
  {
  }

  lemma EndToEnd(s: Store, t: Store, cs: seq<string>, n: string, ds: seq<string>, m: string,
                 p: Sector, q: Sector, c: Sector)
    requires Took(s, t, p, q, c, m) && Lookup(s, p, n) == Some(c) && !(p == q && n == m)
    requires PlainNames(cs) && PlainName(n) && PlainNames(ds) && PlainName(m)
    ensures c in s.blocks
    ensures Walk(s, s.root, ds) == Some(q) ==>
              (Denotes(t, Print(ds + [m]), EntryOf(s, c).(name := m)) <==>
                 !Uses(s, s.root, ds, p, c) || RespellsOnly(s, p, n, q, m))
    ensures Walk(s, s.root, cs) == Some(p) ==> forall e :: !Denotes(t, Print(cs + [n]), e)
    ensures OthersStay(s, t, p, c) && OthersStay(t, s, q, c)
    ensures Walk(s, s.root, cs) == Some(p) && Walk(t, t.root, ds) == Some(q) ==>
              ContentsFollow(s, cs + [n], t, ds + [m], p, c) && ContentsFollow(t, ds + [m], s, cs + [n], q, c)
  {
    hide Walk, Print, Took, Uses, Denotes, PlainName, PlainNames, Lookup, OthersStay, ContentsFollow;
    TookBack(s, t, p, q, c, m);
    AllOthersStay(s, t, p, q, c, m);
    AllOthersStay(t, s, q, p, c, s.blocks[c].name);
    if Walk(s, s.root, ds) == Some(q) {
      NewPath(s, t, ds, n, m, p, q, c);
    }
    if Walk(s, s.root, cs) == Some(p) {
      OldPath(s, t, cs, n, m, p, q, c);
      if Walk(t, t.root, ds) == Some(q) {
        NewNameFinds(s, t, p, q, c, m);
        AllContentsFollow(s, cs, n, t, ds, m, p, q, c, m);
        AllContentsFollow(t, ds, m, s, cs, n, q, p, c, s.blocks[c].name);
      }
    }
  }
}
