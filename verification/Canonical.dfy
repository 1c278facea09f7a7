// Canonical paths, the form in which FUSE passes them: an absolute path
// printed from plain names. The two routes to a directory, and chmod followed
// by getattr.
module Canonical {
  import opened PathStrings
  import opened Volume
  import opened VolumeLaws
  import opened Permissions
  import opened Walking
  import opened ImageState
  import opened CwdMachine
  import opened FuseState
  import opened Reference
  import opened DirView

  predicate PlainName(n: string) {
    n != "" && '/' !in n && n != "." && n != ".."
  }

  predicate PlainNames(cs: seq<string>) {
    forall i :: 0 <= i < |cs| ==> PlainName(cs[i])
  }

  lemma PlainPrintable(cs: seq<string>)
    requires PlainNames(cs)
    ensures Printable(cs) && PathComponents(Print(cs)) == cs
  {
    PrintParse(cs);
  }

  lemma PrintSnoc(cs: seq<string>, n: string)
    ensures Print(cs + [n]) == (if cs == [] then "" else Print(cs)) + "/" + n
  {
    if cs == [] {
      assert cs + [n] == [n];
    } else {
      JoinSnoc(cs, n);
    }
  }

  lemma PrintEndsPlain(cs: seq<string>)
    requires PlainNames(cs) && cs != []
    ensures Print(cs)[|Print(cs)| - 1] != '/'
  {
    var init, n := cs[..|cs| - 1], cs[|cs| - 1];
    assert cs == init + [n];
    PrintSnoc(init, n);
  }

  // dirname and basename undo the printing of the last component.
  lemma PrintedParent(cs: seq<string>, n: string)
    requires PlainNames(cs) && PlainName(n)
    ensures Dirname(Print(cs + [n])) == Print(cs) && Basename(Print(cs + [n])) == n
    ensures SkipSlashes(Print(cs + [n])) != ""
  {
    hide Print, Dirname, Basename;
    var d := if cs == [] then "" else Print(cs);
    PrintSnoc(cs, n);
    DirnameOfJoined(d, n);
    EndsInName(d + "/", n);
    if cs == [] {
      PrintNothing();
    } else {
      PrintEndsPlain(cs);
    }
  }

  lemma PrintNothing()
    ensures Print([]) == "/" && PathComponents("/") == []
  {
    NoComponents();
  }

  // ------------------------------------------------------------------
  // Two routes to a directory
  // ------------------------------------------------------------------

  // The entry found for a path whose parent directory resolves.
  lemma DentryOfPrinted(s: Store, cs: seq<string>, n: string)
    requires PlainNames(cs) && PlainName(n) && Walk(s, s.root, cs).Some?
    ensures ParentDir(s, Print(cs + [n])) == Walk(s, s.root, cs)
    ensures DentryAt(s, Print(cs + [n])) == FindExact(GetDirEnt(s, Walk(s, s.root, cs).value), n)
  {
    hide Print, Dirname, Basename, Walk, Reach, GetDirEnt, FindExact, SkipSlashes;
    PrintedParent(cs, n);
    PlainPrintable(cs);
    LongestPrefix(s, s.root, cs);
    assert SkipSlashes("/") == "" by { SkipSlash(); }
  }

  lemma SkipSlash()
    ensures SkipSlashes("/") == ""
  {
  }

  // For a path that chdir resolves, getdentry finds an entry iff the last
  // component is spelled as listed, and the entry leads to the directory that
  // chdir reaches: by its own sector for a directory, by the linked sector for
  // a directory link. Both from any states of the volume.
  lemma TwoRoutesAgree(st: State, other: State, cs: seq<string>, n: string)
    requires Valid(st.store) && other.store == st.store && PlainNames(cs) && PlainName(n)
    requires Chdir(other, Print(cs + [n])).1
    ensures Walk(st.store, st.store.root, cs).Some?
    ensures var d := Walk(st.store, st.store.root, cs).value;
            var e := GetDentry(st, Print(cs + [n])).1;
            && (e.Some? <==> n in EntryNames(GetDirEnt(st.store, d)))
            && (e.Some? && ParentSector(e.value).Some? ==>
                  ParentSector(e.value) == Some(Chdir(other, Print(cs + [n])).0.cur))
            && (e.Some? ==> e.value.kind == Dir || e.value.kind == LinkDir || e.value.kind == LinkFile)
  {
    hide Chdir, GetDentry, Print, GetDirEnt, FindExact, Valid, Dirname, Basename;
    var s := st.store;
    PlainPrintable(cs + [n]);
    ChdirForgets(other, Print(cs + [n]));
    WalkConcat(s, s.root, cs, [n]);
    var d := Walk(s, s.root, cs).value;
    GetDentryForgets(st, Print(cs + [n]));
    DentryOfPrinted(s, cs, n);
    FindExactNames(GetDirEnt(s, d), n);
    OneStep(s, d, n);
    EntryLeads(s, d, n);
  }

  lemma OneStep(s: Store, d: Sector, n: string)
    ensures Walk(s, d, [n]) == ChangeDir(s, d, n)
  {
    match ChangeDir(s, d, n)
    case None =>
    case Some(t) => assert [n][1..] == [];
  }

  // An entry found by its exact name is the one a lookup would enter.
  lemma EntryLeads(s: Store, d: Sector, n: string)
    requires Valid(s) && ChangeDir(s, d, n).Some?
    ensures var e := FindExact(GetDirEnt(s, d), n);
            e.Some? ==>
              && Lookup(s, d, n) == Some(e.value.sector)
              && (ParentSector(e.value).Some? ==> ParentSector(e.value) == ChangeDir(s, d, n))
              && (e.value.kind == Dir || e.value.kind == LinkDir || e.value.kind == LinkFile)
  {
    var e := FindExact(GetDirEnt(s, d), n);
    if e.Some? {
      FoundIsChild(s, d, n);
      var c := e.value.sector;
      SameNameRefl(s.intl, n);
      LookupIs(s, d, n, c);
      hide SameName, FindExact, GetDirEnt, Lookup, NamesUnique, OnePlace;
      assert c in Children(s, d);
    }
  }

  lemma SameNameRefl(intl: bool, n: string)
    ensures SameName(intl, n, n)
  {
  }

  lemma FoundIsChild(s: Store, d: Sector, n: string)
    requires FindExact(GetDirEnt(s, d), n).Some?
    ensures var c := FindExact(GetDirEnt(s, d), n).value.sector;
            && c in Children(s, d) && c in s.blocks && s.blocks[c].name == n
            && FindExact(GetDirEnt(s, d), n).value == EntryOf(s, c)
  {
    var list := GetDirEnt(s, d);
    var i :| 0 <= i < |list| && list[i] == FindExact(list, n).value;
    assert list[i] == EntryOf(s, Children(s, d)[i]);
  }

  // ------------------------------------------------------------------
  // chmod, then getattr
  // ------------------------------------------------------------------

  // The entry keeps everything but its access word. The user bits read back
  // for a file are the downward closure of those set, hence equal to them
  // exactly when no right is granted without the one before it in the order
  // R, W, X; the group and other bits are copies. The bits of the access word
  // that are not translated are kept only if nothing is granted.
  predicate ReadBack(m: Masks, mode: Mode, before: Option<Entry>, after: Option<Entry>, rc: int, stat: Stat) {
    && before.Some? && after.Some? && after.value == before.value.(access := after.value.access)
    && Others(m, after.value.access) == (if mode.user == NO_RIGHTS then Others(m, before.value.access) else {})
    && rc == 0
    && (before.value.kind == File || before.value.kind == LinkFile ==>
          && stat.mode == FileMode(DownClosure(mode.user))
          && (stat.mode.user == mode.user <==> (mode.user.x ==> mode.user.w) && (mode.user.w ==> mode.user.r)))
    && (before.value.kind == Dir || before.value.kind == LinkDir ==> stat.mode == DirMode(DownClosure(mode.user)))
  }

  // A successful chmod, then getattr, end to end and as written.
  lemma ChmodThenGetattr(st: State, path: string, mode: Mode)
    requires Valid(st.store) && MasksApart(st.store.masks) && Absolute(path) && SkipSlashes(path) != ""
    requires ParentDir(st.store, path).Some?
    requires Step(st, Chmod(path, mode)).1 == Status(0)
    ensures var st2 := Step(st, Chmod(path, mode)).0;
            ReadBack(st.store.masks, mode, DentryAt(st.store, path), DentryAt(st2.store, path),
                     GetattrStep(st2, path).1, GetattrStep(st2, path).2)
  {
    hide Step, GetattrStep, GetattrRef, ChmodRef, DentryAt, ReadBack, ParentDir, Valid, SkipSlashes, MasksApart;
    ChmodForgets(st, path, mode);
    ChmodReadBack(st.store, path, mode);
    GetattrForgets(Step(st, Chmod(path, mode)).0, path);
  }

  lemma ChmodReadBack(s: Store, path: string, mode: Mode)
    requires Valid(s) && MasksApart(s.masks) && SkipSlashes(path) != "" && ParentDir(s, path).Some?
    requires ChmodRef(s, path, mode).1 == Status(0)
    ensures var t := ChmodRef(s, path, mode).0;
            ReadBack(s.masks, mode, DentryAt(s, path), DentryAt(t, path), GetattrRef(t, path).0, GetattrRef(t, path).1)
  {
    hide Basename, SkipSlashes, GetDirEnt, FindExact, SetPerm, GetPerm, Others, Valid, SizeOfFile, DentryAt, ParentDir,
         DownClosure, ChmodRef, MasksApart, Reach, PathComponents;
    ChmodEntry(s, path, mode);
    WrittenReadback(s.masks, DentryAt(s, path).value.access, mode.user);
    SameClosure(mode.user);
  }

  lemma SameClosure(p: Rwx)
    ensures DownClosure(p) == p <==> (p.x ==> p.w) && (p.w ==> p.r)
  {
  }

  // chmod changes the access word of the entry and nothing else about it.
  lemma ChmodEntry(s: Store, path: string, mode: Mode)
    requires Valid(s) && SkipSlashes(path) != "" && ParentDir(s, path).Some?
    requires ChmodRef(s, path, mode).1 == Status(0)
    ensures var t, before := ChmodRef(s, path, mode).0, DentryAt(s, path);
            && before.Some? && t.masks == s.masks && ParentDir(t, path) == ParentDir(s, path)
            && DentryAt(t, path) == Some(before.value.(access := SetPerm(s.masks, before.value.access, mode.user)))
            && FindExact(GetDirEnt(t, ParentDir(s, path).value), Basename(path)) == DentryAt(t, path)
  {
    hide Walk, Dirname, Basename, SkipSlashes, PathComponents, GetDirEnt, FindExact, SetPerm, Valid, Reach, SetAccess;
    var d := ParentDir(s, path).value;
    DentryInParent(s, path);
    FoundIsChild(s, d, Basename(path));
    var c := DentryAt(s, path).value.sector;
    var access := SetPerm(s.masks, s.blocks[c].access, mode.user);
    var t := SetAccess(s, c, access);
    ReaccessedEntry(s, d, Basename(path), c, access);
    AccessKeepsTree(s, c, access);
    AccessKeepsMasks(s, c, access);
    SameTreeWalk(s, t, s.root, PathComponents(Dirname(path)));
    DentryInParent(t, path);
  }

  lemma DentryInParent(s: Store, path: string)
    requires SkipSlashes(path) != "" && ParentDir(s, path).Some?
    ensures DentryAt(s, path) == FindExact(GetDirEnt(s, ParentDir(s, path).value), Basename(path))
  {
    hide Walk, Dirname, Basename, SkipSlashes, PathComponents, GetDirEnt, FindExact, Reach;
    SlashHasNoName(path);
    LongestPrefix(s, s.root, PathComponents(Dirname(path)));
  }

  lemma AccessKeepsMasks(s: Store, c: Sector, access: Word)
    requires c in s.blocks
    ensures SetAccess(s, c, access).masks == s.masks && SetAccess(s, c, access).root == s.root
  {
  }

  lemma SlashHasNoName(path: string)
    requires SkipSlashes(path) != ""
    ensures path != "/"
  {
    SkipSlash();
  }

  lemma ReaccessedEntry(s: Store, d: Sector, n: string, c: Sector, access: Word)
    requires Valid(s) && c in Children(s, d) && c in s.blocks && s.blocks[c].name == n
    ensures FindExact(GetDirEnt(SetAccess(s, c, access), d), n) == Some(EntryOf(s, c).(access := access))
  {
    var t := SetAccess(s, c, access);
    SameShapeValid(s, t);
    FindExactIs(t, d, n, c);
  }

  // chmod does not look whether the dirname resolves: on a path without such
  // a directory getattr fails, while chmod changes the entry of that name in
  // the longest resolvable prefix, if there is one.
  lemma ChmodWithoutDirectory(st: State, path: string, mode: Mode)
    requires Absolute(path) && SkipSlashes(path) != "" && ParentDir(st.store, path).None?
    ensures GetattrStep(st, path).1 == -ENOENT
    ensures var s := st.store;
            var e := FindExact(GetDirEnt(s, Reach(s, s.root, PathComponents(Dirname(path)))), Basename(path));
            Step(st, Chmod(path, mode)).1 == Status(0) <==> e.Some? && e.value.kind != Unsupported
  {
    hide Step, GetattrStep, Walk, Dirname, Basename, SkipSlashes, PathComponents, GetDirEnt, FindExact, SetPerm, Reach;
    var s := st.store;
    ChmodForgets(st, path, mode);
    GetattrForgets(st, path);
    SlashHasNoName(path);
    var d := Reach(s, s.root, PathComponents(Dirname(path)));
    if FindExact(GetDirEnt(s, d), Basename(path)).Some? {
      FoundIsChild(s, d, Basename(path));
    }
  }
}
