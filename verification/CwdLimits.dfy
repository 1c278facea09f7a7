// Where the agreement of cwd and position is lost, and how long cwd gets.
module CwdLimits {
  import opened PathStrings
  import opened Volume
  import opened Walking
  import opened ImageState
  import opened CwdMachine

  const ADFIMAGE_MAX_PATH: nat := 1024

  // ------------------------------------------------------------------
  // A directory named "."
  // ------------------------------------------------------------------

  function DotVolume(): Store {
    Store(880, false, Masks(0, 1, 2),
          map[880 := Block(Root, "disk", {}, 0, "", [900], []),
              900 := Block(Dir, ".", {}, 0, "", [], [])], [])
  }

  // The assumption on "." is needed: after a partial descent through such a
  // directory the printed cwd names the root.
  lemma DotNameLosesAgreement()
    ensures !DotFree(DotVolume())
    ensures Agrees(Opened(DotVolume())) && !Agrees(Chdir(Opened(DotVolume()), Print([".", "x"])).0)
  {
    DotSteps();
    DotWalk(DotVolume());
    DotDescent(DotVolume());
    assert ChangeDir(DotVolume(), 880, ".").Some?;
    OpenedAgrees(DotVolume());
    PrintedDot(["."]);
    hide Chdir, PathComponents, Print, ChangeDir;
    assert !Agrees(State(DotVolume(), 900, Print(["."])));
  }

  lemma DotDescent(s: Store)
    requires s.root == 880 && Depth(s, 880, [".", "x"]) == 1 && Reach(s, 880, [".", "x"]) == 900
    ensures Chdir(Opened(s), Print([".", "x"])).0 == State(s, 900, Print(["."]))
  {
    hide Chdir, Depth, Reach, Print, PathComponents;
    PrintParse([".", "x"]);
    ChdirAbsolute(Opened(s), Print([".", "x"]));
    assert [".", "x"][..1] == ["."];
  }

  lemma PrintedDot(cs: seq<string>)
    requires cs == ["."]
    ensures PathComponents(Print(cs)) == [] && Print(cs) != Print([])
  {
    assert Print(cs)[1..] == cs[0];
    assert SkipSlashes(Print(cs)) == cs[0];
  }

  lemma DotSteps()
    ensures ChangeDir(DotVolume(), 880, ".") == Some(900)
    ensures ChangeDir(DotVolume(), 900, "x") == None
  {
    assert FindFolded(DotVolume(), [900], ".") == Some(900);
  }

  lemma DotWalk(s: Store)
    requires ChangeDir(s, 880, ".") == Some(900) && ChangeDir(s, 900, "x") == None
    ensures Depth(s, 880, [".", "x"]) == 1 && Reach(s, 880, [".", "x"]) == 900
  {
    var cs := [".", "x"];
    assert cs[1..] == ["x"];
  }

  // ------------------------------------------------------------------
  // Moving to the root without resetting cwd
  // ------------------------------------------------------------------

  lemma {:induction false} WalkEndsInDir(s: Store, d: Sector, cs: seq<string>)
    requires cs != [] && Walk(s, d, cs).Some?
    ensures IsKind(s, Walk(s, d, cs).value, Dir)
    decreases |cs|
  {
    if |cs| > 1 {
      WalkEndsInDir(s, ChangeDir(s, d, cs[0]).value, cs[1..]);
    }
  }

  // No name leads back to the root, so a state at the root agrees only if it
  // prints as the root.
  lemma AtRootAgrees(r: State)
    requires IsKind(r.store, r.store.root, Root) && r.cur == r.store.root
    ensures Agrees(r) <==> r.cwd == "/"
  {
    var cs := PathComponents(r.cwd);
    if Agrees(r) && cs != [] {
      WalkEndsInDir(r.store, r.store.root, cs);
    }
  }

  lemma AppendAllIsRoot(cwd: string, cs: seq<string>)
    requires Absolute(cwd) && (cs != [] ==> cs[0] != "")
    ensures AppendAll(cwd, cs) == "/" <==> cwd == "/" && cs == []
  {
    if cs != [] {
      AppendAllJoin(cwd, cs);
      JoinLonger(cs);
    }
  }

  // mkdir, rmdir, unlink and create that got into the parent directory leave
  // cwd and position in agreement exactly when cwd was "/" and the new or
  // removed entry is in the root directory.
  lemma RootCallsAgreeExactly(st: State, path: string, r: State)
    requires Absolute(st.cwd) && SkipSlashes(path) != ""
    requires Chdir(ToRoot(st), Dirname(SkipSlashes(path))).1
    requires r in {Mkdir(st, path).0, Remove(st, path).0, Create(st, path).0}
    requires IsKind(r.store, r.store.root, Root)
    ensures Agrees(r) <==> st.cwd == "/" && Dirname(SkipSlashes(path)) == "."
  {
    hide Mkdir, Remove, Create, Chdir, Dirname, SkipSlashes, AppendAll, Agrees, PathComponents;
    var d := Dirname(SkipSlashes(path));
    var cs := PathComponents(d);
    RelativeDirname(SkipSlashes(path));
    RelativeWhole(ToRoot(st), d);
    AppendAllIsRoot(st.cwd, cs);
    RootCallsEnd(st, path);
    AtRootAgrees(r);
  }

  // A relative chdir that succeeds has printed every component.
  lemma RelativeWhole(st: State, d: string)
    requires d != "" && !Absolute(d)
    ensures var cs := PathComponents(d);
            && (cs == [] <==> d == ".") && (cs != [] ==> cs[0] != "")
            && (Chdir(st, d).1 ==> Chdir(st, d).0.cwd == AppendAll(st.cwd, cs))
  {
    var cs := PathComponents(d);
    ComponentsPrintable(d);
    assert cs[..|cs|] == cs;
  }

  lemma RootCallsEnd(st: State, path: string)
    requires SkipSlashes(path) != ""
    requires Chdir(ToRoot(st), Dirname(SkipSlashes(path))).1
    ensures var there := Chdir(ToRoot(st), Dirname(SkipSlashes(path))).0;
            forall r :: r in {Mkdir(st, path).0, Remove(st, path).0, Create(st, path).0} ==>
              r.cwd == there.cwd && r.cur == r.store.root
  {
    var there := Chdir(ToRoot(st), Dirname(SkipSlashes(path))).0;
    assert there.store == st.store;
    CallsKeepRoot(there.store, there.cur, Basename(SkipSlashes(path)));
  }

  lemma CallsKeepRoot(s: Store, d: Sector, name: string)
    ensures CreateEntry(s, d, name, Dir).0.root == s.root
    ensures CreateEntry(s, d, name, File).0.root == s.root
    ensures RemoveEntry(s, d, name).0.root == s.root
  {
  }

  // ------------------------------------------------------------------
  // The length of cwd
  // ------------------------------------------------------------------

  // After an absolute chdir cwd is "/" and a prefix of the path behind its
  // leading slashes.
  lemma AbsoluteCwdLength(st: State, path: string)
    requires Absolute(path)
    ensures Absolute(Chdir(st, path).0.cwd) && Chdir(st, path).0.cwd[1..] <= SkipSlashes(path)
    ensures |Chdir(st, path).0.cwd| <= |path|
  {
    var cs := PathComponents(path);
    var k := Depth(st.store, st.store.root, cs);
    ChdirAbsolute(st, path);
    if k > 0 {
      JoinSplit(SkipSlashes(path));
      JoinPrefix(cs, k);
      assert Print(cs[..k])[1..] == Join(cs[..k]);
    }
    SkipShortens(path);
  }

  lemma SkipShortens(path: string)
    requires Absolute(path)
    ensures |SkipSlashes(path)| < |path|
  {
  }

  // A relative chdir adds at most a slash and the path.
  lemma RelativeCwdLength(st: State, path: string)
    requires !Absolute(path) && st.cwd != ""
    ensures |Chdir(st, path).0.cwd| <= |st.cwd| + 1 + |path|
  {
    if path != "" {
      var cs := PathComponents(path);
      var k := Depth(st.store, st.cur, cs);
      ComponentsPrintable(path);
      if k > 0 {
        JoinSplit(SkipSlashes(path));
        JoinPrefix(cs, k);
        AppendAllJoin(st.cwd, cs[..k]);
      }
    }
  }

  // So the buffer suffices whenever the lengths of the inputs say so.
  lemma CwdFits(st: State, path: string)
    requires st.cwd != ""
    requires if Absolute(path) then |path| < ADFIMAGE_MAX_PATH else |st.cwd| + 1 + |path| < ADFIMAGE_MAX_PATH
    ensures |Chdir(st, path).0.cwd| < ADFIMAGE_MAX_PATH
  {
    if Absolute(path) {
      AbsoluteCwdLength(st, path);
    } else {
      RelativeCwdLength(st, path);
    }
  }

  // ------------------------------------------------------------------
  // Successive creates below one directory
  // ------------------------------------------------------------------

  function CreateAll(st: State, paths: seq<string>): State
    decreases |paths|
  {
    if paths == [] then st else CreateAll(Create(st, paths[0]).0, paths[1..])
  }

  // Each call creates its file, in the directory d seen from the root.
  predicate AllCreated(st: State, paths: seq<string>, d: string)
    decreases |paths|
  {
    paths == [] ||
    (&& SkipSlashes(paths[0]) != "" && Dirname(SkipSlashes(paths[0])) == d
     && Create(st, paths[0]).1 == 0
     && AllCreated(Create(st, paths[0]).0, paths[1..], d))
  }

  function Copies(s: string, n: nat): string {
    if n == 0 then "" else Copies(s, n - 1) + s
  }

  function Grown(d: string, n: nat): string {
    if n == 0 then "/" else Copies("/" + d, n)
  }

  lemma CreateCwd(st: State, path: string, d: string)
    requires SkipSlashes(path) != "" && Dirname(SkipSlashes(path)) == d && d != "."
    requires Create(st, path).1 == 0
    ensures d != "" && !Absolute(d)
    ensures Create(st, path).0.cwd == AppendAll(st.cwd, Split(d))
  {
    hide Chdir, Dirname, SkipSlashes, AppendAll, Split, PathComponents;
    RelativeDirname(SkipSlashes(path));
    RelativeWhole(ToRoot(st), d);
    RelativeSplit(d);
  }

  lemma RelativeSplit(d: string)
    requires d != "" && d != "." && !Absolute(d)
    ensures PathComponents(d) == Split(d)
  {
  }

  lemma GrowsOnce(cwd: string, d: string, n: nat)
    requires d != "" && d[0] != '/' && cwd == Grown(d, n)
    ensures AppendAll(cwd, Split(d)) == Grown(d, n + 1)
  {
    var cs := Split(d);
    JoinSplit(d);
    assert IndexOf(d, '/') > 0;
    GrownShape(d, n);
    AppendAllJoin(cwd, cs);
    assert (if cwd == "/" then "" else cwd) == Copies("/" + d, n);
    assert Copies("/" + d, n) + "/" + d == Copies("/" + d, n) + ("/" + d);
  }

  lemma GrownShape(d: string, n: nat)
    requires d != ""
    ensures Grown(d, n) != "" && (Grown(d, n) == "/" <==> n == 0)
    ensures n > 0 ==> |Grown(d, n)| == n * (|d| + 1)
  {
    CopiesLength("/" + d, n);
    if n > 0 {
      assert n * (|d| + 1) >= |d| + 1 by {
        assert n * (|d| + 1) == (n - 1) * (|d| + 1) + (|d| + 1);
      }
    }
  }

  lemma {:induction false} CopiesLength(s: string, n: nat)
    ensures |Copies(s, n)| == n * |s|
  {
    if n > 0 {
      CopiesLength(s, n - 1);
      assert (n - 1) * |s| + |s| == n * |s|;
    }
  }

  // As written, cwd is not reset: creating n files in the directory d turns
  // "/" into n copies of "/d", which outgrows every buffer.
  lemma {:induction false} CreatesGrowCwd(st: State, paths: seq<string>, d: string, n: nat)
    requires d != "." && st.cwd == Grown(d, n) && AllCreated(st, paths, d)
    ensures CreateAll(st, paths).cwd == Grown(d, n + |paths|)
    decreases |paths|
  {
    hide Create, Dirname, SkipSlashes, Split, AppendAll, Grown;
    if paths != [] {
      CreateCwd(st, paths[0], d);
      GrowsOnce(st.cwd, d, n);
      CreatesGrowCwd(Create(st, paths[0]).0, paths[1..], d, n + 1);
    }
  }

  lemma CreatesFitExactly(st: State, paths: seq<string>, d: string)
    requires d != "" && d != "." && st.cwd == "/" && AllCreated(st, paths, d) && paths != []
    ensures |CreateAll(st, paths).cwd| < ADFIMAGE_MAX_PATH <==> |paths| * (|d| + 1) < ADFIMAGE_MAX_PATH
  {
    hide Create, CreateAll, AllCreated, Copies;
    CreatesGrowCwd(st, paths, d, 0);
    GrownShape(d, |paths|);
  }
}
