// The printed cwd as a cache of the real position: when the two agree, which
// operations bring them back, and how long the printed form gets.
module CwdMachine {
  import opened PathStrings
  import opened Volume
  import opened Walking
  import opened ImageState

  // cwd is the printed form of components that lead from the root to the
  // current directory.
  predicate Agrees(st: State) {
    && st.cwd == Print(PathComponents(st.cwd))
    && Walk(st.store, st.store.root, PathComponents(st.cwd)) == Some(st.cur)
  }

  // No directory can be entered under the name ".".
  ghost predicate DotFree(s: Store) {
    forall d :: ChangeDir(s, d, ".").None?
  }

  lemma DotName(intl: bool, n: string)
    requires n != "."
    ensures !SameName(intl, n, ".")
  {
    assert |n| == 1 ==> n == [n[0]];
  }

  lemma ValidIsDotFree(s: Store)
    requires Valid(s)
    ensures DotFree(s)
  {
    forall d
      ensures Lookup(s, d, ".").None?
    {
      forall c | c in Children(s, d)
        ensures !SameName(s.intl, s.blocks[c].name, ".")
      {
        DotName(s.intl, s.blocks[c].name);
      }
    }
  }

  // ------------------------------------------------------------------
  // Printing while walking
  // ------------------------------------------------------------------

  lemma {:induction false} AppendAllJoin(cwd: string, cs: seq<string>)
    requires cs != [] && cwd != "" && (cwd == "/" ==> cs[0] != "")
    ensures AppendAll(cwd, cs) == (if cwd == "/" then "" else cwd) + "/" + Join(cs)
    decreases |cs|
  {
    var next := AppendDir(cwd, cs[0]);
    assert next == (if cwd == "/" then "" else cwd) + "/" + cs[0];
    if |cs| == 1 {
      assert cs[1..] == [];
    } else {
      assert |next| > 1;
      AppendAllJoin(next, cs[1..]);
      assert cs[0] + "/" + Join(cs[1..]) == Join(cs);
    }
  }

  lemma {:induction false} JoinConcat(a: seq<string>, b: seq<string>)
    requires a != [] && b != []
    ensures Join(a + b) == Join(a) + "/" + Join(b)
    decreases |a|
  {
    if |a| == 1 {
      assert (a + b)[1..] == b;
    } else {
      assert (a + b)[1..] == a[1..] + b;
      JoinConcat(a[1..], b);
    }
  }

  // append_dir prints components one by one.
  lemma AppendAllPrint(a: seq<string>, b: seq<string>)
    requires (a != [] ==> a[0] != "") && (b != [] ==> b[0] != "")
    ensures AppendAll(Print(a), b) == Print(a + b)
  {
    if b == [] {
      assert a + b == a;
    } else if a == [] {
      assert a + b == b;
      AppendAllJoin("/", b);
    } else {
      JoinLonger(a);
      AppendAllJoin(Print(a), b);
      JoinConcat(a, b);
    }
  }

  // adfimage_chdir on an absolute path: succeeds iff every component
  // resolves, and stops at the longest resolvable prefix in both forms of the
  // position, whatever the state was before.
  lemma ChdirAbsolute(st: State, path: string)
    requires Absolute(path)
    ensures var cs := PathComponents(path);
            var k := Depth(st.store, st.store.root, cs);
            && Chdir(st, path) ==
               (State(st.store, Reach(st.store, st.store.root, cs), Print(cs[..k])), k == |cs|)
            && (k == |cs| <==> Walk(st.store, st.store.root, cs).Some?)
            && Walk(st.store, st.store.root, cs[..k]) == Some(Reach(st.store, st.store.root, cs))
  {
    var cs := PathComponents(path);
    var k := Depth(st.store, st.store.root, cs);
    ComponentsPrintable(path);
    LongestPrefix(st.store, st.store.root, cs);
    AppendAllPrint([], cs[..k]);
    assert [] + cs[..k] == cs[..k];
  }

  // The same for a relative path from an agreeing state.
  lemma ChdirRelative(st: State, path: string)
    requires path != "" && !Absolute(path) && Agrees(st)
    ensures var a, cs := PathComponents(st.cwd), PathComponents(path);
            var k := Depth(st.store, st.cur, cs);
            && Chdir(st, path) == (State(st.store, Reach(st.store, st.cur, cs), Print(a + cs[..k])), k == |cs|)
            && (k == |cs| <==> Walk(st.store, st.store.root, a + cs).Some?)
            && Walk(st.store, st.store.root, a + cs[..k]) == Some(Reach(st.store, st.cur, cs))
  {
    var a, cs := PathComponents(st.cwd), PathComponents(path);
    var k := Depth(st.store, st.cur, cs);
    WalkOn(st.store, a, st.cur, cs);
    ComponentsPrintable(path);
    ComponentsPrintable(st.cwd);
    AppendAllPrint(a, cs[..k]);
    assert Chdir(st, path) == Descend(st, cs);
  }

  lemma WalkOn(s: Store, a: seq<string>, d: Sector, cs: seq<string>)
    requires Walk(s, s.root, a) == Some(d)
    ensures var k := Depth(s, d, cs);
            && (k == |cs| <==> Walk(s, s.root, a + cs).Some?)
            && Walk(s, s.root, a + cs[..k]) == Some(Reach(s, d, cs))
  {
    LongestPrefix(s, d, cs);
    WalkConcat(s, s.root, a, cs[..Depth(s, d, cs)]);
    WalkConcat(s, s.root, a, cs);
  }

  // ------------------------------------------------------------------
  // Keeping the agreement
  // ------------------------------------------------------------------

  // A component list that was walked in a volume without "." entries prints
  // to a cwd that agrees.
  lemma WalkedAgrees(s: Store, cs: seq<string>, d: Sector)
    requires DotFree(s) && Walk(s, s.root, cs) == Some(d)
    requires (forall i :: 0 <= i < |cs| ==> '/' !in cs[i]) && (cs != [] ==> cs[0] != "")
    ensures Agrees(State(s, d, Print(cs)))
  {
    assert ChangeDir(s, s.root, ".").None?;
    PrintParse(cs);
  }

  // Success, failure or partial descent, chdir leaves an agreeing state: from
  // any state for an absolute path, from an agreeing one for a relative path.
  lemma ChdirAgrees(st: State, path: string)
    requires DotFree(st.store) && (Absolute(path) || Agrees(st))
    ensures Agrees(Chdir(st, path).0)
  {
    if Absolute(path) {
      ChdirAbsoluteAgrees(st, path);
    } else if path != "" {
      ChdirRelativeAgrees(st, path);
    }
  }

  lemma ChdirAbsoluteAgrees(st: State, path: string)
    requires DotFree(st.store) && Absolute(path)
    ensures Agrees(Chdir(st, path).0)
  {
    hide Chdir, Walk, Depth, Reach, PathComponents, Print, Agrees;
    var s, cs := st.store, PathComponents(path);
    var k := Depth(s, s.root, cs);
    ChdirAbsolute(st, path);
    ComponentsPrintable(path);
    WalkedAgrees(s, cs[..k], Reach(s, s.root, cs));
  }

  lemma ChdirRelativeAgrees(st: State, path: string)
    requires DotFree(st.store) && Agrees(st) && path != "" && !Absolute(path)
    ensures Agrees(Chdir(st, path).0)
  {
    hide Chdir, Walk, Depth, Reach, PathComponents, Print, Agrees;
    var s, a, cs := st.store, PathComponents(st.cwd), PathComponents(path);
    var k := Depth(s, st.cur, cs);
    ChdirRelative(st, path);
    ComponentsPrintable(path);
    ComponentsPrintable(st.cwd);
    WalkedAgrees(s, a + cs[..k], Reach(s, st.cur, cs));
  }

  // Volumes that differ in file data and access words only.
  ghost predicate SameTree(s: Store, t: Store) {
    && s.root == t.root && s.intl == t.intl && s.blocks.Keys == t.blocks.Keys
    && forall c :: c in s.blocks ==> t.blocks[c] == s.blocks[c].(data := t.blocks[c].data, access := t.blocks[c].access)
  }

  lemma {:induction false} SameTreeFind(s: Store, t: Store, kids: seq<Sector>, name: string)
    requires SameTree(s, t)
    ensures FindFolded(s, kids, name) == FindFolded(t, kids, name)
    decreases |kids|
  {
    if kids != [] {
      SameTreeFind(s, t, kids[1..], name);
    }
  }

  lemma SameTreeChangeDir(s: Store, t: Store, d: Sector, name: string)
    requires SameTree(s, t)
    ensures ChangeDir(s, d, name) == ChangeDir(t, d, name)
  {
    SameTreeFind(s, t, Children(s, d), name);
  }

  lemma {:induction false} SameTreeWalk(s: Store, t: Store, d: Sector, cs: seq<string>)
    requires SameTree(s, t)
    ensures Walk(s, d, cs) == Walk(t, d, cs)
    decreases |cs|
  {
    if cs != [] {
      SameTreeChangeDir(s, t, d, cs[0]);
      match ChangeDir(s, d, cs[0])
      case None =>
      case Some(e) => SameTreeWalk(s, t, e, cs[1..]);
    }
  }

  lemma SameTreeAgrees(st: State, t: Store)
    requires SameTree(st.store, t)
    ensures Agrees(st) ==> Agrees(st.(store := t))
    ensures DotFree(st.store) ==> DotFree(t)
  {
    SameTreeWalk(st.store, t, st.store.root, PathComponents(st.cwd));
    forall d {
      SameTreeChangeDir(st.store, t, d, ".");
    }
  }

  // Parsing the cwd saved from an agreeing state leads back to exactly that
  // position and that text, from wherever the operation has moved to.
  lemma Restore(st: State, there: State)
    requires Agrees(st) && SameTree(st.store, there.store)
    ensures Chdir(there, st.cwd) == (st.(store := there.store), true)
  {
    var cs := PathComponents(st.cwd);
    ChdirAbsolute(there, st.cwd);
    LongestPrefix(there.store, there.store.root, cs);
    SameTreeWalk(st.store, there.store, st.store.root, cs);
    assert cs[..|cs|] == cs;
  }

  lemma SameTreeRefl(s: Store)
    ensures SameTree(s, s)
  {
  }

  // ------------------------------------------------------------------
  // Save, move, restore is the identity, on every path that restores; the
  // other exits stay in the directory they had entered.
  // ------------------------------------------------------------------

  lemma RestoreFrom(st: State, path: string)
    requires Agrees(st)
    ensures Chdir(Chdir(st, path).0, st.cwd).0 == st
  {
    hide Chdir, Agrees, SameTree;
    ChdirKeepsStore(st, path);
    SameTreeRefl(st.store);
    Restore(st, Chdir(st, path).0);
  }

  lemma CountDirRestores(st: State, dirpath: string)
    requires Agrees(st)
    ensures CountDir(st, dirpath).0 == st
  {
    hide Chdir, Agrees, SameTree, GetDirEnt;
    RestoreFrom(st, dirpath);
  }

  lemma GetDentryRestores(st: State, pathname: string)
    requires Agrees(st)
    ensures var there := Chdir(st, Dirname(pathname)).0;
            GetDentry(st, pathname).0 ==
            if pathname == "/" || GetDirEnt(there.store, there.cur) != [] then st else there
  {
    hide Chdir, Agrees, SameTree, Dirname, Basename, GetDirEnt, FindExact, RootDentry;
    RestoreFrom(st, Dirname(pathname));
  }

  lemma FileOpenRestores(st: State, path: string)
    requires Agrees(st)
    ensures FileOpen(st, path).0 == if FileOpen(st, path).1.Some? then st else Chdir(st, Dirname(path)).0
  {
    hide Chdir, Agrees, SameTree, Dirname, Basename, FileAt;
    RestoreFrom(st, Dirname(path));
  }

  lemma ReadRestores(st: State, path: string, size: int, offset: int)
    requires Agrees(st)
    ensures Read(st, path, size, offset).0 ==
            if FileOpen(st, path).1.Some? then st else Chdir(st, Dirname(path)).0
  {
    hide Chdir, Agrees, SameTree, Dirname, Basename, FileAt, ReadAt, ToInt32, ToUnsigned;
    FileOpenRestores(st, path);
  }

  lemma ReadlinkRestores(st: State, path: string, len: nat)
    requires Agrees(st)
    ensures Readlink(st, path, len).0 ==
            if Chdir(st, Dirname(path)).1 then st else Chdir(st, Dirname(path)).0
  {
    hide Chdir, Agrees, SameTree, Dirname, Basename, LinkText;
    RestoreFrom(st, Dirname(path));
  }

  lemma DataKeepsTree(s: Store, c: Sector, data: seq<bv8>)
    requires c in s.blocks
    ensures SameTree(s, SetData(s, c, data))
  {
  }

  lemma AccessKeepsTree(s: Store, c: Sector, access: Word)
    requires c in s.blocks
    ensures SameTree(s, SetAccess(s, c, access))
  {
  }

  // A write restores the position in the volume it has written to.
  lemma WriteRestores(st: State, path: string, buffer: seq<bv8>, offset: int)
    requires Agrees(st)
    ensures var r := Write(st, path, buffer, offset).0;
            && SameTree(st.store, r.store)
            && r == if FileOpen(st, path).1.Some? then st.(store := r.store) else Chdir(st, Dirname(path)).0
  {
    hide Chdir, Agrees, SameTree, Dirname, Basename, FileAt, WriteAt, ToUnsigned, ToInt32;
    var (there, ok) := Chdir(st, Dirname(path));
    ChdirKeepsStore(st, Dirname(path));
    SameTreeRefl(st.store);
    if ok {
      var file := FileAt(there.store, there.cur, Basename(path));
      if file.Some? {
        var s := WriteFile(there.store, file.value, buffer, offset).0;
        DataKeepsTree(there.store, file.value, s.blocks[file.value].data);
        Restore(st, there.(store := s));
      }
    }
  }

  // ------------------------------------------------------------------
  // Whole runs of the operations that save and restore
  // ------------------------------------------------------------------

  datatype ImageOp =
    | DoChdir(path: string)
    | DoCount(path: string)
    | DoGetDentry(path: string)
    | DoOpen(path: string)
    | DoRead(path: string, size: int, offset: int)
    | DoWrite(path: string, buffer: seq<bv8>, offset: int)
    | DoReadlink(path: string, len: nat)
    | DoTruncate(path: string, size: int)

  function After(st: State, op: ImageOp): State {
    match op
    case DoChdir(path) => Chdir(st, path).0
    case DoCount(path) => CountDir(st, path).0
    case DoGetDentry(path) => GetDentry(st, path).0
    case DoOpen(path) => FileOpen(st, path).0
    case DoRead(path, size, offset) => Read(st, path, size, offset).0
    case DoWrite(path, buffer, offset) => Write(st, path, buffer, offset).0
    case DoReadlink(path, len) => Readlink(st, path, len).0
    case DoTruncate(path, size) => Truncate(st, path, size).0
  }

  function AfterAll(st: State, ops: seq<ImageOp>): State
    decreases |ops|
  {
    if ops == [] then st else AfterAll(After(st, ops[0]), ops[1..])
  }

  // The state adfimage_open leaves.
  function Opened(s: Store): State {
    State(s, s.root, "/")
  }

  // Staying where chdir stopped, or coming back, both keep the agreement.
  lemma BackOrThere(st: State, path: string, r: State)
    requires Agrees(st) && DotFree(st.store)
    requires SameTree(st.store, r.store)
    requires r == st.(store := r.store) || r == Chdir(st, path).0
    ensures Agrees(r)
  {
    ChdirAgrees(st, path);
    SameTreeAgrees(st, r.store);
  }

  lemma TruncateRestores(st: State, path: string, size: int)
    requires Agrees(st)
    ensures var r := Truncate(st, path, size).0;
            && SameTree(st.store, r.store)
            && r == if FileOpen(st, path).1.Some? then st.(store := r.store) else Chdir(st, Dirname(path)).0
  {
    hide Chdir, FileOpen, Agrees, Resize;
    SameTreeRefl(st.store);
    FileOpenRestores(st, path);
    ChdirKeepsStore(st, Dirname(path));
    var (there, file) := FileOpen(st, path);
    if file.Some? && file.value in there.store.blocks {
      DataKeepsTree(there.store, file.value, Resize(there.store.blocks[file.value].data, ToUnsigned(size)));
    }
  }

  lemma ChdirKeepsStore(st: State, path: string)
    ensures Chdir(st, path).0.store == st.store
  {
  }

  lemma StepAgrees(st: State, op: ImageOp)
    requires Agrees(st) && DotFree(st.store)
    ensures Agrees(After(st, op)) && SameTree(st.store, After(st, op).store)
  {
    hide Chdir, CountDir, GetDentry, FileOpen, Read, Write, Readlink, Truncate, Agrees, SameTree;
    var r := After(st, op);
    SameTreeRefl(st.store);
    match op {
      case DoChdir(path) =>
        ChdirKeepsStore(st, path);
        BackOrThere(st, path, r);
      case DoCount(path) =>
        CountDirRestores(st, path);
      case DoGetDentry(path) =>
        ChdirKeepsStore(st, Dirname(path));
        GetDentryRestores(st, path);
        BackOrThere(st, Dirname(path), r);
      case DoOpen(path) =>
        ChdirKeepsStore(st, Dirname(path));
        FileOpenRestores(st, path);
        BackOrThere(st, Dirname(path), r);
      case DoRead(path, size, offset) =>
        ChdirKeepsStore(st, Dirname(path));
        ReadRestores(st, path, size, offset);
        BackOrThere(st, Dirname(path), r);
      case DoWrite(path, buffer, offset) =>
        WriteRestores(st, path, buffer, offset);
        BackOrThere(st, Dirname(path), r);
      case DoReadlink(path, len) =>
        ChdirKeepsStore(st, Dirname(path));
        ReadlinkRestores(st, path, len);
        BackOrThere(st, Dirname(path), r);
      case DoTruncate(path, size) =>
        TruncateRestores(st, path, size);
        BackOrThere(st, Dirname(path), r);
    }
  }

  // Every interleaving, from open on and including failing calls, keeps the
  // printed and the real position together.
  lemma {:induction false} RunAgrees(st: State, ops: seq<ImageOp>)
    requires Agrees(st) && DotFree(st.store)
    ensures Agrees(AfterAll(st, ops))
    decreases |ops|
  {
    if ops != [] {
      StepAgrees(st, ops[0]);
      SameTreeAgrees(st, After(st, ops[0]).store);
      RunAgrees(After(st, ops[0]), ops[1..]);
    }
  }

  lemma OpenedAgrees(s: Store)
    ensures Agrees(Opened(s))
  {
  }

  lemma RunFromOpenAgrees(s: Store, ops: seq<ImageOp>)
    requires DotFree(s)
    ensures Agrees(AfterAll(Opened(s), ops))
  {
    OpenedAgrees(s);
    RunAgrees(Opened(s), ops);
  }

  // In particular on every well-formed volume.
  lemma MountedRunAgrees(s: Store, ops: seq<ImageOp>)
    requires Valid(s)
    ensures Agrees(AfterAll(Opened(s), ops))
  {
    ValidIsDotFree(s);
    RunFromOpenAgrees(s, ops);
  }
}
