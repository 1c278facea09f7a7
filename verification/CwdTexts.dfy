// Every text that the cwd buffer holds while FUSE operations run, not only
// between them: the start of each chdir and what each append_dir leaves.
module CwdTexts {
  import opened PathStrings
  import opened Volume
  import opened Walking
  import opened ImageState
  import opened CwdMachine
  import opened CwdLimits
  import opened FuseState
  import opened Reference
  import opened Positions
  import opened CwdRuns
  import PathRewrite

  // ------------------------------------------------------------------
  // The texts of one operation
  // ------------------------------------------------------------------

  // One adfimage_chdir: the text it starts from, and one more for each
  // component entered.
  function ChdirTexts(st: State, path: string): seq<string> {
    if path == "" then []
    else if path[0] == '/' then DescentTexts(State(st.store, st.store.root, "/"), PathComponents(path))
    else DescentTexts(st, PathComponents(path))
  }

  function DescentTexts(st: State, cs: seq<string>): seq<string> {
    seq(Depth(st.store, st.cur, cs) + 1,
        j requires 0 <= j <= Depth(st.store, st.cur, cs) => AppendAll(st.cwd, cs[..j]))
  }

  function CountTexts(st: State, path: string): seq<string> {
    var there := Chdir(st, path).0;
    ChdirTexts(st, path) + ChdirTexts(there, st.cwd)
  }

  function LookupTexts(st: State, path: string): seq<string> {
    if path == "/" then []
    else
      var there := Chdir(st, Dirname(path)).0;
      ChdirTexts(st, Dirname(path)) +
      if GetDirEnt(there.store, there.cur) == [] then [] else ChdirTexts(there, st.cwd)
  }

  // written is the volume in which the way back is walked.
  function FileTexts(st: State, path: string, written: Store): seq<string> {
    var (there, ok) := Chdir(st, Dirname(path));
    ChdirTexts(st, Dirname(path)) +
    if ok && FileAt(there.store, there.cur, Basename(path)).Some? then
      ChdirTexts(there.(store := written), st.cwd)
    else []
  }

  function GetattrTexts(st: State, path: string): seq<string> {
    if SkipSlashes(path) == "" then []
    else
      var (there, ok) := Chdir(st, Dirname(path));
      ChdirTexts(st, Dirname(path)) +
      if !ok then []
      else
        var (st2, d) := GetDentry(there, Basename(path));
        LookupTexts(there, Basename(path)) +
        if d.Some? && d.value.kind in {Root, Dir, LinkDir} then CountTexts(st2, path) else []
  }

  function MakeTexts(st: State, path: string): seq<string> {
    if SkipSlashes(path) == "" then [] else ChdirTexts(ToRoot(st), Dirname(SkipSlashes(path)))
  }

  function RenameTexts(st: State, src: string, dst: string): seq<string> {
    var srcDir := PathRewrite.Fuse2AmigaDosW(Dirname(src));
    var dstDir := PathRewrite.Fuse2AmigaDosW(Dirname(dst));
    if srcDir.None? || dstDir.None? then []
    else
      var (st1, d1) := GetDentry(st, srcDir.value);
      LookupTexts(st, srcDir.value) +
      if d1.Some? && ParentSector(d1.value).Some? then LookupTexts(st1, dstDir.value) else []
  }

  function Texts(st: State, op: Op): seq<string> {
    match op
    case Getattr(path) => GetattrTexts(st, path)
    case Readdir(path, room) => ChdirTexts(st, path)
    case Readlink(path, len) =>
      var (there, ok) := Chdir(st, Dirname(path));
      ChdirTexts(st, Dirname(path)) + if ok then ChdirTexts(there, st.cwd) else []
    case Open(path) => FileTexts(st, path, st.store)
    case Read(path, size, offset) => FileTexts(st, path, st.store)
    case Write(path, buffer, offset) => FileTexts(st, path, Step(st, op).0.store)
    case Truncate(path, size) => FileTexts(st, path, st.store)
    case Mkdir(path) => MakeTexts(st, path)
    case Rmdir(path) => MakeTexts(st, path)
    case Unlink(path) => MakeTexts(st, path)
    case Create(path) => MakeTexts(st, path)
    case Chmod(path, mode) => LookupTexts(st, path)
    case Rename(src, dst) => RenameTexts(st, src, dst)
  }

  // ------------------------------------------------------------------
  // The last of them is the cwd the operation leaves
  // ------------------------------------------------------------------

  function LastOf(texts: seq<string>, before: string): string {
    if texts == [] then before else texts[|texts| - 1]
  }

  lemma LastOfConcat(a: seq<string>, b: seq<string>, before: string)
    ensures LastOf(a + b, before) == LastOf(b, LastOf(a, before))
  {
    if b == [] {
      assert a + b == a;
    }
  }

  lemma ChdirLast(st: State, path: string)
    ensures LastOf(ChdirTexts(st, path), st.cwd) == Chdir(st, path).0.cwd
  {
    hide PathComponents, Depth, Reach, AppendAll;
  }

  lemma LookupLast(st: State, path: string)
    ensures LastOf(LookupTexts(st, path), st.cwd) == GetDentry(st, path).0.cwd
  {
    hide Chdir, ChdirTexts, Dirname, Basename, GetDirEnt, FindExact, RootDentry, LastOf;
    if path != "/" {
      var there := Chdir(st, Dirname(path)).0;
      var back := if GetDirEnt(there.store, there.cur) == [] then [] else ChdirTexts(there, st.cwd);
      ChdirLast(st, Dirname(path));
      ChdirLast(there, st.cwd);
      LastOfConcat(ChdirTexts(st, Dirname(path)), back, st.cwd);
    }
    NoneLast(GetDentry(st, path).0.cwd);
    NoneLast(st.cwd);
  }

  lemma NoneLast(before: string)
    ensures LastOf([], before) == before
  {
  }

  lemma FileLast(st: State, path: string, written: Store)
    ensures var (there, ok) := Chdir(st, Dirname(path));
            LastOf(FileTexts(st, path, written), st.cwd) ==
              if ok && FileAt(there.store, there.cur, Basename(path)).Some? then
                Chdir(there.(store := written), st.cwd).0.cwd
              else there.cwd
  {
    hide Chdir, ChdirTexts, Dirname, Basename, FileAt, LastOf;
    var (there, ok) := Chdir(st, Dirname(path));
    ChdirLast(st, Dirname(path));
    ChdirLast(there.(store := written), st.cwd);
    LastOfConcat(ChdirTexts(st, Dirname(path)), ChdirTexts(there.(store := written), st.cwd), st.cwd);
    LastOfConcat(ChdirTexts(st, Dirname(path)), [], st.cwd);
    NoneLast(there.cwd);
  }

  lemma CountLast(st: State, path: string)
    ensures LastOf(CountTexts(st, path), st.cwd) == CountDir(st, path).0.cwd
  {
    hide Chdir, ChdirTexts, LastOf;
    var there := Chdir(st, path).0;
    ChdirLast(st, path);
    ChdirLast(there, st.cwd);
    LastOfConcat(ChdirTexts(st, path), ChdirTexts(there, st.cwd), st.cwd);
  }

  lemma GetattrLast(st: State, path: string)
    ensures LastOf(GetattrTexts(st, path), st.cwd) == GetattrStep(st, path).0.cwd
  {
    hide Chdir, ChdirTexts, Dirname, Basename, SkipSlashes, GetDentry, CountDir, CountTexts, LookupTexts, LastOf,
         GetDirEnt,
         FileAt;
    NoneLast(st.cwd);
    if SkipSlashes(path) != "" {
      DirnameBasenameNonEmpty(path);
      var (there, ok) := Chdir(st, Dirname(path));
      ChdirLast(st, Dirname(path));
      NoneLast(there.cwd);
      var (st2, d) := GetDentry(there, Basename(path));
      LookupLast(there, Basename(path));
      CountLast(st2, path);
      NoneLast(st2.cwd);
      var more := if d.Some? && d.value.kind in {Root, Dir, LinkDir} then CountTexts(st2, path) else [];
      LastOfConcat(ChdirTexts(st, Dirname(path)), [], st.cwd);
      LastOfConcat(ChdirTexts(st, Dirname(path)), LookupTexts(there, Basename(path)) + more, st.cwd);
      LastOfConcat(LookupTexts(there, Basename(path)), more, there.cwd);
    }
  }

  lemma MakeLast(st: State, path: string)
    ensures forall t :: t in {ImageState.Mkdir(st, path).0, ImageState.Create(st, path).0,
                               ImageState.Remove(st, path).0} ==>
              LastOf(MakeTexts(st, path), st.cwd) == t.cwd
  {
    hide Chdir, ChdirTexts, Dirname, Basename, SkipSlashes, LastOf, CreateEntry, RemoveEntry;
    NoneLast(st.cwd);
    if SkipSlashes(path) != "" {
      ChdirLast(ToRoot(st), Dirname(SkipSlashes(path)));
    }
  }

  lemma RenameLast(st: State, src: string, dst: string)
    ensures LastOf(RenameTexts(st, src, dst), st.cwd) == ImageState.Rename(st, src, dst).0.cwd
  {
    hide GetDentry, LookupTexts, Dirname, Basename, LastOf, RenameIn, PathRewrite.Fuse2AmigaDosW, ParentSector;
    NoneLast(st.cwd);
    var srcDir := PathRewrite.Fuse2AmigaDosW(Dirname(src));
    var dstDir := PathRewrite.Fuse2AmigaDosW(Dirname(dst));
    if srcDir.Some? && dstDir.Some? {
      var st1 := GetDentry(st, srcDir.value).0;
      LookupLast(st, srcDir.value);
      LookupLast(st1, dstDir.value);
      NoneLast(st1.cwd);
      LastOfConcat(LookupTexts(st, srcDir.value), LookupTexts(st1, dstDir.value), st.cwd);
      LastOfConcat(LookupTexts(st, srcDir.value), [], st.cwd);
    }
  }

  lemma FileOpLast(st: State, path: string, size: int, offset: int)
    ensures LastOf(FileTexts(st, path, st.store), st.cwd) == FileOpen(st, path).0.cwd
    ensures LastOf(FileTexts(st, path, st.store), st.cwd) == ImageState.Read(st, path, size, offset).0.cwd
    ensures LastOf(FileTexts(st, path, st.store), st.cwd) == ImageState.Truncate(st, path, size).0.cwd
  {
    FileLast(st, path, st.store);
    ReadPlace(st, path, size, offset);
    TruncatePlace(st, path, size);
    ChdirKeepsStore(st, Dirname(path));
    hide Chdir, FileTexts, LastOf, Dirname, Basename, FileAt, ImageState.Read, ImageState.Truncate;
  }

  lemma WriteLast(st: State, path: string, buffer: seq<bv8>, offset: int)
    ensures LastOf(Texts(st, Write(path, buffer, offset)), st.cwd) == ImageState.Write(st, path, buffer, offset).0.cwd
  {
    var written := ImageState.Write(st, path, buffer, offset).0.store;
    FileLast(st, path, written);
    hide Chdir, FileTexts, LastOf, Dirname, Basename, FileAt, WriteFile;
    var (there, ok) := Chdir(st, Dirname(path));
    var file := FileAt(there.store, there.cur, Basename(path));
    if ok && file.Some? {
      ChdirKeepsStore(there.(store := WriteFile(there.store, file.value, buffer, offset).0), st.cwd);
    }
  }

  lemma ReadlinkLast(st: State, path: string, len: nat)
    ensures LastOf(Texts(st, Readlink(path, len)), st.cwd) == ImageState.Readlink(st, path, len).0.cwd
  {
    hide Chdir, ChdirTexts, Dirname, Basename, LinkText, LastOf;
    var (there, ok) := Chdir(st, Dirname(path));
    ChdirLast(st, Dirname(path));
    ChdirLast(there, st.cwd);
    NoneLast(there.cwd);
    LastOfConcat(ChdirTexts(st, Dirname(path)), ChdirTexts(there, st.cwd), st.cwd);
    LastOfConcat(ChdirTexts(st, Dirname(path)), [], st.cwd);
  }

  lemma LastText(st: State, op: Op)
    ensures LastOf(Texts(st, op), st.cwd) == Step(st, op).0.cwd
  {
    hide GetattrTexts, FileTexts, LookupTexts, MakeTexts, RenameTexts, ChdirTexts, LastOf, GetattrStep, FileOpen,
         GetDentry,
         Chdir, ImageState.Read, ImageState.Write, ImageState.Readlink, ImageState.Truncate, ImageState.Mkdir,
         ImageState.Create, ImageState.Remove, ImageState.Rename, SetPermission, Dirname, Listing;
    match op {
      case Getattr(path) => GetattrLast(st, path);
      case Readdir(path, room) => ChdirLast(st, path);
      case Readlink(path, len) => ReadlinkLast(st, path, len);
      case Open(path) => FileOpLast(st, path, 0, 0);
      case Read(path, size, offset) => FileOpLast(st, path, size, offset);
      case Write(path, buffer, offset) => WriteLast(st, path, buffer, offset);
      case Truncate(path, size) => FileOpLast(st, path, size, 0);
      case Mkdir(path) => MakeLast(st, path);
      case Rmdir(path) => MakeLast(st, path);
      case Unlink(path) => MakeLast(st, path);
      case Create(path) => MakeLast(st, path);
      case Chmod(path, mode) => LookupLast(st, path); ChmodPlace(st, path, mode);
      case Rename(src, dst) => RenameLast(st, src, dst);
    }
  }

  // ------------------------------------------------------------------
  // None is too long
  // ------------------------------------------------------------------

  predicate Short(texts: seq<string>, n: nat) {
    forall i :: 0 <= i < |texts| ==> |texts[i]| <= n
  }

  lemma ShortConcat(a: seq<string>, b: seq<string>, n: nat)
    requires Short(a, n) && Short(b, n)
    ensures Short(a + b, n) && Short([], n)
  {
  }

  lemma {:induction false} AppendAllGrows(cwd: string, cs: seq<string>, j: nat)
    requires j <= |cs|
    ensures |cwd| <= |AppendAll(cwd, cs[..j])| <= |AppendAll(cwd, cs)|
    decreases |cs|
  {
    if j == 0 {
      if cs != [] {
        AppendAllGrows(AppendDir(cwd, cs[0]), cs[1..], 0);
        assert cs[1..][..0] == [];
      }
    } else {
      assert cs[..j][1..] == cs[1..][..j - 1];
      AppendAllGrows(AppendDir(cwd, cs[0]), cs[1..], j - 1);
    }
  }

  // In one chdir the last text is the longest.
  lemma DescentShort(st: State, cs: seq<string>)
    ensures Short(DescentTexts(st, cs), |Descend(st, cs).0.cwd|)
  {
    var k := Depth(st.store, st.cur, cs);
    forall j | 0 <= j <= k
      ensures |AppendAll(st.cwd, cs[..j])| <= |AppendAll(st.cwd, cs[..k])|
    {
      AppendAllGrows(st.cwd, cs[..k], j);
      assert cs[..k][..j] == cs[..j];
    }
    hide AppendAll, Depth;
  }

  lemma ChdirShort(st: State, path: string)
    ensures Short(ChdirTexts(st, path), |Chdir(st, path).0.cwd|)
  {
    hide PathComponents, Descend, DescentTexts;
    if path != "" {
      DescentShort(State(st.store, st.store.root, "/"), PathComponents(path));
      DescentShort(st, PathComponents(path));
    }
  }

  lemma ShorterStill(texts: seq<string>, m: nat, n: nat)
    requires Short(texts, m) && m <= n
    ensures Short(texts, n)
  {
  }

  // An absolute chdir of a path no longer than n.
  lemma AbsoluteShort(st: State, path: string, n: nat)
    requires Absolute(path) && |path| <= n
    ensures Short(ChdirTexts(st, path), n)
    ensures Absolute(Chdir(st, path).0.cwd) && |Chdir(st, path).0.cwd| <= n
  {
    hide Chdir, ChdirTexts, SkipSlashes, Short;
    AbsoluteCwdLength(st, path);
    ChdirShort(st, path);
    ShorterStill(ChdirTexts(st, path), |Chdir(st, path).0.cwd|, n);
  }

  lemma LookupShort(st: State, path: string, n: nat)
    requires Absolute(path) && |path| <= n && Absolute(st.cwd) && |st.cwd| <= n
    ensures Short(LookupTexts(st, path), n)
    ensures Absolute(GetDentry(st, path).0.cwd) && |GetDentry(st, path).0.cwd| <= n
  {
    hide Chdir, ChdirTexts, Dirname, Basename, GetDirEnt, FindExact, RootDentry, Short;
    var dir := Dirname(path);
    DirnameAbsolute(path);
    DirnameShort(path);
    AbsoluteShort(st, dir, n);
    AbsoluteShort(Chdir(st, dir).0, st.cwd, n);
    NoneShort(n);
    ShortConcat(ChdirTexts(st, dir), [], n);
    ShortConcat(ChdirTexts(st, dir), ChdirTexts(Chdir(st, dir).0, st.cwd), n);
  }

  lemma NoneShort(n: nat)
    ensures Short([], n)
  {
  }

  // A plain name is looked up where the state is.
  lemma NameShort(st: State, name: string, n: nat)
    requires name != "" && '/' !in name && Absolute(st.cwd) && |st.cwd| <= n
    ensures Short(LookupTexts(st, name), n)
    ensures Absolute(GetDentry(st, name).0.cwd) && |GetDentry(st, name).0.cwd| <= n
  {
    DirnameOfAtom(name);
    StayHere(st);
    hide Chdir, ChdirTexts, Dirname, Basename, GetDirEnt, FindExact, RootDentry, Short;
    ChdirShort(st, ".");
    ShorterStill(ChdirTexts(st, "."), |st.cwd|, n);
    AbsoluteShort(st, st.cwd, n);
    NoneShort(n);
    ShortConcat(ChdirTexts(st, "."), [], n);
    ShortConcat(ChdirTexts(st, "."), ChdirTexts(st, st.cwd), n);
  }

  lemma FileShort(st: State, path: string, written: Store, n: nat)
    requires Absolute(path) && |path| <= n && Absolute(st.cwd) && |st.cwd| <= n
    ensures Short(FileTexts(st, path, written), n)
    ensures var (there, ok) := Chdir(st, Dirname(path));
            Short(ChdirTexts(st, Dirname(path)) + if ok then ChdirTexts(there, st.cwd) else [], n)
  {
    hide Chdir, ChdirTexts, Dirname, Basename, FileAt, Short;
    var dir := Dirname(path);
    DirnameAbsolute(path);
    DirnameShort(path);
    AbsoluteShort(st, dir, n);
    var there := Chdir(st, dir).0;
    AbsoluteShort(there, st.cwd, n);
    AbsoluteShort(there.(store := written), st.cwd, n);
    NoneShort(n);
    ShortConcat(ChdirTexts(st, dir), [], n);
    ShortConcat(ChdirTexts(st, dir), ChdirTexts(there, st.cwd), n);
    ShortConcat(ChdirTexts(st, dir), ChdirTexts(there.(store := written), st.cwd), n);
  }

  lemma CountShort(st: State, path: string, n: nat)
    requires Absolute(path) && |path| <= n && Absolute(st.cwd) && |st.cwd| <= n
    ensures Short(CountTexts(st, path), n)
  {
    hide Chdir, ChdirTexts, Short;
    AbsoluteShort(st, path, n);
    AbsoluteShort(Chdir(st, path).0, st.cwd, n);
    ShortConcat(ChdirTexts(st, path), ChdirTexts(Chdir(st, path).0, st.cwd), n);
  }

  lemma GetattrShort(st: State, path: string, n: nat)
    requires Absolute(path) && |path| <= n
    ensures Short(GetattrTexts(st, path), n)
  {
    hide Chdir, ChdirTexts, Dirname, Basename, SkipSlashes, GetDentry, CountTexts, LookupTexts, Short;
    NoneShort(n);
    if SkipSlashes(path) != "" {
      var dir, name := Dirname(path), Basename(path);
      DirnameAbsolute(path);
      DirnameShort(path);
      AbsoluteDirname(path);
      DirnameBasenameNonEmpty(path);
      AbsoluteShort(st, dir, n);
      var there := Chdir(st, dir).0;
      NameShort(there, name, n);
      CountShort(GetDentry(there, name).0, path, n);
      ShortConcat(LookupTexts(there, name), [], n);
      ShortConcat(LookupTexts(there, name), CountTexts(GetDentry(there, name).0, path), n);
      ShortConcat(ChdirTexts(st, dir), [], n);
      ShortConcat(ChdirTexts(st, dir), LookupTexts(there, name) + [], n);
      ShortConcat(ChdirTexts(st, dir), LookupTexts(there, name) + CountTexts(GetDentry(there, name).0, path), n);
    }
  }

  lemma MakeShort(st: State, path: string)
    requires Absolute(path) && Absolute(st.cwd)
    ensures Short(MakeTexts(st, path), |st.cwd| + |path|)
  {
    hide Chdir, ChdirTexts, Dirname, SkipSlashes, Short;
    NoneShort(|st.cwd| + |path|);
    var rel := SkipSlashes(path);
    if rel != "" {
      var d := Dirname(rel);
      SkipShortens(path);
      DirnameShort(rel);
      RelativeDirname(rel);
      ChdirShort(ToRoot(st), d);
      RelativeCwdLength(ToRoot(st), d);
      StayHere(ToRoot(st));
      ShorterStill(ChdirTexts(ToRoot(st), d), |Chdir(ToRoot(st), d).0.cwd|, |st.cwd| + |path|);
    }
  }

  lemma RenameShort(st: State, src: string, dst: string, n: nat)
    requires Absolute(src) && Absolute(dst) && |src| <= n && |dst| <= n && Absolute(st.cwd) && |st.cwd| <= n
    ensures Short(RenameTexts(st, src, dst), n)
  {
    hide GetDentry, LookupTexts, Dirname, ParentSector, PathRewrite.Fuse2AmigaDosW, Short;
    NoneShort(n);
    DirnameAbsolute(src);
    DirnameAbsolute(dst);
    DirnameShort(src);
    DirnameShort(dst);
    var srcDir := PathRewrite.Fuse2AmigaDosW(Dirname(src));
    var dstDir := PathRewrite.Fuse2AmigaDosW(Dirname(dst));
    if srcDir.Some? && dstDir.Some? {
      PathRewrite.Fuse2AmigaDosShape(Dirname(src));
      PathRewrite.Fuse2AmigaDosShape(Dirname(dst));
      LookupShort(st, srcDir.value, n);
      var st1 := GetDentry(st, srcDir.value).0;
      LookupShort(st1, dstDir.value, n);
      ShortConcat(LookupTexts(st, srcDir.value), [], n);
      ShortConcat(LookupTexts(st, srcDir.value), LookupTexts(st1, dstDir.value), n);
    }
  }

  // Every text of one operation is within the budget for what it leaves.
  lemma TextsShort(st: State, op: Op)
    requires AbsoluteOp(op) && Absolute(st.cwd)
    ensures Short(Texts(st, op), LengthAfter(|st.cwd|, op))
  {
    hide GetattrTexts, FileTexts, LookupTexts, MakeTexts, RenameTexts, ChdirTexts, Step, Chdir, Dirname, Short;
    var n := LengthAfter(|st.cwd|, op);
    match op {
      case Getattr(path) => GetattrShort(st, path, n);
      case Readdir(path, room) => AbsoluteShort(st, path, n);
      case Readlink(path, len) => FileShort(st, path, st.store, n);
      case Open(path) => FileShort(st, path, st.store, n);
      case Read(path, size, offset) => FileShort(st, path, st.store, n);
      case Write(path, buffer, offset) => FileShort(st, path, Step(st, op).0.store, n);
      case Truncate(path, size) => FileShort(st, path, st.store, n);
      case Mkdir(path) => MakeShort(st, path);
      case Rmdir(path) => MakeShort(st, path);
      case Unlink(path) => MakeShort(st, path);
      case Create(path) => MakeShort(st, path);
      case Chmod(path, mode) => LookupShort(st, path, n);
      case Rename(src, dst) => RenameShort(st, src, dst, n);
    }
  }

  // ------------------------------------------------------------------
  // Runs
  // ------------------------------------------------------------------

  function RunTexts(st: State, ops: seq<Op>): seq<string>
    decreases |ops|
  {
    if ops == [] then []
    else
      var (t, answer) := Step(st, ops[0]);
      Texts(st, ops[0]) + if answer.NoReturn? then [] else RunTexts(t, ops[1..])
  }

  // Every text that cwd holds at any time of a run of FUSE operations.
  lemma {:induction false} RunTextsShort(st: State, ops: seq<Op>)
    requires Absolute(st.cwd) && forall i :: 0 <= i < |ops| ==> AbsoluteOp(ops[i])
    ensures Short(RunTexts(st, ops), LengthBudget(|st.cwd|, ops))
    ensures LastOf(RunTexts(st, ops), st.cwd) == Run(st, ops).0.cwd
    decreases |ops|
  {
    hide Step, AbsoluteOp, LengthAfter, Texts, Short, LastOf;
    NoneShort(LengthBudget(|st.cwd|, ops));
    NoneLast(st.cwd);
    if ops != [] {
      var t := Step(st, ops[0]).0;
      var len := LengthAfter(|st.cwd|, ops[0]);
      var n := LengthBudget(|st.cwd|, ops);
      StepPlace(st, ops[0]);
      StepLength(st, ops[0]);
      TextsShort(st, ops[0]);
      LastText(st, ops[0]);
      BudgetGrows(len, len, ops[1..]);
      ShorterStill(Texts(st, ops[0]), len, n);
      RunTextsShort(t, ops[1..]);
      BudgetGrows(|t.cwd|, len, ops[1..]);
      ShorterStill(RunTexts(t, ops[1..]), LengthBudget(|t.cwd|, ops[1..]), n);
      NoneLast(t.cwd);
      ShortConcat(Texts(st, ops[0]), [], n);
      ShortConcat(Texts(st, ops[0]), RunTexts(t, ops[1..]), n);
      LastOfConcat(Texts(st, ops[0]), [], st.cwd);
      LastOfConcat(Texts(st, ops[0]), RunTexts(t, ops[1..]), st.cwd);
    }
  }

  // So the buffer suffices, at every moment of every run whose paths say so.
  lemma RunTextsFit(s: Store, ops: seq<Op>)
    requires forall i :: 0 <= i < |ops| ==> AbsoluteOp(ops[i])
    requires LengthBudget(1, ops) < ADFIMAGE_MAX_PATH
    ensures forall i :: 0 <= i < |RunTexts(Opened(s), ops)| ==> |RunTexts(Opened(s), ops)[i]| < ADFIMAGE_MAX_PATH
    ensures |Run(Opened(s), ops).0.cwd| < ADFIMAGE_MAX_PATH
  {
    hide RunTexts, LengthBudget, AbsoluteOp, Run;
    RunTextsShort(Opened(s), ops);
    RunLength(Opened(s), ops);
  }
}
