// The file system without a current directory: what each FUSE operation is a
// function of. The steps of FuseState, whatever position earlier operations
// left behind, give the same answers and the same volumes.
module Reference {
  import opened PathStrings
  import opened Volume
  import opened Permissions
  import opened Walking
  import opened ImageState
  import opened CwdMachine
  import opened FuseState
  import PathRewrite

  // The directory a path's dirname denotes.
  function ParentDir(s: Store, path: string): Option<Sector> {
    Walk(s, s.root, PathComponents(Dirname(path)))
  }

  // The directory entry a path stands for. The walk to the directory is not
  // checked: a dirname that does not resolve counts as its longest resolvable
  // prefix.
  function DentryAt(s: Store, path: string): Option<Entry> {
    if path == "/" then RootDentry(s)
    else FindExact(GetDirEnt(s, Reach(s, s.root, PathComponents(Dirname(path)))), Basename(path))
  }

  function FileOf(s: Store, path: string): (f: Option<Sector>)
    ensures f.Some? ==> f.value in s.blocks
  {
    match ParentDir(s, path)
    case None => None
    case Some(d) => FileAt(s, d, Basename(path))
  }

  // The attributes of an entry of the directory d.
  function StatAt(s: Store, d: Sector, e: Entry, path: string): Stat {
    var perms := GetPerm(s.masks, e.access);
    match e.kind
    case File => Stat(Regular, FileMode(perms), SizeOfFile(s, d, Basename(path)), 1)
    case LinkFile => Stat(Regular, FileMode(perms), SizeOfFile(s, d, Basename(path)), 1)
    case SoftLink => Stat(Symlink, LINK_MODE, 0, 1)
    case Unsupported => ZERO_STAT
    case _ => Stat(Directory, DirMode(perms), |GetDirEnt(s, Reach(s, s.root, PathComponents(path)))|, 1)
  }

  function GetattrRef(s: Store, path: string): (int, Stat) {
    if SkipSlashes(path) == "" then (0, Stat(Directory, ROOT_MODE, |GetDirEnt(s, s.root)|, 1))
    else
      match ParentDir(s, path)
      case None => (-ENOENT, ZERO_STAT)
      case Some(d) =>
        match FindExact(GetDirEnt(s, d), Basename(path))
        case None => (-ENOENT, ZERO_STAT)
        case Some(e) => (0, StatAt(s, d, e, path))
  }

  function ReaddirRef(s: Store, path: string, room: nat): (int, seq<string>) {
    match Walk(s, s.root, PathComponents(path))
    case None => (-ENOENT, [])
    case Some(d) => Listing(s, d, room)
  }

  function ReadlinkRef(s: Store, path: string, len: nat): Answer {
    match ParentDir(s, path)
    case None => Text(-1, "")
    case Some(d) => var (rc, text) := LinkText(s, d, Basename(path), len); Text(rc, text)
  }

  function ReadRef(s: Store, path: string, size: int, offset: int): Answer {
    match FileOf(s, path)
    case None => Bytes(-ENOENT, [])
    case Some(f) =>
      var bytes := ReadAt(s.blocks[f].data, ToUnsigned(size), ToUnsigned(offset));
      Bytes(ToInt32(|bytes|), bytes)
  }

  function WriteRef(s: Store, path: string, buffer: seq<bv8>, offset: int): (Store, Answer) {
    match FileOf(s, path)
    case None => (s, Status(-ENOENT))
    case Some(f) => var (t, count) := WriteFile(s, f, buffer, offset); (t, Status(count))
  }

  function TruncateRef(s: Store, path: string, size: int): (Store, Answer) {
    match FileOf(s, path)
    case None => (s, Status(-1))
    case Some(f) => (SetData(s, f, Resize(s.blocks[f].data, ToUnsigned(size))), Status(0))
  }

  // mkdir and create, with the answers for the root and for a failing call.
  function MakeRef(s: Store, path: string, kind: Kind, root: int, failed: int): (Store, Answer) {
    if SkipSlashes(path) == "" then (s, Status(root))
    else
      match ParentDir(s, path)
      case None => (s, Status(-ENOENT))
      case Some(d) =>
        var (t, done) := CreateEntry(s, d, Basename(path), kind);
        (t, Status(if done then 0 else failed))
  }

  function RemoveRef(s: Store, path: string): (Store, Answer) {
    if SkipSlashes(path) == "" then (s, Status(-EPERM))
    else
      match ParentDir(s, path)
      case None => (s, Status(-ENOENT))
      case Some(d) =>
        var (t, done) := RemoveEntry(s, d, Basename(path));
        (t, Status(if done then 0 else ADF_RC_ERROR))
  }

  function ChmodRef(s: Store, path: string, mode: Mode): (Store, Answer) {
    var d := DentryAt(s, path);
    if !DentryValid(d) || d.value.sector !in s.blocks then (s, Status(EINVAL))
    else
      var c := d.value.sector;
      (SetAccess(s, c, SetPerm(s.masks, s.blocks[c].access, mode.user)), Status(0))
  }

  // rename between the parents found.
  function RenameBetween(s: Store, d1: Option<Entry>, d2: Option<Entry>, name: string, newName: string): (Store, Answer)
  {
    if d1.None? then (s, Status(-ENOENT))
    else if ParentSector(d1.value).None? then (s, Status(-EINVAL))
    else if d2.None? then (s, Status(-ENOENT))
    else if ParentSector(d2.value).None? then (s, Status(-EINVAL))
    else
      var (t, rc) := RenameIn(s, ParentSector(d1.value).value, name, ParentSector(d2.value).value, newName);
      (t, Status(rc))
  }

  function RenameRef(s: Store, src: string, dst: string): (Store, Answer) {
    var srcDir := PathRewrite.Fuse2AmigaDosW(Dirname(src));
    var dstDir := PathRewrite.Fuse2AmigaDosW(Dirname(dst));
    if srcDir.None? || dstDir.None? then (s, NoReturn)
    else RenameBetween(s, DentryAt(s, srcDir.value), DentryAt(s, dstDir.value), Basename(src), Basename(dst))
  }

  function RefStep(s: Store, op: Op): (Store, Answer) {
    match op
    case Getattr(path) => var (rc, stat) := GetattrRef(s, path); (s, Attributes(rc, stat))
    case Readdir(path, room) => var (rc, names) := ReaddirRef(s, path, room); (s, Names(rc, names))
    case Readlink(path, len) => (s, ReadlinkRef(s, path, len))
    case Open(path) => (s, Status(if FileOf(s, path).Some? then 0 else -1))
    case Read(path, size, offset) => (s, ReadRef(s, path, size, offset))
    case Write(path, buffer, offset) => WriteRef(s, path, buffer, offset)
    case Mkdir(path) => MakeRef(s, path, Dir, -EEXIST, ADF_RC_ERROR)
    case Rmdir(path) => RemoveRef(s, path)
    case Unlink(path) => RemoveRef(s, path)
    case Create(path) => MakeRef(s, path, File, -EINVAL, -1)
    case Truncate(path, size) => TruncateRef(s, path, size)
    case Chmod(path, mode) => ChmodRef(s, path, mode)
    case Rename(src, dst) => RenameRef(s, src, dst)
  }

  function RefRun(s: Store, ops: seq<Op>): (Store, seq<Answer>)
    decreases |ops|
  {
    if ops == [] then (s, [])
    else
      var (t, a) := RefStep(s, ops[0]);
      if a.NoReturn? then (t, [a])
      else
        var (u, rest) := RefRun(t, ops[1..]);
        (u, [a] + rest)
  }

  // ------------------------------------------------------------------
  // Refinement, operation by operation
  // ------------------------------------------------------------------

  // FUSE passes absolute paths.
  predicate AbsoluteOp(op: Op) {
    match op
    case Rename(src, dst) => Absolute(src) && Absolute(dst)
    case _ => Absolute(op.path)
  }

  // getattr of the root directory, by any spelling of "/".
  predicate AsksRootSize(op: Op) {
    op.Getattr? && SkipSlashes(op.path) == ""
  }

  // Equal answers, except that the size of the root directory is as written
  // the size of whatever directory is current.
  predicate SameAnswer(op: Op, a: Answer, b: Answer) {
    if AsksRootSize(op) then
      a.Attributes? && b.Attributes? && a.rc == b.rc && a.stat.(size := 0) == b.stat.(size := 0)
    else a == b
  }

  // An absolute chdir forgets where it came from.
  lemma ChdirForgets(st: State, path: string)
    requires Absolute(path)
    ensures var (t, ok) := Chdir(st, path);
            && t.store == st.store
            && t.cur == Reach(st.store, st.store.root, PathComponents(path))
            && Walk(st.store, st.store.root, PathComponents(path)) == if ok then Some(t.cur) else None
  {
    var cs := PathComponents(path);
    ChdirAbsolute(st, path);
    LongestPrefix(st.store, st.store.root, cs);
  }

  // When it succeeds, the new cwd parses back to the new position; no
  // assumption on the names in the volume is needed for that.
  lemma ChdirSuccessAgrees(st: State, path: string)
    requires Absolute(path) && Chdir(st, path).1
    ensures Agrees(Chdir(st, path).0)
  {
    hide Chdir, Walk, Depth, Reach, PathComponents, Print;
    var cs := PathComponents(path);
    ChdirAbsolute(st, path);
    ComponentsPrintable(path);
    PrintParse(cs);
    assert cs[..|cs|] == cs;
  }

  lemma DirnameAbsolute(path: string)
    requires Absolute(path)
    ensures Absolute(Dirname(path))
  {
    AbsoluteDirname(path);
    assert Dirname(path)[..1][0] == '/';
  }

  // The relative form used by mkdir, rmdir, unlink and create has the same
  // parent and the same name.
  lemma SameParent(path: string)
    requires Absolute(path) && SkipSlashes(path) != ""
    ensures PathComponents(Dirname(SkipSlashes(path))) == PathComponents(Dirname(path))
    ensures Basename(SkipSlashes(path)) == Basename(path)
  {
    hide Dirname, Basename, PathComponents, SkipSlashes;
    var rel := SkipSlashes(path);
    var lead := path[..|path| - |rel|];
    assert path == lead + rel;
    LeadIsSlashes(path);
    LeadDirname(lead, rel);
  }

  lemma LeadDirname(lead: string, rel: string)
    requires lead != "" && forall i :: 0 <= i < |lead| ==> lead[i] == '/'
    requires rel != "" && rel[0] != '/'
    ensures PathComponents(Dirname(lead + rel)) == PathComponents(Dirname(rel))
    ensures Basename(lead + rel) == Basename(rel)
  {
    hide StripTrailing, AfterLastSlash, PathComponents, SkipSlashes, Dirname, Basename;
    var t := StripTrailing(rel);
    LeadStrip(lead, rel);
    DirnameIs(lead + rel);
    DirnameIs(rel);
    LeadLast(lead, t);
    var head := t[..AfterLastSlash(t)];
    if head == "" {
      assert lead + head == lead;
      StripUnique(lead, "");
      NoComponents();
    } else {
      assert head[0] == rel[0];
      LeadComponents(lead, head);
    }
  }

  lemma LeadLast(lead: string, t: string)
    requires lead != "" && lead[|lead| - 1] == '/'
    ensures var i, j := AfterLastSlash(t), AfterLastSlash(lead + t);
            && j == |lead| + i && (lead + t)[j..] == t[i..] && (lead + t)[..j] == lead + t[..i]
            && (t[..i] == "" <==> i == 0)
  {
    hide AfterLastSlash;
    var i := AfterLastSlash(t);
    var p := lead + t;
    assert p[|lead| + i..] == t[i..] && p[..|lead| + i] == lead + t[..i];
    AfterLastSlashUnique(p, |lead| + i);
  }

  lemma LeadStrip(lead: string, rel: string)
    requires rel != "" && rel[0] != '/'
    ensures var t := StripTrailing(rel); t != "" && t[0] == rel[0] && StripTrailing(lead + rel) == lead + t
  {
    hide StripTrailing;
    var t := StripTrailing(rel);
    assert t != "";
    StripUnique(lead + rel, lead + t);
  }

  lemma LeadComponents(lead: string, v: string)
    requires forall i :: 0 <= i < |lead| ==> lead[i] == '/'
    requires v != "" && v[0] != '/'
    ensures StripTrailing(v) != "" && StripTrailing(lead + v) == lead + StripTrailing(v)
    ensures PathComponents(lead + StripTrailing(v)) == PathComponents(StripTrailing(v))
  {
    hide StripTrailing, PathComponents, SkipSlashes;
    var u := StripTrailing(v);
    LeadStrip(lead, v);
    SkipLead(lead, u);
    SkipLead("", u);
    assert "" + u == u;
    SameComponents(lead + u, u);
  }

  lemma NoComponents()
    ensures PathComponents("/") == [] && PathComponents(".") == []
  {
    assert SkipSlashes("/") == "";
  }

  lemma SameComponents(a: string, b: string)
    requires SkipSlashes(a) == SkipSlashes(b)
    ensures PathComponents(a) == PathComponents(b)
  {
  }

  lemma {:induction false} LeadIsSlashes(path: string)
    ensures forall i :: 0 <= i < |path| - |SkipSlashes(path)| ==> path[i] == '/'
  {
    if path != "" && path[0] == '/' {
      LeadIsSlashes(path[1..]);
    }
  }

  lemma {:induction false} SkipLead(lead: string, u: string)
    requires forall i :: 0 <= i < |lead| ==> lead[i] == '/'
    requires u != "" && u[0] != '/'
    ensures SkipSlashes(lead + u) == u
  {
    if lead == "" {
      assert lead + u == u;
    } else {
      assert (lead + u)[1..] == lead[1..] + u;
      SkipLead(lead[1..], u);
    }
  }

  lemma EntersParent(st: State, path: string)
    requires Absolute(path) && SkipSlashes(path) != ""
    ensures var (t, ok) := Chdir(ToRoot(st), Dirname(SkipSlashes(path)));
            && t.store == st.store
            && ParentDir(st.store, path) == if ok then Some(t.cur) else None
  {
    var d := Dirname(SkipSlashes(path));
    SameParent(path);
    RelativeDirname(SkipSlashes(path));
    LongestPrefix(st.store, st.store.root, PathComponents(d));
  }

  lemma GetDentryForgets(st: State, path: string)
    requires Absolute(path)
    ensures GetDentry(st, path).1 == DentryAt(st.store, path)
    ensures GetDentry(st, path).0.store == st.store
  {
    hide Chdir, Dirname, Basename, PathComponents, Reach, Walk, GetDirEnt, FindExact, RootDentry;
    DirnameAbsolute(path);
    ChdirForgets(st, Dirname(path));
    ChdirKeepsStore(Chdir(st, Dirname(path)).0, st.cwd);
  }

  lemma FileOpenForgets(st: State, path: string)
    requires Absolute(path)
    ensures FileOpen(st, path).1 == FileOf(st.store, path)
    ensures FileOpen(st, path).0.store == st.store
  {
    hide Chdir, Dirname, Basename, PathComponents, Walk, FileAt;
    DirnameAbsolute(path);
    ChdirForgets(st, Dirname(path));
    ChdirKeepsStore(Chdir(st, Dirname(path)).0, st.cwd);
  }

  // getattr looks a plain name up in the directory it has entered, and comes
  // back to that directory by parsing the cwd it has just printed.
  lemma LookupHere(there: State, name: string)
    requires Agrees(there) && name != "" && '/' !in name
    ensures GetDentry(there, name) == (there, FindExact(GetDirEnt(there.store, there.cur), name))
  {
    DirnameOfAtom(name);
    StayHere(there);
    GetDentryRestores(there, name);
    hide Chdir, Dirname, Basename, Agrees, GetDirEnt;
  }

  lemma StayHere(st: State)
    ensures Chdir(st, ".") == (st, true)
  {
    NoComponents();
  }

  lemma GetattrForgets(st: State, path: string)
    requires Absolute(path)
    ensures GetattrStep(st, path).0.store == st.store
    ensures GetattrStep(st, path).1 == GetattrRef(st.store, path).0
    ensures GetattrStep(st, path).2.(size := 0) == GetattrRef(st.store, path).1.(size := 0)
    ensures SkipSlashes(path) != "" ==> GetattrStep(st, path).2 == GetattrRef(st.store, path).1
  {
    hide Chdir, GetDentry, CountDir, Dirname, Basename, SkipSlashes, PathComponents, Walk, Reach, GetDirEnt, FindExact,
         FileAt, GetPerm, Agrees;
    if SkipSlashes(path) != "" {
      var dir := Dirname(path);
      DirnameAbsolute(path);
      AbsoluteDirname(path);
      DirnameBasenameNonEmpty(path);
      ChdirForgets(st, dir);
      var (there, ok) := Chdir(st, dir);
      if ok {
        ChdirSuccessAgrees(st, dir);
        LookupHere(there, Basename(path));
        CountsThere(there, path);
      }
    }
  }

  lemma CountsThere(st: State, path: string)
    requires Absolute(path) && Agrees(st)
    ensures CountDir(st, path) == (st, |GetDirEnt(st.store, Reach(st.store, st.store.root, PathComponents(path)))|)
  {
    CountDirRestores(st, path);
    ChdirForgets(st, path);
  }

  lemma ReaddirForgets(st: State, path: string, room: nat)
    requires Absolute(path)
    ensures ReaddirStep(st, path, room).0.store == st.store
    ensures (ReaddirStep(st, path, room).1, ReaddirStep(st, path, room).2) == ReaddirRef(st.store, path, room)
  {
    hide Chdir, PathComponents, Walk, Reach, Listing;
    ChdirForgets(st, path);
  }

  lemma ReadlinkForgets(st: State, path: string, len: nat)
    requires Absolute(path)
    ensures Step(st, Readlink(path, len)).0.store == st.store
    ensures Step(st, Readlink(path, len)).1 == ReadlinkRef(st.store, path, len)
  {
    hide Chdir, Dirname, Basename, PathComponents, Walk, LinkText;
    DirnameAbsolute(path);
    ChdirForgets(st, Dirname(path));
    ChdirKeepsStore(Chdir(st, Dirname(path)).0, st.cwd);
  }

  lemma ReadForgets(st: State, path: string, size: int, offset: int)
    requires Absolute(path)
    ensures Step(st, Read(path, size, offset)).0.store == st.store
    ensures Step(st, Read(path, size, offset)).1 == ReadRef(st.store, path, size, offset)
  {
    hide Chdir, Dirname, Basename, PathComponents, Walk, FileAt, ReadAt, ToInt32, ToUnsigned;
    DirnameAbsolute(path);
    ChdirForgets(st, Dirname(path));
    ChdirKeepsStore(Chdir(st, Dirname(path)).0, st.cwd);
  }

  lemma WriteForgets(st: State, path: string, buffer: seq<bv8>, offset: int)
    requires Absolute(path)
    ensures var (t, a) := Step(st, Write(path, buffer, offset));
            (t.store, a) == WriteRef(st.store, path, buffer, offset)
  {
    hide Chdir, Dirname, Basename, PathComponents, Walk, FileAt, WriteFile;
    DirnameAbsolute(path);
    ChdirForgets(st, Dirname(path));
    var (there, ok) := Chdir(st, Dirname(path));
    var file := FileAt(there.store, there.cur, Basename(path));
    if ok && file.Some? {
      ChdirKeepsStore(there.(store := WriteFile(there.store, file.value, buffer, offset).0), st.cwd);
    }
  }

  lemma TruncateForgets(st: State, path: string, size: int)
    requires Absolute(path)
    ensures var (t, a) := Step(st, Truncate(path, size));
            (t.store, a) == TruncateRef(st.store, path, size)
  {
    hide FileOpen, FileOf, Resize, ToUnsigned;
    FileOpenForgets(st, path);
  }

  lemma MakeForgets(st: State, path: string)
    requires Absolute(path)
    ensures var (t, a) := Step(st, Mkdir(path)); (t.store, a) == RefStep(st.store, Mkdir(path))
    ensures var (t, a) := Step(st, Create(path)); (t.store, a) == RefStep(st.store, Create(path))
  {
    hide Chdir, Dirname, Basename, SkipSlashes, ParentDir, CreateEntry, Absolute;
    if SkipSlashes(path) != "" {
      SameParent(path);
      EntersParent(st, path);
    }
  }

  lemma RemoveForgets(st: State, path: string)
    requires Absolute(path)
    ensures var (t, a) := Step(st, Rmdir(path)); (t.store, a) == RemoveRef(st.store, path)
    ensures Step(st, Unlink(path)) == Step(st, Rmdir(path))
  {
    hide Chdir, Dirname, Basename, SkipSlashes, ParentDir, RemoveEntry, Absolute;
    if SkipSlashes(path) != "" {
      SameParent(path);
      EntersParent(st, path);
    }
  }

  lemma ChmodForgets(st: State, path: string, mode: Mode)
    requires Absolute(path)
    ensures var (t, a) := Step(st, Chmod(path, mode));
            (t.store, a) == ChmodRef(st.store, path, mode)
  {
    hide GetDentry, DentryAt, SetPerm;
    GetDentryForgets(st, path);
  }

  lemma RenameForgets(st: State, src: string, dst: string)
    requires Absolute(src) && Absolute(dst)
    ensures var (t, a) := Step(st, Rename(src, dst));
            (t.store, a) == RenameRef(st.store, src, dst)
  {
    hide GetDentry, DentryAt, Dirname, Basename, RenameIn, PathRewrite.Fuse2AmigaDosW;
    DirnameAbsolute(src);
    DirnameAbsolute(dst);
    var srcDir := PathRewrite.Fuse2AmigaDosW(Dirname(src));
    var dstDir := PathRewrite.Fuse2AmigaDosW(Dirname(dst));
    if srcDir.Some? && dstDir.Some? {
      PathRewrite.Fuse2AmigaDosShape(Dirname(src));
      PathRewrite.Fuse2AmigaDosShape(Dirname(dst));
      GetDentryForgets(st, srcDir.value);
      GetDentryForgets(GetDentry(st, srcDir.value).0, dstDir.value);
    }
  }

  // ------------------------------------------------------------------
  // Every operation, every state, every run
  // ------------------------------------------------------------------

  // One operation on absolute paths, from any state whatever, answers and
  // changes the volume as if there were no current directory.
  lemma StepRefines(st: State, op: Op)
    requires AbsoluteOp(op)
    ensures Step(st, op).0.store == RefStep(st.store, op).0
    ensures SameAnswer(op, Step(st, op).1, RefStep(st.store, op).1)
  {
    hide GetattrStep, ReaddirStep, GetattrRef, ReaddirRef, ReadlinkRef, ReadRef, WriteRef, TruncateRef, MakeRef,
         RemoveRef, ChmodRef, RenameRef, FileOf, FileOpen, SkipSlashes,
         ImageState.Readlink, ImageState.Read, ImageState.Write, ImageState.Mkdir, ImageState.Remove,
         ImageState.Create, ImageState.Truncate, SetPermission, ImageState.Rename;
    match op {
      case Getattr(path) => GetattrForgets(st, path);
      case Readdir(path, room) => ReaddirForgets(st, path, room);
      case Readlink(path, len) => ReadlinkForgets(st, path, len);
      case Open(path) => FileOpenForgets(st, path);
      case Read(path, size, offset) => ReadForgets(st, path, size, offset);
      case Write(path, buffer, offset) => WriteForgets(st, path, buffer, offset);
      case Mkdir(path) => MakeForgets(st, path);
      case Rmdir(path) => RemoveForgets(st, path);
      case Unlink(path) => RemoveForgets(st, path);
      case Create(path) => MakeForgets(st, path);
      case Truncate(path, size) => TruncateForgets(st, path, size);
      case Chmod(path, mode) => ChmodForgets(st, path, mode);
      case Rename(src, dst) => RenameForgets(st, src, dst);
    }
  }

  // Whole runs: the stale positions left by earlier operations never matter.
  lemma {:induction false} RunRefines(st: State, ops: seq<Op>)
    requires forall i :: 0 <= i < |ops| ==> AbsoluteOp(ops[i])
    ensures Run(st, ops).0.store == RefRun(st.store, ops).0
    ensures |Run(st, ops).1| == |RefRun(st.store, ops).1| <= |ops|
    ensures forall i :: 0 <= i < |Run(st, ops).1| ==>
              SameAnswer(ops[i], Run(st, ops).1[i], RefRun(st.store, ops).1[i])
    decreases |ops|
  {
    hide Step, RefStep, SameAnswer, AbsoluteOp;
    if ops != [] {
      StepRefines(st, ops[0]);
      SameReturn(ops[0], Step(st, ops[0]).1, RefStep(st.store, ops[0]).1);
      RunRefines(Step(st, ops[0]).0, ops[1..]);
    }
  }

  lemma SameReturn(op: Op, a: Answer, b: Answer)
    requires SameAnswer(op, a, b)
    ensures a.NoReturn? <==> b.NoReturn?
  {
  }

  lemma SameAnswerVia(op: Op, a: Answer, b: Answer, ref: Answer)
    requires SameAnswer(op, a, ref) && SameAnswer(op, b, ref)
    ensures SameAnswer(op, a, b)
  {
  }

  // History independence: any two states on the same volume.
  lemma HistoryIndependence(st1: State, st2: State, ops: seq<Op>)
    requires st1.store == st2.store
    requires forall i :: 0 <= i < |ops| ==> AbsoluteOp(ops[i])
    ensures Run(st1, ops).0.store == Run(st2, ops).0.store
    ensures |Run(st1, ops).1| == |Run(st2, ops).1| <= |ops|
    ensures forall i :: 0 <= i < |Run(st1, ops).1| ==>
              SameAnswer(ops[i], Run(st1, ops).1[i], Run(st2, ops).1[i])
  {
    hide Step, RefStep, SameAnswer, AbsoluteOp, Run, RefRun;
    RunRefines(st1, ops);
    RunRefines(st2, ops);
    forall i | 0 <= i < |Run(st1, ops).1| {
      SameAnswerVia(ops[i], Run(st1, ops).1[i], Run(st2, ops).1[i], RefRun(st1.store, ops).1[i]);
    }
  }
}
