// Where each FUSE operation leaves the current directory and the printed cwd,
// from any state, and what that does to the size reported for the root, to
// the agreement of the two, and to the length of cwd.
module Positions {
  import opened PathStrings
  import opened Volume
  import opened Permissions
  import opened Walking
  import opened ImageState
  import opened CwdMachine
  import opened CwdLimits
  import opened FuseState
  import opened Reference
  import PathRewrite

  datatype Place = Place(cur: Sector, cwd: string)

  function PlaceOf(st: State): Place {
    Place(st.cur, st.cwd)
  }

  function At(s: Store, pl: Place): State {
    State(s, pl.cur, pl.cwd)
  }

  // The end of the longest resolvable prefix of an absolute path, where chdir
  // stops.
  function StopOf(s: Store, path: string): Place {
    var cs := PathComponents(path);
    Place(Reach(s, s.root, cs), Print(cs[..Depth(s, s.root, cs)]))
  }

  // ------------------------------------------------------------------
  // Moves
  // ------------------------------------------------------------------

  // HomeFrom: at the root, while cwd prints where the walk of a path stopped.
  // Into: where that walk stopped, in both forms. Back: where the old cwd
  // leads. GrowHome, GrowInto: at the root, or where the walk of a path
  // relative to it stopped, while cwd has the components walked appended.
  datatype Move =
    | HomeFrom(path: string)
    | Into(path: string)
    | Back
    | GrowHome(rel: string)
    | GrowInto(rel: string)

  function Moved(s: Store, pl: Place, mv: Move): Place {
    match mv
    case HomeFrom(path) => Place(s.root, StopOf(s, path).cwd)
    case Into(path) => StopOf(s, path)
    case Back => StopOf(s, pl.cwd)
    case GrowHome(rel) => Place(s.root, AppendAll(pl.cwd, PathComponents(rel)))
    case GrowInto(rel) =>
      var cs := PathComponents(rel);
      Place(Reach(s, s.root, cs), AppendAll(pl.cwd, cs[..Depth(s, s.root, cs)]))
  }

  function MovedAll(s: Store, pl: Place, mvs: seq<Move>): Place
    decreases |mvs|
  {
    if mvs == [] then pl else MovedAll(s, Moved(s, pl, mvs[0]), mvs[1..])
  }

  // Looking an entry up by its path stays in a directory it finds empty.
  function LookupMoves(s: Store, path: string): seq<Move> {
    if path == "/" then []
    else if GetDirEnt(s, StopOf(s, Dirname(path)).cur) == [] then [Into(Dirname(path))]
    else [Back]
  }

  function FileMoves(s: Store, path: string): seq<Move> {
    if FileOf(s, path).Some? then [Back] else [Into(Dirname(path))]
  }

  function MakeMoves(s: Store, path: string): seq<Move> {
    if SkipSlashes(path) == "" then []
    else if ParentDir(s, path).Some? then [GrowHome(Dirname(SkipSlashes(path)))]
    else [GrowInto(Dirname(SkipSlashes(path)))]
  }

  function RenameMoves(s: Store, src: string, dst: string): seq<Move> {
    var srcDir := PathRewrite.Fuse2AmigaDosW(Dirname(src));
    var dstDir := PathRewrite.Fuse2AmigaDosW(Dirname(dst));
    if srcDir.None? || dstDir.None? then []
    else
      var d := DentryAt(s, srcDir.value);
      LookupMoves(s, srcDir.value) +
      if d.Some? && ParentSector(d.value).Some? then LookupMoves(s, dstDir.value) else []
  }

  // What moves when an operation is called on the volume s.
  function Moves(s: Store, op: Op): seq<Move> {
    match op
    case Getattr(path) =>
      if SkipSlashes(path) == "" then []
      else if ParentDir(s, path).Some? then [HomeFrom(Dirname(path))]
      else [Into(Dirname(path))]
    case Readdir(path, room) => [HomeFrom(path)]
    case Readlink(path, len) => if ParentDir(s, path).Some? then [Back] else [Into(Dirname(path))]
    case Open(path) => FileMoves(s, path)
    case Read(path, size, offset) => FileMoves(s, path)
    case Write(path, buffer, offset) => FileMoves(s, path)
    case Truncate(path, size) => FileMoves(s, path)
    case Mkdir(path) => MakeMoves(s, path)
    case Rmdir(path) => MakeMoves(s, path)
    case Unlink(path) => MakeMoves(s, path)
    case Create(path) => MakeMoves(s, path)
    case Chmod(path, mode) => LookupMoves(s, path)
    case Rename(src, dst) => RenameMoves(s, src, dst)
  }

  // ------------------------------------------------------------------
  // Every operation moves as listed
  // ------------------------------------------------------------------

  lemma ChdirStops(st: State, path: string)
    requires Absolute(path)
    ensures Chdir(st, path).0 == At(st.store, StopOf(st.store, path))
    ensures Chdir(st, path).1 <==> Walk(st.store, st.store.root, PathComponents(path)).Some?
  {
    ChdirAbsolute(st, path);
    hide Chdir, Depth, Reach, Walk, PathComponents, Print;
  }

  // A walk that resolves stops at its end.
  lemma StopWhole(s: Store, d: string)
    requires Walk(s, s.root, PathComponents(d)).Some?
    ensures StopOf(s, d) == Place(Walk(s, s.root, PathComponents(d)).value, Print(PathComponents(d)))
  {
    hide PathComponents, Print, Reach, Depth, Walk;
    var cs := PathComponents(d);
    LongestPrefix(s, s.root, cs);
    assert cs[..|cs|] == cs;
  }

  lemma OneMove(s: Store, pl: Place, mv: Move)
    ensures MovedAll(s, pl, [mv]) == Moved(s, pl, mv) && MovedAll(s, pl, []) == pl
  {
    hide Moved;
    assert [mv][1..] == [];
  }

  lemma {:induction false} MovedConcat(s: Store, pl: Place, a: seq<Move>, b: seq<Move>)
    ensures MovedAll(s, pl, a + b) == MovedAll(s, MovedAll(s, pl, a), b)
    decreases |a|
  {
    hide Moved;
    if a == [] {
      assert a + b == b;
    } else {
      assert (a + b)[1..] == a[1..] + b;
      MovedConcat(s, Moved(s, pl, a[0]), a[1..], b);
    }
  }

  lemma {:induction false} SameTreeStep(s: Store, t: Store, d: Sector, cs: seq<string>)
    requires SameTree(s, t)
    ensures Depth(s, d, cs) == Depth(t, d, cs) && Reach(s, d, cs) == Reach(t, d, cs)
    decreases |cs|
  {
    hide SameTree, ChangeDir;
    if cs != [] {
      SameTreeChangeDir(s, t, d, cs[0]);
      match ChangeDir(s, d, cs[0])
      case None =>
      case Some(e) => SameTreeStep(s, t, e, cs[1..]);
    }
  }

  lemma SameTreeStops(s: Store, t: Store, path: string)
    requires SameTree(s, t)
    ensures StopOf(s, path) == StopOf(t, path)
  {
    SameTreeStep(s, t, s.root, PathComponents(path));
    hide Depth, Reach, PathComponents, Print;
  }

  lemma LookupPlace(st: State, path: string)
    requires Absolute(path) && Absolute(st.cwd)
    ensures GetDentry(st, path).0 == At(st.store, MovedAll(st.store, PlaceOf(st), LookupMoves(st.store, path)))
  {
    hide Chdir, Dirname, Basename, GetDirEnt, FindExact, StopOf, RootDentry, MovedAll;
    var d := Dirname(path);
    DirnameAbsolute(path);
    ChdirStops(st, d);
    ChdirStops(Chdir(st, d).0, st.cwd);
    OneMove(st.store, PlaceOf(st), Back);
    OneMove(st.store, PlaceOf(st), Into(d));
  }

  lemma FilePlace(st: State, path: string)
    requires Absolute(path) && Absolute(st.cwd)
    ensures FileOpen(st, path).0 == At(st.store, MovedAll(st.store, PlaceOf(st), FileMoves(st.store, path)))
  {
    hide Chdir, Dirname, Basename, FileAt, StopOf, MovedAll, FileOf;
    var d := Dirname(path);
    DirnameAbsolute(path);
    FileOpenForgets(st, path);
    ChdirStops(st, d);
    ChdirStops(Chdir(st, d).0, st.cwd);
    OneMove(st.store, PlaceOf(st), Back);
    OneMove(st.store, PlaceOf(st), Into(d));
  }

  lemma ReadPlace(st: State, path: string, size: int, offset: int)
    ensures ImageState.Read(st, path, size, offset).0 == FileOpen(st, path).0
  {
    hide Chdir, Dirname, Basename, FileAt;
  }

  lemma TruncatePlace(st: State, path: string, size: int)
    ensures PlaceOf(ImageState.Truncate(st, path, size).0) == PlaceOf(FileOpen(st, path).0)
  {
    hide FileOpen;
  }

  // The way back is walked in the volume written to.
  lemma WritePlace(st: State, path: string, buffer: seq<bv8>, offset: int)
    requires Absolute(path) && Absolute(st.cwd)
    ensures PlaceOf(ImageState.Write(st, path, buffer, offset).0) == PlaceOf(FileOpen(st, path).0)
  {
    hide Chdir, Dirname, Basename, FileAt, StopOf, WriteAt, ToUnsigned, ToInt32, SameTree;
    var (there, ok) := Chdir(st, Dirname(path));
    var file := FileAt(there.store, there.cur, Basename(path));
    if ok && file.Some? {
      var s := WriteFile(there.store, file.value, buffer, offset).0;
      DataKeepsTree(there.store, file.value, s.blocks[file.value].data);
      SameTreeStops(there.store, s, st.cwd);
      ChdirStops(there.(store := s), st.cwd);
      ChdirStops(there, st.cwd);
    }
  }

  lemma ReadlinkPlace(st: State, path: string, len: nat)
    requires Absolute(path) && Absolute(st.cwd)
    ensures ImageState.Readlink(st, path, len).0 ==
            At(st.store, MovedAll(st.store, PlaceOf(st), Moves(st.store, Readlink(path, len))))
  {
    hide Chdir, Dirname, Basename, StopOf, MovedAll, LinkText, Walk, PathComponents;
    var d := Dirname(path);
    DirnameAbsolute(path);
    ChdirStops(st, d);
    ChdirStops(Chdir(st, d).0, st.cwd);
    OneMove(st.store, PlaceOf(st), Back);
    OneMove(st.store, PlaceOf(st), Into(d));
  }

  lemma GetattrPlace(st: State, path: string)
    requires Absolute(path)
    ensures GetattrStep(st, path).0 == At(st.store, MovedAll(st.store, PlaceOf(st), Moves(st.store, Getattr(path))))
  {
    hide Chdir, GetDentry, CountDir, Dirname, Basename, SkipSlashes, PathComponents, Walk, Reach, GetDirEnt, FindExact,
         FileAt, GetPerm, Agrees, MovedAll, StopOf;
    if SkipSlashes(path) == "" {
      OneMove(st.store, PlaceOf(st), Back);
    } else {
      var dir := Dirname(path);
      DirnameAbsolute(path);
      AbsoluteDirname(path);
      DirnameBasenameNonEmpty(path);
      ChdirStops(st, dir);
      OneMove(st.store, PlaceOf(st), HomeFrom(dir));
      OneMove(st.store, PlaceOf(st), Into(dir));
      var (there, ok) := Chdir(st, dir);
      if ok {
        ChdirSuccessAgrees(st, dir);
        LookupHere(there, Basename(path));
        CountsThere(there, path);
      }
    }
  }

  lemma ReaddirPlace(st: State, path: string, room: nat)
    requires Absolute(path)
    ensures ReaddirStep(st, path, room).0 == At(st.store, MovedAll(st.store, PlaceOf(st), [HomeFrom(path)]))
  {
    hide Chdir, StopOf, Listing, MovedAll;
    ChdirStops(st, path);
    OneMove(st.store, PlaceOf(st), HomeFrom(path));
  }

  // A relative walk from the root.
  lemma ParentPlace(st: State, path: string)
    requires Absolute(path) && SkipSlashes(path) != ""
    ensures var d := Dirname(SkipSlashes(path));
            var (there, ok) := Chdir(ToRoot(st), d);
            && there.store == st.store
            && (ok <==> ParentDir(st.store, path).Some?)
            && PlaceOf(there) == Moved(st.store, PlaceOf(st), GrowInto(d))
            && (ok ==> there.cwd == Moved(st.store, PlaceOf(st), GrowHome(d)).cwd)
  {
    hide Dirname, SkipSlashes, ParentDir, PathComponents, Depth, Reach, AppendAll, Chdir, Walk;
    var d := Dirname(SkipSlashes(path));
    EntersParent(st, path);
    RelativeDirname(SkipSlashes(path));
    RelativeWhole(ToRoot(st), d);
    RelativeStops(ToRoot(st), d);
  }

  lemma RelativeStops(st: State, d: string)
    requires d != "" && !Absolute(d)
    ensures Chdir(st, d).0.cur == Reach(st.store, st.cur, PathComponents(d))
    ensures var cs := PathComponents(d); Chdir(st, d).0.cwd == AppendAll(st.cwd, cs[..Depth(st.store, st.cur, cs)])
  {
    hide PathComponents, Depth, Reach, AppendAll;
  }

  lemma MakePlace(st: State, path: string)
    requires Absolute(path)
    ensures forall t :: t in {ImageState.Mkdir(st, path).0, ImageState.Create(st, path).0,
                               ImageState.Remove(st, path).0} ==>
              PlaceOf(t) == MovedAll(st.store, PlaceOf(st), MakeMoves(st.store, path))
  {
    var d := Dirname(SkipSlashes(path));
    hide Chdir, Dirname, Basename, SkipSlashes, ParentDir, CreateEntry, RemoveEntry, MovedAll, AppendAll,
         PathComponents;
    OneMove(st.store, PlaceOf(st), GrowHome(d));
    OneMove(st.store, PlaceOf(st), GrowInto(d));
    if SkipSlashes(path) != "" {
      ParentPlace(st, path);
      var there := Chdir(ToRoot(st), d).0;
      CallsKeepRoot(there.store, there.cur, Basename(SkipSlashes(path)));
    }
  }

  lemma RenamePlace(st: State, src: string, dst: string)
    requires Absolute(src) && Absolute(dst) && Absolute(st.cwd)
    ensures PlaceOf(ImageState.Rename(st, src, dst).0) ==
            MovedAll(st.store, PlaceOf(st), RenameMoves(st.store, src, dst))
  {
    hide GetDentry, DentryAt, Dirname, Basename, RenameIn, PathRewrite.Fuse2AmigaDosW, LookupMoves, MovedAll;
    DirnameAbsolute(src);
    DirnameAbsolute(dst);
    var srcDir := PathRewrite.Fuse2AmigaDosW(Dirname(src));
    var dstDir := PathRewrite.Fuse2AmigaDosW(Dirname(dst));
    OneMove(st.store, PlaceOf(st), Back);
    if srcDir.Some? && dstDir.Some? {
      PathRewrite.Fuse2AmigaDosShape(Dirname(src));
      PathRewrite.Fuse2AmigaDosShape(Dirname(dst));
      var (st1, d1) := GetDentry(st, srcDir.value);
      LookupPlace(st, srcDir.value);
      GetDentryForgets(st, srcDir.value);
      MovesAbsolute(st.store, PlaceOf(st), LookupMoves(st.store, srcDir.value));
      LookupPlace(st1, dstDir.value);
      GetDentryForgets(st1, dstDir.value);
      MovedConcat(st.store, PlaceOf(st), LookupMoves(st.store, srcDir.value), LookupMoves(st.store, dstDir.value));
      assert LookupMoves(st.store, srcDir.value) + [] == LookupMoves(st.store, srcDir.value);
    }
  }

  // cwd is absolute after every move.
  lemma {:induction false} MovesAbsolute(s: Store, pl: Place, mvs: seq<Move>)
    requires Absolute(pl.cwd)
    ensures Absolute(MovedAll(s, pl, mvs).cwd)
    decreases |mvs|
  {
    if mvs != [] {
      MoveAbsolute(s, pl, mvs[0]);
      MovesAbsolute(s, Moved(s, pl, mvs[0]), mvs[1..]);
    }
  }

  lemma MoveAbsolute(s: Store, pl: Place, mv: Move)
    requires Absolute(pl.cwd)
    ensures Absolute(Moved(s, pl, mv).cwd)
  {
    hide PathComponents, Depth, Reach, AppendAll, Print;
    match mv {
      case GrowHome(rel) => AppendAllAbsolute(pl.cwd, PathComponents(rel));
      case GrowInto(rel) =>
        AppendAllAbsolute(pl.cwd, PathComponents(rel)[..Depth(s, s.root, PathComponents(rel))]);
      case _ =>
    }
  }

  lemma {:induction false} AppendAllAbsolute(cwd: string, cs: seq<string>)
    requires Absolute(cwd)
    ensures Absolute(AppendAll(cwd, cs))
    decreases |cs|
  {
    if cs != [] {
      AppendAllAbsolute(AppendDir(cwd, cs[0]), cs[1..]);
    }
  }

  // Where one operation leaves the current directory and cwd.
  lemma StepPlace(st: State, op: Op)
    requires AbsoluteOp(op) && Absolute(st.cwd)
    ensures PlaceOf(Step(st, op).0) == MovedAll(st.store, PlaceOf(st), Moves(st.store, op))
    ensures Absolute(Step(st, op).0.cwd)
  {
    hide Step, MovedAll, Moves;
    MovesAbsolute(st.store, PlaceOf(st), Moves(st.store, op));
    if op.Mkdir? || op.Rmdir? || op.Unlink? || op.Create? || op.Chmod? || op.Rename? {
      ChangingPlace(st, op);
    } else {
      LookingPlace(st, op);
    }
  }

  lemma LookingPlace(st: State, op: Op)
    requires AbsoluteOp(op) && Absolute(st.cwd)
    requires !op.Mkdir? && !op.Rmdir? && !op.Unlink? && !op.Create? && !op.Chmod? && !op.Rename?
    ensures PlaceOf(Step(st, op).0) == MovedAll(st.store, PlaceOf(st), Moves(st.store, op))
  {
    hide GetattrStep, ReaddirStep, FileOpen, MovedAll, FileMoves, ImageState.Readlink, ImageState.Read,
         ImageState.Write,
         ImageState.Truncate;
    match op {
      case Getattr(path) => GetattrPlace(st, path);
      case Readdir(path, room) => ReaddirPlace(st, path, room);
      case Readlink(path, len) => ReadlinkPlace(st, path, len);
      case Open(path) => FilePlace(st, path);
      case Read(path, size, offset) => FilePlace(st, path); ReadPlace(st, path, size, offset);
      case Write(path, buffer, offset) => FilePlace(st, path); WritePlace(st, path, buffer, offset);
      case Truncate(path, size) => FilePlace(st, path); TruncatePlace(st, path, size);
    }
  }

  lemma ChangingPlace(st: State, op: Op)
    requires AbsoluteOp(op) && Absolute(st.cwd)
    requires op.Mkdir? || op.Rmdir? || op.Unlink? || op.Create? || op.Chmod? || op.Rename?
    ensures PlaceOf(Step(st, op).0) == MovedAll(st.store, PlaceOf(st), Moves(st.store, op))
  {
    hide MovedAll, Moves, Step;
    ChangingStep(st, op);
    if op.Rename? {
      RenamePlace(st, op.src, op.dst);
    } else if op.Chmod? {
      LookupPlace(st, op.path);
      ChmodPlace(st, op.path, op.mode);
    } else {
      MakePlace(st, op.path);
    }
    hide LookupMoves, MakeMoves, RenameMoves, ImageState.Mkdir, ImageState.Remove, ImageState.Create, SetPermission,
         ImageState.Rename, GetDentry;
  }

  lemma ChangingStep(st: State, op: Op)
    ensures op.Mkdir? || op.Rmdir? || op.Unlink? || op.Create? ==>
              && Moves(st.store, op) == MakeMoves(st.store, op.path)
              && Step(st, op).0 in {ImageState.Mkdir(st, op.path).0, ImageState.Create(st, op.path).0,
                                    ImageState.Remove(st, op.path).0}
    ensures op.Chmod? ==>
              && Moves(st.store, op) == LookupMoves(st.store, op.path)
              && Step(st, op).0 == SetPermission(st, op.path, op.mode.user).0
    ensures op.Rename? ==>
              && Moves(st.store, op) == RenameMoves(st.store, op.src, op.dst)
              && Step(st, op).0 == ImageState.Rename(st, op.src, op.dst).0
  {
    hide LookupMoves, MakeMoves, RenameMoves, FileMoves, ImageState.Mkdir, ImageState.Remove, ImageState.Create,
         SetPermission, ImageState.Rename;
  }

  lemma ChmodPlace(st: State, path: string, mode: Mode)
    ensures PlaceOf(SetPermission(st, path, mode.user).0) == PlaceOf(GetDentry(st, path).0)
  {
    hide GetDentry, SetPerm;
  }
}
