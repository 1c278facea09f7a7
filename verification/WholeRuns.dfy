// Runs of FUSE operations on well-formed volumes: what every operation keeps,
// and what create, mkdir, unlink and rmdir do to each other.
module WholeRuns {
  import opened PathStrings
  import opened Volume
  import opened VolumeLaws
  import opened Permissions
  import opened Walking
  import opened ImageState
  import opened FuseState
  import opened Reference
  import PathRewrite
  import opened CwdMachine

  // The operation introduces no unusable entry name.
  predicate UsableName(op: Op) {
    match op
    case Mkdir(path) => ValidName(Basename(path))
    case Create(path) => ValidName(Basename(path))
    case Rename(src, dst) => ValidName(Basename(dst))
    case _ => true
  }

  lemma DataValid(s: Store, c: Sector, data: seq<bv8>)
    requires Valid(s) && c in s.blocks
    ensures Valid(SetData(s, c, data))
  {
    SameShapeValid(s, SetData(s, c, data));
  }

  lemma AccessValid(s: Store, c: Sector, access: Word)
    requires Valid(s) && c in s.blocks
    ensures Valid(SetAccess(s, c, access))
  {
    SameShapeValid(s, SetAccess(s, c, access));
  }

  lemma RenameRefValid(s: Store, src: string, dst: string)
    requires Valid(s) && ValidName(Basename(dst))
    ensures Valid(RenameRef(s, src, dst).0)
  {
    hide Valid, DentryAt, Dirname, Basename, ValidName, RenameEntry, PathRewrite.Fuse2AmigaDosW;
    forall p, q {
      RenameValid(s, p, Basename(src), q, Basename(dst));
    }
  }

  lemma MakeRefValid(s: Store, path: string, kind: Kind, root: int, failed: int)
    requires Valid(s) && ValidName(Basename(path)) && kind != Root
    ensures Valid(MakeRef(s, path, kind, root, failed).0)
  {
    hide Valid, ParentDir, Basename, SkipSlashes, ValidName, CreateEntry;
    match ParentDir(s, path)
    case None =>
    case Some(d) => CreateValid(s, d, Basename(path), kind);
  }

  lemma RemoveRefValid(s: Store, path: string)
    requires Valid(s)
    ensures Valid(RemoveRef(s, path).0)
  {
    hide Valid, ParentDir, Basename, SkipSlashes, RemoveEntry;
    match ParentDir(s, path)
    case None =>
    case Some(d) => RemoveValid(s, d, Basename(path));
  }

  lemma WriteRefValid(s: Store, path: string, buffer: seq<bv8>, offset: int, size: int)
    requires Valid(s)
    ensures Valid(WriteRef(s, path, buffer, offset).0) && Valid(TruncateRef(s, path, size).0)
  {
    hide Valid, FileOf, WriteAt, Resize, ToUnsigned, SetData;
    match FileOf(s, path)
    case None =>
    case Some(f) =>
      DataValid(s, f, WriteAt(s.blocks[f].data, buffer[..ToUnsignedLength(buffer)], ToUnsigned(offset)));
      DataValid(s, f, Resize(s.blocks[f].data, ToUnsigned(size)));
  }

  function ToUnsignedLength(buffer: seq<bv8>): (n: nat)
    ensures n <= |buffer|
  {
    ToUnsigned(|buffer|)
  }

  lemma ChmodRefValid(s: Store, path: string, mode: Mode)
    requires Valid(s)
    ensures Valid(ChmodRef(s, path, mode).0)
  {
    hide Valid, DentryAt, SetPerm, SetAccess;
    var d := DentryAt(s, path);
    if d.Some? && d.value.sector in s.blocks {
      AccessValid(s, d.value.sector, SetPerm(s.masks, s.blocks[d.value.sector].access, mode.user));
    }
  }

  lemma StepKeepsValid(s: Store, op: Op)
    requires Valid(s) && UsableName(op)
    ensures Valid(RefStep(s, op).0)
  {
    hide Valid, WriteRef, TruncateRef, MakeRef, RemoveRef, ChmodRef, RenameRef, GetattrRef, ReaddirRef, ReadlinkRef,
         ReadRef, FileOf, ValidName, Basename;
    match op {
      case Write(path, buffer, offset) => WriteRefValid(s, path, buffer, offset, 0);
      case Truncate(path, size) => WriteRefValid(s, path, [], 0, size);
      case Mkdir(path) => MakeRefValid(s, path, Dir, -EEXIST, ADF_RC_ERROR);
      case Create(path) => MakeRefValid(s, path, File, -EINVAL, -1);
      case Rmdir(path) => RemoveRefValid(s, path);
      case Unlink(path) => RemoveRefValid(s, path);
      case Chmod(path, mode) => ChmodRefValid(s, path, mode);
      case Rename(src, dst) => RenameRefValid(s, src, dst);
      case _ =>
    }
  }

  lemma {:induction false} RefRunKeepsValid(s: Store, ops: seq<Op>)
    requires Valid(s) && forall i :: 0 <= i < |ops| ==> UsableName(ops[i])
    ensures Valid(RefRun(s, ops).0)
    decreases |ops|
  {
    hide Valid, RefStep, UsableName;
    if ops != [] {
      StepKeepsValid(s, ops[0]);
      RefRunKeepsValid(RefStep(s, ops[0]).0, ops[1..]);
    }
  }

  // Every run of operations on absolute paths, from any state, keeps the
  // volume well-formed.
  lemma RunKeepsValid(st: State, ops: seq<Op>)
    requires Valid(st.store)
    requires forall i :: 0 <= i < |ops| ==> AbsoluteOp(ops[i]) && UsableName(ops[i])
    ensures Valid(Run(st, ops).0.store)
  {
    hide Valid, Run, RefRun, UsableName, AbsoluteOp, SameAnswer;
    RunRefines(st, ops);
    RefRunKeepsValid(st.store, ops);
  }

  // ------------------------------------------------------------------
  // Creating, looking, and removing again
  // ------------------------------------------------------------------

  lemma CreateKeepsStep(s: Store, parent: Sector, name: string, kind: Kind, d: Sector, x: string)
    requires Valid(s) && ValidName(name) && kind != Root && CreateEntry(s, parent, name, kind).1
    requires ChangeDir(s, d, x).Some?
    ensures ChangeDir(CreateEntry(s, parent, name, kind).0, d, x) == ChangeDir(s, d, x)
  {
    var t := CreateEntry(s, parent, name, kind).0;
    CreateEffect(s, parent, name, kind);
    CreateValid(s, parent, name, kind);
    hide CreateEntry, Valid, Lookup, SameName;
    var y := Lookup(s, d, x).value;
    LookupIs(s, d, x, y);
    LookupIs(t, d, x, y);
    ChildIn(s, d, y);
  }

  lemma ChildIn(s: Store, d: Sector, y: Sector)
    requires Valid(s) && y in Children(s, d)
    ensures y in s.blocks
  {
  }

  lemma {:induction false} CreateKeepsWalk(s: Store, parent: Sector, name: string, kind: Kind, d: Sector,
                                           cs: seq<string>)
    requires Valid(s) && ValidName(name) && kind != Root && CreateEntry(s, parent, name, kind).1
    requires Walk(s, d, cs).Some?
    ensures Walk(CreateEntry(s, parent, name, kind).0, d, cs) == Walk(s, d, cs)
    decreases |cs|
  {
    hide CreateEntry, Valid, ChangeDir;
    if cs != [] {
      CreateKeepsStep(s, parent, name, kind, d, cs[0]);
      CreateKeepsWalk(s, parent, name, kind, ChangeDir(s, d, cs[0]).value, cs[1..]);
    }
  }

  // After a successful create or mkdir, getattr of the path shows an empty
  // file or directory on which everything is permitted.
  lemma MakeThenGetattr(s: Store, path: string, kind: Kind, root: int, failed: int)
    requires Valid(s) && ValidName(Basename(path)) && SkipSlashes(path) != "" && (kind == File || kind == Dir)
    requires failed != 0 && MakeRef(s, path, kind, root, failed).1 == Status(0)
    ensures var t := MakeRef(s, path, kind, root, failed).0;
            var rwx := Rwx(true, true, true);
            && ParentDir(t, path) == ParentDir(s, path) && ParentDir(s, path).Some?
            && FindExact(GetDirEnt(t, ParentDir(t, path).value), Basename(path)) ==
               Some(Entry(Basename(path), kind, s.free[0], 0, {}))
            && GetattrRef(t, path).0 == 0
            && (kind == File ==> GetattrRef(t, path).1 == Stat(Regular, FileMode(rwx), 0, 1))
            && (kind == Dir ==> GetattrRef(t, path).1.format == Directory && GetattrRef(t, path).1.mode == DirMode(rwx))
  {
    hide Basename, Dirname, SkipSlashes, PathComponents, Valid, CreateEntry, Walk, GetDirEnt, FindExact, ValidName,
         FileAt,
         Reach;
    var d := ParentDir(s, path).value;
    var t := CreateEntry(s, d, Basename(path), kind).0;
    CreateKeepsWalk(s, d, Basename(path), kind, s.root, PathComponents(Dirname(path)));
    MadeEntry(s, d, Basename(path), kind);
  }

  lemma MadeEntry(s: Store, d: Sector, n: string, kind: Kind)
    requires Valid(s) && ValidName(n) && kind != Root && CreateEntry(s, d, n, kind).1
    ensures s.free != []
    ensures var t := CreateEntry(s, d, n, kind).0;
            && t.root == s.root && t.masks == s.masks
            && FindExact(GetDirEnt(t, d), n) == Some(Entry(n, kind, s.free[0], 0, {}))
            && Lookup(t, d, n) == Some(s.free[0])
            && (kind == File ==> FileAt(t, d, n) == Some(s.free[0]) && t.blocks[s.free[0]].data == [])
  {
    var t := CreateEntry(s, d, n, kind).0;
    MadeMasks(s, d, n, kind);
    CreateEffect(s, d, n, kind);
    CreateValid(s, d, n, kind);
    hide CreateEntry, Valid, FindExact, GetDirEnt, Lookup;
    var c := s.free[0];
    FindExactIs(t, d, n, c);
    LookupIs(t, d, n, c);
  }

  lemma MadeMasks(s: Store, d: Sector, n: string, kind: Kind)
    ensures CreateEntry(s, d, n, kind).0.masks == s.masks
  {
  }

  // Removing what was just created succeeds and gives the volume back.
  lemma MadeIsRemoved(s: Store, path: string, kind: Kind, root: int, failed: int)
    requires Valid(s) && ValidName(Basename(path)) && SkipSlashes(path) != "" && (kind == File || kind == Dir)
    requires failed != 0 && MakeRef(s, path, kind, root, failed).1 == Status(0)
    ensures var (u, a) := RemoveRef(MakeRef(s, path, kind, root, failed).0, path);
            a == Status(0) && u == s
  {
    hide Basename, Dirname, SkipSlashes, PathComponents, Valid, CreateEntry, RemoveEntry, Walk, ValidName;
    var d := ParentDir(s, path).value;
    CreateKeepsWalk(s, d, Basename(path), kind, s.root, PathComponents(Dirname(path)));
    MadeEntry(s, d, Basename(path), kind);
    MadeGone(s, d, Basename(path), kind);
  }

  lemma MadeGone(s: Store, d: Sector, n: string, kind: Kind)
    requires Valid(s) && ValidName(n) && kind != Root && CreateEntry(s, d, n, kind).1
    ensures var (u, done) := RemoveEntry(CreateEntry(s, d, n, kind).0, d, n);
            done && u == s
  {
    hide CreateEntry, RemoveEntry, Valid, Lookup, FindExact, GetDirEnt, FileAt, ValidName, SameName, Children;
    var t := CreateEntry(s, d, n, kind).0;
    MadeEntry(s, d, n, kind);
    CreateValid(s, d, n, kind);
    var c := s.free[0];
    MadeBlock(s, d, n, kind);
    EmptyIsRemoved(t, d, n, c);
    RemovedMasks(t, d, n);
    MadeMasks(s, d, n, kind);
    RemovedBlocks(s, t, d, n, kind, c);
  }

  lemma MadeBlock(s: Store, d: Sector, n: string, kind: Kind)
    requires Valid(s) && CreateEntry(s, d, n, kind).1
    ensures s.free != []
    ensures var t := CreateEntry(s, d, n, kind).0; s.free[0] in t.blocks && t.blocks[s.free[0]].children == []
  {
    CreateEffect(s, d, n, kind);
    hide *;
  }

  lemma RemovedBlocks(s: Store, t: Store, d: Sector, n: string, kind: Kind, c: Sector)
    requires Valid(s) && Valid(t) && CreateEntry(s, d, n, kind) == (t, true) && s.free != [] && c == s.free[0]
    requires Lookup(t, d, n) == Some(c) && RemoveEntry(t, d, n).1
    ensures var u := RemoveEntry(t, d, n).0;
            u.blocks == s.blocks && u.free == s.free && u.root == s.root && u.intl == s.intl
  {
    hide CreateEntry, RemoveEntry, Valid, Lookup, FindExact, GetDirEnt, FileAt, ValidName, SameName, Children;
    CreateEffect(s, d, n, kind);
    RemoveEffect(t, d, n);
    UnusedNoChild(s, d, c);
    WithoutLast(s.blocks[d].children, c);
    SameBlocks(s, t, RemoveEntry(t, d, n).0, d, c);
  }

  lemma RemovedMasks(s: Store, d: Sector, n: string)
    ensures RemoveEntry(s, d, n).0.masks == s.masks
  {
  }

  lemma EmptyIsRemoved(t: Store, d: Sector, n: string, c: Sector)
    requires Lookup(t, d, n) == Some(c) && c in t.blocks && t.blocks[c].children == []
    ensures RemoveEntry(t, d, n).1
  {
  }

  lemma UnusedNoChild(s: Store, d: Sector, c: Sector)
    requires Valid(s) && c !in s.blocks && d in s.blocks
    ensures c !in s.blocks[d].children
  {
    assert Children(s, d) == s.blocks[d].children;
  }

  lemma {:induction false} WithoutLast(kids: seq<Sector>, c: Sector)
    requires c !in kids
    ensures Without(kids + [c], c) == kids
  {
    if kids != [] {
      assert (kids + [c])[1..] == kids[1..] + [c];
      WithoutLast(kids[1..], c);
    }
  }

  lemma SameBlocks(s: Store, t: Store, u: Store, d: Sector, c: Sector)
    requires c !in s.blocks && d in s.blocks
    requires t.blocks.Keys == s.blocks.Keys + {c} && u.blocks.Keys == t.blocks.Keys - {c}
    requires forall x :: x in s.blocks ==>
               t.blocks[x] == s.blocks[x].(children := if x == d then s.blocks[x].children + [c]
                                                       else s.blocks[x].children)
    requires forall x :: x in u.blocks ==>
               u.blocks[x] == t.blocks[x].(children := if x == d then Without(t.blocks[x].children, c)
                                                       else t.blocks[x].children)
    requires Without(s.blocks[d].children + [c], c) == s.blocks[d].children
    ensures u.blocks == s.blocks
  {
    assert u.blocks.Keys == s.blocks.Keys;
    assert forall x :: x in s.blocks ==> u.blocks[x] == s.blocks[x];
  }

  lemma MadeAndGone(st: State, path: string, make: Op, remove: Op)
    requires Valid(st.store) && Absolute(path) && SkipSlashes(path) != "" && ValidName(Basename(path))
    requires make in {Mkdir(path), Create(path)} && remove in {Rmdir(path), Unlink(path)}
    requires Step(st, make).1 == Status(0)
    ensures var (gone, answer) := Step(Step(st, make).0, remove);
            answer == Status(0) && gone.store == st.store
  {
    hide Step, Valid, SkipSlashes, Basename, MakeRef, RemoveRef;
    MakeForgets(st, path);
    RemoveForgets(Step(st, make).0, path);
    if make == Mkdir(path) {
      MadeIsRemoved(st.store, path, Dir, -EEXIST, ADF_RC_ERROR);
    } else {
      MadeIsRemoved(st.store, path, File, -EINVAL, -1);
    }
  }

  // What mkdir or create has made, rmdir or unlink removes again, from any
  // state, and every later answer over every run is the one that would have
  // been given before, whatever the two calls have done to the current
  // directory and cwd.
  lemma MakeThenRemove(st: State, path: string, make: Op, remove: Op, ops: seq<Op>)
    requires Valid(st.store) && Absolute(path) && SkipSlashes(path) != "" && ValidName(Basename(path))
    requires make in {Mkdir(path), Create(path)} && remove in {Rmdir(path), Unlink(path)}
    requires Step(st, make).1 == Status(0)
    requires forall i :: 0 <= i < |ops| ==> AbsoluteOp(ops[i])
    ensures var made := Step(st, make).0;
            var gone := Step(made, remove).0;
            && Step(made, remove).1 == Status(0)
            && Run(gone, ops).0.store == Run(st, ops).0.store
            && |Run(gone, ops).1| == |Run(st, ops).1| <= |ops|
            && forall i :: 0 <= i < |Run(st, ops).1| ==> SameAnswer(ops[i], Run(gone, ops).1[i], Run(st, ops).1[i])
  {
    hide *;
    MadeAndGone(st, path, make, remove);
    HistoryIndependence(Step(Step(st, make).0, remove).0, st, ops);
  }

  // ------------------------------------------------------------------
  // Writing, and reading back
  // ------------------------------------------------------------------

  // The bytes written are the bytes at that place (at the end, if it lies
  // behind the end), and the others stay. A read of the same place gives them
  // back unless the place lay behind the end.
  lemma WriteAtKeeps(data: seq<bv8>, buffer: seq<bv8>, offset: nat)
    ensures var after, pos := WriteAt(data, buffer, offset), Min(offset, |data|);
            && pos + |buffer| <= |after|
            && after[pos..pos + |buffer|] == buffer
            && after[..pos] == data[..pos]
            && (pos + |buffer| <= |data| ==>
                  |after| == |data| && after[pos + |buffer|..] == data[pos + |buffer|..])
            && (pos + |buffer| > |data| ==> |after| == pos + |buffer|)
            && ReadAt(after, |buffer|, pos) == buffer
            && (ReadAt(after, |buffer|, offset) == buffer <==> offset <= |data| || buffer == [])
  {
    var after, pos := WriteAt(data, buffer, offset), Min(offset, |data|);
    var rest := data[Min(pos + |buffer|, |data|)..];
    assert after == data[..pos] + (buffer + rest);
    assert after[pos..] == buffer + rest;
    assert after[pos..pos + |buffer|] == buffer;
  }

  // The part of the buffer whose size fits an unsigned int.
  function Passed(buffer: seq<bv8>): seq<bv8> {
    buffer[..ToUnsignedLength(buffer)]
  }

  // A write into an existing file, of any buffer at any offset, returns the
  // size of the buffer iff that fits the return type; a read of the place
  // where the bytes went gives them back, and a read of the same offset does
  // iff that place lies inside the file or there was nothing to write.
  lemma WrittenThenRead(s: Store, path: string, buffer: seq<bv8>, offset: int)
    requires FileOf(s, path).Some?
    ensures var (t, a) := WriteRef(s, path, buffer, offset);
            var bytes, len := Passed(buffer), |s.blocks[FileOf(s, path).value].data|;
            && (a == Status(|buffer|) <==> |buffer| < ImageState.TWO32 / 2)
            && FileOf(t, path) == FileOf(s, path)
            && ReadRef(t, path, |bytes|, Min(ToUnsigned(offset), len)) == Bytes(ToInt32(|bytes|), bytes)
            && (ReadRef(t, path, |bytes|, offset) == Bytes(ToInt32(|bytes|), bytes) <==>
                  ToUnsigned(offset) <= len || bytes == [])
  {
    hide FileOf, WriteAt, ReadAt, SetData;
    var f := FileOf(s, path).value;
    var bytes := Passed(buffer);
    WriteAtKeeps(s.blocks[f].data, bytes, ToUnsigned(offset));
    SameFileAfter(s, f, WriteAt(s.blocks[f].data, bytes, ToUnsigned(offset)), path);
  }

  lemma SameFileAfter(s: Store, f: Sector, data: seq<bv8>, path: string)
    requires f in s.blocks
    ensures FileOf(SetData(s, f, data), path) == FileOf(s, path)
    ensures f in SetData(s, f, data).blocks && SetData(s, f, data).blocks[f].data == data
  {
    hide Dirname, Basename, PathComponents, Walk, SkipSlashes;
    var t := SetData(s, f, data);
    DataKeepsTree(s, f, data);
    SameTreeWalk(s, t, s.root, PathComponents(Dirname(path)));
    match ParentDir(s, path)
    case None =>
    case Some(d) => SameTreeFind(s, t, Children(s, d), Basename(path));
  }
}
