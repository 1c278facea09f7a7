// A write and a later read of the same file through the FUSE handlers, with
// any run of operations between them that leaves the file alone.
module FileRuns {
  import opened PathStrings
  import opened Volume
  import opened VolumeLaws
  import opened Walking
  import opened ImageState
  import opened CwdMachine
  import opened FuseState
  import opened Reference
  import opened CwdRuns
  import opened WholeRuns
  import opened Answers

  // The operation changes no name and no data of the file in sector f, or it
  // makes a new entry in a well-formed volume.
  ghost predicate LeavesFile(s: Store, op: Op, f: Sector) {
    || (KeepsNames(op) && (op.Write? || op.Truncate? ==> FileOf(s, op.path) != Some(f)))
    || ((op.Mkdir? || op.Create?) && Valid(s) && ValidName(Basename(op.path)))
  }

  ghost predicate RunLeavesFile(s: Store, ops: seq<Op>, f: Sector)
    decreases |ops|
  {
    ops == [] || (LeavesFile(s, ops[0], f) && RunLeavesFile(RefStep(s, ops[0]).0, ops[1..], f))
  }

  lemma SameTreeFile(s: Store, t: Store, path: string)
    requires SameTree(s, t)
    ensures FileOf(t, path) == FileOf(s, path)
  {
    hide Dirname, Basename, PathComponents, Walk;
    SameTreeWalk(s, t, s.root, PathComponents(Dirname(path)));
    match ParentDir(s, path)
    case None =>
    case Some(d) => SameTreeFind(s, t, Children(s, d), Basename(path));
  }

  lemma StepLeavesFile(s: Store, op: Op, path: string, f: Sector)
    requires LeavesFile(s, op, f) && FileOf(s, path) == Some(f)
    ensures var t := RefStep(s, op).0;
            && FileOf(t, path) == Some(f)
            && t.blocks[f].data == s.blocks[f].data
  {
    hide RefStep, FileOf, SameTree, Valid, ValidName, Basename;
    if KeepsNames(op) {
      RefKeepsTree(s, op);
      SameTreeFile(s, RefStep(s, op).0, path);
      DataLeft(s, op, f);
    } else {
      MakeLeavesFile(s, op, path, f);
    }
  }

  lemma MakeLeavesFile(s: Store, op: Op, path: string, f: Sector)
    requires (op.Mkdir? || op.Create?) && Valid(s) && ValidName(Basename(op.path)) && FileOf(s, path) == Some(f)
    ensures var t := RefStep(s, op).0;
            && FileOf(t, path) == Some(f)
            && t.blocks[f].data == s.blocks[f].data
  {
    hide FileOf, ParentDir, SkipSlashes, Valid, ValidName, Basename, CreateEntry;
    match ParentDir(s, op.path) {
      case None =>
      case Some(d) =>
        CreateLeavesFile(s, d, Basename(op.path), if op.Mkdir? then Dir else File, path, f);
    }
  }

  lemma CreateLeavesFile(s: Store, parent: Sector, name: string, kind: Kind, path: string, f: Sector)
    requires Valid(s) && ValidName(name) && kind != Root && FileOf(s, path) == Some(f)
    ensures var t := CreateEntry(s, parent, name, kind).0;
            && FileOf(t, path) == Some(f)
            && t.blocks[f].data == s.blocks[f].data
  {
    hide Dirname, Basename, PathComponents, Walk, Valid, ValidName, CreateEntry, FileAt;
    var (t, done) := CreateEntry(s, parent, name, kind);
    if done {
      var d := ParentDir(s, path).value;
      CreateEffect(s, parent, name, kind);
      CreateKeepsWalk(s, parent, name, kind, s.root, PathComponents(Dirname(path)));
      CreateKeepsFile(s, parent, name, kind, d, Basename(path));
    } else {
      FailedCreateKeeps(s, parent, name, kind);
    }
  }

  lemma FailedCreateKeeps(s: Store, parent: Sector, name: string, kind: Kind)
    ensures !CreateEntry(s, parent, name, kind).1 ==> CreateEntry(s, parent, name, kind).0 == s
  {
  }

  lemma CreateKeepsFile(s: Store, parent: Sector, name: string, kind: Kind, d: Sector, x: string)
    requires Valid(s) && ValidName(name) && kind != Root && CreateEntry(s, parent, name, kind).1
    requires FileAt(s, d, x).Some?
    ensures FileAt(CreateEntry(s, parent, name, kind).0, d, x) == FileAt(s, d, x)
  {
    var t := CreateEntry(s, parent, name, kind).0;
    CreateEffect(s, parent, name, kind);
    CreateValid(s, parent, name, kind);
    hide CreateEntry, Valid, Lookup, SameName;
    var y := Lookup(s, d, x).value;
    LookupIs(s, d, x, y);
    LookupIs(t, d, x, y);
    ChildIn(s, d, y);
  }

  lemma DataLeft(s: Store, op: Op, f: Sector)
    requires LeavesFile(s, op, f) && KeepsNames(op) && f in s.blocks
    ensures f in RefStep(s, op).0.blocks && RefStep(s, op).0.blocks[f].data == s.blocks[f].data
  {
    hide FileOf, GetattrRef, ReaddirRef, ReadlinkRef, ReadRef, DentryAt, WriteAt, Resize, ToUnsigned, ToInt32;
  }

  lemma {:induction false} RunKeepsFile(s: Store, ops: seq<Op>, path: string, f: Sector)
    requires RunLeavesFile(s, ops, f) && FileOf(s, path) == Some(f)
    ensures var t := RefRun(s, ops).0;
            && FileOf(t, path) == Some(f)
            && t.blocks[f].data == s.blocks[f].data
    decreases |ops|
  {
    hide LeavesFile, RefStep, FileOf;
    if ops != [] {
      StepLeavesFile(s, ops[0], path, f);
      RunKeepsFile(RefStep(s, ops[0]).0, ops[1..], path, f);
    }
  }

  lemma SameRead(s: Store, t: Store, path: string, f: Sector, size: int, offset: int)
    requires FileOf(s, path) == Some(f) && FileOf(t, path) == Some(f) && s.blocks[f].data == t.blocks[f].data
    ensures ReadRef(t, path, size, offset) == ReadRef(s, path, size, offset)
  {
    hide FileOf;
  }

  // From any state: write returns the size of the buffer iff that fits its
  // return type; and after any run that leaves the file alone, whatever the
  // run does to the current directory, a read of the place where the bytes
  // went gives them back, and a read of the same offset does iff that place
  // lay inside the file or there was nothing to write.
  lemma WriteThenRead(st: State, path: string, buffer: seq<bv8>, offset: int, ops: seq<Op>)
    requires Absolute(path) && FileOf(st.store, path).Some?
    requires forall i :: 0 <= i < |ops| ==> AbsoluteOp(ops[i])
    requires RunLeavesFile(WriteRef(st.store, path, buffer, offset).0, ops, FileOf(st.store, path).value)
    ensures var (written, answer) := Step(st, Write(path, buffer, offset));
            var later := Run(written, ops).0;
            var bytes, len := Passed(buffer), |st.store.blocks[FileOf(st.store, path).value].data|;
            && (answer == Status(|buffer|) <==> |buffer| < ImageState.TWO32 / 2)
            && Step(later, Read(path, |bytes|, Min(ToUnsigned(offset), len))).1 == Bytes(ToInt32(|bytes|), bytes)
            && (Step(later, Read(path, |bytes|, offset)).1 == Bytes(ToInt32(|bytes|), bytes) <==>
                  ToUnsigned(offset) <= len || bytes == [])
  {
    hide Step, WriteRef, ReadRef, FileOf, Run, RefRun, RunLeavesFile, Passed, AbsoluteOp, ToUnsigned, ToInt32;
    var s := st.store;
    var f := FileOf(s, path).value;
    var t := WriteRef(s, path, buffer, offset).0;
    var written := Step(st, Write(path, buffer, offset)).0;
    var later := Run(written, ops).0;
    WriteForgets(st, path, buffer, offset);
    WrittenThenRead(s, path, buffer, offset);
    RunRefines(written, ops);
    RunKeepsFile(t, ops, path, f);
    var bytes, pos := Passed(buffer), Min(ToUnsigned(offset), |s.blocks[f].data|);
    ReadForgets(later, path, |bytes|, pos);
    ReadForgets(later, path, |bytes|, offset);
    SameRead(t, later.store, path, f, |bytes|, pos);
    SameRead(t, later.store, path, f, |bytes|, offset);
  }

  // ------------------------------------------------------------------
  // Sizes, and what truncate leaves
  // ------------------------------------------------------------------

  lemma RegularSize(st: State, path: string, f: Sector)
    requires Absolute(path) && FileOf(st.store, path) == Some(f)
    ensures var answer := Step(st, Getattr(path)).1;
            answer.Attributes? && answer.rc == 0 && answer.stat.format == Regular ==>
              answer.stat.size == |st.store.blocks[f].data|
  {
    hide Step, FileOf, ParentDir, SkipSlashes, GetDirEnt, FindExact, Basename, FileRights, DirectoryRights, FixedRights,
         Reach, PathComponents;
    if SkipSlashes(path) == "" {
      RootAnswers(st, path);
    } else {
      GetattrAnswers(st, path);
    }
  }

  // After a write and any run that leaves the file alone, getattr of a regular
  // file reports the old size, or the end of the bytes written if that is
  // further.
  lemma WriteThenGetattr(st: State, path: string, buffer: seq<bv8>, offset: int, ops: seq<Op>)
    requires Absolute(path) && FileOf(st.store, path).Some?
    requires forall i :: 0 <= i < |ops| ==> AbsoluteOp(ops[i])
    requires RunLeavesFile(Step(st, Write(path, buffer, offset)).0.store, ops, FileOf(st.store, path).value)
    ensures var was := st.store.blocks[FileOf(st.store, path).value].data;
            var o := offset % 0x1_0000_0000;
            var end := (if o <= |was| then o else |was|) + |Fitting(buffer)|;
            var later := Run(Step(st, Write(path, buffer, offset)).0, ops).0;
            var answer := Step(later, Getattr(path)).1;
            answer.Attributes? && answer.rc == 0 && answer.stat.format == Regular ==>
              answer.stat.size == if end >= |was| then end else |was|
  {
    hide Step, FileOf, Run, RefRun, RunLeavesFile, AbsoluteOp, Fitting;
    var s, f := st.store, FileOf(st.store, path).value;
    var written := Step(st, Write(path, buffer, offset)).0;
    WriteAnswers(st, path, buffer, offset);
    SameFileOfData(s, written.store, f, path);
    RunRefines(written, ops);
    RunKeepsFile(written.store, ops, path, f);
    RegularSize(Run(written, ops).0, path, f);
  }

  lemma SameFileOfData(s: Store, t: Store, f: Sector, path: string)
    requires DataChanged(s, t, f)
    ensures FileOf(t, path) == FileOf(s, path)
  {
    hide FileOf;
    DataKeepsTree(s, f, t.blocks[f].data);
    assert t == SetData(s, f, t.blocks[f].data);
    SameTreeFile(s, t, path);
  }

  // After a truncate and any run that leaves the file alone, a read from the
  // beginning gives the first bytes of the old data, and zeros behind them up
  // to the new size, which getattr reports for a regular file.
  lemma TruncateThenRead(st: State, path: string, size: int, ops: seq<Op>, count: nat)
    requires Absolute(path) && FileOf(st.store, path).Some?
    requires 0 <= size < 0x1_0000_0000 && count < 0x8000_0000
    requires forall i :: 0 <= i < |ops| ==> AbsoluteOp(ops[i])
    requires RunLeavesFile(Step(st, Truncate(path, size)).0.store, ops, FileOf(st.store, path).value)
    ensures var was := st.store.blocks[FileOf(st.store, path).value].data;
            var later := Run(Step(st, Truncate(path, size)).0, ops).0;
            var read, look := Step(later, Read(path, count, 0)).1, Step(later, Getattr(path)).1;
            && read.Bytes? && read.rc == |read.data| == (if count <= size then count else size)
            && (forall i :: 0 <= i < |read.data| ==> read.data[i] == if i < |was| then was[i] else 0)
            && (look.Attributes? && look.rc == 0 && look.stat.format == Regular ==> look.stat.size == size)
  {
    hide Step, FileOf, Run, RefRun, RunLeavesFile, AbsoluteOp;
    var s, f := st.store, FileOf(st.store, path).value;
    var cut := Step(st, Truncate(path, size)).0;
    var later := Run(cut, ops).0;
    TruncateAnswers(st, path, size);
    SameFileOfData(s, cut.store, f, path);
    RunRefines(cut, ops);
    RunKeepsFile(cut.store, ops, path, f);
    RegularSize(later, path, f);
    ReadAnswers(later, path, count, 0);
  }
}
