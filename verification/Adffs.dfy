// src/adffs.c: the FUSE handlers on the image object.
module Adffs {
  import opened PathStrings
  import opened Volume
  import opened Permissions
  import opened AdfImageImpl
  import opened ImageState
  import opened Walking
  import CwdMachine
  import F = FuseState
  import R = Reference
  import D = DirView
  import C = Canonical
  import P = Positions
  import A = Answers

  // The filler callback and its buffer.
  class FillBuffer {
    const room: nat
    var names: seq<string>

    constructor (room: nat)
      ensures this.room == room && names == []
    {
      this.room := room;
      names := [];
    }

    method Fill(name: string) returns (full: bool)
      modifies this
      ensures (names, full) == F.Fill(old(names), name, room)
    {
      full := |names| >= room;
      if !full {
        names := names + [name];
      }
    }
  }

  method Getattr(image: AdfImage, path: string) returns (rc: int, stat: F.Stat)
    requires image.Valid() && NoNul(path)
    modifies image`cwd, image.vol`curDirPtr
    ensures image.Valid()
    ensures Absolute(path) && SkipSlashes(path) != "" ==> A.GetattrGives(image.vol.store, path, rc, stat)
    ensures Absolute(path) && SkipSlashes(path) != "" ==> (rc, stat) == R.GetattrRef(image.vol.store, path)
    ensures Absolute(path) && SkipSlashes(path) != "" && R.ParentDir(image.vol.store, path).Some? ==>
              image.vol.curDirPtr == image.vol.store.root
    ensures SkipSlashes(path) == "" ==>
              && image.St() == old(image.St()) && rc == 0
              && stat.format == F.Directory && stat.nlink == 1 && A.FixedRights(stat.mode, true)
              && stat.size == |GetDirEnt(image.vol.store, image.vol.curDirPtr)|
    ensures (image.St(), rc, stat) == F.GetattrStep(old(image.St()), path)
  {
    hide R.GetattrRef, R.ParentDir, GetDirEnt, ImageState.Chdir, ImageState.GetDentry, ImageState.CountDir, Dirname,
         Basename, SkipSlashes, R.DentryAt, Reach, PathComponents, GetPerm, FileAt, Walk, CwdMachine.Agrees,
         CwdMachine.DotFree, A.GetattrGives, A.FixedRights;
    GetattrMeans(image.St(), path);
    rc, stat := 0, F.ZERO_STAT;
    if SkipSlashes(path) == "" {
      var n := image.CountCwdEntries();
      stat := F.Stat(F.Directory, F.ROOT_MODE, n, 1);
      return;
    }
    DirnameBasenameNonEmpty(path);
    var ok := image.Chdir(Dirname(path));
    if !ok {
      return -ENOENT, stat;
    }
    var name := Basename(path);
    if name == "" {
      name := ".";
    }
    var d := image.GetDentry(name);
    if d.None? {
      image.vol.ToRootDir();
      return -ENOENT, stat;
    }
    stat := StatOf(image, d.value, path, name);
    image.vol.ToRootDir();
  }

  // The chain of type tests of adffs_getattr.
  method StatOf(image: AdfImage, e: Entry, path: string, name: string) returns (stat: F.Stat)
    requires image.Valid() && NoNul(path)
    modifies image`cwd, image.vol`curDirPtr
    ensures image.Valid()
    ensures var isDir := e.kind in {Root, Dir, LinkDir};
            && image.St() == (if isDir then CountDir(old(image.St()), path).0 else old(image.St()))
            && stat == var perms := GetPerm(image.vol.store.masks, e.access);
                       if isDir then F.Stat(F.Directory, F.DirMode(perms), CountDir(old(image.St()), path).1, 1)
                       else if e.kind in {File, LinkFile} then
                         F.Stat(F.Regular, F.FileMode(perms),
                                F.SizeOfFile(image.vol.store, old(image.vol.curDirPtr), name), 1)
                       else if e.kind == SoftLink then F.Stat(F.Symlink, F.LINK_MODE, 0, 1)
                       else F.ZERO_STAT
  {
    var perms := GetPerm(image.vol.store.masks, e.access);
    stat := F.ZERO_STAT;
    if e.kind == File || e.kind == LinkFile {
      var file := FileAt(image.vol.store, image.vol.curDirPtr, name);
      var size := if file.Some? then |image.vol.store.blocks[file.value].data| else 0;
      stat := F.Stat(F.Regular, F.FileMode(perms), size, 1);
    } else if e.kind == Root || e.kind == Dir || e.kind == LinkDir {
      var n := image.CountDirEntries(path);
      stat := F.Stat(F.Directory, F.DirMode(perms), n, 1);
    } else if e.kind == SoftLink {
      stat := F.Stat(F.Symlink, F.LINK_MODE, 0, 1);
    }
  }

  method Readdir(image: AdfImage, path: string, buffer: FillBuffer) returns (rc: int)
    requires image.Valid() && NoNul(path) && buffer.names == []
    modifies image`cwd, image.vol`curDirPtr, buffer
    ensures image.Valid() && image.vol.curDirPtr == image.vol.store.root
    ensures Absolute(path) ==>
              match Walk(image.vol.store, image.vol.store.root, PathComponents(path))
              case None => rc == -ENOENT && buffer.names == []
              case Some(d) => Listed(image.vol.store, d, buffer.room, rc, buffer.names)
    ensures (image.St(), rc, buffer.names) == F.ReaddirStep(old(image.St()), path, buffer.room)
  {
    ReaddirMeans(image.St(), path, buffer.room);
    hide ImageState.Chdir, Walk, PathComponents, Listed;
    var ok := image.Chdir(path);
    if !ok {
      image.vol.ToRootDir();
      return -ENOENT;
    }
    var _ := buffer.Fill(".");
    var _ := buffer.Fill("..");
    var list := GetDirEnt(image.vol.store, image.vol.curDirPtr);
    var full := FillFrom(buffer, list);
    image.vol.ToRootDir();
    rc := if full then -EAGAIN else 0;
  }

  // The loop over the directory list, left when the buffer is full: the names
  // of the entries are added in order, as many as there is room for.
  method FillFrom(buffer: FillBuffer, list: seq<Entry>) returns (full: bool)
    modifies buffer
    ensures |old(buffer.names)| <= buffer.room ==>
              var free := buffer.room - |old(buffer.names)|;
              && (full <==> |list| > free)
              && buffer.names == old(buffer.names) + D.EntryNames(list)[..Min(free, |list|)]
    ensures (buffer.names, full) == F.FillEntries(old(buffer.names), list, buffer.room)
  {
    FilledNames(buffer.names, list, buffer.room);
    var cell := 0;
    assert list[0..] == list;
    while cell < |list|
      invariant cell <= |list|
      invariant F.FillEntries(old(buffer.names), list, buffer.room) ==
                F.FillEntries(buffer.names, list[cell..], buffer.room)
    {
      full := buffer.Fill(list[cell].name);
      if full {
        return true;
      }
      assert list[cell..][1..] == list[cell + 1..];
      cell := cell + 1;
    }
    return false;
  }

  lemma FilledNames(names: seq<string>, list: seq<Entry>, room: nat)
    ensures |names| <= room ==>
              var (filled, full) := F.FillEntries(names, list, room);
              && (full <==> |list| > room - |names|)
              && filled == names + D.EntryNames(list)[..Min(room - |names|, |list|)]
  {
    hide F.FillEntries, D.EntryNames;
    if |names| <= room {
      D.FillEntriesIs(names, list, room);
    }
  }

  method Open(image: AdfImage, path: string) returns (rc: int)
    requires image.Valid() && NoNul(path)
    modifies image, image.vol
    ensures image.Valid()
    ensures Absolute(path) ==> rc == if R.FileOf(image.vol.store, path).Some? then 0 else -1
    ensures (image.St(), F.Status(rc)) == F.Step(old(image.St()), F.Open(path))
  {
    hide ImageState.FileOpen, R.FileOf, CwdMachine.Agrees, CwdMachine.DotFree;
    var file := image.FileOpen(path);
    rc := if file.Some? then 0 else -1;
  }

  method Chmod(image: AdfImage, path: string, mode: F.Mode) returns (rc: int)
    requires image.Valid() && NoNul(path)
    modifies image, image.vol
    ensures image.Valid()
    ensures Absolute(path) ==>
              var d := R.DentryAt(old(image.vol.store), path);
              && rc == (if DentryValid(d) && d.value.sector in old(image.vol.store).blocks then 0 else EINVAL)
              && (rc != 0 ==> image.vol.store == old(image.vol.store))
              && (rc == 0 ==> Reaccessed(old(image.vol.store), image.vol.store, d.value.sector, mode.user))
    ensures rc == 0 && ShowsModes(old(image.vol.store), path) ==>
              ShowsMode(old(image.vol.store), image.vol.store, path, mode)
    ensures (image.St(), F.Status(rc)) == F.Step(old(image.St()), F.Chmod(path, mode))
  {
    hide CwdMachine.Agrees, ImageState.SetPermission, R.DentryAt, R.ParentDir, Reaccessed, ShowsModes, ShowsMode;
    ChmodMeans(image.St(), path, mode);
    // only user permissions are managed
    var ok := image.SetPermission(path, Rwx(mode.user.r, mode.user.w, mode.user.x));
    if !ok {
      return EINVAL;
    }
    rc := 0;
  }

  method Truncate(image: AdfImage, path: string, size: int) returns (rc: int)
    requires image.Valid() && NoNul(path)
    modifies image, image.vol
    ensures image.Valid()
    ensures Absolute(path) ==> rc == if R.FileOf(old(image.vol.store), path).Some? then 0 else -1
    ensures (image.St(), F.Status(rc)) == F.Step(old(image.St()), F.Truncate(path, size))
  {
    hide CwdMachine.Agrees, ImageState.Truncate, R.FileOf, SetData, Resize, ToUnsigned;
    var status := image.Truncate(path, size);
    rc := if status == 0 then 0 else -1;
  }

  // ------------------------------------------------------------------
  // What the answers mean
  // ------------------------------------------------------------------

  lemma GetattrMeans(st: State, path: string)
    ensures var (t, rc, stat) := F.GetattrStep(st, path);
            && (Absolute(path) && SkipSlashes(path) != "" ==> A.GetattrGives(st.store, path, rc, stat))
            && (Absolute(path) && SkipSlashes(path) != "" ==> (rc, stat) == R.GetattrRef(st.store, path))
            && (Absolute(path) && SkipSlashes(path) != "" && R.ParentDir(st.store, path).Some? ==>
                  t.cur == st.store.root)
            && (SkipSlashes(path) == "" ==>
                  && t == st && rc == 0
                  && stat.format == F.Directory && stat.nlink == 1 && A.FixedRights(stat.mode, true)
                  && stat.size == |GetDirEnt(st.store, st.cur)|)
  {
    hide R.GetattrRef, R.ParentDir, GetDirEnt, SkipSlashes, Dirname, Basename, ImageState.Chdir, ImageState.GetDentry,
         ImageState.CountDir, P.MovedAll, A.GetattrGives;
    if Absolute(path) && SkipSlashes(path) != "" {
      A.GetattrAnswers(st, path);
    }
    if Absolute(path) {
      R.GetattrForgets(st, path);
      P.GetattrPlace(st, path);
      P.OneMove(st.store, P.PlaceOf(st), P.HomeFrom(Dirname(path)));
    }
  }

  // readdir of the directory d: of ".", ".." and the names of the entries in
  // order, as many as there is room for; -EAGAIN when an entry is refused.
  predicate Listed(s: Store, d: Sector, room: nat, rc: int, names: seq<string>) {
    && (rc == 0 <==> GetDirEnt(s, d) == [] || 2 + |GetDirEnt(s, d)| <= room)
    && (rc == 0 || rc == -11)
    && names == D.AllNames(s, d)[..Min(room, 2 + |GetDirEnt(s, d)|)]
  }

  lemma ReaddirMeans(st: State, path: string, room: nat)
    ensures var (t, rc, names) := F.ReaddirStep(st, path, room);
            Absolute(path) ==>
              match Walk(st.store, st.store.root, PathComponents(path))
              case None => rc == -ENOENT && names == []
              case Some(d) => Listed(st.store, d, room, rc, names)
  {
    hide F.ReaddirStep, F.Listing, Walk, PathComponents, GetDirEnt, D.AllNames;
    if Absolute(path) {
      R.ReaddirForgets(st, path, room);
      match Walk(st.store, st.store.root, PathComponents(path))
      case None =>
      case Some(d) => D.ListingIs(st.store, d, room);
    }
  }

  // A path other than the root's, of a directory that resolves on a
  // well-formed volume.
  ghost predicate ShowsModes(s: Store, path: string) {
    && Absolute(path) && SkipSlashes(path) != "" && R.ParentDir(s, path).Some?
    && Volume.Valid(s) && MasksApart(s.masks)
  }

  // getattr in the volume t shows the mode that chmod has set in s.
  ghost predicate ShowsMode(s: Store, t: Store, path: string, mode: F.Mode) {
    var (rc, stat) := R.GetattrRef(t, path);
    C.ReadBack(s.masks, mode, R.DentryAt(s, path), R.DentryAt(t, path), rc, stat)
  }

  lemma ChmodMeans(st: State, path: string, mode: F.Mode)
    ensures var (t, ok) := ImageState.SetPermission(st, path, mode.user);
            ok && ShowsModes(st.store, path) ==> ShowsMode(st.store, t.store, path, mode)
  {
    hide ImageState.SetPermission, R.ParentDir, R.DentryAt, R.GetattrRef, C.ReadBack, Volume.Valid, SkipSlashes,
         MasksApart,
         F.GetattrStep;
    var (t, ok) := ImageState.SetPermission(st, path, mode.user);
    if ok && ShowsModes(st.store, path) {
      assert F.Step(st, F.Chmod(path, mode)) == (t, F.Status(0));
      C.ChmodThenGetattr(st, path, mode);
      R.GetattrForgets(t, path);
    }
  }
}
