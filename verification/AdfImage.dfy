// src/adfimage.c: the volume handle with its hidden current directory, the
// image record with its printed cwd, and the operations that move both.
module AdfImageImpl {
  import opened PathStrings
  import opened Volume
  import opened Permissions
  import opened Walking
  import PathRewrite
  import opened S = ImageState
  import F = FuseState
  import R = Reference
  import opened CwdMachine
  import W = WholeRuns
  import A = Answers

  class AdfVolume {
    var store: Store
    var curDirPtr: Sector

    constructor (store: Store)
      ensures this.store == store && curDirPtr == store.root
    {
      this.store := store;
      curDirPtr := store.root;
    }

    // adfToRootDir
    method ToRootDir()
      modifies this`curDirPtr
      ensures curDirPtr == store.root
    {
      curDirPtr := store.root;
    }

    // adfChangeDir
    method ChangeDir(name: string) returns (ok: bool)
      modifies this`curDirPtr
      ensures ok <==> Volume.ChangeDir(store, old(curDirPtr), name).Some?
      ensures curDirPtr == if ok then Volume.ChangeDir(store, old(curDirPtr), name).value else old(curDirPtr)
    {
      var t := Volume.ChangeDir(store, curDirPtr, name);
      ok := t.Some?;
      if ok {
        curDirPtr := t.value;
      }
    }
  }

  class AdfImage {
    const vol: AdfVolume
    var cwd: string

    ghost predicate Valid()
      reads this
    {
      NoNul(cwd)
    }

    ghost function St(): State
      reads this, vol
    {
      State(vol.store, vol.curDirPtr, cwd)
    }

    // The end of adfimage_open: a mounted volume stands at its root.
    constructor (store: Store)
      ensures Valid() && fresh(vol)
      ensures St() == State(store, store.root, "/")
    {
      vol := new AdfVolume(store);
      cwd := "/";
    }

    // append_dir: a printed list of components becomes the print of the list
    // with one component more.
    method AppendDir(dir: string)
      requires Valid() && NoNul(dir)
      modifies this`cwd
      ensures Valid()
      ensures forall cs :: old(cwd) == Print(cs) && (cs + [dir])[0] != "" ==> cwd == Print(cs + [dir])
      ensures cwd == S.AppendDir(old(cwd), dir)
    {
      forall cs | cwd == Print(cs) && (cs + [dir])[0] != "" {
        AppendOne(cs, dir);
      }
      if cwd != "/" {
        cwd := cwd + "/";
      }
      cwd := cwd + dir;
    }

    // adfimage_chdir
    method Chdir(path: string) returns (ok: bool)
      requires Valid() && NoNul(path)
      modifies this`cwd, vol`curDirPtr
      ensures Valid()
      ensures (St(), ok) == S.Chdir(old(St()), path)
    {
      hide Descend, Split, SkipSlashes;
      if |path| < 1 {
        return false;
      }
      var p := path;
      if p[0] == '/' {
        vol.ToRootDir();
        p := Relative(p);
        cwd := "/";
      }
      if p == "" || p == "." {
        DescendStep(St(), []);
        return true;
      }
      ok := WalkPath(p);
    }

    // pathstr_get_relative
    method Relative(path: string) returns (p: string)
      ensures p == SkipSlashes(path)
    {
      p := path;
      while p != "" && p[0] == '/'
        invariant SkipSlashes(p) == SkipSlashes(path)
        decreases |p|
      {
        p := p[1..];
      }
    }

    // The loop of adfimage_chdir: a copy of the path is cut into components by
    // overwriting its slashes, one at a time.
    method WalkPath(path: string) returns (ok: bool)
      requires Valid() && NoNul(path)
      modifies this`cwd, vol`curDirPtr
      ensures Valid()
      ensures (St(), ok) == Descend(old(St()), Split(path))
    {
      hide Descend, Split, IndexOf;
      var dirPath := Duplicate(path);
      ghost var rest := path;
      var dir: nat := 0;
      while dirPath[dir] != '\0'
        invariant Valid() && NoNul(rest) && fresh(dirPath)
        invariant Holds(dirPath[..], dir, rest)
        invariant Descend(St(), Split(rest)) == Descend(old(St()), Split(path))
        decreases |rest|
      {
        var dirEnd := StrChr(dirPath, dir, '/', rest);
        if dirEnd.None? {
          break;
        }
        ok := EnterFirst(dirPath, dir, dirEnd.value, rest);
        if !ok {
          return;
        }
        rest := rest[dirEnd.value - dir + 1..];
        dir := dirEnd.value + 1;
      }
      assert dirPath[dir] == '\0' ==> rest == "";
      ok := EnterLast(dirPath, dir, rest);
    }

    method EnterFirst(dirPath: array<char>, dir: nat, dirEnd: nat, ghost rest: string) returns (ok: bool)
      requires Valid() && NoNul(rest) && Holds(dirPath[..], dir, rest)
      requires dir <= dirEnd < dir + |rest| && IndexOf(rest, '/') == dirEnd - dir
      modifies this`cwd, vol`curDirPtr, dirPath
      ensures Valid() && Holds(dirPath[..], dirEnd + 1, rest[dirEnd - dir + 1..])
      ensures if ok then Descend(St(), Split(rest[dirEnd - dir + 1..])) == Descend(old(St()), Split(rest))
              else (St(), false) == Descend(old(St()), Split(rest))
    {
      var name := CutAt(dirPath, dir, dirEnd, rest);
      SplitHead(rest);
      ok := Enter(name, Split(rest));
    }

    method EnterLast(dirPath: array<char>, dir: nat, ghost rest: string) returns (ok: bool)
      requires Valid() && NoNul(rest) && Holds(dirPath[..], dir, rest)
      requires IndexOf(rest, '/') == |rest|
      modifies this`cwd, vol`curDirPtr
      ensures Valid()
      ensures (St(), ok) == Descend(old(St()), Split(rest))
    {
      SplitHead(rest);
      var name := NameAt(dirPath, dir, rest);
      ok := Enter(name, [rest]);
    }

    // The buffer holds the string rest from an offset up to its end.
    ghost predicate Holds(buf: seq<char>, from: nat, rest: string) {
      from + |rest| + 1 == |buf| && buf[from..] == rest + ['\0']
    }

    // adfChangeDir, and append_dir when it succeeds: one component of a walk.
    method Enter(name: string, ghost cs: seq<string>) returns (ok: bool)
      requires Valid() && NoNul(name)
      requires cs != [] && cs[0] == name
      modifies this`cwd, vol`curDirPtr
      ensures Valid()
      ensures ok ==> Descend(St(), cs[1..]) == Descend(old(St()), cs)
      ensures (|cs| == 1 || !ok) ==> (St(), ok) == Descend(old(St()), cs)
    {
      DescendStep(St(), cs);
      ok := vol.ChangeDir(name);
      if ok {
        AppendDir(name);
        DescendStep(St(), []);
        assert |cs| == 1 ==> cs[1..] == [];
      }
    }

    // *dir_end = '\0', and the component in front of it.
    method CutAt(buf: array<char>, dir: nat, dirEnd: nat, ghost rest: string) returns (name: string)
      requires NoNul(rest) && Holds(buf[..], dir, rest)
      requires dir <= dirEnd < dir + |rest|
      modifies buf
      ensures name == rest[..dirEnd - dir]
      ensures Holds(buf[..], dirEnd + 1, rest[dirEnd - dir + 1..])
    {
      var i := dirEnd - dir;
      ghost var b := buf[..];
      assert b[dir..][..i] == rest[..i] && b[dir..][i + 1..] == rest[i + 1..] + ['\0'];
      buf[dirEnd] := '\0';
      assert buf[..] == b[dirEnd := '\0'];
      assert buf[dir..dirEnd] == b[dir..][..i];
      assert buf[dirEnd + 1..] == b[dir..][i + 1..];
      name := NameAt(buf, dir, rest[..i]);
    }

    method Duplicate(s: string) returns (a: array<char>)
      ensures fresh(a) && a[..] == s + ['\0']
    {
      a := new char[|s| + 1](i requires 0 <= i <= |s| => if i < |s| then s[i] else '\0');
    }

    // strchr ( buf + from, c ) on the string rest stored there.
    method StrChr(buf: array<char>, from: nat, c: char, ghost rest: string) returns (r: Option<nat>)
      requires NoNul(rest) && c != '\0' && Holds(buf[..], from, rest)
      ensures r.None? ==> IndexOf(rest, c) == |rest|
      ensures r.Some? ==> IndexOf(rest, c) < |rest| && r.value == from + IndexOf(rest, c)
    {
      var i := from;
      while i < buf.Length && buf[i] != '\0'
        invariant from <= i <= from + |rest| && c !in rest[..i - from] && buf[from..] == rest + ['\0']
      {
        assert buf[from..][i - from] == (rest + ['\0'])[i - from];
        if buf[i] == c {
          IndexOfUnique(rest, c, i - from);
          return Some(i);
        }
        assert rest[..i + 1 - from] == rest[..i - from] + [rest[i - from]];
        i := i + 1;
      }
      assert buf[from..][i - from] == (rest + ['\0'])[i - from];
      assert i == from + |rest|;
      IndexOfUnique(rest, c, |rest|);
      return None;
    }

    // The C string at an offset of a buffer.
    method NameAt(buf: array<char>, from: nat, ghost expected: string) returns (name: string)
      requires from + |expected| < buf.Length
      requires buf[from..from + |expected|] == expected && buf[from + |expected|] == '\0' && NoNul(expected)
      ensures name == expected
    {
      PathRewrite.CStrUnique(buf[from..], expected);
      name := PathRewrite.CStr(buf[from..]);
    }

    // adfimage_count_cwd_entries
    method CountCwdEntries() returns (n: nat)
      ensures n == S.CountCwd(St())
    {
      var list := GetDirEnt(vol.store, vol.curDirPtr);
      n := 0;
      for cell := 0 to |list|
        invariant n == cell
      {
        n := n + 1;
      }
    }

    // adfimage_count_dir_entries
    method CountDirEntries(dirpath: string) returns (n: nat)
      requires Valid() && NoNul(dirpath)
      modifies this`cwd, vol`curDirPtr
      ensures Valid()
      ensures Absolute(dirpath) ==>
                n == |GetDirEnt(vol.store, Reach(vol.store, vol.store.root, PathComponents(dirpath)))|
      ensures Agrees(old(St())) ==> St() == old(St())
      ensures (St(), n) == S.CountDir(old(St()), dirpath)
    {
      hide Agrees, S.Chdir, Reach, PathComponents, GetDirEnt;
      CountDirMeans(St(), dirpath);
      var saved := cwd;
      var _ := Chdir(dirpath);
      n := CountCwdEntries();
      var _ := Chdir(saved);
    }

    // adfimage_getdentry
    method GetDentry(pathname: string) returns (d: Option<Entry>)
      requires Valid() && NoNul(pathname)
      modifies this`cwd, vol`curDirPtr
      ensures Valid()
      ensures Absolute(pathname) ==> d == R.DentryAt(vol.store, pathname)
      ensures Agrees(old(St())) && d.Some? ==> St() == old(St())
      ensures Agrees(old(St())) && DotFree(vol.store) ==> Agrees(St())
      ensures (St(), d) == S.GetDentry(old(St()), pathname)
    {
      hide Agrees, DotFree, S.Chdir, R.DentryAt, GetDirEnt, Dirname, Basename;
      GetDentryMeans(St(), pathname);
      if pathname == "/" {
        return RootDentry(vol.store);
      }
      DirnameBasenameNonEmpty(pathname);
      var dirpath := Dirname(pathname);
      var saved: Option<string> := None;
      if |dirpath| > 0 {
        saved := Some(cwd);
        var _ := Chdir(dirpath);
      }
      var list := GetDirEnt(vol.store, vol.curDirPtr);
      if list == [] {
        return None;
      }
      d := ListFind(list, Basename(pathname));
      if saved.Some? {
        var _ := Chdir(saved.value);
      }
    }

    // adflib_list_find
    method ListFind(list: seq<Entry>, name: string) returns (d: Option<Entry>)
      ensures d == FindExact(list, name)
    {
      var cell := 0;
      assert list[0..] == list;
      while cell < |list|
        invariant cell <= |list|
        invariant FindExact(list, name) == FindExact(list[cell..], name)
      {
        if list[cell].name == name {
          return Some(list[cell]);
        }
        assert list[cell..][1..] == list[cell + 1..];
        cell := cell + 1;
      }
      return None;
    }

    // The common beginning of file_open, read, write and readlink: save cwd
    // and enter the directory of the path, if dirname names one.
    method EnterDirectory(path: string) returns (saved: Option<string>, ok: bool)
      requires Valid() && NoNul(path)
      modifies this`cwd, vol`curDirPtr
      ensures Valid() && saved == Some(old(cwd))
      ensures (St(), ok) == S.Chdir(old(St()), Dirname(path))
    {
      DirnameBasenameNonEmpty(path);
      var dirpath := Dirname(path);
      saved, ok := None, true;
      if |dirpath| > 0 {
        saved := Some(cwd);
        ok := Chdir(dirpath);
      }
    }

    // adfimage_file_open
    method FileOpen(path: string) returns (file: Option<Sector>)
      requires Valid() && NoNul(path)
      modifies this`cwd, vol`curDirPtr
      ensures Valid()
      ensures Absolute(path) ==> file == R.FileOf(vol.store, path)
      ensures Agrees(old(St())) && file.Some? ==> St() == old(St())
      ensures Agrees(old(St())) && DotFree(vol.store) ==> Agrees(St())
      ensures (St(), file) == S.FileOpen(old(St()), path)
    {
      hide Agrees, DotFree, S.Chdir, R.FileOf, FileAt, Dirname, Basename;
      FileOpenMeans(St(), path);
      var saved, ok := EnterDirectory(path);
      if !ok {
        return None;
      }
      file := FileAt(vol.store, vol.curDirPtr, Basename(path));
      if file.None? {
        return;
      }
      if saved.Some? {
        var _ := Chdir(saved.value);
      }
    }

    // adfimage_read
    method Read(path: string, size: int, offset: int) returns (count: int, buffer: seq<bv8>)
      requires Valid() && NoNul(path)
      modifies this`cwd, vol`curDirPtr
      ensures Valid()
      ensures Absolute(path) ==> A.ReadGives(vol.store, path, size, offset, count, buffer)
      ensures Absolute(path) ==> F.Bytes(count, buffer) == R.ReadRef(vol.store, path, size, offset)
      ensures Absolute(path) && R.FileOf(vol.store, path).Some? && Agrees(old(St())) ==> St() == old(St())
      ensures Agrees(old(St())) && DotFree(vol.store) ==> Agrees(St())
      ensures (St(), count, buffer) == S.Read(old(St()), path, size, offset)
    {
      hide Agrees, DotFree, S.Chdir, R.FileOf, R.ReadRef, FileAt, Dirname, Basename, ReadAt, ToInt32, ToUnsigned,
           A.ReadGives;
      ReadMeans(St(), path, size, offset);
      var saved, ok := EnterDirectory(path);
      if !ok {
        return -ENOENT, [];
      }
      var file := FileAt(vol.store, vol.curDirPtr, Basename(path));
      if file.None? {
        return -ENOENT, [];
      }
      buffer := ReadAt(vol.store.blocks[file.value].data, ToUnsigned(size), ToUnsigned(offset));
      count := ToInt32(|buffer|);
      if saved.Some? {
        var _ := Chdir(saved.value);
      }
    }

    // adfimage_write
    method Write(path: string, buffer: seq<bv8>, offset: int) returns (count: int)
      requires Valid() && NoNul(path)
      modifies this`cwd, vol
      ensures Valid()
      ensures Absolute(path) ==> A.WriteGives(old(vol.store), vol.store, path, buffer, offset, count)
      ensures Absolute(path) ==> (vol.store, F.Status(count)) == R.WriteRef(old(vol.store), path, buffer, offset)
      ensures Absolute(path) && R.FileOf(old(vol.store), path).Some? && Agrees(old(St())) ==>
                St() == old(St()).(store := vol.store)
      ensures Agrees(old(St())) && DotFree(old(vol.store)) ==> Agrees(St())
      ensures Agrees(old(St())) ==> SameTree(old(vol.store), vol.store)
      ensures (St(), count) == S.Write(old(St()), path, buffer, offset)
    {
      hide Agrees, DotFree, S.Chdir, SameTree, R.FileOf, R.WriteRef, FileAt, Dirname, Basename, WriteFile, A.WriteGives;
      WriteMeans(St(), path, buffer, offset);
      var saved, ok := EnterDirectory(path);
      if !ok {
        return -ENOENT;
      }
      var file := FileAt(vol.store, vol.curDirPtr, Basename(path));
      if file.None? {
        return -ENOENT;
      }
      var written := WriteFile(vol.store, file.value, buffer, offset);
      vol.store := written.0;
      count := written.1;
      if saved.Some? {
        var _ := Chdir(saved.value);
      }
    }

    // adfimage_readlink
    method Readlink(path: string, len: nat) returns (status: int, text: string)
      requires Valid() && NoNul(path)
      modifies this`cwd, vol`curDirPtr
      ensures Valid()
      ensures Absolute(path) ==> A.ReadlinkGives(vol.store, path, len, status, text)
      ensures Absolute(path) ==> F.Text(status, text) == R.ReadlinkRef(vol.store, path, len)
      ensures Absolute(path) && R.ParentDir(vol.store, path).Some? && Agrees(old(St())) ==> St() == old(St())
      ensures Agrees(old(St())) && DotFree(vol.store) ==> Agrees(St())
      ensures (St(), status, text) == S.Readlink(old(St()), path, len)
    {
      hide Agrees, DotFree, S.Chdir, R.ParentDir, R.ReadlinkRef, LinkText, Dirname, Basename, A.ReadlinkGives;
      ReadlinkMeans(St(), path, len);
      var saved, ok := EnterDirectory(path);
      if !ok {
        return -1, "";
      }
      var link := LinkText(vol.store, vol.curDirPtr, Basename(path), len);
      status, text := link.0, link.1;
      if saved.Some? {
        var _ := Chdir(saved.value);
      }
    }

    // The common beginning of mkdir, rmdir, unlink and create.
    method EnterParent(rel: string) returns (ok: bool)
      requires Valid() && NoNul(rel)
      modifies this`cwd, vol`curDirPtr
      ensures Valid()
      ensures (St(), ok) == S.Chdir(ToRoot(old(St())), Dirname(rel))
    {
      DirnameBasenameNonEmpty(rel);
      vol.ToRootDir();
      ok := Chdir(Dirname(rel));
    }

    // adfimage_mkdir
    method Mkdir(path: string) returns (status: int)
      requires Valid() && NoNul(path)
      modifies this`cwd, vol
      ensures Valid()
      ensures Absolute(path) ==>
                (vol.store, F.Status(status)) == R.MakeRef(old(vol.store), path, Dir, -EEXIST, ADF_RC_ERROR)
      ensures Absolute(path) && SkipSlashes(path) != "" && R.ParentDir(old(vol.store), path).Some? ==>
                vol.curDirPtr == vol.store.root
      ensures Absolute(path) && Volume.Valid(old(vol.store)) && ValidName(Basename(path)) ==>
                Volume.Valid(vol.store) && (status == 0 ==> R.GetattrRef(vol.store, path).0 == 0)
      ensures (St(), status) == S.Mkdir(old(St()), path)
    {
      hide S.Chdir, R.MakeRef, R.ParentDir, R.GetattrRef, Volume.Valid, ValidName, CreateEntry, SkipSlashes, Dirname,
           Basename;
      MakeMeans(St(), path);
      var rel := SkipSlashes(path);
      if rel == "" {
        return -EEXIST;
      }
      var ok := EnterParent(rel);
      if !ok {
        return -ENOENT;
      }
      var made := CreateEntry(vol.store, vol.curDirPtr, Basename(rel), Dir);
      vol.store := made.0;
      vol.ToRootDir();
      status := if made.1 then 0 else ADF_RC_ERROR;
    }

    // adfimage_remove_entry, for rmdir and unlink alike
    method Remove(path: string) returns (status: int)
      requires Valid() && NoNul(path)
      modifies this`cwd, vol
      ensures Valid()
      ensures Absolute(path) ==> (vol.store, F.Status(status)) == R.RemoveRef(old(vol.store), path)
      ensures Absolute(path) && SkipSlashes(path) != "" && R.ParentDir(old(vol.store), path).Some? ==>
                vol.curDirPtr == vol.store.root
      ensures Absolute(path) && Volume.Valid(old(vol.store)) ==> Volume.Valid(vol.store)
      ensures (St(), status) == S.Remove(old(St()), path)
    {
      hide S.Chdir, R.RemoveRef, R.ParentDir, Volume.Valid, RemoveEntry, SkipSlashes, Dirname, Basename;
      RemoveMeans(St(), path);
      var rel := SkipSlashes(path);
      if rel == "" {
        return -EPERM;
      }
      var ok := EnterParent(rel);
      if !ok {
        return -ENOENT;
      }
      var removed := RemoveEntry(vol.store, vol.curDirPtr, Basename(rel));
      vol.store := removed.0;
      vol.ToRootDir();
      status := if removed.1 then 0 else ADF_RC_ERROR;
    }

    // adfimage_create
    method Create(path: string) returns (status: int)
      requires Valid() && NoNul(path)
      modifies this`cwd, vol
      ensures Valid()
      ensures Absolute(path) ==>
                (vol.store, F.Status(status)) == R.MakeRef(old(vol.store), path, File, -EINVAL, -1)
      ensures Absolute(path) && SkipSlashes(path) != "" && R.ParentDir(old(vol.store), path).Some? ==>
                vol.curDirPtr == vol.store.root
      ensures Absolute(path) && Volume.Valid(old(vol.store)) && ValidName(Basename(path)) ==>
                Volume.Valid(vol.store) && (status == 0 ==> R.GetattrRef(vol.store, path).0 == 0)
      ensures (St(), status) == S.Create(old(St()), path)
    {
      hide S.Chdir, R.MakeRef, R.ParentDir, R.GetattrRef, Volume.Valid, ValidName, CreateEntry, SkipSlashes, Dirname,
           Basename;
      MakeMeans(St(), path);
      var rel := SkipSlashes(path);
      if rel == "" {
        return -EINVAL;
      }
      var ok := EnterParent(rel);
      if !ok {
        return -ENOENT;
      }
      var made := CreateEntry(vol.store, vol.curDirPtr, Basename(rel), File);
      vol.store := made.0;
      vol.ToRootDir();
      status := if made.1 then 0 else -1;
    }

    // adfimage_file_truncate
    method Truncate(path: string, size: int) returns (status: int)
      requires Valid() && NoNul(path)
      modifies this`cwd, vol
      ensures Valid()
      ensures Absolute(path) ==>
                && status == (if R.FileOf(old(vol.store), path).Some? then 0 else -ENOENT)
                && A.TruncateGives(old(vol.store), vol.store, path, size)
      ensures Absolute(path) && R.FileOf(old(vol.store), path).Some? && Agrees(old(St())) ==>
                St() == old(St()).(store := vol.store)
      ensures (St(), status) == S.Truncate(old(St()), path, size)
    {
      hide Agrees, R.FileOf, S.FileOpen, Resize, ToUnsigned, A.TruncateGives;
      TruncateMeans(St(), path, size);
      var file := FileOpen(path);
      if file.None? {
        return -ENOENT;
      }
      if file.value !in vol.store.blocks {
        return -1;
      }
      vol.store := SetData(vol.store, file.value, Resize(vol.store.blocks[file.value].data, ToUnsigned(size)));
      status := 0;
    }

    // adfimage_setperm
    method SetPermission(path: string, p: Rwx) returns (ok: bool)
      requires Valid() && NoNul(path)
      modifies this`cwd, vol
      ensures Valid()
      ensures Absolute(path) ==>
                var d := R.DentryAt(old(vol.store), path);
                && (ok <==> DentryValid(d) && d.value.sector in old(vol.store).blocks)
                && (!ok ==> vol.store == old(vol.store))
                && (ok ==> Reaccessed(old(vol.store), vol.store, d.value.sector, p))
      ensures Agrees(old(St())) && ok ==> St() == old(St()).(store := vol.store)
      ensures (St(), ok) == S.SetPermission(old(St()), path, p)
    {
      hide Agrees, R.DentryAt, Reaccessed, S.GetDentry;
      SetPermissionMeans(St(), path, p);
      var d := GetDentry(path);
      if !DentryValid(d) || d.value.sector !in vol.store.blocks {
        return false;
      }
      var c := d.value.sector;
      var m := vol.store.masks;
      var access := vol.store.blocks[c].access;
      if p.r {
        access := access * LogicalNot({m.r});
      } else {
        access := access + {m.r};
      }
      if p.w {
        access := access * LogicalNot({m.w});
      } else {
        access := access + {m.w};
      }
      if p.x {
        access := access * LogicalNot({m.e});
      } else {
        access := access + {m.e};
      }
      vol.store := SetAccess(vol.store, c, access);
      ok := true;
    }

    // adfimage_file_rename
    method Rename(src: string, dst: string) returns (r: Renaming)
      requires Valid() && NoNul(src) && NoNul(dst)
      modifies this`cwd, vol
      ensures Valid()
      ensures Absolute(src) && Absolute(dst) ==>
                (vol.store, if r.Hangs? then F.NoReturn else F.Status(r.status)) ==
                R.RenameRef(old(vol.store), src, dst)
      ensures Absolute(src) && Absolute(dst) && Volume.Valid(old(vol.store)) && ValidName(Basename(dst)) ==>
                Volume.Valid(vol.store)
      ensures (St(), r) == S.Rename(old(St()), src, dst)
    {
      hide S.GetDentry, R.RenameRef, Volume.Valid, ValidName, Dirname, Basename, RenameIn, PathRewrite.Fuse2AmigaDosW;
      RenameMeans(St(), src, dst);
      DirnameBasenameNonEmpty(src);
      DirnameBasenameNonEmpty(dst);
      var srcDir := PathRewrite.Fuse2AmigaDosW(Dirname(src));
      var dstDir := PathRewrite.Fuse2AmigaDosW(Dirname(dst));
      if srcDir.None? || dstDir.None? {
        return Hangs;
      }
      PathRewrite.Fuse2AmigaDosShape(Dirname(src));
      PathRewrite.Fuse2AmigaDosShape(Dirname(dst));
      var d1 := GetDentry(srcDir.value);
      if d1.None? {
        return Returns(-ENOENT);
      }
      if ParentSector(d1.value).None? {
        return Returns(-EINVAL);
      }
      var d2 := GetDentry(dstDir.value);
      if d2.None? {
        return Returns(-ENOENT);
      }
      if ParentSector(d2.value).None? {
        return Returns(-EINVAL);
      }
      var moved := RenameIn(vol.store, ParentSector(d1.value).value, Basename(src),
                            ParentSector(d2.value).value, Basename(dst));
      vol.store := moved.0;
      r := Returns(moved.1);
    }
  }

  lemma SplitHead(r: string)
    ensures var i := IndexOf(r, '/');
            if i == |r| then Split(r) == [r]
            else Split(r)[0] == r[..i] && Split(r)[1..] == Split(r[i + 1..])
  {
    hide Split, IndexOf;
    SplitIs(r);
  }

  // One round of the loop of adfimage_chdir.
  lemma DescendStep(st: State, cs: seq<string>)
    ensures Descend(st, cs) ==
            if cs == [] then (st, true)
            else
              match Volume.ChangeDir(st.store, st.cur, cs[0])
              case None => (st, false)
              case Some(t) => Descend(State(st.store, t, S.AppendDir(st.cwd, cs[0])), cs[1..])
  {
    if cs != [] {
      match Volume.ChangeDir(st.store, st.cur, cs[0])
      case None =>
      case Some(t) =>
        var k := Depth(st.store, t, cs[1..]);
        assert cs[..1 + k][1..] == cs[1..][..k];
    }
  }

  // ------------------------------------------------------------------
  // What the functions of ImageState mean: no current directory is left in
  // their results, and agreeing states come back
  // ------------------------------------------------------------------

  lemma AppendOne(cs: seq<string>, dir: string)
    requires (cs + [dir])[0] != ""
    ensures S.AppendDir(Print(cs), dir) == Print(cs + [dir])
  {
    if cs == [] {
      assert cs + [dir] == [dir];
    } else {
      assert cs[0] != "";
      JoinLonger(cs);
      JoinSnoc(cs, dir);
    }
  }

  lemma CountDirMeans(st: State, dirpath: string)
    ensures Absolute(dirpath) ==>
              S.CountDir(st, dirpath).1 ==
              |GetDirEnt(st.store, Reach(st.store, st.store.root, PathComponents(dirpath)))|
    ensures Agrees(st) ==> S.CountDir(st, dirpath).0 == st
  {
    hide S.Chdir, Reach, PathComponents, Walk, GetDirEnt, Agrees;
    if Absolute(dirpath) {
      R.ChdirForgets(st, dirpath);
    }
    if Agrees(st) {
      CountDirRestores(st, dirpath);
    }
  }

  // Every operation on the image keeps an agreeing state agreeing.
  lemma StillAgrees(st: State, op: ImageOp)
    ensures Agrees(st) && DotFree(st.store) ==> Agrees(After(st, op))
  {
    hide Agrees, DotFree, After, SameTree;
    if Agrees(st) && DotFree(st.store) {
      StepAgrees(st, op);
    }
  }

  lemma GetDentryMeans(st: State, path: string)
    ensures Absolute(path) ==> S.GetDentry(st, path).1 == R.DentryAt(st.store, path)
    ensures Agrees(st) && S.GetDentry(st, path).1.Some? ==> S.GetDentry(st, path).0 == st
    ensures Agrees(st) && DotFree(st.store) ==> Agrees(S.GetDentry(st, path).0)
  {
    hide Agrees, DotFree, S.Chdir, R.DentryAt, GetDirEnt, Dirname, Basename;
    if Absolute(path) {
      R.GetDentryForgets(st, path);
    }
    if Agrees(st) {
      GetDentryRestores(st, path);
    }
    StillAgrees(st, DoGetDentry(path));
  }

  lemma FileOpenMeans(st: State, path: string)
    ensures Absolute(path) ==> S.FileOpen(st, path).1 == R.FileOf(st.store, path)
    ensures Agrees(st) && S.FileOpen(st, path).1.Some? ==> S.FileOpen(st, path).0 == st
    ensures Agrees(st) && DotFree(st.store) ==> Agrees(S.FileOpen(st, path).0)
  {
    hide Agrees, DotFree, S.FileOpen, R.FileOf;
    if Absolute(path) {
      R.FileOpenForgets(st, path);
    }
    if Agrees(st) {
      FileOpenRestores(st, path);
    }
    StillAgrees(st, DoOpen(path));
  }

  lemma ReadMeans(st: State, path: string, size: int, offset: int)
    ensures var (t, count, buffer) := S.Read(st, path, size, offset);
            && (Absolute(path) ==> A.ReadGives(st.store, path, size, offset, count, buffer))
            && (Absolute(path) ==> F.Bytes(count, buffer) == R.ReadRef(st.store, path, size, offset))
            && (Absolute(path) && R.FileOf(st.store, path).Some? && Agrees(st) ==> t == st)
            && (Agrees(st) && DotFree(st.store) ==> Agrees(t))
  {
    hide Agrees, DotFree, S.Read, S.FileOpen, S.Chdir, R.FileOf, R.ReadRef, A.ReadGives;
    if Absolute(path) {
      A.ReadAnswers(st, path, size, offset);
      R.ReadForgets(st, path, size, offset);
      R.FileOpenForgets(st, path);
    }
    if Agrees(st) {
      ReadRestores(st, path, size, offset);
    }
    StillAgrees(st, DoRead(path, size, offset));
  }

  lemma WriteMeans(st: State, path: string, buffer: seq<bv8>, offset: int)
    ensures var (t, count) := S.Write(st, path, buffer, offset);
            && (Absolute(path) ==> A.WriteGives(st.store, t.store, path, buffer, offset, count))
            && (Absolute(path) ==> (t.store, F.Status(count)) == R.WriteRef(st.store, path, buffer, offset))
            && (Absolute(path) && R.FileOf(st.store, path).Some? && Agrees(st) ==> t == st.(store := t.store))
            && (Agrees(st) && DotFree(st.store) ==> Agrees(t))
            && (Agrees(st) ==> SameTree(st.store, t.store))
  {
    hide Agrees, DotFree, SameTree, S.Write, S.FileOpen, S.Chdir, R.FileOf, R.WriteRef, A.WriteGives;
    if Absolute(path) {
      A.WriteAnswers(st, path, buffer, offset);
      R.WriteForgets(st, path, buffer, offset);
      R.FileOpenForgets(st, path);
    }
    if Agrees(st) {
      WriteRestores(st, path, buffer, offset);
    }
    StillAgrees(st, DoWrite(path, buffer, offset));
  }

  lemma ReadlinkMeans(st: State, path: string, len: nat)
    ensures var (t, status, text) := S.Readlink(st, path, len);
            && (Absolute(path) ==> A.ReadlinkGives(st.store, path, len, status, text))
            && (Absolute(path) ==> F.Text(status, text) == R.ReadlinkRef(st.store, path, len))
            && (Absolute(path) && R.ParentDir(st.store, path).Some? && Agrees(st) ==> t == st)
            && (Agrees(st) && DotFree(st.store) ==> Agrees(t))
  {
    hide Agrees, DotFree, S.Readlink, S.Chdir, R.ReadlinkRef, Dirname, PathComponents, Walk, A.ReadlinkGives;
    if Absolute(path) {
      A.ReadlinkAnswers(st, path, len);
      R.ReadlinkForgets(st, path, len);
      R.DirnameAbsolute(path);
      R.ChdirForgets(st, Dirname(path));
    }
    if Agrees(st) {
      ReadlinkRestores(st, path, len);
    }
    StillAgrees(st, DoReadlink(path, len));
  }

  // mkdir and create; a new entry of a usable name has attributes at once.
  lemma MakeMeans(st: State, path: string)
    ensures Absolute(path) ==>
              && (S.Mkdir(st, path).0.store, F.Status(S.Mkdir(st, path).1)) ==
                 R.MakeRef(st.store, path, Dir, -EEXIST, ADF_RC_ERROR)
              && (S.Create(st, path).0.store, F.Status(S.Create(st, path).1)) ==
                 R.MakeRef(st.store, path, File, -EINVAL, -1)
    ensures Absolute(path) && SkipSlashes(path) != "" && R.ParentDir(st.store, path).Some? ==>
              && S.Mkdir(st, path).0.cur == S.Mkdir(st, path).0.store.root
              && S.Create(st, path).0.cur == S.Create(st, path).0.store.root
    ensures Absolute(path) && Volume.Valid(st.store) && ValidName(Basename(path)) ==>
              && Volume.Valid(S.Mkdir(st, path).0.store) && Volume.Valid(S.Create(st, path).0.store)
              && (S.Mkdir(st, path).1 == 0 ==> R.GetattrRef(S.Mkdir(st, path).0.store, path).0 == 0)
              && (S.Create(st, path).1 == 0 ==> R.GetattrRef(S.Create(st, path).0.store, path).0 == 0)
  {
    hide S.Mkdir, S.Create, R.MakeRef, R.ParentDir, R.GetattrRef, Volume.Valid, ValidName, SkipSlashes, Basename;
    if Absolute(path) {
      MakeIsRef(st, path);
      MakeAtRoot(st, path);
      MadeAttributes(st.store, path, Dir, -EEXIST, ADF_RC_ERROR);
      MadeAttributes(st.store, path, File, -EINVAL, -1);
    }
  }

  lemma MakeIsRef(st: State, path: string)
    requires Absolute(path)
    ensures (S.Mkdir(st, path).0.store, F.Status(S.Mkdir(st, path).1)) ==
            R.MakeRef(st.store, path, Dir, -EEXIST, ADF_RC_ERROR)
    ensures (S.Create(st, path).0.store, F.Status(S.Create(st, path).1)) ==
            R.MakeRef(st.store, path, File, -EINVAL, -1)
  {
    hide S.Mkdir, S.Create, R.MakeRef;
    R.MakeForgets(st, path);
  }

  lemma MakeAtRoot(st: State, path: string)
    requires Absolute(path)
    ensures SkipSlashes(path) != "" && R.ParentDir(st.store, path).Some? ==>
              && S.Mkdir(st, path).0.cur == S.Mkdir(st, path).0.store.root
              && S.Create(st, path).0.cur == S.Create(st, path).0.store.root
              && S.Remove(st, path).0.cur == S.Remove(st, path).0.store.root
  {
    hide S.Chdir, R.ParentDir, CreateEntry, RemoveEntry, SkipSlashes, Dirname, Basename, Absolute;
    if SkipSlashes(path) != "" {
      R.EntersParent(st, path);
    }
  }

  lemma MadeAttributes(s: Store, path: string, kind: Kind, root: int, failed: int)
    requires (kind == Dir || kind == File) && root != 0 && failed != 0
    ensures Volume.Valid(s) && ValidName(Basename(path)) ==>
              && Volume.Valid(R.MakeRef(s, path, kind, root, failed).0)
              && (R.MakeRef(s, path, kind, root, failed).1 == F.Status(0) ==>
                    R.GetattrRef(R.MakeRef(s, path, kind, root, failed).0, path).0 == 0)
  {
    if Volume.Valid(s) && ValidName(Basename(path)) {
      W.MakeRefValid(s, path, kind, root, failed);
      assert SkipSlashes(path) == "" ==> R.MakeRef(s, path, kind, root, failed).1 == F.Status(root);
      hide R.MakeRef, R.GetattrRef, Volume.Valid, ValidName, SkipSlashes, Basename;
      if SkipSlashes(path) != "" && R.MakeRef(s, path, kind, root, failed).1 == F.Status(0) {
        W.MakeThenGetattr(s, path, kind, root, failed);
      }
    }
  }

  lemma RemoveMeans(st: State, path: string)
    ensures Absolute(path) ==>
              (S.Remove(st, path).0.store, F.Status(S.Remove(st, path).1)) == R.RemoveRef(st.store, path)
    ensures Absolute(path) && SkipSlashes(path) != "" && R.ParentDir(st.store, path).Some? ==>
              S.Remove(st, path).0.cur == S.Remove(st, path).0.store.root
    ensures Absolute(path) && Volume.Valid(st.store) ==> Volume.Valid(S.Remove(st, path).0.store)
  {
    hide S.Remove, R.RemoveRef, R.ParentDir, Volume.Valid, SkipSlashes;
    if Absolute(path) {
      R.RemoveForgets(st, path);
      MakeAtRoot(st, path);
      if Volume.Valid(st.store) {
        W.RemoveRefValid(st.store, path);
      }
    }
  }

  lemma TruncateMeans(st: State, path: string, size: int)
    ensures var (t, status) := S.Truncate(st, path, size);
            && (Absolute(path) ==>
                  && status == (if R.FileOf(st.store, path).Some? then 0 else -ENOENT)
                  && A.TruncateGives(st.store, t.store, path, size))
            && (Absolute(path) && R.FileOf(st.store, path).Some? && Agrees(st) ==> t == st.(store := t.store))
  {
    hide Agrees, R.FileOf, S.FileOpen, S.Truncate, S.Chdir, F.Step, SameTree, A.TruncateGives;
    if Absolute(path) {
      A.TruncateAnswers(st, path, size);
      R.FileOpenForgets(st, path);
      TruncateCode(st, path, size);
    }
    if Agrees(st) {
      TruncateRestores(st, path, size);
    }
  }

  lemma TruncateCode(st: State, path: string, size: int)
    requires Absolute(path)
    ensures S.Truncate(st, path, size).1 == if R.FileOf(st.store, path).Some? then 0 else -ENOENT
    ensures F.Step(st, F.Truncate(path, size)).0 == S.Truncate(st, path, size).0
  {
    hide R.FileOf, S.FileOpen, Resize, ToUnsigned;
    R.FileOpenForgets(st, path);
  }

  // The block c of t has another access word, from which the rights read back
  // are the smallest set that contains those set and, with X also W, with W
  // also R; the other bits are kept if no right was set, and wiped otherwise.
  ghost predicate Reaccessed(s: Store, t: Store, c: Sector, p: Rwx) {
    && c in s.blocks && c in t.blocks
    && t == SetAccess(s, c, t.blocks[c].access)
    && (MasksApart(s.masks) ==>
          && GetPerm(s.masks, t.blocks[c].access) == DownClosure(p)
          && Others(s.masks, t.blocks[c].access) == if p == NO_RIGHTS then Others(s.masks, s.blocks[c].access) else {})
  }

  lemma SetPermissionMeans(st: State, path: string, p: Rwx)
    ensures var (t, ok) := S.SetPermission(st, path, p);
            && (Absolute(path) ==>
                  var d := R.DentryAt(st.store, path);
                  && (ok <==> DentryValid(d) && d.value.sector in st.store.blocks)
                  && (!ok ==> t.store == st.store)
                  && (ok ==> Reaccessed(st.store, t.store, d.value.sector, p)))
            && (Agrees(st) && ok ==> t == st.(store := t.store))
  {
    hide Agrees, R.DentryAt, S.GetDentry, SetPerm, GetPerm, Others;
    if Absolute(path) {
      R.GetDentryForgets(st, path);
      var d := R.DentryAt(st.store, path);
      if DentryValid(d) && d.value.sector in st.store.blocks && MasksApart(st.store.masks) {
        WrittenReadback(st.store.masks, st.store.blocks[d.value.sector].access, p);
      }
    }
    GetDentryMeans(st, path);
  }

  lemma RenameMeans(st: State, src: string, dst: string)
    ensures var (t, r) := S.Rename(st, src, dst);
            && (Absolute(src) && Absolute(dst) ==>
                  (t.store, if r.Hangs? then F.NoReturn else F.Status(r.status)) == R.RenameRef(st.store, src, dst))
            && (Absolute(src) && Absolute(dst) && Volume.Valid(st.store) && ValidName(Basename(dst)) ==>
                  Volume.Valid(t.store))
  {
    hide S.Rename, R.RenameRef, Volume.Valid, ValidName, Basename;
    if Absolute(src) && Absolute(dst) {
      R.RenameForgets(st, src, dst);
      if Volume.Valid(st.store) && ValidName(Basename(dst)) {
        W.RenameRefValid(st.store, src, dst);
      }
    }
  }
}
