// The state kept by adfimage_t and the effect of each adfimage_ function on
// it, branch by branch, as written. The methods of AdfImage.dfy are proved
// against these functions.
module ImageState {
  import opened PathStrings
  import opened Volume
  import opened Permissions
  import opened Walking
  import PathRewrite

  // The volume, its hidden current directory, and the printed cwd.
  datatype State = State(store: Store, cur: Sector, cwd: string)

  const EPERM: int := 1
  const ENOENT: int := 2
  const EAGAIN: int := 11
  const EEXIST: int := 17
  const EINVAL: int := 22

  // The failure code of the ADFlib calls that are passed on to FUSE.
  const ADF_RC_ERROR: int := -1

  const TWO32: int := 0x1_0000_0000

  function Min(a: nat, b: nat): nat {
    if a <= b then a else b
  }

  // Conversion of a size or offset to unsigned, of a count to int32_t.
  function ToUnsigned(v: int): nat {
    v % TWO32
  }

  function ToInt32(v: nat): int {
    var w := v % TWO32;
    if w < TWO32 / 2 then w else w - TWO32
  }

  // ------------------------------------------------------------------
  // The current directory
  // ------------------------------------------------------------------

  // append_dir
  function AppendDir(cwd: string, dir: string): string {
    (if cwd != "/" then cwd + "/" else cwd) + dir
  }

  function AppendAll(cwd: string, cs: seq<string>): string
    decreases |cs|
  {
    if cs == [] then cwd else AppendAll(AppendDir(cwd, cs[0]), cs[1..])
  }

  // Moving along components from where the state is: the walk stops in front
  // of the first component that does not resolve, having printed the others.
  function Descend(st: State, cs: seq<string>): (State, bool) {
    var k := Depth(st.store, st.cur, cs);
    (State(st.store, Reach(st.store, st.cur, cs), AppendAll(st.cwd, cs[..k])), k == |cs|)
  }

  function ToRoot(st: State): State {
    st.(cur := st.store.root)
  }

  // adfimage_chdir
  function Chdir(st: State, path: string): (State, bool) {
    if path == "" then (st, false)
    else if path[0] == '/' then Descend(State(st.store, st.store.root, "/"), PathComponents(path))
    else Descend(st, PathComponents(path))
  }

  // ------------------------------------------------------------------
  // Looking at the volume
  // ------------------------------------------------------------------

  // adfimage_count_cwd_entries, adfimage_count_dir_entries
  function CountCwd(st: State): nat {
    |GetDirEnt(st.store, st.cur)|
  }

  function CountDir(st: State, dirpath: string): (State, nat) {
    var there := Chdir(st, dirpath).0;
    (Chdir(there, st.cwd).0, CountCwd(there))
  }

  // adfimage_get_root_dentry; None is the type ADFVOLUME_DENTRY_NONE, and an
  // entry of kind Unsupported has the type ADFVOLUME_DENTRY_UNKNOWN.
  function RootDentry(s: Store): Option<Entry> {
    if IsKind(s, s.root, Root) then
      Some(Entry(s.blocks[s.root].name, Root, s.root, 0, s.blocks[s.root].access))
    else None
  }

  // adfimage_getdentry: the result of chdir is ignored, and the directory is
  // not restored when the list is empty.
  function GetDentry(st: State, pathname: string): (State, Option<Entry>) {
    if pathname == "/" then (st, RootDentry(st.store))
    else
      var there := Chdir(st, Dirname(pathname)).0;
      var list := GetDirEnt(there.store, there.cur);
      if list == [] then (there, None)
      else (Chdir(there, st.cwd).0, FindExact(list, Basename(pathname)))
  }

  // adfimage_dentry_valid
  predicate DentryValid(d: Option<Entry>) {
    d.Some? && d.value.kind != Unsupported
  }

  // adfimage_file_open: both failures leave the directory where it is.
  function FileOpen(st: State, path: string): (State, Option<Sector>) {
    var (there, ok) := Chdir(st, Dirname(path));
    if !ok then (there, None)
    else
      match FileAt(there.store, there.cur, Basename(path))
      case None => (there, None)
      case Some(f) => (Chdir(there, st.cwd).0, Some(f))
  }

  // adfFileSeek and adfFileRead: a position behind the end is the end.
  function ReadAt(data: seq<bv8>, size: nat, offset: nat): (r: seq<bv8>)
    ensures |r| <= size
  {
    var pos := Min(offset, |data|);
    data[pos..pos + Min(size, |data| - pos)]
  }

  // adfFileSeek and adfFileWrite
  function WriteAt(data: seq<bv8>, buffer: seq<bv8>, offset: nat): seq<bv8> {
    var pos := Min(offset, |data|);
    data[..pos] + buffer + data[Min(pos + |buffer|, |data|)..]
  }

  // adfFileTruncate
  function Resize(data: seq<bv8>, size: nat): seq<bv8> {
    if size <= |data| then data[..size] else data + seq(size - |data|, _ => 0)
  }

  // adfimage_read: the return value and the bytes put into the buffer.
  function Read(st: State, path: string, size: int, offset: int): (State, int, seq<bv8>) {
    var (there, ok) := Chdir(st, Dirname(path));
    if !ok then (there, -ENOENT, [])
    else
      match FileAt(there.store, there.cur, Basename(path))
      case None => (there, -ENOENT, [])
      case Some(f) =>
        var bytes := ReadAt(there.store.blocks[f].data, ToUnsigned(size), ToUnsigned(offset));
        (Chdir(there, st.cwd).0, ToInt32(|bytes|), bytes)
  }

  // The part of adfimage_write done on the open file.
  function WriteFile(s: Store, f: Sector, buffer: seq<bv8>, offset: int): (Store, int)
    requires f in s.blocks
  {
    var bytes := buffer[..ToUnsigned(|buffer|)];
    (SetData(s, f, WriteAt(s.blocks[f].data, bytes, ToUnsigned(offset))), ToInt32(|bytes|))
  }

  // adfimage_write of a whole buffer.
  function Write(st: State, path: string, buffer: seq<bv8>, offset: int): (State, int) {
    var (there, ok) := Chdir(st, Dirname(path));
    if !ok then (there, -ENOENT)
    else
      match FileAt(there.store, there.cur, Basename(path))
      case None => (there, -ENOENT)
      case Some(f) =>
        var (s, count) := WriteFile(there.store, f, buffer, offset);
        (Chdir(there.(store := s), st.cwd).0, count)
  }

  // The part of adfimage_readlink done inside the directory d.
  function LinkText(s: Store, d: Sector, name: string, len: nat): (int, string) {
    if d !in s.blocks then (-1, "")
    else
      match Lookup(s, d, name)
      case None => (-2, "")
      case Some(c) =>
        var b := s.blocks[c];
        if b.kind == SoftLink then (0, b.target[..Min(len, |b.target|)])
        else if b.linked !in s.blocks then (-3, "")
        else
          var n := s.blocks[b.linked].name;
          (0, n[..Min(len, |n|)])
  }

  // adfimage_readlink: every exit behind the first chdir restores.
  function Readlink(st: State, path: string, len: nat): (State, int, string) {
    var (there, ok) := Chdir(st, Dirname(path));
    if !ok then (there, -1, "")
    else
      var (status, text) := LinkText(there.store, there.cur, Basename(path), len);
      (Chdir(there, st.cwd).0, status, text)
  }

  // ------------------------------------------------------------------
  // Changing the volume. mkdir, rmdir, unlink and create move to the root
  // without touching cwd, walk a relative path, and move to the root again.
  // ------------------------------------------------------------------

  function Mkdir(st: State, path: string): (State, int) {
    var rel := SkipSlashes(path);
    if rel == "" then (st, -EEXIST)
    else
      var (there, ok) := Chdir(ToRoot(st), Dirname(rel));
      if !ok then (there, -ENOENT)
      else
        var (s, done) := CreateEntry(there.store, there.cur, Basename(rel), Dir);
        (ToRoot(there.(store := s)), if done then 0 else ADF_RC_ERROR)
  }

  function Remove(st: State, path: string): (State, int) {
    var rel := SkipSlashes(path);
    if rel == "" then (st, -EPERM)
    else
      var (there, ok) := Chdir(ToRoot(st), Dirname(rel));
      if !ok then (there, -ENOENT)
      else
        var (s, done) := RemoveEntry(there.store, there.cur, Basename(rel));
        (ToRoot(there.(store := s)), if done then 0 else ADF_RC_ERROR)
  }

  function Create(st: State, path: string): (State, int) {
    var rel := SkipSlashes(path);
    if rel == "" then (st, -EINVAL)
    else
      var (there, ok) := Chdir(ToRoot(st), Dirname(rel));
      if !ok then (there, -ENOENT)
      else
        var (s, done) := CreateEntry(there.store, there.cur, Basename(rel), File);
        (ToRoot(there.(store := s)), if done then 0 else -1)
  }

  // adfimage_file_truncate
  function Truncate(st: State, path: string, size: int): (State, int) {
    var (there, file) := FileOpen(st, path);
    match file
    case None => (there, -ENOENT)
    case Some(f) =>
      if f in there.store.blocks then
        (there.(store := SetData(there.store, f, Resize(there.store.blocks[f].data, ToUnsigned(size)))), 0)
      else (there, -1)
  }

  // adfimage_setperm
  function SetPermission(st: State, path: string, p: Rwx): (State, bool) {
    var (there, d) := GetDentry(st, path);
    if !DentryValid(d) || d.value.sector !in there.store.blocks then (there, false)
    else
      var c := d.value.sector;
      var access := SetPerm(there.store.masks, there.store.blocks[c].access, p);
      (there.(store := SetAccess(there.store, c, access)), true)
  }

  // The sector rename takes for a parent: of the directory itself, or of the
  // directory a link stands for.
  function ParentSector(e: Entry): Option<Sector> {
    match e.kind
    case Root => Some(e.sector)
    case Dir => Some(e.sector)
    case LinkDir => Some(e.linked)
    case _ => None
  }

  // The outcome of adfimage_file_rename; Hangs when the path rewriting does
  // not return.
  datatype Renaming = Hangs | Returns(status: int)

  function RenameIn(s: Store, p: Sector, name: string, q: Sector, newName: string): (Store, int) {
    if p < 2 || q < 2 then (s, -1)
    else
      var (t, done) := RenameEntry(s, p, name, q, newName);
      (t, if done then 0 else -1)
  }

  function Rename(st: State, src: string, dst: string): (State, Renaming) {
    var srcDir := PathRewrite.Fuse2AmigaDosW(Dirname(src));
    var dstDir := PathRewrite.Fuse2AmigaDosW(Dirname(dst));
    if srcDir.None? || dstDir.None? then (st, Hangs)
    else
      var (st1, d1) := GetDentry(st, srcDir.value);
      if d1.None? then (st1, Returns(-ENOENT))
      else if ParentSector(d1.value).None? then (st1, Returns(-EINVAL))
      else
        var (st2, d2) := GetDentry(st1, dstDir.value);
        if d2.None? then (st2, Returns(-ENOENT))
        else if ParentSector(d2.value).None? then (st2, Returns(-EINVAL))
        else
          var (s, status) := RenameIn(st2.store, ParentSector(d1.value).value, Basename(src),
                                      ParentSector(d2.value).value, Basename(dst));
          (st2.(store := s), Returns(status))
  }
}
