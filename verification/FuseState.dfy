// The FUSE operations of src/adffs.c as steps of the image state: answer and
// next state, branch by branch, as written.
module FuseState {
  import opened PathStrings
  import opened Volume
  import opened Permissions
  import opened ImageState

  // File type and rwx triples of st_mode.
  datatype Format = NoFormat | Regular | Directory | Symlink
  datatype Mode = Mode(user: Rwx, group: Rwx, other: Rwx)
  datatype Stat = Stat(format: Format, mode: Mode, size: nat, nlink: nat)

  const NO_MODE := Mode(NO_RIGHTS, NO_RIGHTS, NO_RIGHTS)
  const ZERO_STAT := Stat(NoFormat, NO_MODE, 0, 0)

  datatype Answer =
    | Status(rc: int)
    | Attributes(rc: int, stat: Stat)
    | Names(rc: int, names: seq<string>)
    | Bytes(rc: int, data: seq<bv8>)
    | Text(rc: int, text: string)
    | NoReturn

  datatype Op =
    | Getattr(path: string)
    | Readdir(path: string, room: nat)
    | Readlink(path: string, len: nat)
    | Open(path: string)
    | Read(path: string, size: int, offset: int)
    | Write(path: string, buffer: seq<bv8>, offset: int)
    | Mkdir(path: string)
    | Rmdir(path: string)
    | Unlink(path: string)
    | Create(path: string)
    | Truncate(path: string, size: int)
    | Chmod(path: string, mode: Mode)
    | Rename(src: string, dst: string)

  // ------------------------------------------------------------------
  // getattr
  // ------------------------------------------------------------------

  const ROOT_MODE := Mode(Rwx(true, true, true), Rwx(true, false, true), Rwx(true, false, true))
  const LINK_MODE := Mode(Rwx(true, false, true), Rwx(true, false, true), Rwx(true, false, true))

  // Write is given to the user only; directories can be entered by all.
  function FileMode(p: Rwx): Mode {
    Mode(p, Rwx(p.r, false, p.x), Rwx(p.r, false, p.x))
  }

  function DirMode(p: Rwx): Mode {
    Mode(Rwx(p.r, p.w, true), Rwx(p.r, false, true), Rwx(p.r, false, true))
  }

  function SizeOfFile(s: Store, d: Sector, name: string): nat {
    match FileAt(s, d, name)
    case None => 0
    case Some(f) => |s.blocks[f].data|
  }

  function GetattrStep(st: State, path: string): (State, int, Stat) {
    if SkipSlashes(path) == "" then
      (st, 0, Stat(Directory, ROOT_MODE, CountCwd(st), 1))
    else
      var (there, ok) := Chdir(st, Dirname(path));
      if !ok then (there, -ENOENT, ZERO_STAT)
      else
        var name := if Basename(path) == "" then "." else Basename(path);
        var (st2, d) := GetDentry(there, name);
        if d.None? then (ToRoot(st2), -ENOENT, ZERO_STAT)
        else
          var e := d.value;
          var perms := GetPerm(st2.store.masks, e.access);
          match e.kind
          case File =>
            (ToRoot(st2), 0, Stat(Regular, FileMode(perms), SizeOfFile(st2.store, st2.cur, name), 1))
          case LinkFile =>
            (ToRoot(st2), 0, Stat(Regular, FileMode(perms), SizeOfFile(st2.store, st2.cur, name), 1))
          case SoftLink => (ToRoot(st2), 0, Stat(Symlink, LINK_MODE, 0, 1))
          case Unsupported => (ToRoot(st2), 0, ZERO_STAT)
          case _ =>
            var (st3, n) := CountDir(st2, path);
            (ToRoot(st3), 0, Stat(Directory, DirMode(perms), n, 1))
  }

  // ------------------------------------------------------------------
  // readdir: the filler refuses a name when its buffer has no room
  // ------------------------------------------------------------------

  function Fill(names: seq<string>, name: string, room: nat): (seq<string>, bool) {
    if |names| < room then (names + [name], false) else (names, true)
  }

  function FillEntries(names: seq<string>, list: seq<Entry>, room: nat): (seq<string>, bool)
    decreases |list|
  {
    if list == [] then (names, false)
    else
      var (next, full) := Fill(names, list[0].name, room);
      if full then (next, true) else FillEntries(next, list[1..], room)
  }

  // What readdir does inside the directory d.
  function Listing(s: Store, d: Sector, room: nat): (int, seq<string>) {
    var dots := Fill(Fill([], ".", room).0, "..", room).0;
    var (names, full) := FillEntries(dots, GetDirEnt(s, d), room);
    (if full then -EAGAIN else 0, names)
  }

  function ReaddirStep(st: State, path: string, room: nat): (State, int, seq<string>) {
    var (there, ok) := Chdir(st, path);
    if !ok then (ToRoot(there), -ENOENT, [])
    else
      var (rc, names) := Listing(there.store, there.cur, room);
      (ToRoot(there), rc, names)
  }

  // ------------------------------------------------------------------
  // The others translate the result of one adfimage_ call
  // ------------------------------------------------------------------

  function Step(st: State, op: Op): (State, Answer) {
    match op
    case Getattr(path) =>
      var (t, rc, stat) := GetattrStep(st, path); (t, Attributes(rc, stat))
    case Readdir(path, room) =>
      var (t, rc, names) := ReaddirStep(st, path, room); (t, Names(rc, names))
    case Readlink(path, len) =>
      var (t, rc, text) := ImageState.Readlink(st, path, len); (t, Text(rc, text))
    case Open(path) =>
      var (t, file) := FileOpen(st, path); (t, Status(if file.Some? then 0 else -1))
    case Read(path, size, offset) =>
      var (t, rc, data) := ImageState.Read(st, path, size, offset); (t, Bytes(rc, data))
    case Write(path, buffer, offset) =>
      var (t, rc) := ImageState.Write(st, path, buffer, offset); (t, Status(rc))
    case Mkdir(path) =>
      var (t, rc) := ImageState.Mkdir(st, path); (t, Status(rc))
    case Rmdir(path) =>
      var (t, rc) := ImageState.Remove(st, path); (t, Status(rc))
    case Unlink(path) =>
      var (t, rc) := ImageState.Remove(st, path); (t, Status(rc))
    case Create(path) =>
      var (t, rc) := ImageState.Create(st, path); (t, Status(rc))
    case Truncate(path, size) =>
      var (t, rc) := ImageState.Truncate(st, path, size); (t, Status(if rc == 0 then 0 else -1))
    case Chmod(path, mode) =>
      var (t, ok) := SetPermission(st, path, mode.user); (t, Status(if ok then 0 else EINVAL))
    case Rename(src, dst) =>
      var (t, r) := ImageState.Rename(st, src, dst);
      (t, match r case Hangs => NoReturn case Returns(rc) => Status(rc))
  }

  // A run of operations with the answers given; an operation that never
  // returns is the last one of a single-threaded FUSE.
  function Run(st: State, ops: seq<Op>): (State, seq<Answer>)
    decreases |ops|
  {
    if ops == [] then (st, [])
    else
      var (t, a) := Step(st, ops[0]);
      if a.NoReturn? then (t, [a])
      else
        var (u, rest) := Run(t, ops[1..]);
        (u, [a] + rest)
  }
}
