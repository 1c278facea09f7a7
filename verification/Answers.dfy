// What each FUSE operation answers and does to the volume, from any state,
// spelled out without the functions it is computed with.
module Answers {
  import opened PathStrings
  import opened Volume
  import opened VolumeLaws
  import opened Permissions
  import opened Walking
  import opened ImageState
  import opened FuseState
  import opened Reference

  // The smaller and the larger of two lengths, and the 32-bit conversions.
  lemma Lengths(a: nat, b: nat)
    ensures Min(a, b) <= a && Min(a, b) <= b && (Min(a, b) == a || Min(a, b) == b)
  {
  }

  lemma Unsigned(v: int)
    ensures ToUnsigned(v) == v % 0x1_0000_0000
    ensures 0 <= v < 0x1_0000_0000 ==> ToUnsigned(v) == v
  {
  }

  lemma Signed(v: nat)
    requires v < 0x1_0000_0000
    ensures ToInt32(v) == if v < 0x8000_0000 then v else v - 0x1_0000_0000
  {
  }

  // ------------------------------------------------------------------
  // What paths and names denote
  // ------------------------------------------------------------------

  // A path denotes the file f: the name is found in the directory of the
  // dirname, and f is the block found or the one it is a hard link to.
  predicate IsFileAt(s: Store, path: string, f: Sector) {
    match ParentDir(s, path)
    case None => false
    case Some(d) =>
      match Lookup(s, d, Basename(path))
      case None => false
      case Some(c) =>
        && f in s.blocks && s.blocks[f].kind == File
        && f == if s.blocks[c].linked != 0 then s.blocks[c].linked else c
  }

  lemma FileIs(s: Store, path: string, f: Sector)
    ensures FileOf(s, path) == Some(f) <==> IsFileAt(s, path, f)
  {
    hide ParentDir, Basename, FindFolded;
  }

  // adfChangeDir enters the directory of that name, or the one that a hard
  // link of that name stands for.
  lemma DirectoryIs(s: Store, d: Sector, name: string, x: Sector)
    ensures ChangeDir(s, d, name) == Some(x) <==>
              match Lookup(s, d, name)
              case None => false
              case Some(c) =>
                && x in s.blocks && s.blocks[x].kind == Dir
                && x == if s.blocks[c].linked != 0 then s.blocks[c].linked else c
  {
    hide FindFolded;
  }

  // The entry for "/" is the root block itself.
  lemma RootEntry(st: State)
    ensures var s := st.store;
            GetDentry(st, "/") ==
            (st, if s.root in s.blocks && s.blocks[s.root].kind == Root then
                   Some(Entry(s.blocks[s.root].name, Root, s.root, 0, s.blocks[s.root].access))
                 else None)
  {
  }

  // The list of a directory: its entries in order, each with what its block
  // says, and with the block a hard link stands for.
  lemma ListIs(s: Store, d: Sector)
    requires d in s.blocks && forall c :: c in s.blocks[d].children ==> c in s.blocks
    ensures |GetDirEnt(s, d)| == |s.blocks[d].children|
    ensures forall i :: 0 <= i < |GetDirEnt(s, d)| ==>
              var e, b := GetDirEnt(s, d)[i], s.blocks[s.blocks[d].children[i]];
              && e.sector == s.blocks[d].children[i] && e.name == b.name && e.kind == b.kind && e.access == b.access
              && e.linked == if b.kind == LinkFile || b.kind == LinkDir then b.linked else 0
  {
  }

  // ------------------------------------------------------------------
  // read, write, truncate
  // ------------------------------------------------------------------

  // The bytes of data from an offset on, size of them or as many as there are.
  predicate IsRead(bytes: seq<bv8>, data: seq<bv8>, size: nat, offset: nat) {
    && (offset >= |data| ==> bytes == [])
    && (offset < |data| && size <= |data| - offset ==> bytes == data[offset..offset + size])
    && (offset < |data| && size > |data| - offset ==> bytes == data[offset..])
  }

  lemma ReadAtIs(data: seq<bv8>, size: nat, offset: nat)
    ensures IsRead(ReadAt(data, size, offset), data, size, offset)
  {
  }

  // read returns what the file has there, and its length; the arguments count
  // modulo 2^32, and a length from 2^31 on comes out negative.
  predicate ReadGives(s: Store, path: string, size: int, offset: int, rc: int, bytes: seq<bv8>) {
    match FileOf(s, path)
    case None => rc == -2 && bytes == []
    case Some(f) =>
      && IsRead(bytes, s.blocks[f].data, size % 0x1_0000_0000, offset % 0x1_0000_0000)
      && rc == |bytes| - if |bytes| < 0x8000_0000 then 0 else 0x1_0000_0000
  }

  lemma ReadAnswers(st: State, path: string, size: int, offset: int)
    requires Absolute(path)
    ensures var (t, answer) := Step(st, Read(path, size, offset));
            t.store == st.store && answer.Bytes? && ReadGives(st.store, path, size, offset, answer.rc, answer.data)
  {
    hide Step, FileOf, ReadAt, ToUnsigned, ToInt32, IsRead;
    ReadForgets(st, path, size, offset);
    Unsigned(size);
    Unsigned(offset);
    match FileOf(st.store, path) {
      case None =>
      case Some(f) =>
        var bytes := ReadAt(st.store.blocks[f].data, ToUnsigned(size), ToUnsigned(offset));
        ReadAtIs(st.store.blocks[f].data, ToUnsigned(size), ToUnsigned(offset));
        Signed(|bytes|);
    }
  }

  // The volume with other data in one file.
  predicate DataChanged(s: Store, t: Store, f: Sector) {
    f in s.blocks && f in t.blocks && t == s.(blocks := s.blocks[f := s.blocks[f].(data := t.blocks[f].data)])
  }

  // The data after writing bytes at an offset, or at the end if that lies
  // behind the end.
  predicate IsWritten(after: seq<bv8>, data: seq<bv8>, bytes: seq<bv8>, offset: nat) {
    var pos := if offset <= |data| then offset else |data|;
    && |after| == (if pos + |bytes| >= |data| then pos + |bytes| else |data|)
    && forall i :: 0 <= i < |after| ==> after[i] == if pos <= i < pos + |bytes| then bytes[i - pos] else data[i]
  }

  lemma WriteAtIs(data: seq<bv8>, bytes: seq<bv8>, offset: nat)
    ensures IsWritten(WriteAt(data, bytes, offset), data, bytes, offset)
  {
  }

  // What of a buffer fits an unsigned size.
  function Fitting(buffer: seq<bv8>): seq<bv8> {
    if |buffer| < 0x1_0000_0000 then buffer else buffer[..|buffer| % 0x1_0000_0000]
  }

  lemma FittingIs(buffer: seq<bv8>)
    ensures Fitting(buffer) == buffer[..ToUnsigned(|buffer|)] && |Fitting(buffer)| == |buffer| % 0x1_0000_0000
  {
  }

  // write changes the bytes at its place in the file and nothing else, and
  // returns how many; a whole buffer of 2^32 bytes or more is cut.
  predicate WriteGives(s: Store, t: Store, path: string, buffer: seq<bv8>, offset: int, rc: int) {
    match FileOf(s, path)
    case None => rc == -2 && t == s
    case Some(f) =>
      var bytes := Fitting(buffer);
      && rc == (if |bytes| < 0x8000_0000 then |bytes| else |bytes| - 0x1_0000_0000)
      && DataChanged(s, t, f)
      && IsWritten(t.blocks[f].data, s.blocks[f].data, bytes, offset % 0x1_0000_0000)
  }

  lemma WriteAnswers(st: State, path: string, buffer: seq<bv8>, offset: int)
    requires Absolute(path)
    ensures var (t, answer) := Step(st, Write(path, buffer, offset));
            answer.Status? && WriteGives(st.store, t.store, path, buffer, offset, answer.rc)
  {
    hide Step, FileOf, WriteAt, ToUnsigned, ToInt32, IsWritten, Fitting;
    WriteForgets(st, path, buffer, offset);
    FittingIs(buffer);
    Unsigned(|buffer|);
    Unsigned(offset);
    Signed(ToUnsigned(|buffer|));
    match FileOf(st.store, path) {
      case None =>
      case Some(f) =>
        WriteAtIs(st.store.blocks[f].data, buffer[..ToUnsigned(|buffer|)], ToUnsigned(offset));
    }
  }

  // The first size bytes, and zeros where there were none.
  predicate IsResized(after: seq<bv8>, data: seq<bv8>, size: nat) {
    |after| == size && forall i :: 0 <= i < size ==> after[i] == if i < |data| then data[i] else 0
  }

  lemma ResizeIs(data: seq<bv8>, size: nat)
    ensures IsResized(Resize(data, size), data, size)
  {
  }

  // truncate keeps the first bytes of the file or adds zeros behind them, and
  // changes nothing else.
  predicate TruncateGives(s: Store, t: Store, path: string, size: int) {
    match FileOf(s, path)
    case None => t == s
    case Some(f) =>
      DataChanged(s, t, f) && IsResized(t.blocks[f].data, s.blocks[f].data, size % 0x1_0000_0000)
  }

  lemma TruncateAnswers(st: State, path: string, size: int)
    requires Absolute(path)
    ensures var (t, answer) := Step(st, Truncate(path, size));
            && answer == Status(if FileOf(st.store, path).Some? then 0 else -1)
            && TruncateGives(st.store, t.store, path, size)
  {
    hide Step, FileOf, Resize, ToUnsigned, IsResized;
    TruncateForgets(st, path, size);
    Unsigned(size);
    match FileOf(st.store, path) {
      case None =>
      case Some(f) => ResizeIs(st.store.blocks[f].data, ToUnsigned(size));
    }
  }

  // ------------------------------------------------------------------
  // readlink, open
  // ------------------------------------------------------------------

  // The first characters of a string, at most len.
  predicate IsCut(text: string, whole: string, len: nat) {
    text <= whole && (|text| == len || (|text| < len && text == whole))
  }

  // readlink gives the target of a soft link, and the name of the block that
  // any other entry is linked to.
  predicate ReadlinkGives(s: Store, path: string, len: nat, rc: int, text: string) {
    && (rc != 0 ==> text == "")
    && match ParentDir(s, path)
       case None => rc == -1
       case Some(d) =>
         if d !in s.blocks then rc == -1
         else
           match Lookup(s, d, Basename(path))
           case None => rc == -2
           case Some(c) =>
             if s.blocks[c].kind == SoftLink then rc == 0 && IsCut(text, s.blocks[c].target, len)
             else if s.blocks[c].linked in s.blocks then
               rc == 0 && IsCut(text, s.blocks[s.blocks[c].linked].name, len)
             else rc == -3
  }

  lemma ReadlinkAnswers(st: State, path: string, len: nat)
    requires Absolute(path)
    ensures var (t, answer) := Step(st, Readlink(path, len));
            t.store == st.store && answer.Text? && ReadlinkGives(st.store, path, len, answer.rc, answer.text)
  {
    hide Step, Walk, ParentDir, Lookup, Basename;
    ReadlinkForgets(st, path, len);
  }

  lemma OpenAnswers(st: State, path: string)
    requires Absolute(path)
    ensures var (t, answer) := Step(st, Open(path));
            t.store == st.store && answer == Status(if FileOf(st.store, path).Some? then 0 else -1)
  {
    hide FileOpen, FileOf;
    FileOpenForgets(st, path);
  }

  // ------------------------------------------------------------------
  // getattr
  // ------------------------------------------------------------------

  // The owner has the rights that the access word does not deny; the others
  // never the right to write, and for reading and executing those of the owner.
  predicate FileRights(m: Masks, access: Word, mode: Mode) {
    && (mode.user.r <==> m.r !in access) && (mode.user.w <==> m.w !in access) && (mode.user.x <==> m.e !in access)
    && !mode.group.w && !mode.other.w
    && mode.group.r == mode.other.r == mode.user.r && mode.group.x == mode.other.x == mode.user.x
  }

  // The same for a directory, but that everybody may enter it.
  predicate DirectoryRights(m: Masks, access: Word, mode: Mode) {
    && (mode.user.r <==> m.r !in access) && (mode.user.w <==> m.w !in access)
    && !mode.group.w && !mode.other.w
    && mode.group.r == mode.other.r == mode.user.r
    && mode.user.x && mode.group.x && mode.other.x
  }

  // rwxr-xr-x or r-xr-xr-x
  predicate FixedRights(mode: Mode, write: bool) {
    && mode.user.r && mode.user.x && mode.user.w == write
    && mode.group.r && mode.group.x && !mode.group.w && mode.other.r && mode.other.x && !mode.other.w
  }

  // The attributes of an entry e found for a path.
  predicate Shows(s: Store, path: string, e: Entry, stat: Stat) {
    match e.kind
    case File => IsFile(s, path, e, stat)
    case LinkFile => IsFile(s, path, e, stat)
    case SoftLink => stat.format == Symlink && stat.size == 0 && stat.nlink == 1 && FixedRights(stat.mode, false)
    case Unsupported => stat.format == NoFormat && stat.size == 0 && stat.nlink == 0 && stat.mode == NO_MODE
    case _ =>
      && stat.format == Directory && stat.nlink == 1 && DirectoryRights(s.masks, e.access, stat.mode)
      && stat.size == |GetDirEnt(s, Reach(s, s.root, PathComponents(path)))|
  }

  predicate IsFile(s: Store, path: string, e: Entry, stat: Stat) {
    && stat.format == Regular && stat.nlink == 1 && FileRights(s.masks, e.access, stat.mode)
    && stat.size == match FileOf(s, path) case None => 0 case Some(f) => |s.blocks[f].data|
  }

  // getattr of every path but the root's.
  predicate GetattrGives(s: Store, path: string, rc: int, stat: Stat) {
    match ParentDir(s, path)
    case None => rc == -2
    case Some(d) =>
      match FindExact(GetDirEnt(s, d), Basename(path))
      case None => rc == -2
      case Some(e) => rc == 0 && Shows(s, path, e, stat)
  }

  lemma GetattrAnswers(st: State, path: string)
    requires Absolute(path) && SkipSlashes(path) != ""
    ensures var (t, answer) := Step(st, Getattr(path));
            t.store == st.store && answer.Attributes? && GetattrGives(st.store, path, answer.rc, answer.stat)
  {
    hide GetattrStep, ParentDir, GetDirEnt, FindExact, Basename, SkipSlashes, Shows, StatAt;
    GetattrForgets(st, path);
    match ParentDir(st.store, path) {
      case None =>
      case Some(d) =>
        var e := FindExact(GetDirEnt(st.store, d), Basename(path));
        if e.Some? {
          StatShows(st.store, d, e.value, path);
        }
    }
  }

  lemma StatShows(s: Store, d: Sector, e: Entry, path: string)
    requires ParentDir(s, path) == Some(d)
    ensures Shows(s, path, e, StatAt(s, d, e, path))
  {
    hide ParentDir, GetDirEnt, Basename, FileAt, Reach, PathComponents;
  }

  // getattr of the root directory.
  lemma RootAnswers(st: State, path: string)
    requires Absolute(path) && SkipSlashes(path) == ""
    ensures var (t, answer) := Step(st, Getattr(path));
            && t == st && answer.Attributes? && answer.rc == 0
            && answer.stat.format == Directory && answer.stat.nlink == 1 && FixedRights(answer.stat.mode, true)
            && answer.stat.size == |GetDirEnt(st.store, st.cur)|
  {
    hide GetDirEnt, SkipSlashes;
  }

  // ------------------------------------------------------------------
  // mkdir, create, rmdir, unlink
  // ------------------------------------------------------------------

  // Some entry of the directory has this name up to case.
  ghost predicate NameTaken(s: Store, d: Sector, name: string) {
    exists c :: c in Children(s, d) && c in s.blocks && SameName(s.intl, s.blocks[c].name, name)
  }

  lemma TakenIsFound(s: Store, d: Sector, name: string)
    ensures Lookup(s, d, name).Some? <==> NameTaken(s, d, name)
  {
    hide SameName;
  }

  // The codes of mkdir and create: for the root, for a missing parent, and for
  // a name that is taken or a volume that is full.
  ghost predicate MakeCode(s: Store, path: string, rc: int, root: int) {
    if SkipSlashes(path) == "" then rc == root
    else
      match ParentDir(s, path)
      case None => rc == -2
      case Some(d) => rc == if d in s.blocks && s.free != [] && !NameTaken(s, d, Basename(path)) then 0 else -1
  }

  lemma MakeAnswers(st: State, path: string)
    requires Absolute(path)
    ensures Step(st, Mkdir(path)).1.Status? && Step(st, Create(path)).1.Status?
    ensures MakeCode(st.store, path, Step(st, Mkdir(path)).1.rc, -17)
    ensures MakeCode(st.store, path, Step(st, Create(path)).1.rc, -22)
    ensures forall op :: op in {Mkdir(path), Create(path)} && Step(st, op).1 != Status(0) ==>
                           Step(st, op).0.store == st.store
  {
    hide Step, ParentDir, SkipSlashes, Basename, Lookup, NameTaken;
    MakeForgets(st, path);
    match ParentDir(st.store, path) {
      case None =>
      case Some(d) => TakenIsFound(st.store, d, Basename(path));
    }
  }

  // rmdir and unlink, which do the same: for the root, for a missing parent or
  // entry, and for a directory that is not empty.
  lemma RemoveAnswers(st: State, path: string)
    requires Absolute(path)
    ensures Step(st, Unlink(path)) == Step(st, Rmdir(path)) && Step(st, Rmdir(path)).1.Status?
    ensures var s, rc := st.store, Step(st, Rmdir(path)).1.rc;
            && (rc != 0 ==> Step(st, Rmdir(path)).0.store == s)
            && if SkipSlashes(path) == "" then rc == -1
               else
                 match ParentDir(s, path)
                 case None => rc == -2
                 case Some(d) =>
                   match Lookup(s, d, Basename(path))
                   case None => rc == -1
                   case Some(c) => rc == if s.blocks[c].kind == Dir && s.blocks[c].children != [] then -1 else 0
  {
    hide Step, ParentDir, SkipSlashes, Basename, Lookup, Without;
    RemoveForgets(st, path);
  }

  // On a well-formed volume exactly one entry comes: a directory by mkdir, a
  // file by create, empty and with all rights, under the name asked for.
  predicate Came(s: Store, t: Store, d: Sector, name: string, kind: Kind) {
    && s.free != [] && s.free[0] !in s.blocks && s.free[0] in t.blocks && t.blocks.Keys == s.blocks.Keys + {s.free[0]}
    && t.blocks[s.free[0]] == Block(kind, name, {}, 0, "", [], [])
    && forall x :: x in s.blocks ==>
         t.blocks[x] == if x == d then s.blocks[x].(children := s.blocks[x].children + [s.free[0]]) else s.blocks[x]
  }

  lemma MakeChanges(st: State, path: string)
    requires Absolute(path) && SkipSlashes(path) != "" && Valid(st.store) && ParentDir(st.store, path).Some?
    ensures var s, d := st.store, ParentDir(st.store, path).value;
            && (Step(st, Mkdir(path)).1 == Status(0) ==> Came(s, Step(st, Mkdir(path)).0.store, d, Basename(path), Dir))
            && (Step(st, Create(path)).1 == Status(0) ==>
                  Came(s, Step(st, Create(path)).0.store, d, Basename(path), File))
  {
    hide Step, ParentDir, SkipSlashes, Basename, CreateEntry, Valid, Came;
    MakeForgets(st, path);
    CreateComes(st.store, ParentDir(st.store, path).value, Basename(path), Dir);
    CreateComes(st.store, ParentDir(st.store, path).value, Basename(path), File);
  }

  lemma CreateComes(s: Store, d: Sector, name: string, kind: Kind)
    requires Valid(s)
    ensures CreateEntry(s, d, name, kind).1 ==> Came(s, CreateEntry(s, d, name, kind).0, d, name, kind)
  {
    if CreateEntry(s, d, name, kind).1 {
      CreateEffect(s, d, name, kind);
      hide CreateEntry, Valid;
    }
  }

  // And exactly one goes: the entry of that name in the directory of the path.
  predicate Went(s: Store, t: Store, d: Sector, c: Sector) {
    && c in s.blocks && t.blocks.Keys == s.blocks.Keys - {c}
    && forall x :: x in t.blocks ==>
         t.blocks[x] == if x == d then s.blocks[x].(children := Without(s.blocks[x].children, c)) else s.blocks[x]
  }

  lemma RemoveChanges(st: State, path: string)
    requires Absolute(path) && SkipSlashes(path) != "" && Valid(st.store) && Step(st, Rmdir(path)).1 == Status(0)
    ensures var s, t := st.store, Step(st, Rmdir(path)).0.store;
            && ParentDir(s, path).Some? && Lookup(s, ParentDir(s, path).value, Basename(path)).Some?
            && Went(s, t, ParentDir(s, path).value, Lookup(s, ParentDir(s, path).value, Basename(path)).value)
            && Lookup(t, ParentDir(s, path).value, Basename(path)).None?
  {
    hide Step, ParentDir, SkipSlashes, Basename, RemoveEntry, Valid, Went, Lookup;
    RemoveForgets(st, path);
    RemoveGoes(st.store, ParentDir(st.store, path).value, Basename(path));
  }

  lemma RemoveGoes(s: Store, d: Sector, name: string)
    requires Valid(s) && RemoveEntry(s, d, name).1
    ensures Lookup(s, d, name).Some?
    ensures Went(s, RemoveEntry(s, d, name).0, d, Lookup(s, d, name).value)
    ensures Lookup(RemoveEntry(s, d, name).0, d, name).None?
  {
    var t := RemoveEntry(s, d, name).0;
    var c := Lookup(s, d, name).value;
    RemoveEffect(s, d, name);
    RemoveValid(s, d, name);
    OnceOnly(s, d, c);
    hide RemoveEntry, Valid, Lookup, SameName, Without;
    if Lookup(t, d, name).Some? {
      var y := Lookup(t, d, name).value;
      LookupIs(t, d, name, y);
      LookupIs(s, d, name, y);
    }
  }

  lemma OnceOnly(s: Store, d: Sector, c: Sector)
    requires Valid(s)
    ensures c !in Without(Children(s, d), c)
    ensures forall x :: x in Children(s, d) ==> x in s.blocks
  {
    WithoutDistinct(Children(s, d), c);
  }

  // ------------------------------------------------------------------
  // chmod
  // ------------------------------------------------------------------

  lemma ChmodAnswers(st: State, path: string, mode: Mode)
    requires Absolute(path)
    ensures var (t, answer) := Step(st, Chmod(path, mode));
            var d := DentryAt(st.store, path);
            var found := d.Some? && d.value.kind != Unsupported && d.value.sector in st.store.blocks;
            && answer == Status(if found then 0 else 22)
            && (answer != Status(0) ==> t.store == st.store)
  {
    hide Step, DentryAt, SetPerm;
    ChmodForgets(st, path, mode);
  }
}
