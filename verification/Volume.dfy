// A small concrete volume: what the code uses of ADFlib. Blocks are addressed
// by sector; a directory block lists the sectors of its entries in the order
// adfGetDirEnt returns them; a sector outside the map cannot be read.
module Volume {
  import opened PathStrings

  type Sector = nat

  datatype Kind = Root | Dir | File | LinkFile | LinkDir | SoftLink | Unsupported

  // An access word, as the set of its one bits; & is intersection, | is union.
  newtype Bit = b: int | 0 <= b < 32
  type Word = set<Bit>

  // The bits of ADF_ACCMASK_R, _W and _E.
  datatype Masks = Masks(r: Bit, w: Bit, e: Bit)

  // linked is the linked-to sector of a hard link, target the text of a soft link.
  datatype Block = Block(kind: Kind, name: string, access: Word, linked: Sector,
                         target: string, children: seq<Sector>, data: seq<bv8>)

  datatype Store = Store(root: Sector, intl: bool, masks: Masks,
                         blocks: map<Sector, Block>, free: seq<Sector>)

  // A directory entry as returned by adfGetDirEnt.
  datatype Entry = Entry(name: string, kind: Kind, sector: Sector, linked: Sector, access: Word)

  // ------------------------------------------------------------------
  // Names: looked up without regard to case (international or ASCII only)
  // ------------------------------------------------------------------

  function Upper(c: char, intl: bool): char {
    if 'a' <= c <= 'z' then (c as int - 32) as char
    else if intl && 224 <= c as int <= 254 && c as int != 247 then (c as int - 32) as char
    else c
  }

  predicate SameName(intl: bool, a: string, b: string) {
    |a| == |b| && forall i :: 0 <= i < |a| ==> Upper(a[i], intl) == Upper(b[i], intl)
  }

  predicate ValidName(n: string) {
    n != "" && '/' !in n && n != "."
  }

  // ------------------------------------------------------------------
  // Reading
  // ------------------------------------------------------------------

  function FindFolded(s: Store, kids: seq<Sector>, name: string): (r: Option<Sector>)
    ensures r.Some? ==> r.value in kids && r.value in s.blocks
    ensures r.Some? ==> SameName(s.intl, s.blocks[r.value].name, name)
    ensures r.None? ==> forall c :: c in kids && c in s.blocks ==> !SameName(s.intl, s.blocks[c].name, name)
  {
    if kids == [] then None
    else if kids[0] in s.blocks && SameName(s.intl, s.blocks[kids[0]].name, name) then Some(kids[0])
    else FindFolded(s, kids[1..], name)
  }

  function Children(s: Store, d: Sector): seq<Sector> {
    if d in s.blocks then s.blocks[d].children else []
  }

  // adfNameToEntryBlk on the hash table of d.
  function Lookup(s: Store, d: Sector, name: string): Option<Sector> {
    FindFolded(s, Children(s, d), name)
  }

  // A hard link stands for the block it is linked to.
  function Follow(s: Store, c: Sector): Sector {
    if c in s.blocks && s.blocks[c].linked != 0 then s.blocks[c].linked else c
  }

  predicate IsKind(s: Store, c: Sector, kind: Kind) {
    c in s.blocks && s.blocks[c].kind == kind
  }

  // adfChangeDir: the directory entered, if the name denotes one.
  function ChangeDir(s: Store, d: Sector, name: string): Option<Sector> {
    match Lookup(s, d, name)
    case None => None
    case Some(c) => if IsKind(s, Follow(s, c), Dir) then Some(Follow(s, c)) else None
  }

  function EntryOf(s: Store, c: Sector): Entry
    requires c in s.blocks
  {
    var b := s.blocks[c];
    Entry(b.name, b.kind, c, if b.kind.LinkFile? || b.kind.LinkDir? then b.linked else 0, b.access)
  }

  predicate Listable(s: Store, d: Sector) {
    d in s.blocks && forall c :: c in s.blocks[d].children ==> c in s.blocks
  }

  // adfGetDirEnt; the empty sequence is its NULL: an empty directory, or one
  // of which some block cannot be read.
  function GetDirEnt(s: Store, d: Sector): (list: seq<Entry>) {
    if Listable(s, d) then
      seq(|s.blocks[d].children|, i requires 0 <= i < |s.blocks[d].children| => EntryOf(s, s.blocks[d].children[i]))
    else []
  }

  // adflib_list_find: the first entry of exactly this name.
  function FindExact(list: seq<Entry>, name: string): (r: Option<Entry>)
    ensures r.Some? ==> r.value in list && r.value.name == name
    ensures r.None? ==> forall e :: e in list ==> e.name != name
  {
    if list == [] then None
    else if list[0].name == name then Some(list[0])
    else FindExact(list[1..], name)
  }

  // adfFileOpen in the current directory d, on an existing entry.
  function FileAt(s: Store, d: Sector, name: string): (r: Option<Sector>)
    ensures r.Some? ==> r.value in s.blocks
  {
    match Lookup(s, d, name)
    case None => None
    case Some(c) => if IsKind(s, Follow(s, c), File) then Some(Follow(s, c)) else None
  }

  // ------------------------------------------------------------------
  // Writing; the flag is ADF_RC_OK, and a failing call changes nothing
  // ------------------------------------------------------------------

  function PutBlock(s: Store, c: Sector, b: Block): Store {
    s.(blocks := s.blocks[c := b])
  }

  function Without(kids: seq<Sector>, c: Sector): (r: seq<Sector>)
    ensures forall x :: x in r ==> x in kids
    ensures forall x :: x in kids && x != c ==> x in r
  {
    if kids == [] then []
    else if kids[0] == c then kids[1..]
    else [kids[0]] + Without(kids[1..], c)
  }

  // adfCreateDir / adfCreateFile
  function CreateEntry(s: Store, parent: Sector, name: string, kind: Kind): (Store, bool) {
    if parent !in s.blocks || Lookup(s, parent, name).Some? || s.free == [] then (s, false)
    else
      var c := s.free[0];
      var p := s.blocks[parent];
      (s.(blocks := s.blocks[c := Block(kind, name, {}, 0, "", [], [])]
                            [parent := p.(children := p.children + [c])],
          free := s.free[1..]), true)
  }

  // adfRemoveEntry: a directory must be empty.
  function RemoveEntry(s: Store, parent: Sector, name: string): (Store, bool) {
    match Lookup(s, parent, name)
    case None => (s, false)
    case Some(c) =>
      if s.blocks[c].kind == Dir && s.blocks[c].children != [] then (s, false)
      else
        var p := s.blocks[parent];
        (s.(blocks := s.blocks[parent := p.(children := Without(p.children, c))] - {c},
            free := [c] + s.free), true)
  }

  // The block of c loses its place under p.
  function Detach(s: Store, p: Sector, c: Sector): Store
    requires p in s.blocks
  {
    PutBlock(s, p, s.blocks[p].(children := Without(s.blocks[p].children, c)))
  }

  // adfRenameEntry
  function RenameEntry(s: Store, p: Sector, name: string, q: Sector, newName: string): (Store, bool) {
    if p == q && name == newName then (s, true)
    else
      match Lookup(s, p, name)
      case None => (s, false)
      case Some(c) =>
        var t := Detach(s, p, c);
        if q !in t.blocks || c !in t.blocks || Lookup(t, q, newName).Some? then (s, false)
        else
          var u := PutBlock(t, c, t.blocks[c].(name := newName));
          (PutBlock(u, q, u.blocks[q].(children := u.blocks[q].children + [c])), true)
  }

  // adfReadEntryBlock, a change of the access word, adfWriteEntryBlock.
  function SetAccess(s: Store, c: Sector, access: Word): Store
    requires c in s.blocks
  {
    PutBlock(s, c, s.blocks[c].(access := access))
  }

  function SetData(s: Store, c: Sector, data: seq<bv8>): Store
    requires c in s.blocks
  {
    PutBlock(s, c, s.blocks[c].(data := data))
  }

  // ------------------------------------------------------------------
  // Well-formed volumes
  // ------------------------------------------------------------------

  predicate Distinct(kids: seq<Sector>) {
    forall i, j :: 0 <= i < j < |kids| ==> kids[i] != kids[j]
  }

  // Entries can be read, are not the root, and have names usable in paths.
  ghost predicate EntriesUsable(s: Store) {
    forall d, c {:trigger c in Children(s, d)} :: c in Children(s, d) ==>
      c in s.blocks && ValidName(s.blocks[c].name) && c != s.root && s.blocks[c].kind != Root
  }

  // Only hard links are linked to something.
  ghost predicate LinksOnly(s: Store) {
    forall c :: c in s.blocks && s.blocks[c].linked != 0 ==>
      s.blocks[c].kind == LinkFile || s.blocks[c].kind == LinkDir
  }

  // No two entries of a directory have the same name up to case.
  ghost predicate NamesUnique(s: Store) {
    forall d, a, b {:trigger a in Children(s, d), b in Children(s, d)} ::
      a in Children(s, d) && b in Children(s, d) && a != b && a in s.blocks && b in s.blocks ==>
      !SameName(s.intl, s.blocks[a].name, s.blocks[b].name)
  }

  // Every block has at most one place in the tree.
  ghost predicate OnePlace(s: Store) {
    && (forall d {:trigger Children(s, d)} :: Distinct(Children(s, d)))
    && (forall d, e, c {:trigger c in Children(s, d), c in Children(s, e)} ::
          c in Children(s, d) && c in Children(s, e) ==> d == e)
  }

  ghost predicate FreeUnused(s: Store) {
    Distinct(s.free) && forall c :: c in s.free ==> c !in s.blocks
  }

  ghost predicate Valid(s: Store) {
    IsKind(s, s.root, Root) && EntriesUsable(s) && LinksOnly(s) && OnePlace(s) && FreeUnused(s) && NamesUnique(s)
  }
}
