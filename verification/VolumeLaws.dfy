// What the volume operations keep: lookups are unambiguous on well-formed
// volumes, and every successful change leaves a well-formed volume.
module VolumeLaws {
  import opened PathStrings
  import opened Volume

  // A lookup finds an entry iff the entry is listed under that name.
  lemma LookupIs(s: Store, d: Sector, name: string, c: Sector)
    requires Valid(s)
    ensures Lookup(s, d, name) == Some(c) <==>
            c in Children(s, d) && SameName(s.intl, s.blocks[c].name, name)
  {
    var r := Lookup(s, d, name);
    if c in Children(s, d) && SameName(s.intl, s.blocks[c].name, name) {
      assert r.Some?;
      SameNameVia(s.intl, s.blocks[r.value].name, name, s.blocks[c].name);
    }
  }

  lemma SameNameVia(intl: bool, a: string, b: string, c: string)
    requires SameName(intl, a, b) && SameName(intl, c, b)
    ensures SameName(intl, a, c)
  {
  }

  // A small letter and its capital: of the ASCII alphabet, and on an
  // international volume also of the accented letters of Latin-1.
  predicate CasePair(intl: bool, small: char, capital: char) {
    && small as int - capital as int == 32
    && ('a' <= small <= 'z' || (intl && 224 <= small as int <= 254 && small as int != 247))
  }

  // Names are the same iff they are equally long and agree in each character up
  // to case.
  lemma SameNameIs(intl: bool, a: string, b: string)
    ensures SameName(intl, a, b) <==>
              && |a| == |b|
              && forall i :: 0 <= i < |a| ==>
                               a[i] == b[i] || CasePair(intl, a[i], b[i]) || CasePair(intl, b[i], a[i])
  {
    forall c, d
      ensures Upper(c, intl) == Upper(d, intl) <==> c == d || CasePair(intl, c, d) || CasePair(intl, d, c)
    {
      UpperIs(intl, c, d);
    }
    hide Upper, CasePair;
  }

  lemma UpperIs(intl: bool, c: char, d: char)
    ensures Upper(c, intl) == Upper(d, intl) <==> c == d || CasePair(intl, c, d) || CasePair(intl, d, c)
  {
  }

  // The exact search in the listing finds an entry iff its spelling matches.
  lemma FindExactIs(s: Store, d: Sector, name: string, c: Sector)
    requires Valid(s) && c in Children(s, d)
    ensures FindExact(GetDirEnt(s, d), name) == Some(EntryOf(s, c)) <==> s.blocks[c].name == name
  {
    var list := GetDirEnt(s, d);
    var i :| 0 <= i < |Children(s, d)| && Children(s, d)[i] == c;
    assert list[i] == EntryOf(s, c);
    var r := FindExact(list, name);
    if s.blocks[c].name == name {
      assert list[i] in list;
      var j :| 0 <= j < |list| && list[j] == r.value;
      var b := Children(s, d)[j];
      assert r.value == EntryOf(s, b);
      assert b in Children(s, d) && SameName(s.intl, s.blocks[b].name, s.blocks[c].name);
    }
  }

  lemma FindExactNone(s: Store, d: Sector, name: string)
    requires Valid(s)
    requires forall c :: c in Children(s, d) ==> s.blocks[c].name != name
    ensures FindExact(GetDirEnt(s, d), name).None?
  {
    var list := GetDirEnt(s, d);
    forall e | e in list
      ensures e.name != name
    {
      var j :| 0 <= j < |list| && list[j] == e;
      assert Children(s, d)[j] in Children(s, d);
    }
  }

  lemma {:induction false} WithoutDistinct(kids: seq<Sector>, c: Sector)
    requires Distinct(kids)
    ensures Distinct(Without(kids, c)) && c !in Without(kids, c)
  {
    if kids != [] {
      DistinctTail(kids);
      WithoutDistinct(kids[1..], c);
      DistinctCons(kids[0], Without(kids[1..], c));
    }
  }

  lemma DistinctTail(kids: seq<Sector>)
    requires Distinct(kids) && kids != []
    ensures Distinct(kids[1..]) && kids[0] !in kids[1..]
  {
  }

  lemma DistinctCons(x: Sector, kids: seq<Sector>)
    requires Distinct(kids) && x !in kids
    ensures Distinct([x] + kids) && Distinct(kids + [x])
  {
  }

  // ------------------------------------------------------------------
  // Well-formedness is kept
  // ------------------------------------------------------------------

  // Changes that leave children, names, kinds and links alone.
  lemma SameShapeValid(s: Store, t: Store)
    requires Valid(s)
    requires s.root == t.root && s.intl == t.intl && s.free == t.free && s.blocks.Keys == t.blocks.Keys
    requires forall c :: c in s.blocks ==>
               && t.blocks[c].children == s.blocks[c].children && t.blocks[c].name == s.blocks[c].name
               && t.blocks[c].kind == s.blocks[c].kind && t.blocks[c].linked == s.blocks[c].linked
    ensures Valid(t)
  {
    assert forall d :: Children(t, d) == Children(s, d);
  }

  lemma CreateEffect(s: Store, parent: Sector, name: string, kind: Kind)
    requires Valid(s) && CreateEntry(s, parent, name, kind).1
    ensures var c, t := s.free[0], CreateEntry(s, parent, name, kind).0;
            && s.free != [] && c !in s.blocks && parent in s.blocks
            && t.root == s.root && t.intl == s.intl && t.free == s.free[1..] && t.blocks.Keys == s.blocks.Keys + {c}
            && t.blocks[c] == Block(kind, name, {}, 0, "", [], [])
            && (forall x :: x in s.blocks ==>
                  t.blocks[x] == s.blocks[x].(children := if x == parent then s.blocks[x].children + [c]
                                                          else s.blocks[x].children))
            && (forall d :: Children(t, d) == if d == parent then Children(s, d) + [c] else Children(s, d))
            && (forall a :: a in Children(s, parent) ==> !SameName(s.intl, s.blocks[a].name, name))
  {
    var c := s.free[0];
    assert c in s.free;
  }

  lemma CreateValid(s: Store, parent: Sector, name: string, kind: Kind)
    requires Valid(s) && ValidName(name) && kind != Root
    ensures Valid(CreateEntry(s, parent, name, kind).0)
  {
    var (t, done) := CreateEntry(s, parent, name, kind);
    if done {
      CreateEffect(s, parent, name, kind);
      CreateKeeps(s, t, parent, s.free[0], name, kind);
    }
  }

  lemma CreateKeeps(s: Store, t: Store, parent: Sector, c: Sector, name: string, kind: Kind)
    requires Valid(s) && ValidName(name) && kind != Root
    requires s.free != [] && c == s.free[0] && c !in s.blocks && parent in s.blocks
    requires t.root == s.root && t.intl == s.intl && t.free == s.free[1..] && t.blocks.Keys == s.blocks.Keys + {c}
    requires t.blocks[c] == Block(kind, name, {}, 0, "", [], [])
    requires forall x :: x in s.blocks ==>
               t.blocks[x] == s.blocks[x].(children := if x == parent then s.blocks[x].children + [c]
                                                       else s.blocks[x].children)
    requires forall d :: Children(t, d) == if d == parent then Children(s, d) + [c] else Children(s, d)
    requires forall a :: a in Children(s, parent) ==> !SameName(s.intl, s.blocks[a].name, name)
    ensures Valid(t)
  {
    assert forall d :: c !in Children(s, d);
    CreateKeepsPlaces(s, t, parent, c);
    SameNameSym(s.intl);
    DistinctTail(s.free);
    hide SameName, Distinct, OnePlace, Children;
    CreateKeepsNames(s, t, parent, c, name);
    hide NamesUnique;
    assert FreeUnused(t);
    assert EntriesUsable(t);
    assert LinksOnly(t);
  }

  lemma CreateKeepsNames(s: Store, t: Store, parent: Sector, c: Sector, name: string)
    requires NamesUnique(s) && t.intl == s.intl && t.blocks.Keys == s.blocks.Keys + {c} && c !in s.blocks
    requires t.blocks[c].name == name && forall x :: x in s.blocks ==> t.blocks[x].name == s.blocks[x].name
    requires forall d, x :: x in Children(t, d) <==> x in Children(s, d) || (x == c && d == parent)
    requires forall d :: c !in Children(s, d)
    requires forall a :: a in Children(s, parent) && a in s.blocks ==> !SameName(s.intl, s.blocks[a].name, name)
    ensures NamesUnique(t)
  {
    SameNameSym(s.intl);
    hide SameName, Children;
  }

  lemma CreateKeepsPlaces(s: Store, t: Store, parent: Sector, c: Sector)
    requires OnePlace(s) && forall d :: c !in Children(s, d)
    requires forall d :: Children(t, d) == if d == parent then Children(s, d) + [c] else Children(s, d)
    ensures OnePlace(t)
    ensures forall d, x :: x in Children(t, d) <==> x in Children(s, d) || (x == c && d == parent)
  {
    hide Distinct;
    forall d
      ensures Distinct(Children(t, d))
    {
      assert Distinct(Children(s, d));
      DistinctCons(c, Children(s, d));
    }
    assert forall d, x :: x in Children(t, d) <==> x in Children(s, d) || (x == c && d == parent);
    hide Children;
  }

  lemma SameNameSym(intl: bool)
    ensures forall a, b :: SameName(intl, a, b) == SameName(intl, b, a)
  {
  }

  lemma RemoveEffect(s: Store, parent: Sector, name: string)
    requires Valid(s) && RemoveEntry(s, parent, name).1
    ensures Lookup(s, parent, name).Some?
    ensures var c, t := Lookup(s, parent, name).value, RemoveEntry(s, parent, name).0;
            && c in Children(s, parent) && c in s.blocks && c != s.root
            && t.root == s.root && t.intl == s.intl && t.free == [c] + s.free && t.blocks.Keys == s.blocks.Keys - {c}
            && (forall x :: x in t.blocks ==>
                  t.blocks[x] == s.blocks[x].(children := if x == parent then Without(s.blocks[x].children, c)
                                                          else s.blocks[x].children))
            && (forall d :: Children(t, d) ==
                  (if d == c then [] else if d == parent then Without(Children(s, d), c) else Children(s, d)))
  {
    var c := Lookup(s, parent, name).value;
    assert c in Children(s, parent);
  }

  lemma RemoveValid(s: Store, parent: Sector, name: string)
    requires Valid(s)
    ensures Valid(RemoveEntry(s, parent, name).0)
  {
    var (t, done) := RemoveEntry(s, parent, name);
    if done {
      RemoveEffect(s, parent, name);
      RemoveKeeps(s, t, parent, Lookup(s, parent, name).value);
    }
  }

  lemma RemoveKeeps(s: Store, t: Store, parent: Sector, c: Sector)
    requires Valid(s) && c in Children(s, parent) && c in s.blocks && c != s.root
    requires t.root == s.root && t.intl == s.intl && t.free == [c] + s.free && t.blocks.Keys == s.blocks.Keys - {c}
    requires forall x :: x in t.blocks ==>
               t.blocks[x] == s.blocks[x].(children := if x == parent then Without(s.blocks[x].children, c)
                                                       else s.blocks[x].children)
    requires forall d :: Children(t, d) ==
               (if d == c then [] else if d == parent then Without(Children(s, d), c) else Children(s, d))
    ensures Valid(t)
  {
    assert c !in s.free;
    DistinctCons(c, s.free);
    RemoveKeepsPlaces(s, t, parent, c);
    FewerEntries(s, t);
    hide SameName, Distinct, OnePlace, Children, NamesUnique, EntriesUsable, LinksOnly;
    assert FreeUnused(t);
  }

  // Volumes with fewer entries of the same names.
  lemma FewerEntries(s: Store, t: Store)
    requires EntriesUsable(s) && LinksOnly(s) && NamesUnique(s) && t.root == s.root && t.intl == s.intl
    requires forall x :: x in t.blocks ==>
               && x in s.blocks && t.blocks[x].name == s.blocks[x].name
               && t.blocks[x].kind == s.blocks[x].kind && t.blocks[x].linked == s.blocks[x].linked
    requires forall d, x :: x in Children(t, d) ==> x in Children(s, d) && (x in s.blocks ==> x in t.blocks)
    ensures EntriesUsable(t) && LinksOnly(t) && NamesUnique(t)
  {
    hide Children, SameName;
  }

  lemma RemoveKeepsPlaces(s: Store, t: Store, parent: Sector, c: Sector)
    requires OnePlace(s) && c in Children(s, parent)
    requires forall d :: Children(t, d) ==
               (if d == c then [] else if d == parent then Without(Children(s, d), c) else Children(s, d))
    ensures OnePlace(t)
    ensures forall d, x :: x in Children(t, d) ==> x in Children(s, d) && x != c
  {
    hide Distinct;
    EmptyDistinct();
    forall d
      ensures Distinct(Children(t, d)) && forall x :: x in Children(t, d) ==> x in Children(s, d) && x != c
    {
      assert Distinct(Children(s, d));
      WithoutDistinct(Children(s, d), c);
      if d != parent {
        assert c !in Children(s, d);
      }
    }
    hide Children;
  }

  lemma EmptyDistinct()
    ensures Distinct([])
  {
  }

  // The directory of a block after a rename of c from p to q.
  function MovedChildren(s: Store, p: Sector, q: Sector, c: Sector, d: Sector): seq<Sector> {
    var left := if d == p then Without(Children(s, d), c) else Children(s, d);
    if d == q then left + [c] else left
  }

  // The whole effect of a successful rename that is not the identity.
  lemma RenameEffect(s: Store, p: Sector, name: string, q: Sector, newName: string)
    requires Valid(s) && RenameEntry(s, p, name, q, newName).1 && !(p == q && name == newName)
    ensures Lookup(s, p, name).Some?
    ensures var c, t := Lookup(s, p, name).value, RenameEntry(s, p, name, q, newName).0;
            && t.root == s.root && t.intl == s.intl && t.free == s.free && t.blocks.Keys == s.blocks.Keys
            && p in s.blocks && q in s.blocks && c in Children(s, p)
            && (forall x :: x in s.blocks ==>
                  t.blocks[x] == s.blocks[x].(name := if x == c then newName else s.blocks[x].name,
                                              children := MovedChildren(s, p, q, c, x)))
            && (forall d :: Children(t, d) == MovedChildren(s, p, q, c, d))
            && (forall a :: a in Children(s, q) && a != c ==> !SameName(s.intl, s.blocks[a].name, newName))
  {
    hide SameName, Valid, Without, FindFolded;
    var c := Lookup(s, p, name).value;
    FoundChild(s, p, name);
    DetachedName(s, p, c, q, newName);
    hide Lookup;
  }

  lemma FoundChild(s: Store, p: Sector, name: string)
    requires Lookup(s, p, name).Some?
    ensures p in s.blocks && Lookup(s, p, name).value in Children(s, p) && Lookup(s, p, name).value in s.blocks
  {
  }

  // The new name is free once the entry has lost its old place.
  lemma DetachedName(s: Store, p: Sector, c: Sector, q: Sector, newName: string)
    requires Valid(s) && p in s.blocks && Lookup(Detach(s, p, c), q, newName).None?
    ensures forall a :: a in Children(s, q) && a != c ==> !SameName(s.intl, s.blocks[a].name, newName)
  {
    var u := Detach(s, p, c);
    hide SameName;
    assert Children(u, q) == if p == q then Without(Children(s, q), c) else Children(s, q);
    assert forall a :: a in s.blocks ==> u.blocks[a].name == s.blocks[a].name;
  }

  // A rename succeeds iff there is nothing to change, or the old name is found,
  // the new directory exists, and no entry of it but the moved one has the new
  // name up to case.
  lemma RenameSucceedsExactly(s: Store, p: Sector, name: string, q: Sector, newName: string)
    requires Valid(s)
    ensures RenameEntry(s, p, name, q, newName).1 <==>
              || (p == q && name == newName)
              || (&& Lookup(s, p, name).Some? && q in s.blocks
                  && forall a :: a in Children(s, q) && a != Lookup(s, p, name).value ==>
                                   !SameName(s.intl, s.blocks[a].name, newName))
  {
    hide Valid, SameName, FindFolded, Without;
    if !(p == q && name == newName) && Lookup(s, p, name).Some? {
      var c := Lookup(s, p, name).value;
      FoundChild(s, p, name);
      if q in s.blocks {
        DetachedExactly(s, p, c, q, newName);
      }
    }
  }

  lemma DetachedExactly(s: Store, p: Sector, c: Sector, q: Sector, newName: string)
    requires Valid(s) && p in s.blocks && c in Children(s, p) && q in s.blocks
    ensures Lookup(Detach(s, p, c), q, newName).None? <==>
              forall a :: a in Children(s, q) && a != c ==> !SameName(s.intl, s.blocks[a].name, newName)
  {
    var u := Detach(s, p, c);
    WithoutDistinct(Children(s, p), c);
    ElsewhereOnly(s, p, c);
    hide Valid, SameName, Distinct;
    assert Children(u, q) == if p == q then Without(Children(s, q), c) else Children(s, q);
    assert forall a :: a in s.blocks ==> u.blocks[a].name == s.blocks[a].name;
    if Lookup(u, q, newName).None? {
      DetachedName(s, p, c, q, newName);
    } else {
      var y := Lookup(u, q, newName).value;
      assert y in Children(s, q) && y != c;
    }
  }

  lemma ElsewhereOnly(s: Store, p: Sector, c: Sector)
    requires Valid(s) && c in Children(s, p)
    ensures Distinct(Children(s, p)) && forall d :: d != p ==> c !in Children(s, d)
  {
  }

  lemma RenameValid(s: Store, p: Sector, name: string, q: Sector, newName: string)
    requires Valid(s) && ValidName(newName)
    ensures Valid(RenameEntry(s, p, name, q, newName).0)
  {
    var (t, done) := RenameEntry(s, p, name, q, newName);
    if done && !(p == q && name == newName) {
      var c := Lookup(s, p, name).value;
      RenameEffect(s, p, name, q, newName);
      RenameKeeps(s, t, p, q, c, newName);
    }
  }

  lemma RenameKeeps(s: Store, t: Store, p: Sector, q: Sector, c: Sector, newName: string)
    requires Valid(s) && ValidName(newName)
    requires t.root == s.root && t.intl == s.intl && t.free == s.free && t.blocks.Keys == s.blocks.Keys
    requires p in s.blocks && q in s.blocks && c in Children(s, p)
    requires forall x :: x in s.blocks ==>
               t.blocks[x] == s.blocks[x].(name := if x == c then newName else s.blocks[x].name,
                                           children := MovedChildren(s, p, q, c, x))
    requires forall d :: Children(t, d) == MovedChildren(s, p, q, c, d)
    requires forall a :: a in Children(s, q) && a != c ==> !SameName(s.intl, s.blocks[a].name, newName)
    ensures Valid(t)
  {
    WithoutDistinct(Children(s, p), c);
    MovedMembers(s, p, q, c);
    SameNameSym(s.intl);
    hide SameName, MovedChildren;
    assert EntriesUsable(t);
    assert LinksOnly(t);
    assert NamesUnique(t);
    assert FreeUnused(t);
    assert OnePlace(t);
  }

  // After the move c is listed in q and nowhere else, the rest as before.
  lemma MovedMembers(s: Store, p: Sector, q: Sector, c: Sector)
    requires Valid(s) && c in Children(s, p)
    ensures forall d, x :: x in MovedChildren(s, p, q, c, d) <==> if x == c then d == q else x in Children(s, d)
    ensures forall d :: Distinct(MovedChildren(s, p, q, c, d))
  {
    WithoutDistinct(Children(s, p), c);
    forall d, x
      ensures x in MovedChildren(s, p, q, c, d) <==> if x == c then d == q else x in Children(s, d)
    {
      if x == c && d != p {
        assert c !in Children(s, d);
      }
    }
    forall d
      ensures Distinct(MovedChildren(s, p, q, c, d))
    {
      var left := if d == p then Without(Children(s, d), c) else Children(s, d);
      assert Distinct(Children(s, d)) && Distinct(left);
      assert c !in left;
    }
  }
}
