// What every path of the volume denotes after a successful rename.
module RenameEffects {
  import opened PathStrings
  import opened Volume
  import opened VolumeLaws
  import opened Walking
  import opened FuseState
  import opened Reference
  import opened Canonical

  // A rename that took effect: the entry c moved from directory p to directory
  // q under the name m, and nothing else happened.
  ghost predicate Took(s: Store, t: Store, p: Sector, q: Sector, c: Sector, m: string) {
    && Valid(s) && Valid(t)
    && t.root == s.root && t.intl == s.intl && t.masks == s.masks && t.blocks.Keys == s.blocks.Keys
    && c in Children(s, p)
    && (forall x :: x in s.blocks ==>
          && t.blocks[x].kind == s.blocks[x].kind && t.blocks[x].linked == s.blocks[x].linked
          && t.blocks[x].access == s.blocks[x].access
          && t.blocks[x].name == (if x == c then m else s.blocks[x].name))
    && (forall d, x :: x in Children(t, d) <==> if x == c then d == q else x in Children(s, d))
  }

  lemma RenameTook(s: Store, p: Sector, n: string, q: Sector, m: string)
    requires Valid(s) && ValidName(m) && RenameEntry(s, p, n, q, m).1 && !(p == q && n == m)
    ensures Lookup(s, p, n).Some?
    ensures Took(s, RenameEntry(s, p, n, q, m).0, p, q, Lookup(s, p, n).value, m)
  {
    hide MovedChildren, Valid, Lookup, RenameEntry, SameName, ValidName, Distinct;
    RenameEffect(s, p, n, q, m);
    RenameValid(s, p, n, q, m);
    MovedMembers(s, p, q, Lookup(s, p, n).value);
    MasksKept(s, p, n, q, m);
  }

  lemma MasksKept(s: Store, p: Sector, n: string, q: Sector, m: string)
    ensures RenameEntry(s, p, n, q, m).0.masks == s.masks
  {
  }

  // ------------------------------------------------------------------
  // One step of a walk, before and after
  // ------------------------------------------------------------------

  // Names that led to other entries still do.
  lemma OtherLookupKept(s: Store, t: Store, p: Sector, q: Sector, c: Sector, m: string, d: Sector, x: string)
    requires Took(s, t, p, q, c, m) && Lookup(s, d, x).Some? && Lookup(s, d, x) != Some(c)
    ensures ChangeDir(t, d, x) == ChangeDir(s, d, x)
  {
    hide Valid, SameName, Lookup;
    var y := Lookup(s, d, x).value;
    LookupIs(s, d, x, y);
    LookupIs(t, d, x, y);
    ChildReadable(s, d, y);
    SameStep(s, t, p, q, c, m, y);
  }

  lemma ChildReadable(s: Store, d: Sector, y: Sector)
    requires Valid(s) && y in Children(s, d)
    ensures y in s.blocks
  {
  }

  lemma SameStep(s: Store, t: Store, p: Sector, q: Sector, c: Sector, m: string, y: Sector)
    requires Took(s, t, p, q, c, m) && y in s.blocks
    ensures Follow(t, y) == Follow(s, y) && (IsKind(t, Follow(t, y), Dir) <==> IsKind(s, Follow(s, y), Dir))
  {
    hide Valid;
  }

  // The name of the moved entry leads nowhere in its old directory, unless
  // the rename only changed its spelling.
  lemma MovedLookup(s: Store, t: Store, p: Sector, q: Sector, c: Sector, m: string, x: string)
    requires Took(s, t, p, q, c, m) && Lookup(s, p, x) == Some(c)
    ensures if p == q && SameName(s.intl, m, x) then ChangeDir(t, p, x) == ChangeDir(s, p, x)
            else ChangeDir(t, p, x) == None
  {
    hide Valid, Lookup;
    LookupIs(s, p, x, c);
    LookupIs(t, p, x, c);
    ChildReadable(s, p, c);
    SameStep(s, t, p, q, c, m, c);
    if !(p == q && SameName(s.intl, m, x)) && Lookup(t, p, x).Some? {
      var y := Lookup(t, p, x).value;
      LookupIs(t, p, x, y);
      LookupIs(s, p, x, y);
    }
  }

  // ------------------------------------------------------------------
  // Walks
  // ------------------------------------------------------------------

  // The walk along cs passes through the entry c of the directory p.
  predicate Uses(s: Store, d: Sector, cs: seq<string>, p: Sector, c: Sector)
    decreases |cs|
  {
    cs != [] &&
    ((d == p && Lookup(s, d, cs[0]) == Some(c)) ||
     match ChangeDir(s, d, cs[0])
     case None => false
     case Some(t) => Uses(s, t, cs[1..], p, c))
  }

  lemma OnlyInP(s: Store, p: Sector, c: Sector, d: Sector, x: string)
    requires Valid(s) && c in Children(s, p) && Lookup(s, d, x) == Some(c)
    ensures d == p
  {
    LookupIs(s, d, x, c);
  }

  // Every path that resolved without passing through the moved entry resolves
  // as before.
  lemma {:induction false} WalkKept(s: Store, t: Store, p: Sector, q: Sector, c: Sector, m: string, d: Sector,
                                    cs: seq<string>)
    requires Took(s, t, p, q, c, m) && Walk(s, d, cs).Some? && !Uses(s, d, cs, p, c)
    ensures Walk(t, d, cs) == Walk(s, d, cs)
    decreases |cs|
  {
    hide Took, Lookup;
    if cs != [] {
      if Lookup(s, d, cs[0]) == Some(c) {
        assert Valid(s) && c in Children(s, p) by { TookFacts(s, t, p, q, c, m); }
        OnlyInP(s, p, c, d, cs[0]);
        assert false;
      }
      OtherLookupKept(s, t, p, q, c, m, d, cs[0]);
      WalkKept(s, t, p, q, c, m, ChangeDir(s, d, cs[0]).value, cs[1..]);
    }
  }

  lemma TookFacts(s: Store, t: Store, p: Sector, q: Sector, c: Sector, m: string)
    requires Took(s, t, p, q, c, m)
    ensures Valid(s) && Valid(t) && c in Children(s, p) && c in s.blocks && c in t.blocks && c in Children(t, q)
    ensures t.root == s.root && t.intl == s.intl
  {
  }

  // A path that passed through it resolves to nothing, unless only the
  // spelling changed, in which case it resolves as before.
  lemma {:induction false} WalkThrough(s: Store, t: Store, p: Sector, q: Sector, c: Sector, m: string, d: Sector,
                                       cs: seq<string>)
    requires Took(s, t, p, q, c, m) && Walk(s, d, cs).Some? && Uses(s, d, cs, p, c)
    ensures Walk(t, d, cs) ==
            if p == q && SameName(s.intl, m, s.blocks[c].name) then Walk(s, d, cs) else None
    decreases |cs|
  {
    TookFacts(s, t, p, q, c, m);
    hide Took, Lookup, Valid, SameName;
    if Lookup(s, d, cs[0]) == Some(c) {
      OnlyInP(s, p, c, d, cs[0]);
      MovedLookup(s, t, p, q, c, m, cs[0]);
      Respelled(s, p, c, m, cs[0]);
    } else {
      OtherLookupKept(s, t, p, q, c, m, d, cs[0]);
    }
    if ChangeDir(t, d, cs[0]).Some? {
      var e := ChangeDir(s, d, cs[0]).value;
      if Uses(s, e, cs[1..], p, c) {
        WalkThrough(s, t, p, q, c, m, e, cs[1..]);
      } else {
        WalkKept(s, t, p, q, c, m, e, cs[1..]);
      }
    }
  }

  lemma Respelled(s: Store, p: Sector, c: Sector, m: string, x: string)
    requires Valid(s) && Lookup(s, p, x) == Some(c)
    ensures SameName(s.intl, m, x) <==> SameName(s.intl, m, s.blocks[c].name)
  {
    LookupIs(s, p, x, c);
  }

  // ------------------------------------------------------------------
  // Entries
  // ------------------------------------------------------------------

  lemma FindMoved(s: Store, t: Store, p: Sector, q: Sector, c: Sector, m: string)
    requires Took(s, t, p, q, c, m)
    ensures c in s.blocks
    ensures FindExact(GetDirEnt(t, q), m) == Some(EntryOf(s, c).(name := m))
  {
    TookFacts(s, t, p, q, c, m);
    assert t.blocks[c].name == m;
    hide Valid;
    FindExactIs(t, q, m, c);
    assert EntryOf(t, c) == EntryOf(s, c).(name := m);
  }

  lemma OldNameGone(s: Store, t: Store, p: Sector, q: Sector, c: Sector, m: string, n: string)
    requires Took(s, t, p, q, c, m) && Lookup(s, p, n) == Some(c) && !(p == q && n == m)
    ensures FindExact(GetDirEnt(t, p), n).None?
  {
    TookFacts(s, t, p, q, c, m);
    hide Valid, Lookup;
    forall y | y in Children(t, p)
      ensures t.blocks[y].name != n
    {
      if y != c {
        LookupIs(s, p, n, y);
        SameNameRefl(s.intl, n);
      }
    }
    FindExactNone(t, p, n);
  }

  lemma OtherEntryKept(s: Store, t: Store, p: Sector, q: Sector, c: Sector, m: string, d: Sector, n: string)
    requires Took(s, t, p, q, c, m)
    requires FindExact(GetDirEnt(s, d), n).Some? && FindExact(GetDirEnt(s, d), n).value.sector != c
    ensures FindExact(GetDirEnt(t, d), n) == FindExact(GetDirEnt(s, d), n)
  {
    TookFacts(s, t, p, q, c, m);
    hide Valid;
    FoundIsChild(s, d, n);
    var y := FindExact(GetDirEnt(s, d), n).value.sector;
    assert y in Children(t, d);
    FindExactIs(t, d, n, y);
    assert EntryOf(t, y) == EntryOf(s, y);
  }

  // ------------------------------------------------------------------
  // Paths
  // ------------------------------------------------------------------

  // The path denotes the entry e: its dirname resolves and e is found there.
  predicate Denotes(s: Store, path: string, e: Entry) {
    ParentDir(s, path).Some? && FindExact(GetDirEnt(s, ParentDir(s, path).value), Basename(path)) == Some(e)
  }

  lemma DenotesPrinted(s: Store, cs: seq<string>, n: string, e: Entry)
    requires PlainNames(cs) && PlainName(n)
    ensures Denotes(s, Print(cs + [n]), e) <==>
              Walk(s, s.root, cs).Some? && FindExact(GetDirEnt(s, Walk(s, s.root, cs).value), n) == Some(e)
  {
    hide Print, Dirname, Basename, Walk, FindExact, GetDirEnt, SkipSlashes, PlainNames, PlainName;
    PrintedParent(cs, n);
    PlainPrintable(cs);
  }

  // The entry that the old path named, under its new name.
  function MovedEntry(s: Store, p: Sector, n: string, m: string): Option<Entry> {
    match Lookup(s, p, n)
    case None => None
    case Some(c) => Some(EntryOf(s, c).(name := m))
  }

  // The rename changed no more than upper and lower case of the name.
  predicate RespellsOnly(s: Store, p: Sector, n: string, q: Sector, m: string) {
    p == q && SameName(s.intl, m, n)
  }

  lemma RespellsEntry(s: Store, p: Sector, n: string, c: Sector, m: string)
    requires Valid(s) && Lookup(s, p, n) == Some(c)
    ensures SameName(s.intl, m, s.blocks[c].name) <==> SameName(s.intl, m, n)
  {
    Respelled(s, p, c, m, n);
  }

  lemma NewPath(s: Store, t: Store, ds: seq<string>, n: string, m: string, p: Sector, q: Sector, c: Sector)
    requires Took(s, t, p, q, c, m) && Lookup(s, p, n) == Some(c)
    requires PlainNames(ds) && PlainName(m) && Walk(s, s.root, ds) == Some(q)
    ensures c in s.blocks
    ensures Denotes(t, Print(ds + [m]), EntryOf(s, c).(name := m)) <==>
              !Uses(s, s.root, ds, p, c) || RespellsOnly(s, p, n, q, m)
  {
    TookFacts(s, t, p, q, c, m);
    FindMoved(s, t, p, q, c, m);
    RespellsEntry(s, p, n, c, m);
    hide Valid, Walk, Print, Took, Uses, Denotes, PlainName, PlainNames, FindExact, GetDirEnt, SameName, Lookup;
    DenotesPrinted(t, ds, m, EntryOf(s, c).(name := m));
    if Uses(s, s.root, ds, p, c) {
      WalkThrough(s, t, p, q, c, m, s.root, ds);
    } else {
      WalkKept(s, t, p, q, c, m, s.root, ds);
    }
  }

  lemma OldPath(s: Store, t: Store, cs: seq<string>, n: string, m: string, p: Sector, q: Sector, c: Sector)
    requires Took(s, t, p, q, c, m) && Lookup(s, p, n) == Some(c) && !(p == q && n == m)
    requires PlainNames(cs) && PlainName(n) && Walk(s, s.root, cs) == Some(p)
    ensures forall e :: !Denotes(t, Print(cs + [n]), e)
  {
    TookFacts(s, t, p, q, c, m);
    OldNameGone(s, t, p, q, c, m, n);
    hide Valid, Walk, Print, Took, Uses, Denotes, PlainName, PlainNames, FindExact, GetDirEnt, SameName, Lookup;
    if Uses(s, s.root, cs, p, c) {
      WalkThrough(s, t, p, q, c, m, s.root, cs);
    } else {
      WalkKept(s, t, p, q, c, m, s.root, cs);
    }
    forall e
      ensures !Denotes(t, Print(cs + [n]), e)
    {
      DenotesPrinted(t, cs, n, e);
    }
  }

  lemma OtherPath(s: Store, t: Store, xs: seq<string>, k: string, e: Entry, p: Sector, q: Sector, c: Sector, m: string)
    requires Took(s, t, p, q, c, m) && PlainNames(xs) && PlainName(k)
    requires Denotes(s, Print(xs + [k]), e) && e.sector != c && !Uses(s, s.root, xs, p, c)
    ensures Denotes(t, Print(xs + [k]), e)
  {
    TookFacts(s, t, p, q, c, m);
    hide Valid, Walk, Print, Took, Uses, Denotes, PlainName, PlainNames, FindExact, GetDirEnt;
    DenotesPrinted(s, xs, k, e);
    DenotesPrinted(t, xs, k, e);
    WalkKept(s, t, p, q, c, m, s.root, xs);
    OtherEntryKept(s, t, p, q, c, m, Walk(s, s.root, xs).value, k);
  }

  // ------------------------------------------------------------------
  // The way back, and what moves along
  // ------------------------------------------------------------------

  // Moving the entry back under its old name undoes the move.
  lemma TookBack(s: Store, t: Store, p: Sector, q: Sector, c: Sector, m: string)
    requires Took(s, t, p, q, c, m)
    ensures c in s.blocks && Took(t, s, q, p, c, s.blocks[c].name)
  {
    TookFacts(s, t, p, q, c, m);
    OnlyPlace(s, p, c);
    hide Valid, Children;
  }

  lemma OnlyPlace(s: Store, p: Sector, c: Sector)
    requires Valid(s) && c in Children(s, p)
    ensures forall d :: c in Children(s, d) <==> d == p
  {
  }

  // A name that finds the moved entry leads to where the old one led.
  lemma MovedStep(s: Store, t: Store, p: Sector, q: Sector, c: Sector, w: string, n: string, m: string)
    requires Took(s, t, p, q, c, w) && Lookup(s, p, n) == Some(c) && Lookup(t, q, m) == Some(c)
    ensures ChangeDir(t, q, m) == ChangeDir(s, p, n)
  {
    TookFacts(s, t, p, q, c, w);
    SameStep(s, t, p, q, c, w, c);
    hide Valid, Lookup, Took;
  }

  lemma NewNameFinds(s: Store, t: Store, p: Sector, q: Sector, c: Sector, m: string)
    requires Took(s, t, p, q, c, m)
    ensures Lookup(t, q, m) == Some(c)
  {
    TookFacts(s, t, p, q, c, m);
    SameNameRefl(s.intl, m);
    assert t.blocks[c].name == m;
    LookupIs(t, q, m, c);
    hide Valid, Lookup;
  }

  // Every other entry that is reached without passing through c is denoted
  // after the change from s to t by the same path.
  ghost predicate OthersStay(s: Store, t: Store, p: Sector, c: Sector) {
    forall xs: seq<string>, k: string, e: Entry ::
      PlainNames(xs) && PlainName(k) && Denotes(s, Print(xs + [k]), e) && e.sector != c &&
      !Uses(s, s.root, xs, p, c) ==>
        Denotes(t, Print(xs + [k]), e)
  }

  lemma AllOthersStay(s: Store, t: Store, p: Sector, q: Sector, c: Sector, m: string)
    requires Took(s, t, p, q, c, m)
    ensures OthersStay(s, t, p, c)
  {
    hide Took, Uses, Denotes, Print, PlainName, PlainNames;
    forall xs: seq<string>, k: string, e: Entry |
      PlainNames(xs) && PlainName(k) && Denotes(s, Print(xs + [k]), e) && e.sector != c && !Uses(s, s.root, xs, p, c)
      ensures Denotes(t, Print(xs + [k]), e)
    {
      OtherPath(s, t, xs, k, e, p, q, c, m);
    }
  }

  // What was found below the directory at one place is found below it at the
  // other, unless the way leads through c once more.
  ghost predicate ContentsFollow(s: Store, from: seq<string>, t: Store, to: seq<string>, p: Sector, c: Sector) {
    forall rest: seq<string>, k: string, e: Entry ::
      PlainNames(rest) && PlainName(k) && Denotes(s, Print(from + rest + [k]), e) && e.sector != c &&
      Walk(s, s.root, from).Some? && !Uses(s, Walk(s, s.root, from).value, rest, p, c) ==>
        Denotes(t, Print(to + rest + [k]), e)
  }

  lemma AllContentsFollow(s: Store, cs: seq<string>, n: string, t: Store, ds: seq<string>, m: string,
                          p: Sector, q: Sector, c: Sector, w: string)
    requires Took(s, t, p, q, c, w) && Lookup(s, p, n) == Some(c) && Lookup(t, q, m) == Some(c)
    requires PlainNames(cs) && PlainName(n) && PlainNames(ds) && PlainName(m)
    requires Walk(s, s.root, cs) == Some(p) && Walk(t, t.root, ds) == Some(q)
    ensures ContentsFollow(s, cs + [n], t, ds + [m], p, c)
  {
    hide Took, Uses, Denotes, Print, PlainName, PlainNames, Walk, Lookup;
    forall rest: seq<string>, k: string, e: Entry |
      PlainNames(rest) && PlainName(k) && Denotes(s, Print(cs + [n] + rest + [k]), e) && e.sector != c &&
      Walk(s, s.root, cs + [n]).Some? && !Uses(s, Walk(s, s.root, cs + [n]).value, rest, p, c)
      ensures Denotes(t, Print(ds + [m] + rest + [k]), e)
    {
      ContentFollows(s, cs, n, t, ds, m, p, q, c, w, rest, k, e);
    }
  }

  lemma ContentFollows(s: Store, cs: seq<string>, n: string, t: Store, ds: seq<string>, m: string,
                       p: Sector, q: Sector, c: Sector, w: string, rest: seq<string>, k: string, e: Entry)
    requires Took(s, t, p, q, c, w) && Lookup(s, p, n) == Some(c) && Lookup(t, q, m) == Some(c)
    requires PlainNames(cs) && PlainName(n) && PlainNames(ds) && PlainName(m) && PlainNames(rest) && PlainName(k)
    requires Walk(s, s.root, cs) == Some(p) && Walk(t, t.root, ds) == Some(q)
    requires Denotes(s, Print(cs + [n] + rest + [k]), e) && e.sector != c
    requires Walk(s, s.root, cs + [n]).Some? && !Uses(s, Walk(s, s.root, cs + [n]).value, rest, p, c)
    ensures Denotes(t, Print(ds + [m] + rest + [k]), e)
  {
    hide *;
    PlainConcat(cs, n, rest);
    PlainConcat(ds, m, rest);
    DenotesPrinted(s, cs + [n] + rest, k, e);
    DenotesPrinted(t, ds + [m] + rest, k, e);
    WalkBelow(s, cs, n, rest, p);
    WalkBelow(t, ds, m, rest, q);
    MovedStep(s, t, p, q, c, w, n, m);
    var d := ChangeDir(s, p, n).value;
    BelowKept(s, t, p, q, c, w, d, rest, k, e);
  }

  lemma WalkBelow(s: Store, cs: seq<string>, n: string, rest: seq<string>, p: Sector)
    requires Walk(s, s.root, cs) == Some(p)
    ensures Walk(s, s.root, cs + [n]) == ChangeDir(s, p, n)
    ensures Walk(s, s.root, cs + [n] + rest) ==
            match ChangeDir(s, p, n)
            case None => None
            case Some(d) => Walk(s, d, rest)
  {
    hide *;
    WalkConcat(s, s.root, cs + [n], rest);
    WalkConcat(s, s.root, cs, [n]);
    OneStep(s, p, n);
  }

  lemma BelowKept(s: Store, t: Store, p: Sector, q: Sector, c: Sector, w: string,
                  d: Sector, rest: seq<string>, k: string, e: Entry)
    requires Took(s, t, p, q, c, w) && Walk(s, d, rest).Some? && !Uses(s, d, rest, p, c)
    requires FindExact(GetDirEnt(s, Walk(s, d, rest).value), k) == Some(e) && e.sector != c
    ensures Walk(t, d, rest) == Walk(s, d, rest)
    ensures FindExact(GetDirEnt(t, Walk(t, d, rest).value), k) == Some(e)
  {
    hide Took, Uses, Walk, FindExact, GetDirEnt;
    WalkKept(s, t, p, q, c, w, d, rest);
    OtherEntryKept(s, t, p, q, c, w, Walk(s, d, rest).value, k);
  }

  lemma PlainConcat(cs: seq<string>, n: string, rest: seq<string>)
    requires PlainNames(cs) && PlainName(n) && PlainNames(rest)
    ensures PlainNames(cs + [n] + rest)
  {
    hide PlainName;
  }
}
