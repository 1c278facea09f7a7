// The directory as FUSE sees it: readdir, getattr, getdentry and the entry
// counts look at the same directory by different routes.
module DirView {
  import opened PathStrings
  import opened Volume
  import opened Permissions
  import opened Walking
  import opened ImageState
  import opened FuseState
  import opened Reference

  // ------------------------------------------------------------------
  // What readdir emits
  // ------------------------------------------------------------------

  function EntryNames(list: seq<Entry>): (names: seq<string>)
    ensures |names| == |list|
  {
    seq(|list|, i requires 0 <= i < |list| => list[i].name)
  }

  // The loop over the list puts in the names in order, as many as there is
  // room for, and reports whether one was refused.
  lemma {:induction false} FillEntriesIs(names: seq<string>, list: seq<Entry>, room: nat)
    requires |names| <= room
    ensures FillEntries(names, list, room).1 <==> |names| + |list| > room
    ensures FillEntries(names, list, room).0 == names + EntryNames(list)[..Min(room - |names|, |list|)]
    decreases |list|
  {
    if list != [] {
      assert EntryNames(list) == [list[0].name] + EntryNames(list[1..]);
      if |names| < room {
        FillEntriesIs(names + [list[0].name], list[1..], room);
        var k := Min(room - |names|, |list|);
        assert EntryNames(list)[..k] == [list[0].name] + EntryNames(list[1..])[..k - 1];
      }
    }
  }

  // "." and ".." and the name of each entry, in the order of the list.
  function AllNames(s: Store, d: Sector): (names: seq<string>)
    ensures |names| == 2 + |GetDirEnt(s, d)|
  {
    [".", ".."] + EntryNames(GetDirEnt(s, d))
  }

  // readdir emits as many of these names as there is room for, and reports
  // -EAGAIN when an entry is refused.
  lemma ListingIs(s: Store, d: Sector, room: nat)
    ensures Listing(s, d, room).0 == 0 <==> GetDirEnt(s, d) == [] || 2 + |GetDirEnt(s, d)| <= room
    ensures Listing(s, d, room).0 == 0 || Listing(s, d, room).0 == -EAGAIN
    ensures Listing(s, d, room).1 == AllNames(s, d)[..Min(room, 2 + |GetDirEnt(s, d)|)]
  {
    hide GetDirEnt, FillEntries;
    var list := GetDirEnt(s, d);
    var dots := Fill(Fill([], ".", room).0, "..", room).0;
    assert dots == [".", ".."][..Min(room, 2)];
    FillEntriesIs(dots, list, room);
    Prefixes([".", ".."], EntryNames(list), room);
  }

  lemma Prefixes(a: seq<string>, b: seq<string>, room: nat)
    ensures a[..Min(room, |a|)] + b[..Min(room - Min(room, |a|), |b|)] == (a + b)[..Min(room, |a| + |b|)]
  {
  }

  lemma FindExactNames(list: seq<Entry>, name: string)
    ensures FindExact(list, name).Some? <==> name in EntryNames(list)
  {
    var names := EntryNames(list);
    if name in names {
      var i :| 0 <= i < |names| && names[i] == name;
      assert list[i] in list;
    }
    if FindExact(list, name).Some? {
      var i :| 0 <= i < |list| && list[i] == FindExact(list, name).value;
      assert names[i] == name;
    }
  }

  // ------------------------------------------------------------------
  // readdir and getattr
  // ------------------------------------------------------------------

  // For every absolute path other than the root's: getattr succeeds iff
  // readdir of the dirname lists the basename, and both fail with -ENOENT when
  // there is no such directory, in any two states of the same volume.
  lemma AttributesIffListed(st: State, other: State, path: string, room: nat)
    requires Absolute(path) && SkipSlashes(path) != "" && other.store == st.store && room >= 2
    ensures var rc := GetattrStep(st, path).1;
            var (_, dirRc, names) := ReaddirStep(other, Dirname(path), room);
            && (dirRc == 0 ==> |names| >= 2 && (rc == 0 <==> Basename(path) in names[2..]))
            && (dirRc == -ENOENT ==> rc == -ENOENT)
            && (rc == 0 || rc == -ENOENT)
  {
    hide GetattrStep, ReaddirStep, Dirname, Basename, SkipSlashes, PathComponents, Walk, GetDirEnt, FindExact, StatAt,
         Listing;
    DirnameAbsolute(path);
    GetattrForgets(st, path);
    ReaddirForgets(other, Dirname(path), room);
    match ParentDir(st.store, path)
    case None =>
    case Some(d) =>
      ListingIs(st.store, d, room);
      FindExactNames(GetDirEnt(st.store, d), Basename(path));
      NamesBehindDots(st.store, d, room);
  }

  lemma NamesBehindDots(s: Store, d: Sector, room: nat)
    requires room >= 2
    ensures var n := Min(room, 2 + |GetDirEnt(s, d)|);
            && n >= 2 && AllNames(s, d)[..n][2..] == EntryNames(GetDirEnt(s, d))[..n - 2]
            && (n == 2 + |GetDirEnt(s, d)| ==> AllNames(s, d)[..n][2..] == EntryNames(GetDirEnt(s, d)))
    ensures forall x :: x in AllNames(s, d) ==> x == "." || x == ".." || x in EntryNames(GetDirEnt(s, d))
  {
    hide GetDirEnt;
    var all := AllNames(s, d);
    assert all[2..] == EntryNames(GetDirEnt(s, d));
    forall x | x in all
      ensures x == "." || x == ".." || x in EntryNames(GetDirEnt(s, d))
    {
      var i :| 0 <= i < |all| && all[i] == x;
      assert i >= 2 ==> all[i] == all[2..][i - 2];
    }
  }

  // A directory path and a name.
  function JoinPath(d: string, n: string): string
    requires d != ""
  {
    if d[|d| - 1] == '/' then d + n else d + "/" + n
  }

  lemma NoEmptyName(s: Store, d: Sector)
    requires Valid(s)
    ensures ChangeDir(s, d, "").None?
  {
    forall c | c in Children(s, d)
      ensures !SameName(s.intl, s.blocks[c].name, "")
    {
    }
  }

  lemma {:induction false} SplitTrailing(r: string)
    requires r != "" && r[|r| - 1] == '/'
    ensures Split(r)[|Split(r)| - 1] == ""
    decreases |r|
  {
    var i := IndexOf(r, '/');
    assert i < |r| by {
      assert r[..|r|] == r;
    }
    if i + 1 < |r| {
      SplitTrailing(r[i + 1..]);
    } else {
      assert r[i + 1..] == "";
      SplitAtom("");
    }
  }

  // A path that ends in a slash resolves only if it consists of slashes.
  lemma TrailingSlashFails(s: Store, d: string)
    requires Valid(s) && Absolute(d) && d[|d| - 1] == '/' && SkipSlashes(d) != ""
    ensures Walk(s, s.root, PathComponents(d)).None?
  {
    hide Split, Walk, Valid, SkipSlashes, ChangeDir;
    var rel := SkipSlashes(d);
    assert rel[|rel| - 1] == d[|d| - 1];
    SplitTrailing(rel);
    LastFails(s, Split(rel));
  }

  lemma LastFails(s: Store, cs: seq<string>)
    requires Valid(s) && cs != [] && cs[|cs| - 1] == ""
    ensures Walk(s, s.root, cs).None?
  {
    hide Valid, ChangeDir;
    var init := cs[..|cs| - 1];
    assert cs == init + [""];
    WalkConcat(s, s.root, init, [""]);
    if Walk(s, s.root, init).Some? {
      NoEmptyName(s, Walk(s, s.root, init).value);
    }
  }

  lemma {:induction false} StripAllSlashes(d: string)
    requires SkipSlashes(d) == ""
    ensures StripTrailing(d) == ""
    ensures d != "" ==> d[|d| - 1] == '/' && StripTrailing(d[..|d| - 1]) == ""
  {
    LeadIsSlashes(d);
    StripUnique(d, "");
    if d != "" {
      StripUnique(d[..|d| - 1], "");
    }
  }

  // Joining a listed name to the path of its directory denotes that directory
  // and that name again.
  lemma JoinedParent(s: Store, d: string, n: string)
    requires Valid(s) && Absolute(d) && ValidName(n)
    requires Walk(s, s.root, PathComponents(d)).Some?
    ensures Absolute(JoinPath(d, n)) && SkipSlashes(JoinPath(d, n)) != ""
    ensures Basename(JoinPath(d, n)) == n
    ensures ParentDir(s, JoinPath(d, n)) == Walk(s, s.root, PathComponents(d))
  {
    hide Walk, Split;
    if d[|d| - 1] == '/' {
      var e := d[..|d| - 1];
      if SkipSlashes(d) != "" {
        TrailingSlashFails(s, d);
      }
      StripAllSlashes(d);
      assert JoinPath(d, n) == e + "/" + n;
      DirnameOfJoined(e, n);
      NoComponents();
      EndsInName(e + "/", n);
    } else {
      DirnameOfJoined(d, n);
      assert StripTrailing(d) == d;
      EndsInName(d + "/", n);
    }
  }

  lemma EndsInName(lead: string, n: string)
    requires n != "" && n[|n| - 1] != '/'
    ensures SkipSlashes(lead + n) != ""
  {
    var p := lead + n;
    LeadIsSlashes(p);
    assert p[|p| - 1] == n[|n| - 1];
  }

  // When readdir of a directory succeeds, getattr of the directory joined with
  // any listed name other than the dots succeeds, in any state of the volume.
  lemma ListedHasAttributes(st: State, other: State, d: string, room: nat, n: string)
    requires Valid(st.store) && other.store == st.store && Absolute(d)
    requires ReaddirStep(other, d, room).1 == 0 && n in ReaddirStep(other, d, room).2 && n != "." && n != ".."
    ensures GetattrStep(st, JoinPath(d, n)).1 == 0
  {
    hide GetattrStep, ReaddirStep, Dirname, Basename, SkipSlashes, PathComponents, Walk, GetDirEnt, FindExact, StatAt,
         Listing, JoinPath, Valid;
    var s := st.store;
    ReaddirForgets(other, d, room);
    var x := Walk(s, s.root, PathComponents(d)).value;
    ListingIs(s, x, room);
    ListedIsValid(s, x, n);
    JoinedParent(s, d, n);
    GetattrForgets(st, JoinPath(d, n));
    FindExactNames(GetDirEnt(s, x), n);
  }

  lemma ListedIsValid(s: Store, x: Sector, n: string)
    requires Valid(s) && n in EntryNames(GetDirEnt(s, x))
    ensures ValidName(n)
  {
    var i :| 0 <= i < |GetDirEnt(s, x)| && EntryNames(GetDirEnt(s, x))[i] == n;
    assert Children(s, x)[i] in Children(s, x);
  }

  // The size getattr reports for a directory is the number of names that
  // readdir lists for it besides the dots, in any two states of the volume.
  lemma SizeIsListingLength(st: State, other: State, path: string, room: nat)
    requires Absolute(path) && SkipSlashes(path) != "" && other.store == st.store && room >= 2
    requires ReaddirStep(other, path, room).1 == 0
    requires GetattrStep(st, path).1 == 0 && GetattrStep(st, path).2.format == Directory
    ensures GetattrStep(st, path).2.size == |ReaddirStep(other, path, room).2| - 2
  {
    hide GetattrStep, ReaddirStep, Dirname, Basename, SkipSlashes, PathComponents, Walk, Reach, GetDirEnt, FindExact,
         Listing, GetPerm;
    var s := st.store;
    GetattrForgets(st, path);
    ReaddirForgets(other, path, room);
    LongestPrefix(s, s.root, PathComponents(path));
    ListingIs(s, Reach(s, s.root, PathComponents(path)), room);
  }
}
