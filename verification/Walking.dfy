// Walking a volume by path components, without any current directory.
module Walking {
  import opened PathStrings
  import opened Volume

  // The directory reached from d, if every component resolves.
  function Walk(s: Store, d: Sector, cs: seq<string>): Option<Sector>
    decreases |cs|
  {
    if cs == [] then Some(d)
    else
      match ChangeDir(s, d, cs[0])
      case None => None
      case Some(t) => Walk(s, t, cs[1..])
  }

  // The number of components that resolve before the first one that does not.
  function Depth(s: Store, d: Sector, cs: seq<string>): (k: nat)
    ensures k <= |cs|
    decreases |cs|
  {
    if cs == [] then 0
    else
      match ChangeDir(s, d, cs[0])
      case None => 0
      case Some(t) => 1 + Depth(s, t, cs[1..])
  }

  // The directory in which that walk stops.
  function Reach(s: Store, d: Sector, cs: seq<string>): Sector
    decreases |cs|
  {
    if cs == [] then d
    else
      match ChangeDir(s, d, cs[0])
      case None => d
      case Some(t) => Reach(s, t, cs[1..])
  }

  lemma {:induction false} WalkConcat(s: Store, d: Sector, a: seq<string>, b: seq<string>)
    ensures Walk(s, d, a + b) ==
            match Walk(s, d, a)
            case None => None
            case Some(t) => Walk(s, t, b)
    decreases |a|
  {
    if a == [] {
      assert a + b == b;
    } else {
      assert (a + b)[1..] == a[1..] + b;
      match ChangeDir(s, d, a[0])
      case None =>
      case Some(t) => WalkConcat(s, t, a[1..], b);
    }
  }

  // Depth is the length of the longest resolvable prefix and Reach its end.
  lemma {:induction false} LongestPrefix(s: Store, d: Sector, cs: seq<string>)
    ensures forall k :: 0 <= k <= |cs| ==> (Walk(s, d, cs[..k]).Some? <==> k <= Depth(s, d, cs))
    ensures Walk(s, d, cs[..Depth(s, d, cs)]) == Some(Reach(s, d, cs))
    ensures Walk(s, d, cs) == if Depth(s, d, cs) == |cs| then Some(Reach(s, d, cs)) else None
    decreases |cs|
  {
    if cs != [] {
      match ChangeDir(s, d, cs[0])
      case None =>
        assert forall k :: 1 <= k <= |cs| ==> cs[..k][0] == cs[0];
      case Some(t) =>
        LongestPrefix(s, t, cs[1..]);
        forall k | 1 <= k <= |cs|
          ensures Walk(s, d, cs[..k]) == Walk(s, t, cs[1..][..k - 1])
        {
          assert cs[..k][1..] == cs[1..][..k - 1];
        }
    }
    assert cs[..|cs|] == cs;
  }

  // The components of a path given to adfimage_chdir; "" and "." stand for no
  // component at all, but only when nothing else follows the leading slashes.
  function PathComponents(path: string): seq<string> {
    var rel := SkipSlashes(path);
    if rel == "" || rel == "." then [] else Split(rel)
  }

  predicate Absolute(path: string) {
    path != "" && path[0] == '/'
  }

  // The printed form of a directory position.
  function Print(cs: seq<string>): (p: string)
    ensures Absolute(p)
  {
    if cs == [] then "/" else "/" + Join(cs)
  }

  lemma PrintOne(n: string)
    ensures Print([n]) == "/" + n
  {
  }

  // Component lists that can be printed and parsed back.
  predicate Printable(cs: seq<string>) {
    && (forall i :: 0 <= i < |cs| ==> '/' !in cs[i])
    && (cs != [] ==> cs[0] != "")
    && cs != ["."]
  }

  // split ( print ( components ) ) = components
  lemma PrintParse(cs: seq<string>)
    requires Printable(cs)
    ensures PathComponents(Print(cs)) == cs
  {
    if cs != [] {
      var j := Join(cs);
      JoinLonger(cs);
      SplitJoin(cs);
      assert Print(cs)[1..] == j;
      assert SkipSlashes(Print(cs)) == j;
      if j == "." {
        SplitAtom(".");
      }
    }
  }

  // Whatever adfimage_chdir walks is printable.
  lemma ComponentsPrintable(path: string)
    ensures Printable(PathComponents(path))
    ensures NoNul(path) ==> forall c :: c in PathComponents(path) ==> NoNul(c)
  {
    var rel := SkipSlashes(path);
    if rel != "" && rel != "." {
      var cs := Split(rel);
      JoinSplit(rel);
      assert IndexOf(rel, '/') > 0;
      if NoNul(path) {
        SplitChars(rel);
      }
    }
  }

  lemma {:induction false} SplitChars(s: string)
    requires NoNul(s)
    ensures forall c :: c in Split(s) ==> NoNul(c)
    decreases |s|
  {
    var i := IndexOf(s, '/');
    if i < |s| {
      SplitChars(s[i + 1..]);
    }
  }
}
