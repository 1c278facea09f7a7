// Path strings as the C code sees them: finite character sequences without a
// terminator, cut at '/' by strchr and taken apart by POSIX dirname/basename.
module PathStrings {

  datatype Option<+T> = None | Some(value: T)

  // A C string value: the terminator is not part of it.
  predicate NoNul(s: string) {
    '\0' !in s
  }

  // ------------------------------------------------------------------
  // Splitting and joining
  // ------------------------------------------------------------------

  // Position of the first c, or |s| when there is none (strchr).
  function IndexOf(s: string, c: char): (i: nat)
    ensures i <= |s|
    ensures c !in s[..i]
    ensures i < |s| ==> s[i] == c
  {
    if s == "" || s[0] == c then 0
    else
      var j := IndexOf(s[1..], c);
      assert s[..j + 1] == [s[0]] + s[1..][..j];
      j + 1
  }

  lemma {:induction false} IndexOfUnique(s: string, c: char, i: nat)
    requires i <= |s| && c !in s[..i]
    requires i < |s| ==> s[i] == c
    ensures IndexOf(s, c) == i
  {
    if i > 0 {
      assert s[..i][0] == s[0] && s[..i][1..] == s[1..][..i - 1];
      IndexOfUnique(s[1..], c, i - 1);
    }
  }

  // The pieces between slashes; never empty, "" is the single piece "".
  function Split(s: string): (cs: seq<string>)
    ensures |cs| > 0
    ensures forall i :: 0 <= i < |cs| ==> '/' !in cs[i]
    decreases |s|
  {
    var i := IndexOf(s, '/');
    if i == |s| then
      assert s[..i] == s;
      [s]
    else [s[..i]] + Split(s[i + 1..])
  }

  lemma SplitIs(s: string)
    ensures var i := IndexOf(s, '/');
            Split(s) == if i == |s| then [s] else [s[..i]] + Split(s[i + 1..])
  {
    hide IndexOf;
    assert s[..|s|] == s;
  }

  function Join(cs: seq<string>): string
    requires |cs| > 0
  {
    if |cs| == 1 then cs[0] else cs[0] + "/" + Join(cs[1..])
  }

  lemma SplitCons(a: string, b: string)
    requires '/' !in a
    ensures Split(a + "/" + b) == [a] + Split(b)
  {
    hide Split, IndexOf;
    var s := a + "/" + b;
    assert s[..|a|] == a;
    IndexOfUnique(s, '/', |a|);
    assert s[|a| + 1..] == b;
    SplitIs(s);
  }

  lemma SplitAtom(a: string)
    requires '/' !in a
    ensures Split(a) == [a]
  {
    hide Split, IndexOf;
    assert a[..|a|] == a;
    IndexOfUnique(a, '/', |a|);
    SplitIs(a);
  }

  lemma {:induction false} JoinSplit(s: string)
    ensures Join(Split(s)) == s
    decreases |s|
  {
    hide Split, IndexOf;
    SplitIs(s);
    var i := IndexOf(s, '/');
    if i < |s| {
      JoinSplit(s[i + 1..]);
      assert Split(s)[1..] == Split(s[i + 1..]);
      assert s == s[..i] + "/" + s[i + 1..];
    }
  }

  lemma {:induction false} SplitJoin(cs: seq<string>)
    requires |cs| > 0
    requires forall i :: 0 <= i < |cs| ==> '/' !in cs[i]
    ensures Split(Join(cs)) == cs
  {
    hide Split;
    if |cs| == 1 {
      SplitAtom(cs[0]);
    } else {
      SplitCons(cs[0], Join(cs[1..]));
      SplitJoin(cs[1..]);
      assert cs == [cs[0]] + cs[1..];
    }
  }

  lemma {:induction false} JoinSnoc(cs: seq<string>, d: string)
    requires |cs| > 0
    ensures Join(cs + [d]) == Join(cs) + "/" + d
  {
    if |cs| == 1 {
      assert (cs + [d])[1..] == [d];
    } else {
      assert (cs + [d])[1..] == cs[1..] + [d];
      JoinSnoc(cs[1..], d);
    }
  }

  lemma {:induction false} JoinLonger(cs: seq<string>)
    requires |cs| > 0
    ensures |Join(cs)| >= |cs[0]|
    ensures cs[0] != "" ==> Join(cs) != "" && Join(cs)[0] == cs[0][0]
  {
  }

  // Joining a prefix of the pieces gives a prefix of the joined string.
  lemma {:induction false} JoinPrefix(cs: seq<string>, k: nat)
    requires 0 < k <= |cs|
    ensures Join(cs[..k]) <= Join(cs)
  {
    if k == |cs| {
      assert cs[..k] == cs;
    } else if k == 1 {
      assert cs[..1] == [cs[0]];
    } else {
      JoinPrefix(cs[1..], k - 1);
      assert cs[..k][1..] == cs[1..][..k - 1];
    }
  }

  // ------------------------------------------------------------------
  // Leading and trailing slashes
  // ------------------------------------------------------------------

  // The path after its leading slashes (pathstr_get_relative).
  function SkipSlashes(s: string): (r: string)
    ensures |r| <= |s| && r == s[|s| - |r|..]
    ensures r != "" ==> r[0] != '/'
    ensures s == "" || s[0] != '/' ==> r == s
  {
    if s != "" && s[0] == '/' then SkipSlashes(s[1..]) else s
  }

  function StripTrailing(s: string): (r: string)
    ensures |r| <= |s| && r == s[..|r|]
    ensures r != "" ==> r[|r| - 1] != '/'
    ensures forall i :: |r| <= i < |s| ==> s[i] == '/'
    ensures s == "" || s[|s| - 1] != '/' ==> r == s
  {
    if s != "" && s[|s| - 1] == '/' then StripTrailing(s[..|s| - 1]) else s
  }

  lemma {:induction false} StripUnique(s: string, r: string)
    requires |r| <= |s| && r == s[..|r|]
    requires r != "" ==> r[|r| - 1] != '/'
    requires forall i :: |r| <= i < |s| ==> s[i] == '/'
    ensures StripTrailing(s) == r
  {
    if |r| < |s| {
      StripUnique(s[..|s| - 1], r);
    }
  }

  // Position after the last '/', 0 when there is none.
  function AfterLastSlash(s: string): (i: nat)
    ensures i <= |s|
    ensures '/' !in s[i..]
    ensures i > 0 ==> s[i - 1] == '/'
  {
    if s == "" then 0
    else if s[|s| - 1] == '/' then |s|
    else
      var i := AfterLastSlash(s[..|s| - 1]);
      assert s[i..] == s[..|s| - 1][i..] + [s[|s| - 1]];
      i
  }

  lemma {:induction false} AfterLastSlashUnique(s: string, i: nat)
    requires i <= |s| && '/' !in s[i..]
    requires i > 0 ==> s[i - 1] == '/'
    ensures AfterLastSlash(s) == i
  {
    if i < |s| {
      assert s[i..][|s| - 1 - i] == s[|s| - 1] && s[i..][..|s| - 1 - i] == s[..|s| - 1][i..];
      AfterLastSlashUnique(s[..|s| - 1], i);
    }
  }

  // ------------------------------------------------------------------
  // dirname and basename (POSIX.1-2017, System Interfaces); a path of
  // slashes only is "/".
  // ------------------------------------------------------------------

  function Dirname(path: string): string {
    if path == "" then "."
    else
      var t := StripTrailing(path);
      if t == "" then "/"
      else
        var i := AfterLastSlash(t);
        if i == 0 then "."
        else
          var u := StripTrailing(t[..i]);
          if u == "" then "/" else u
  }

  function Basename(path: string): string {
    if path == "" then "."
    else
      var t := StripTrailing(path);
      if t == "" then "/" else t[AfterLastSlash(t)..]
  }

  lemma DirnameIs(path: string)
    requires path != "" && StripTrailing(path) != ""
    ensures var t := StripTrailing(path);
            var i := AfterLastSlash(t);
            && Basename(path) == t[i..]
            && Dirname(path) == if i == 0 then "."
                                else if StripTrailing(t[..i]) == "" then "/" else StripTrailing(t[..i])
  {
    hide StripTrailing, AfterLastSlash;
  }

  // dirname never yields the empty string, so the code's test
  // strlen(dirpath) > 0 always succeeds and the working directory is always
  // saved; and neither function invents characters.
  lemma DirnameBasenameNonEmpty(path: string)
    ensures Dirname(path) != "" && Basename(path) != ""
    ensures NoNul(path) ==> NoNul(Dirname(path)) && NoNul(Basename(path))
  {
    hide StripTrailing, AfterLastSlash;
    if path != "" && StripTrailing(path) != "" {
      var t := StripTrailing(path);
      var i := AfterLastSlash(t);
      assert i < |t|;
    }
  }

  // The other cases: the empty path, paths of slashes only, and slashes behind
  // a name, which do not count.
  lemma DirnameBasenameEdges(path: string)
    ensures path == "" ==> Dirname(path) == "." && Basename(path) == "."
    ensures path != "" && (forall i :: 0 <= i < |path| ==> path[i] == '/') ==>
              Dirname(path) == "/" && Basename(path) == "/"
    ensures path != "" && path[|path| - 1] != '/' ==>
              Dirname(path + "/") == Dirname(path) && Basename(path + "/") == Basename(path)
  {
    hide AfterLastSlash, StripTrailing;
    if forall i :: 0 <= i < |path| ==> path[i] == '/' {
      StripUnique(path, "");
    }
    if path != "" && path[|path| - 1] != '/' {
      StripUnique(path + "/", path);
    }
  }

  // An absolute path has an absolute dirname; when anything follows the
  // leading slashes, its basename is one component.
  lemma AbsoluteDirname(path: string)
    requires path != "" && path[0] == '/'
    ensures Dirname(path)[..1] == "/"
    ensures SkipSlashes(path) != "" ==> '/' !in Basename(path)
  {
    hide StripTrailing, AfterLastSlash, SkipSlashes;
    var t := StripTrailing(path);
    if t == "" {
      AllSlashes(path);
    } else {
      var i := AfterLastSlash(t);
      assert t[0] == '/';
      assert i > 0;
    }
  }

  lemma {:induction false} AllSlashes(path: string)
    requires forall i :: 0 <= i < |path| ==> path[i] == '/'
    ensures SkipSlashes(path) == ""
  {
    if path != "" {
      AllSlashes(path[1..]);
    }
  }

  // A relative path has a relative dirname and a basename of one component.
  lemma RelativeDirname(path: string)
    requires path != "" && path[0] != '/'
    ensures Dirname(path) != "" && Dirname(path)[0] != '/'
    ensures '/' !in Basename(path)
  {
    hide StripTrailing, AfterLastSlash;
    var t := StripTrailing(path);
    assert t != "" && t[0] == path[0];
    var i := AfterLastSlash(t);
    if i > 0 {
      assert t[..i][0] == path[0];
    }
  }

  // Printing a directory and a name, then taking the result apart.
  lemma DirnameOfJoined(d: string, n: string)
    requires n != "" && '/' !in n
    ensures Basename(d + "/" + n) == n
    ensures Dirname(d + "/" + n) == if StripTrailing(d) == "" then "/" else StripTrailing(d)
  {
    hide StripTrailing, AfterLastSlash, Dirname, Basename;
    var p := d + "/" + n;
    assert p[|p| - 1] == n[|n| - 1];
    assert StripTrailing(p) == p;
    DirnameIs(p);
    assert p[|d| + 1..] == n;
    AfterLastSlashUnique(p, |d| + 1);
    assert p[..|d| + 1] == d + "/";
    StripUnique(d + "/", StripTrailing(d));
  }

  lemma DirnameOfAtom(n: string)
    requires n != "" && '/' !in n
    ensures Dirname(n) == "." && Basename(n) == n
  {
    hide StripTrailing, AfterLastSlash, Dirname, Basename;
    assert n[0..] == n;
    assert n[|n| - 1] != '/';
    DirnameIs(n);
    AfterLastSlashUnique(n, 0);
  }
}
