// The in-place path rewriting of src/util.h on NUL-terminated buffers, as
// written and as meant, and what each of the two does.
module PathRewrite {
  import opened PathStrings

  // ------------------------------------------------------------------
  // Buffers and substring search
  // ------------------------------------------------------------------

  predicate Terminated(b: seq<char>) {
    '\0' in b
  }

  // The string held by a buffer.
  function CStr(b: seq<char>): (s: string)
    ensures |s| <= |b| && NoNul(s)
    ensures Terminated(b) ==> |s| < |b| && b[|s|] == '\0'
    ensures s == b[..|s|]
  {
    var i := IndexOf(b, '\0');
    assert Terminated(b) ==> i < |b| by {
      assert b[..|b|] == b;
    }
    b[..i]
  }

  lemma CStrUnique(b: seq<char>, s: string)
    requires NoNul(s) && |s| < |b| && b[..|s|] == s && b[|s|] == '\0'
    ensures Terminated(b) && CStr(b) == s
  {
    IndexOfUnique(b, '\0', |s|);
  }

  // The buffer and its string, position by position.
  lemma BufferString(b: seq<char>)
    requires Terminated(b)
    ensures forall k :: 0 <= k < |CStr(b)| ==> b[k] == CStr(b)[k] && b[k] != '\0'
    ensures b[|CStr(b)|] == '\0'
  {
  }

  predicate OccursAt(s: string, pat: string, i: nat) {
    i + |pat| <= |s| && s[i..i + |pat|] == pat
  }

  predicate Occurs(s: string, pat: string) {
    exists i: nat :: i <= |s| && OccursAt(s, pat, i)
  }

  // The three characters of a pattern of that length.
  lemma Chars3(s: string, pat: string, i: nat)
    requires |pat| == 3
    ensures OccursAt(s, pat, i) <==> i + 3 <= |s| && s[i] == pat[0] && s[i + 1] == pat[1] && s[i + 2] == pat[2]
  {
    if i + 3 <= |s| {
      var t := s[i..i + 3];
      assert t == [s[i], s[i + 1], s[i + 2]];
      assert pat == [pat[0], pat[1], pat[2]];
    }
  }

  lemma Chars2(s: string, pat: string, i: nat)
    requires |pat| == 2
    ensures OccursAt(s, pat, i) <==> i + 2 <= |s| && s[i] == pat[0] && s[i + 1] == pat[1]
  {
    if i + 2 <= |s| {
      var t := s[i..i + 2];
      assert t == [s[i], s[i + 1]];
      assert pat == [pat[0], pat[1]];
    }
  }

  // strstr ( s + from, pat ), as a position in s.
  function Find(s: string, pat: string, from: nat): (r: Option<nat>)
    requires from <= |s|
    ensures r.Some? ==> from <= r.value <= |s| && OccursAt(s, pat, r.value)
    ensures r.Some? ==> forall i: nat :: from <= i < r.value ==> !OccursAt(s, pat, i)
    ensures r.None? ==> forall i: nat :: from <= i ==> !OccursAt(s, pat, i)
    decreases |s| - from
  {
    if OccursAt(s, pat, from) then Some(from)
    else if from == |s| then None
    else Find(s, pat, from + 1)
  }

  // ------------------------------------------------------------------
  // As written (W). A result of None means that the call never returns.
  // ------------------------------------------------------------------

  // The first "//", if any, must be the last two characters.
  function RemoveDoubleSlashesW(s: string): Option<string> {
    match Find(s, "//", 0)
    case None => Some(s)
    case Some(i) => if i + 2 == |s| then Some(s[..i + 1]) else None
  }

  // There must be no "../", and the first "/..", if any, must end the string.
  function DirparentU2AW(s: string): Option<string> {
    if Find(s, "../", 0).Some? then None
    else
      match Find(s, "/..", 0)
      case None => Some(s)
      case Some(i) => if i + 3 == |s| then Some(s[..i] + "//") else None
  }

  function Fuse2AmigaDosW(s: string): Option<string> {
    match RemoveDoubleSlashesW(s)
    case None => None
    case Some(t) => DirparentU2AW(t)
  }

  lemma SlashesReturn(s: string)
    ensures RemoveDoubleSlashesW(s).Some? <==> forall i: nat :: OccursAt(s, "//", i) ==> i + 2 == |s|
    ensures RemoveDoubleSlashesW(s).Some? ==>
              RemoveDoubleSlashesW(s).value ==
                if |s| >= 2 && OccursAt(s, "//", |s| - 2) then s[..|s| - 1] else s
  {
  }

  lemma ParentsReturn(t: string)
    ensures DirparentU2AW(t).Some? <==>
              !Occurs(t, "../") && forall i: nat :: OccursAt(t, "/..", i) ==> i + 3 == |t|
    ensures DirparentU2AW(t).Some? ==>
              DirparentU2AW(t).value ==
                if |t| >= 3 && OccursAt(t, "/..", |t| - 3) then t[..|t| - 3] + "//" else t
  {
  }

  // Dropping one of two final slashes touches no other pattern.
  lemma TrimKeeps(s: string, i: nat)
    requires |s| >= 2 && s[|s| - 2] == '/' && s[|s| - 1] == '/'
    ensures OccursAt(s, "../", i) <==> OccursAt(s[..|s| - 1], "../", i)
    ensures OccursAt(s, "/..", i) <==> OccursAt(s[..|s| - 1], "/..", i)
    ensures OccursAt(s, "/..", i) ==> i + 4 < |s|
  {
    Chars3(s, "../", i);
    Chars3(s, "/..", i);
    Chars3(s[..|s| - 1], "../", i);
    Chars3(s[..|s| - 1], "/..", i);
  }

  // The strings on which the call returns, and what it returns: a single
  // trailing slash pair loses a slash, a single trailing "/.." becomes "//",
  // everything else is left alone.
  lemma Fuse2AmigaDosReturns(s: string)
    ensures Fuse2AmigaDosW(s).Some? <==>
              && (forall i: nat :: OccursAt(s, "//", i) ==> i + 2 == |s|)
              && !Occurs(s, "../")
              && (forall i: nat :: OccursAt(s, "/..", i) ==> i + 3 == |s|)
    ensures Fuse2AmigaDosW(s).Some? ==>
              Fuse2AmigaDosW(s).value ==
                if |s| >= 2 && OccursAt(s, "//", |s| - 2) then s[..|s| - 1]
                else if |s| >= 3 && OccursAt(s, "/..", |s| - 3) then s[..|s| - 3] + "//"
                else s
  {
    hide RemoveDoubleSlashesW, DirparentU2AW, Find;
    SlashesReturn(s);
    if |s| >= 2 && OccursAt(s, "//", |s| - 2) {
      var t := s[..|s| - 1];
      assert s[|s| - 2..][0] == '/' && s[|s| - 2..][1] == '/';
      hide OccursAt;
      forall i: nat
        ensures OccursAt(s, "../", i) <==> OccursAt(t, "../", i)
        ensures OccursAt(s, "/..", i) <==> OccursAt(t, "/..", i)
        ensures OccursAt(s, "/..", i) ==> i + 4 < |s|
      {
        TrimKeeps(s, i);
      }
      TrimOccurs(s, t);
      ParentsReturn(t);
    } else {
      ParentsReturn(s);
    }
  }

  lemma TrimOccurs(s: string, t: string)
    requires |t| <= |s|
    requires forall i: nat :: OccursAt(s, "../", i) <==> OccursAt(t, "../", i)
    ensures Occurs(s, "../") <==> Occurs(t, "../")
  {
    if Occurs(s, "../") {
      var i: nat :| i <= |s| && OccursAt(s, "../", i);
      assert OccursAt(t, "../", i);
    }
  }

  lemma Fuse2AmigaDosShape(s: string)
    requires Fuse2AmigaDosW(s).Some?
    ensures s != "" && s[0] == '/' ==> Fuse2AmigaDosW(s).value != "" && Fuse2AmigaDosW(s).value[0] == '/'
    ensures NoNul(s) ==> NoNul(Fuse2AmigaDosW(s).value)
    ensures |Fuse2AmigaDosW(s).value| <= |s|
  {
  }

  // The shift loop of all three rewriters: the pointer is not advanced, so one
  // cell is overwritten with its neighbour until that neighbour is NUL.
  // Returns false when the given number of steps did not suffice.
  method ShiftWritten(a: array<char>, ch: nat, fuel: nat) returns (done: bool, left: nat)
    requires ch + 1 < a.Length
    modifies a
    ensures done <==> fuel > 0 && old(a[ch + 1]) == '\0'
    ensures done ==> left == fuel - 1
    ensures a[..] == if fuel == 0 then old(a[..]) else old(a[..])[ch := old(a[ch + 1])]
  {
    left := fuel;
    while true
      invariant left <= fuel
      invariant left == fuel ==> a[..] == old(a[..])
      invariant left < fuel ==> a[..] == old(a[..])[ch := old(a[ch + 1])] && old(a[ch + 1]) != '\0'
      decreases left
    {
      if left == 0 {
        return false, 0;
      }
      left := left - 1;
      a[ch] := a[ch + 1];
      if a[ch + 1] == '\0' {
        return true, left;
      }
    }
  }

  // pathstr_remove_double_slashes with its steps counted: for every bound the
  // run either completes with the string above or is still going on, and the
  // strings on which it never completes are exactly those without a result.
  method RemoveDoubleSlashesWritten(a: array<char>, fuel: nat) returns (done: bool, left: nat)
    requires Terminated(a[..])
    modifies a
    ensures Terminated(a[..])
    ensures done ==> Some(CStr(a[..])) == RemoveDoubleSlashesW(old(CStr(a[..]))) && left <= fuel <= left + 1
    ensures fuel >= 1 ==> (done <==> RemoveDoubleSlashesW(old(CStr(a[..]))).Some?)
  {
    hide IndexOf;
    ghost var s := CStr(a[..]);
    var path: nat := 0;
    left := fuel;
    while true
      invariant Terminated(a[..]) && path <= |CStr(a[..])|
      invariant || (left == fuel && path == 0 && CStr(a[..]) == s)
                || (&& left == fuel - 1 && Find(CStr(a[..]), "//", path).None?
                    && Some(CStr(a[..])) == RemoveDoubleSlashesW(s))
      decreases left
    {
      var hit := Find(CStr(a[..]), "//", path);
      if hit.None? {
        return true, left;
      }
      var p := hit.value;
      Chars2(CStr(a[..]), "//", p);
      BufferString(a[..]);
      done, left := ShiftWritten(a, p + 1, left);
      assert a[|s|] == '\0';
      if !done {
        return false, left;
      }
      assert |s| == p + 2;
      CStrUnique(a[..], s[..p + 1]);
      path := p;
    }
  }

  // The body of the second loop on a match that ends the string.
  method FinalParentWritten(a: array<char>, p: nat, fuel: nat) returns (left: nat)
    requires fuel > 0
    requires Terminated(a[..]) && |CStr(a[..])| == p + 3 && OccursAt(CStr(a[..]), "/..", p)
    modifies a
    ensures Terminated(a[..]) && CStr(a[..]) == old(CStr(a[..]))[..p] + "//"
    ensures left == fuel - 1
  {
    ghost var s := CStr(a[..]);
    assert s[p..p + 3][0] == '/';
    a[p + 1] := '/';
    var done;
    done, left := ShiftWritten(a, p + 2, fuel);
    assert a[..][..p + 2] == s[..p] + "//";
    CStrUnique(a[..], s[..p] + "//");
  }

  lemma FinalParentGone(s: string, p: nat)
    requires |s| == p + 3 && OccursAt(s, "/..", p)
    requires forall i: nat :: i < p ==> !OccursAt(s, "/..", i)
    ensures Find(s[..p] + "//", "/..", 0).None?
  {
    var t := s[..p] + "//";
    forall i: nat | OccursAt(t, "/..", i)
      ensures false
    {
      assert t[i..i + 3][1] == '.' && t[i..i + 3][2] == '.';
      assert i + 3 <= p;
      assert s[i..i + 3] == t[i..i + 3];
      assert OccursAt(s, "/..", i);
    }
  }

  // pathstr_dirparent_u2a, likewise.
  method DirparentU2AWritten(a: array<char>, fuel: nat) returns (done: bool)
    requires Terminated(a[..])
    modifies a
    ensures Terminated(a[..])
    ensures done ==> Some(CStr(a[..])) == DirparentU2AW(old(CStr(a[..])))
    ensures fuel >= 2 ==> (done <==> DirparentU2AW(old(CStr(a[..]))).Some?)
  {
    ghost var s := CStr(a[..]);
    var hit := Find(CStr(a[..]), "../", 0);
    var left := fuel;
    // the first match already never ends: what follows ".." is the slash
    if hit.Some? {
      var p := hit.value;
      assert s[p..p + 3][2] == '/';
      a[p] := '/';
      var ended, rest := ShiftWritten(a, p + 1, left);
      assert !ended;
      assert Terminated(a[..]) by {
        assert a[|s|] == '\0';
      }
      return false;
    }
    while true
      invariant Terminated(a[..])
      invariant || (CStr(a[..]) == s && (left == fuel || DirparentU2AW(s).None?))
                || (left == fuel - 1 && Find(CStr(a[..]), "/..", 0).None? && Some(CStr(a[..])) == DirparentU2AW(s))
      decreases left
    {
      hit := Find(CStr(a[..]), "/..", 0);
      if hit.None? {
        return true;
      }
      if left == 0 {
        return false;
      }
      var p := hit.value;
      if a[p + 3] == '\0' {
        left := FinalParentWritten(a, p, left);
        FinalParentGone(s, p);
      } else {
        // no branch taken: the next search finds the same match again
        left := left - 1;
      }
    }
  }

  // pathstr_fuse2amigados
  method Fuse2AmigaDosWritten(a: array<char>, fuel: nat) returns (done: bool)
    requires Terminated(a[..])
    modifies a
    ensures Terminated(a[..])
    ensures done ==> Some(CStr(a[..])) == Fuse2AmigaDosW(old(CStr(a[..])))
    ensures fuel >= 3 ==> (done <==> Fuse2AmigaDosW(old(CStr(a[..]))).Some?)
  {
    var left;
    done, left := RemoveDoubleSlashesWritten(a, fuel);
    if done {
      done := DirparentU2AWritten(a, left);
    }
  }

  // ------------------------------------------------------------------
  // As meant: the shift loop advances, and a match of "/.." that does not end
  // the string is passed over.
  // ------------------------------------------------------------------

  lemma ShiftedString(b: seq<char>, c: seq<char>, at: nat)
    requires Terminated(b) && at < |CStr(b)| && |c| == |b|
    requires c[..at] == b[..at] && c[at..|CStr(b)|] == b[at + 1..|CStr(b)| + 1]
    ensures Terminated(c) && CStr(c) == CStr(b)[..at] + CStr(b)[at + 1..]
  {
    var s := CStr(b);
    var u := s[..at] + s[at + 1..];
    assert c[|s| - 1] == c[at..|s|][|s| - 1 - at] == b[|s|];
    assert c[..|s| - 1] == c[..at] + c[at..|s|][..|s| - 1 - at];
    assert s[at + 1..] == b[at + 1..|s| + 1][..|s| - 1 - at];
    CStrUnique(c, u);
  }

  // Moves the tail of the string after position at one cell to the left.
  method ShiftLeft(a: array<char>, at: nat)
    requires Terminated(a[..]) && at < |CStr(a[..])|
    modifies a
    ensures Terminated(a[..])
    ensures CStr(a[..]) == old(CStr(a[..]))[..at] + old(CStr(a[..]))[at + 1..]
  {
    hide CStr, IndexOf;
    ghost var b := a[..];
    ghost var len := |CStr(b)|;
    BufferString(b);
    var ch := at;
    while true
      invariant at <= ch < len
      invariant a[..at] == b[..at] && a[at..ch] == b[at + 1..ch + 1] && a[ch..] == b[ch..]
      decreases len - ch
    {
      assert a[ch + 1..] == a[ch..][1..] && b[ch + 1..] == b[ch..][1..];
      assert a[ch + 1] == b[ch + 1..][0];
      a[ch] := a[ch + 1];
      assert a[at..ch + 1] == a[at..ch] + [b[ch + 1]];
      if a[ch + 1] == '\0' {
        break;
      }
      assert a[ch + 1..] == b[ch + 1..];
      ch := ch + 1;
    }
    assert a[at..len] == a[at..ch] + [b[len]];
    ShiftedString(b, a[..], at);
  }

  // Each run of slashes reduced to one.
  function Collapse(s: string): string {
    if |s| < 2 then s
    else if s[..2] == "//" then Collapse(s[1..])
    else [s[0]] + Collapse(s[1..])
  }

  lemma {:induction false} CollapseDrop(s: string, i: nat)
    requires OccursAt(s, "//", i)
    ensures Collapse(s[..i + 1] + s[i + 2..]) == Collapse(s)
  {
    var t := s[..i + 1] + s[i + 2..];
    if i == 0 {
      assert t == s[1..];
    } else {
      assert s[1..][i - 1..i + 1] == s[i..i + 2];
      CollapseDrop(s[1..], i - 1);
      assert t[1..] == s[1..][..i] + s[1..][i + 1..];
      assert t[..2] == s[..2];
    }
  }

  lemma {:induction false} CollapseNothing(s: string)
    requires !Occurs(s, "//")
    ensures Collapse(s) == s
  {
    if |s| >= 2 {
      assert !OccursAt(s, "//", 0);
      forall i: nat | OccursAt(s[1..], "//", i)
        ensures false
      {
        assert s[i + 1..i + 3] == s[1..][i..i + 2];
        assert OccursAt(s, "//", i + 1);
      }
      CollapseNothing(s[1..]);
    }
  }

  // The search resumes at the last hit, not at the start of the buffer, and
  // loses no occurrence.
  method RemoveDoubleSlashes(a: array<char>)
    requires Terminated(a[..])
    modifies a
    ensures Terminated(a[..])
    ensures CStr(a[..]) == Collapse(old(CStr(a[..])))
    ensures !Occurs(CStr(a[..]), "//")
  {
    ghost var s := CStr(a[..]);
    var path: nat := 0;
    while true
      invariant Terminated(a[..]) && path <= |CStr(a[..])|
      invariant Collapse(CStr(a[..])) == Collapse(s)
      invariant forall i: nat :: i < path ==> !OccursAt(CStr(a[..]), "//", i)
      decreases |CStr(a[..])|
    {
      ghost var t := CStr(a[..]);
      var hit := Find(CStr(a[..]), "//", path);
      if hit.None? {
        break;
      }
      var p := hit.value;
      CollapseDrop(t, p);
      ShiftLeft(a, p + 1);
      PrefixKeepsClear(t, p);
      path := p;
    }
    CollapseNothing(CStr(a[..]));
  }

  lemma PrefixKeepsClear(t: string, p: nat)
    requires OccursAt(t, "//", p)
    requires forall i: nat :: i < p ==> !OccursAt(t, "//", i)
    ensures var u := t[..p + 1] + t[p + 2..]; forall i: nat :: i < p ==> !OccursAt(u, "//", i)
  {
    var u := t[..p + 1] + t[p + 2..];
    forall i: nat | i < p
      ensures !OccursAt(u, "//", i)
    {
      assert !OccursAt(t, "//", i);
      assert u[i..i + 2] == t[i..i + 2];
    }
  }

  function NonEmpty(cs: seq<string>): seq<string> {
    if cs == [] then [] else (if cs[0] == "" then [] else [cs[0]]) + NonEmpty(cs[1..])
  }

  // Collapsing keeps the components the path is made of.
  lemma {:induction false} CollapseKeepsComponents(s: string)
    ensures NonEmpty(Split(Collapse(s))) == NonEmpty(Split(s))
    ensures s != "" ==> Collapse(s) != "" && Collapse(s)[0] == s[0]
    ensures s != "" ==> (Split(Collapse(s))[0] == Split(s)[0])
  {
    hide Split, NonEmpty;
    if |s| >= 2 {
      CollapseKeepsComponents(s[1..]);
      SplitFirst(s);
      var t := Collapse(s[1..]);
      var x, y := Split(s[1..]), Split(t);
      SameFront(s[0], x, y);
      if s[..2] == "//" {
        SplitFirst(s[1..]);
        assert s[..2][0] == '/' && s[..2][1] == '/';
        assert s[0] == '/' && s[1] == '/';
      } else {
        SplitFirst([s[0]] + t);
        assert ([s[0]] + t)[1..] == t;
      }
    }
  }

  // Lists of the same first element and the same non-empty elements, each with
  // a character, or an empty element, put in front.
  lemma SameFront(c: char, x: seq<string>, y: seq<string>)
    requires |x| > 0 && |y| > 0 && x[0] == y[0] && NonEmpty(x) == NonEmpty(y)
    ensures NonEmpty([[c] + x[0]] + x[1..]) == NonEmpty([[c] + y[0]] + y[1..])
    ensures NonEmpty([""] + x) == NonEmpty(x) && NonEmpty([""] + y) == NonEmpty(y)
  {
    hide NonEmpty;
    NonEmptyCons(x[0], x[1..]);
    NonEmptyCons(y[0], y[1..]);
    assert x == [x[0]] + x[1..] && y == [y[0]] + y[1..];
    var h := if x[0] == "" then [] else [x[0]];
    assert (h + NonEmpty(x[1..]))[|h|..] == NonEmpty(x[1..]);
    assert (h + NonEmpty(y[1..]))[|h|..] == NonEmpty(y[1..]);
    NonEmptyCons([c] + x[0], x[1..]);
    NonEmptyCons([c] + y[0], y[1..]);
    NonEmptyCons("", x);
    NonEmptyCons("", y);
  }

  lemma NonEmptyCons(c: string, cs: seq<string>)
    ensures NonEmpty([c] + cs) == (if c == "" then [] else [c]) + NonEmpty(cs)
  {
    assert ([c] + cs)[1..] == cs;
  }

  // Splitting seen from the first character.
  lemma SplitFirst(s: string)
    requires s != ""
    ensures Split(s) == if s[0] == '/' then [""] + Split(s[1..])
                        else [[s[0]] + Split(s[1..])[0]] + Split(s[1..])[1..]
  {
    hide Split, IndexOf;
    var r := s[1..];
    if s[0] == '/' {
      SplitCons("", r);
      assert s == "" + "/" + r;
    } else {
      var i := IndexOf(r, '/');
      assert s[..i + 1] == [s[0]] + r[..i];
      assert i < |r| ==> s[i + 1] == r[i];
      IndexOfUnique(s, '/', i + 1);
      SplitIs(s);
      SplitIs(r);
      assert i < |r| ==> s[i + 2..] == r[i + 1..];
      assert i == |r| ==> s[..i + 1] == s && r[..i] == r;
    }
  }

  // ------------------------------------------------------------------
  // Parent directories as meant
  // ------------------------------------------------------------------

  predicate EndsInDots(s: string) {
    |s| >= 2 && s[|s| - 2] == '.' && s[|s| - 1] == '.'
  }

  // No "../" anywhere.
  ghost predicate NoParent(s: string) {
    forall i, j, k :: 0 <= i && j == i + 1 && k == i + 2 && k < |s| ==> !(s[i] == '.' && s[j] == '.' && s[k] == '/')
  }

  lemma NoParentMeans(s: string)
    ensures NoParent(s) <==> !Occurs(s, "../")
  {
    if Occurs(s, "../") {
      var i: nat :| i <= |s| && OccursAt(s, "../", i);
      Chars3(s, "../", i);
    }
    if !NoParent(s) {
      var i, j, k :| 0 <= i && j == i + 1 && k == i + 2 && k < |s| && s[i] == '.' && s[j] == '.' && s[k] == '/';
      Chars3(s, "../", i);
    }
  }

  predicate BeginsInDots(c: string) {
    |c| >= 2 && c[0] == '.' && c[1] == '.'
  }

  // No "/.." anywhere.
  ghost predicate NoUp(s: string) {
    forall i, j, k :: 0 <= i && j == i + 1 && k == i + 2 && k < |s| ==> !(s[i] == '/' && s[j] == '.' && s[k] == '.')
  }

  lemma NoUpMeans(s: string)
    ensures NoUp(s) <==> !Occurs(s, "/..")
  {
    if Occurs(s, "/..") {
      var i: nat :| i <= |s| && OccursAt(s, "/..", i);
      Chars3(s, "/..", i);
    }
    if !NoUp(s) {
      var i, j, k :| 0 <= i && j == i + 1 && k == i + 2 && k < |s| && s[i] == '/' && s[j] == '.' && s[k] == '.';
      Chars3(s, "/..", i);
    }
  }

  // A slash put after what has been read: two dots before it become a slash,
  // which may meet two further dots.
  function PushSlash(out: string): (r: string)
    ensures r != "" && r[|r| - 1] == '/'
  {
    if EndsInDots(out) then PushSlash(out[..|out| - 2]) + "/" else out + "/"
  }

  function Scan(out: string, s: string): string
    decreases |s|
  {
    if s == "" then out
    else if s[0] == '/' then Scan(PushSlash(out), s[1..])
    else Scan(out + [s[0]], s[1..])
  }

  // The first loop: every "../" replaced by "//" until none is left.
  function ParentMarks(s: string): string {
    Scan("", s)
  }

  // The second loop: a final "/.." replaced by "//".
  function FinalParent(s: string): string {
    if |s| >= 3 && OccursAt(s, "/..", |s| - 3) then s[..|s| - 3] + "//" else s
  }

  function DirparentU2A(s: string): string {
    FinalParent(ParentMarks(s))
  }

  lemma {:induction false} ScanConcat(out: string, x: string, y: string)
    ensures Scan(out, x + y) == Scan(Scan(out, x), y)
    decreases |x|
  {
    if x == "" {
      assert x + y == y;
    } else {
      assert (x + y)[1..] == x[1..] + y;
      ScanConcat(if x[0] == '/' then PushSlash(out) else out + [x[0]], x[1..], y);
    }
  }

  lemma ScanTwo(o: string, c: char, y: string)
    ensures Scan(o, [c] + y) == if c == '/' then Scan(PushSlash(o), y) else Scan(o + [c], y)
  {
    assert ([c] + y)[1..] == y;
  }

  // Reading "../" has the effect of reading "//".
  lemma ScanPair(o: string, y: string)
    ensures Scan(o, "../" + y) == Scan(PushSlash(o) + "/", y)
    ensures Scan(o, "//" + y) == Scan(PushSlash(o) + "/", y)
  {
    var d := o + ['.'] + ['.'];
    assert d[..|d| - 2] == o;
    var y1 := ['/'] + y;
    var y2 := ['.'] + y1;
    assert "../" + y == ['.'] + y2 && "//" + y == ['/'] + y1;
    ScanTwo(o, '.', y2);
    ScanTwo(o + ['.'], '.', y1);
    ScanTwo(d, '/', y);
    ScanTwo(o, '/', y1);
    ScanTwo(PushSlash(o), '/', y);
  }

  // One replacement does not change where the loop is heading.
  lemma ScanReplace(s: string, i: nat)
    requires OccursAt(s, "../", i)
    ensures ParentMarks(s[..i] + "//" + s[i + 3..]) == ParentMarks(s)
  {
    var x, y := s[..i], s[i + 3..];
    assert s == x + ("../" + y);
    assert x + "//" + y == x + ("//" + y);
    ScanConcat("", x, "../" + y);
    ScanConcat("", x, "//" + y);
    ScanPair(Scan("", x), y);
  }

  lemma {:induction false} ScanNothing(out: string, s: string)
    requires NoParent(out + s)
    ensures Scan(out, s) == out + s
    decreases |s|
  {
    if s != "" {
      assert out + s == out + [s[0]] + s[1..];
      var t := out + s;
      assert t[|out|] == s[0];
      assert EndsInDots(out) ==> t[|out| - 2] == '.' && t[|out| - 1] == '.';
      ScanNothing(out + [s[0]], s[1..]);
    }
  }

  lemma ParentMarksNothing(t: string)
    requires !Occurs(t, "../")
    ensures ParentMarks(t) == t
  {
    NoParentMeans(t);
    assert "" + t == t;
    ScanNothing("", t);
  }

  // pathstr_dirparent_u2a, first loop; n counts the replacements.
  method ParentMarksInPlace(a: array<char>) returns (n: nat)
    requires Terminated(a[..])
    modifies a
    ensures Terminated(a[..])
    ensures CStr(a[..]) == ParentMarks(old(CStr(a[..])))
    ensures !Occurs(CStr(a[..]), "../")
    ensures |CStr(a[..])| + n == |old(CStr(a[..]))|
  {
    hide Find, ParentMarks, IndexOf;
    n := 0;
    while true
      invariant Terminated(a[..])
      invariant ParentMarks(CStr(a[..])) == ParentMarks(old(CStr(a[..])))
      invariant |CStr(a[..])| + n == |old(CStr(a[..]))|
      decreases |CStr(a[..])|
    {
      var hit := Find(CStr(a[..]), "../", 0);
      if hit.None? {
        break;
      }
      ghost var t := CStr(a[..]);
      var p := hit.value;
      Chars3(t, "../", p);
      SlashOver(a, p);
      assert t[..p] + "/" + t[p + 2..] == t[..p] + "//" + t[p + 3..];
      ScanReplace(t, p);
      n := n + 1;
    }
    ParentMarksNothing(CStr(a[..]));
  }

  // *parentptr = '/' and the shift of what is behind the next cell.
  method SlashOver(a: array<char>, q: nat)
    requires Terminated(a[..]) && q + 1 < |CStr(a[..])|
    modifies a
    ensures Terminated(a[..])
    ensures CStr(a[..]) == old(CStr(a[..]))[..q] + "/" + old(CStr(a[..]))[q + 2..]
  {
    hide IndexOf;
    ghost var s := CStr(a[..]);
    a[q] := '/';
    CStrUnique(a[..], s[q := '/']);
    ShiftLeft(a, q + 1);
  }

  // pathstr_dirparent_u2a, second loop; k counts the replacements.
  method FinalParentInPlace(a: array<char>) returns (k: nat)
    requires Terminated(a[..]) && !Occurs(CStr(a[..]), "../")
    modifies a
    ensures Terminated(a[..])
    ensures CStr(a[..]) == FinalParent(old(CStr(a[..])))
    ensures |CStr(a[..])| + k == |old(CStr(a[..]))|
  {
    hide IndexOf, Find, OccursAt;
    k := 0;
    ghost var s := CStr(a[..]);
    var from: nat := 0;
    while true
      invariant Terminated(a[..]) && CStr(a[..]) == s && from <= |s|
      invariant |s| >= 3 && OccursAt(s, "/..", |s| - 3) ==> from <= |s| - 3
      decreases |s| - from
    {
      var hit := Find(CStr(a[..]), "/..", from);
      if hit.None? {
        break;
      }
      var p := hit.value;
      Chars3(s, "/..", p);
      BufferString(a[..]);
      if a[p + 3] == '\0' {
        SlashOver(a, p + 1);
        assert s[..p + 1] + "/" + s[p + 3..] == s[..p] + "//";
        return 1;
      }
      from := p + 1;
    }
  }

  // pathstr_dirparent_u2a: the string gets shorter by one character for each
  // of the n replacements of the two loops.
  method DirparentU2AInPlace(a: array<char>) returns (n: nat)
    requires Terminated(a[..])
    modifies a
    ensures Terminated(a[..])
    ensures CStr(a[..]) == DirparentU2A(old(CStr(a[..])))
    ensures |CStr(a[..])| + n == |old(CStr(a[..]))|
  {
    n := ParentMarksInPlace(a);
    var k := FinalParentInPlace(a);
    n := n + k;
  }

  // ------------------------------------------------------------------
  // What the meant rewriting yields, on every string
  // ------------------------------------------------------------------

  // The first loop read component by component: a component with k trailing
  // dots keeps k % 2 of them and is followed by k / 2 + 1 slashes, the last
  // component is left alone. Hence ".." becomes an extra slash, and a name is
  // unharmed exactly when it does not end in two dots.
  function TrailingDots(c: string): (k: nat)
    ensures k <= |c|
  {
    if c != "" && c[|c| - 1] == '.' then 1 + TrailingDots(c[..|c| - 1]) else 0
  }

  function Slashes(n: nat): string {
    seq(n, _ => '/')
  }

  function Marked(c: string): string {
    c[..|c| - TrailingDots(c) / 2 * 2] + Slashes(TrailingDots(c) / 2 + 1)
  }

  function MarkedJoin(cs: seq<string>): string
    requires |cs| > 0
  {
    if |cs| == 1 then cs[0] else Marked(cs[0]) + MarkedJoin(cs[1..])
  }

  lemma {:induction false} PushComponent(out: string, c: string)
    requires '/' !in c
    requires out == "" || out[|out| - 1] == '/'
    ensures PushSlash(out + c) == out + Marked(c)
    decreases |c|
  {
    hide Marked, TrailingDots, Slashes;
    var o := out + c;
    if EndsInDots(c) {
      var d := c[..|c| - 2];
      PushComponent(out, d);
      assert o[..|o| - 2] == out + d;
      MarkedDots(c);
      assert (out + Marked(d)) + "/" == out + Marked(c);
    } else {
      assert !EndsInDots(o);
      MarkedPlain(c);
      assert o + "/" == out + (c + "/");
    }
  }

  lemma MarkedPlain(c: string)
    requires !EndsInDots(c)
    ensures Marked(c) == c + "/"
  {
    assert TrailingDots(c) < 2;
    assert Slashes(1) == "/";
  }

  lemma MarkedDots(c: string)
    requires EndsInDots(c)
    ensures Marked(c) == Marked(c[..|c| - 2]) + "/"
  {
    var d := c[..|c| - 2];
    var k := TrailingDots(d);
    assert c[..|c| - 1][..|c| - 2] == d;
    assert TrailingDots(c) == k + 2;
    assert (k + 2) / 2 == k / 2 + 1;
    assert c[..|c| - (k + 2) / 2 * 2] == d[..|d| - k / 2 * 2];
    assert Slashes(k / 2 + 2) == Slashes(k / 2 + 1) + "/";
  }

  lemma {:induction false} ScanComponent(out: string, c: string)
    requires '/' !in c
    ensures Scan(out, c) == out + c
    decreases |c|
  {
    if c != "" {
      ScanComponent(out + [c[0]], c[1..]);
      assert out + [c[0]] + c[1..] == out + c;
    }
  }

  lemma ScanStep(out: string, c: string, r: string)
    requires '/' !in c
    requires out == "" || out[|out| - 1] == '/'
    ensures Scan(out, c + (['/'] + r)) == Scan(out + Marked(c), r)
  {
    ScanConcat(out, c, ['/'] + r);
    ScanComponent(out, c);
    ScanTwo(out + c, '/', r);
    PushComponent(out, c);
  }

  lemma MarkedEnds(c: string)
    ensures Marked(c) != "" && Marked(c)[|Marked(c)| - 1] == '/'
  {
  }

  lemma {:induction false} ScanByComponents(out: string, cs: seq<string>)
    requires |cs| > 0 && forall i :: 0 <= i < |cs| ==> '/' !in cs[i]
    requires out == "" || out[|out| - 1] == '/'
    ensures Scan(out, Join(cs)) == out + MarkedJoin(cs)
    decreases |cs|
  {
    if |cs| == 1 {
      ScanComponent(out, cs[0]);
    } else {
      var r := Join(cs[1..]);
      var m := Marked(cs[0]);
      var t := MarkedJoin(cs[1..]);
      assert Join(cs) == cs[0] + (['/'] + r);
      ScanStep(out, cs[0], r);
      MarkedEnds(cs[0]);
      ScanByComponents(out + m, cs[1..]);
      assert (out + m) + t == out + (m + t);
    }
  }

  lemma ParentMarksByComponents(s: string)
    ensures ParentMarks(s) == MarkedJoin(Split(s))
  {
    JoinSplit(s);
    ScanByComponents("", Split(s));
    assert "" + MarkedJoin(Split(s)) == MarkedJoin(Split(s));
  }

  // The first loop leaves no "../" ...
  lemma {:induction false} ScanLeavesNone(out: string, s: string)
    requires NoParent(out)
    ensures NoParent(Scan(out, s))
    decreases |s|
  {
    if s != "" {
      if s[0] == '/' {
        PushLeavesNone(out);
        ScanLeavesNone(PushSlash(out), s[1..]);
      } else {
        ScanLeavesNone(out + [s[0]], s[1..]);
      }
    }
  }

  lemma {:induction false} PushLeavesNone(out: string)
    requires NoParent(out)
    ensures NoParent(PushSlash(out))
    decreases |out|
  {
    if EndsInDots(out) {
      PushLeavesNone(out[..|out| - 2]);
    }
  }

  // ... and the whole rewriting contains no "../", does not end in "/..", and
  // changes nothing when applied again.
  lemma DirparentU2ASettles(s: string)
    ensures !Occurs(DirparentU2A(s), "../")
    ensures |DirparentU2A(s)| >= 3 ==> !OccursAt(DirparentU2A(s), "/..", |DirparentU2A(s)| - 3)
    ensures DirparentU2A(DirparentU2A(s)) == DirparentU2A(s)
  {
    hide Scan, OccursAt, Occurs;
    var m := ParentMarks(s);
    var r := FinalParent(m);
    ScanLeavesNone("", s);
    if |m| >= 3 {
      Chars3(m, "/..", |m| - 3);
    }
    if |r| >= 3 {
      Chars3(r, "/..", |r| - 3);
    }
    assert NoParent(r);
    NoParentMeans(r);
    ParentMarksNothing(r);
  }

  ghost predicate NoDouble(s: string) {
    forall i, j :: 0 <= i && j == i + 1 && j < |s| ==> !(s[i] == '/' && s[j] == '/')
  }

  lemma NoDoubleMeans(s: string)
    ensures NoDouble(s) <==> !Occurs(s, "//")
  {
    if Occurs(s, "//") {
      var i: nat :| i <= |s| && OccursAt(s, "//", i);
      Chars2(s, "//", i);
    }
    if !NoDouble(s) {
      var i, j :| 0 <= i && j == i + 1 && j < |s| && s[i] == '/' && s[j] == '/';
      Chars2(s, "//", i);
    }
  }

  lemma {:induction false} CollapseNoDouble(s: string)
    ensures NoDouble(Collapse(s))
    ensures s != "" ==> Collapse(s) != "" && Collapse(s)[0] == s[0]
  {
    if |s| >= 2 {
      CollapseNoDouble(s[1..]);
      assert s[..2] == [s[0], s[1]];
    }
  }

  lemma CollapseSettles(s: string)
    ensures !Occurs(Collapse(s), "//")
    ensures Collapse(Collapse(s)) == Collapse(s)
  {
    CollapseNoDouble(s);
    NoDoubleMeans(Collapse(s));
    CollapseNothing(Collapse(s));
  }

  // pathstr_fuse2amigados as meant: whatever the string, the call ends, no
  // "../" is left, and converting the parents once more changes nothing.
  method Fuse2AmigaDosInPlace(a: array<char>)
    requires Terminated(a[..])
    modifies a
    ensures Terminated(a[..])
    ensures CStr(a[..]) == DirparentU2A(Collapse(old(CStr(a[..]))))
    ensures !Occurs(CStr(a[..]), "../") && DirparentU2A(CStr(a[..])) == CStr(a[..])
    ensures |CStr(a[..])| <= |old(CStr(a[..]))|
  {
    hide Occurs, DirparentU2A, Collapse;
    DirparentU2ASettles(Collapse(CStr(a[..])));
    CollapseShortens(CStr(a[..]));
    RemoveDoubleSlashes(a);
    var _ := DirparentU2AInPlace(a);
  }

  lemma {:induction false} CollapseShortens(s: string)
    ensures |Collapse(s)| <= |s|
    decreases |s|
  {
    if |s| >= 2 {
      CollapseShortens(s[1..]);
    }
  }

  lemma SlashesAgree(s: string)
    requires RemoveDoubleSlashesW(s).Some?
    ensures RemoveDoubleSlashesW(s).value == Collapse(s)
  {
    var hit := Find(s, "//", 0);
    if hit.Some? {
      var i := hit.value;
      var t := s[..i + 1] + s[i + 2..];
      CollapseDrop(s, i);
      PrefixKeepsClear(s, i);
      assert t == s[..i + 1];
      forall k: nat
        ensures !OccursAt(t, "//", k)
      {
        assert k < i ==> !OccursAt(t, "//", k);
      }
      CollapseNothing(t);
    } else {
      CollapseNothing(s);
    }
  }

  lemma ParentsAgree(t: string)
    requires DirparentU2AW(t).Some?
    ensures DirparentU2AW(t).value == DirparentU2A(t)
  {
    ParentMarksNothing(t);
    var last := Find(t, "/..", 0);
    if last.None? && |t| >= 3 {
      assert !OccursAt(t, "/..", |t| - 3);
    }
  }

  // Whenever the code as written returns, it returns what was meant.
  lemma WrittenAgreesWithMeant(s: string)
    requires Fuse2AmigaDosW(s).Some?
    ensures Fuse2AmigaDosW(s).value == DirparentU2A(Collapse(s))
  {
    SlashesAgree(s);
    ParentsAgree(Collapse(s));
  }
}
