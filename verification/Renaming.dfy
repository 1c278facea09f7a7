// Rename end to end: when it returns, which directories it acts on, and what
// every path of the volume denotes afterwards.
module Renaming {
  import opened PathStrings
  import opened Walking
  import opened ImageState
  import opened Canonical
  import opened PathRewrite

  // ------------------------------------------------------------------
  // When the path rewriting returns
  // ------------------------------------------------------------------

  // One component in front of the printed rest.
  lemma ConsPatterns(c: string, t: string)
    requires PlainName(c) && (t == "" || t[0] == '/')
    ensures var s := "/" + c + t;
            && (NoDouble(s) <==> NoDouble(t))
            && (NoParent(s) <==> NoParent(t) && (t == "" || !EndsInDots(c)))
            && (NoUp(s) <==> NoUp(t) && !BeginsInDots(c))
  {
    ConsNoDouble(c, t);
    ConsNoParent(c, t);
    ConsNoUp(c, t);
  }

  lemma ConsChars(c: string, t: string)
    requires '/' !in c
    ensures var s := "/" + c + t;
            && s[0] == '/'
            && (forall i :: 1 <= i <= |c| ==> s[i] == c[i - 1] && s[i] != '/')
            && (forall i :: |c| < i < |s| ==> s[i] == t[i - 1 - |c|])
  {
  }

  lemma ConsNoDouble(c: string, t: string)
    requires c != "" && '/' !in c && (t == "" || t[0] == '/')
    ensures NoDouble("/" + c + t) <==> NoDouble(t)
  {
    var s := "/" + c + t;
    var o := 1 + |c|;
    ConsChars(c, t);
    if !NoDouble(t) {
      var i, j :| 0 <= i && j == i + 1 && j < |t| && t[i] == '/' && t[j] == '/';
      assert s[i + o] == t[i] && s[j + o] == t[j];
    }
    if !NoDouble(s) {
      var i, j :| 0 <= i && j == i + 1 && j < |s| && s[i] == '/' && s[j] == '/';
    }
  }

  lemma ConsNoParent(c: string, t: string)
    requires '/' !in c && (t == "" || t[0] == '/')
    ensures NoParent("/" + c + t) <==> NoParent(t) && (t == "" || !EndsInDots(c))
  {
    var s := "/" + c + t;
    var o := 1 + |c|;
    ConsChars(c, t);
    if !NoParent(t) {
      var i, j, k :| 0 <= i && j == i + 1 && k == i + 2 && k < |t| && t[i] == '.' && t[j] == '.' && t[k] == '/';
      assert s[i + o] == t[i] && s[j + o] == t[j] && s[k + o] == t[k];
    }
    if t != "" && EndsInDots(c) {
      assert s[o - 2] == '.' && s[o - 1] == '.' && s[o] == '/';
    }
    if !NoParent(s) {
      var i, j, k :| 0 <= i && j == i + 1 && k == i + 2 && k < |s| && s[i] == '.' && s[j] == '.' && s[k] == '/';
    }
  }

  lemma ConsNoUp(c: string, t: string)
    requires '/' !in c && (t == "" || t[0] == '/')
    ensures NoUp("/" + c + t) <==> NoUp(t) && !BeginsInDots(c)
  {
    var s := "/" + c + t;
    var o := 1 + |c|;
    ConsChars(c, t);
    if !NoUp(t) {
      var i, j, k :| 0 <= i && j == i + 1 && k == i + 2 && k < |t| && t[i] == '/' && t[j] == '.' && t[k] == '.';
      assert s[i + o] == t[i] && s[j + o] == t[j] && s[k + o] == t[k];
    }
    if BeginsInDots(c) {
      assert s[0] == '/' && s[1] == '.' && s[2] == '.';
    }
    if !NoUp(s) {
      var i, j, k :| 0 <= i && j == i + 1 && k == i + 2 && k < |s| && s[i] == '/' && s[j] == '.' && s[k] == '.';
    }
  }

  // No name begins with two dots and no directory on the way ends in two.
  predicate Rewritable(cs: seq<string>) {
    && (forall i :: 0 <= i < |cs| ==> !BeginsInDots(cs[i]))
    && (forall i :: 0 <= i < |cs| - 1 ==> !EndsInDots(cs[i]))
  }

  lemma {:induction false} PrintedPatterns(cs: seq<string>)
    requires PlainNames(cs) && cs != []
    ensures NoDouble(Print(cs))
    ensures NoParent(Print(cs)) && NoUp(Print(cs)) <==> Rewritable(cs)
    decreases |cs|
  {
    hide NoDouble, NoParent, NoUp, PlainName, PlainNames, EndsInDots, BeginsInDots, Rewritable, Print;
    var rest := cs[1..];
    var t := if rest == [] then "" else Print(rest);
    PrintCons(cs);
    PlainTail(cs);
    ConsPatterns(cs[0], t);
    EmptyPatterns();
    RewritableCons(cs);
    if rest != [] {
      PrintedPatterns(rest);
    }
  }

  lemma PrintCons(cs: seq<string>)
    requires cs != []
    ensures Print(cs) == "/" + cs[0] + (if cs[1..] == [] then "" else Print(cs[1..]))
  {
  }

  lemma PlainTail(cs: seq<string>)
    requires PlainNames(cs) && cs != []
    ensures PlainName(cs[0]) && PlainNames(cs[1..])
  {
  }

  lemma RewritableCons(cs: seq<string>)
    requires cs != []
    ensures Rewritable(cs) <==>
              !BeginsInDots(cs[0]) && (|cs| > 1 ==> !EndsInDots(cs[0]) && Rewritable(cs[1..]))
  {
    var rest := cs[1..];
    assert forall i :: 0 <= i < |rest| ==> rest[i] == cs[i + 1];
    assert forall i :: 1 <= i < |cs| ==> cs[i] == rest[i - 1];
  }

  lemma EmptyPatterns()
    ensures NoDouble("") && NoParent("") && NoUp("")
  {
  }

  // On a canonical directory path pathstr_fuse2amigados returns exactly when
  // no name begins with two dots and no directory on the way ends in two, and
  // then it changes nothing.
  lemma RewriteOfPrinted(cs: seq<string>)
    requires PlainNames(cs)
    ensures Fuse2AmigaDosW(Print(cs)).Some? <==> Rewritable(cs)
    ensures Fuse2AmigaDosW(Print(cs)).Some? ==> Fuse2AmigaDosW(Print(cs)).value == Print(cs)
  {
    hide Print, NoDouble, NoParent, NoUp, Fuse2AmigaDosW, OccursAt, PlainName, BeginsInDots, EndsInDots;
    var s := Print(cs);
    Fuse2AmigaDosReturns(s);
    if cs == [] {
      PrintNothing();
      ShortPatterns(s);
    } else {
      PrintedPatterns(cs);
      NoDoubleMeans(s);
      NoParentMeans(s);
      NoUpMeans(s);
      NoneOccur(s, "//");
      EndsUp(cs);
    }
  }

  lemma NoneOccur(s: string, pat: string)
    ensures !Occurs(s, pat) <==> forall i: nat :: !OccursAt(s, pat, i)
  {
  }

  lemma ShortPatterns(s: string)
    requires s == "/"
    ensures forall i: nat :: !OccursAt(s, "//", i) && !OccursAt(s, "../", i) && !OccursAt(s, "/..", i)
  {
  }

  lemma LastIsUp(d: string, n: string)
    requires '/' !in n && n != ".."
    ensures var s := d + "/" + n; |s| >= 3 ==> !OccursAt(s, "/..", |s| - 3)
  {
    var s := d + "/" + n;
    if |s| >= 3 {
      Chars3(s, "/..", |s| - 3);
      assert s[|d|] == '/' && s[|d| + 1..] == n;
      assert |n| == 2 ==> n == [n[0], n[1]];
      assert |n| > 2 ==> s[|s| - 3] == n[|n| - 3];
    }
  }

  // A final "/.." would be the component "..".
  lemma EndsUp(cs: seq<string>)
    requires PlainNames(cs) && cs != []
    ensures var s := Print(cs); |s| >= 3 ==> !OccursAt(s, "/..", |s| - 3)
    ensures (forall i: nat :: OccursAt(Print(cs), "/..", i) ==> i + 3 == |Print(cs)|) <==> !Occurs(Print(cs), "/..")
  {
    var init, n := cs[..|cs| - 1], cs[|cs| - 1];
    assert cs == init + [n];
    assert PlainName(n);
    PrintSnoc(init, n);
    hide Print, PlainNames, PlainName, OccursAt, Occurs;
    LastIsUp(if init == [] then "" else Print(init), n);
    OnlyAtEnd(Print(cs));
  }

  lemma OnlyAtEnd(s: string)
    requires |s| >= 3 ==> !OccursAt(s, "/..", |s| - 3)
    ensures (forall i: nat :: OccursAt(s, "/..", i) ==> i + 3 == |s|) <==> !Occurs(s, "/..")
  {
    forall i: nat | OccursAt(s, "/..", i)
      ensures i + 3 <= |s|
    {
      Chars3(s, "/..", i);
    }
    hide OccursAt;
  }
}
