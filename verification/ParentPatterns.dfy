// Which "/.." are left by the meant parent conversion of src/util.h: read off
// the components of the path.
module ParentPatterns {
  import opened PathStrings
  import opened PathRewrite

  predicate AllDots(c: string) {
    forall i :: 0 <= i < |c| ==> c[i] == '.'
  }

  // A piece that follows a slash: the patterns of the whole are those of the
  // two parts, and one where they meet if the piece begins with two dots.
  lemma NoUpConcat(a: string, b: string)
    requires a != "" && a[|a| - 1] == '/'
    ensures NoUp(a + b) <==> NoUp(a) && NoUp(b) && !BeginsInDots(b)
  {
    var s := a + b;
    if !NoUp(a) {
      var i, j, k :| 0 <= i && j == i + 1 && k == i + 2 && k < |a| && a[i] == '/' && a[j] == '.' && a[k] == '.';
      assert s[i] == a[i] && s[j] == a[j] && s[k] == a[k];
    }
    if !NoUp(b) {
      var i, j, k :| 0 <= i && j == i + 1 && k == i + 2 && k < |b| && b[i] == '/' && b[j] == '.' && b[k] == '.';
      assert s[|a| + i] == b[i] && s[|a| + j] == b[j] && s[|a| + k] == b[k];
    }
    if BeginsInDots(b) {
      assert s[|a| - 1] == '/' && s[|a|] == '.' && s[|a| + 1] == '.';
    }
    if !NoUp(s) {
      var i, j, k :| 0 <= i && j == i + 1 && k == i + 2 && k < |s| && s[i] == '/' && s[j] == '.' && s[k] == '.';
      if k < |a| {
        assert a[i] == '/' && a[j] == '.' && a[k] == '.';
      } else if i >= |a| {
        assert b[i - |a|] == '/' && b[j - |a|] == '.' && b[k - |a|] == '.';
      } else {
        assert i == |a| - 1;
        assert b[0] == s[j] && b[1] == s[k];
      }
    }
  }

  lemma {:induction false} TrailingDotsAre(c: string)
    ensures forall i :: |c| - TrailingDots(c) <= i < |c| ==> c[i] == '.'
    ensures TrailingDots(c) < |c| ==> c[|c| - TrailingDots(c) - 1] != '.'
  {
    if c != "" && c[|c| - 1] == '.' {
      TrailingDotsAre(c[..|c| - 1]);
    }
  }

  // What is left of a component has no slash in front of dots, and begins with
  // two dots iff the component does and is not made of dots only.
  lemma MarkedBegins(c: string, t: string)
    requires '/' !in c
    ensures NoUp(Marked(c)) && Marked(c) != "" && Marked(c)[|Marked(c)| - 1] == '/'
    ensures BeginsInDots(Marked(c) + t) <==> BeginsInDots(c) && !AllDots(c)
  {
    TrailingDotsAre(c);
    var k := TrailingDots(c);
    var kept := c[..|c| - k / 2 * 2];
    assert Marked(c) == kept + Slashes(k / 2 + 1);
    hide TrailingDots, Slashes;
    SlashesAre(k / 2 + 1);
    if k == |c| {
      assert AllDots(c) && |kept| == k % 2;
    } else {
      assert c[|c| - k - 1] == kept[|c| - k - 1] != '.';
      assert !AllDots(c);
    }
    hide Marked;
  }

  lemma SlashesAre(n: nat)
    ensures |Slashes(n)| == n && forall i :: 0 <= i < n ==> Slashes(n)[i] == '/'
  {
  }

  // The component i begins with two dots also after the first loop; the last
  // component is left alone by it.
  predicate Begins(cs: seq<string>, i: nat)
    requires i < |cs|
  {
    BeginsInDots(cs[i]) && (i + 1 < |cs| ==> !AllDots(cs[i]))
  }

  lemma {:induction false} MarkedJoinUp(cs: seq<string>)
    requires |cs| > 0 && forall i :: 0 <= i < |cs| ==> '/' !in cs[i]
    ensures BeginsInDots(MarkedJoin(cs)) <==> Begins(cs, 0)
    ensures NoUp(MarkedJoin(cs)) <==> forall i :: 1 <= i < |cs| ==> !Begins(cs, i)
    decreases |cs|
  {
    hide NoUp, Marked, BeginsInDots, AllDots;
    if |cs| == 1 {
      NoSlashNoUp(cs[0]);
    } else {
      var rest := cs[1..];
      MarkedBegins(cs[0], MarkedJoin(rest));
      NoUpConcat(Marked(cs[0]), MarkedJoin(rest));
      MarkedJoinUp(rest);
      assert forall i :: 1 <= i < |cs| ==> (Begins(cs, i) <==> Begins(rest, i - 1));
      assert forall i :: 0 <= i < |rest| ==> (Begins(rest, i) <==> Begins(cs, i + 1));
    }
  }

  lemma NoSlashNoUp(c: string)
    requires '/' !in c
    ensures NoUp(c)
  {
  }

  // The last component stands behind what the first loop makes of the others.
  lemma {:induction false} LastPiece(cs: seq<string>)
    requires |cs| > 0
    ensures MarkedJoin(cs) == MarkedJoin(cs[..|cs| - 1] + [""]) + cs[|cs| - 1]
    ensures |cs| > 1 ==> MarkedJoin(cs[..|cs| - 1] + [""]) != ""
    ensures var h := MarkedJoin(cs[..|cs| - 1] + [""]); h != "" ==> |cs| > 1 && h[|h| - 1] == '/'
    decreases |cs|
  {
    hide Marked, MarkedJoin;
    var init := cs[..|cs| - 1] + [""];
    var last := cs[|cs| - 1];
    MarkedJoinIs(cs);
    MarkedJoinIs(init);
    if |cs| == 1 {
      assert init == [""] && [] + last == last;
    } else {
      var m := Marked(cs[0]);
      MarkedEnds(cs[0]);
      LastPiece(cs[1..]);
      assert init[1..] == cs[1..][..|cs[1..]| - 1] + [""] && init[0] == cs[0];
      BehindLast(m, MarkedJoin(init[1..]), last);
    }
  }

  lemma MarkedJoinIs(cs: seq<string>)
    requires |cs| > 0
    ensures MarkedJoin(cs) == if |cs| == 1 then cs[0] else Marked(cs[0]) + MarkedJoin(cs[1..])
  {
    hide Marked;
  }

  lemma BehindLast(m: string, h: string, last: string)
    requires m != "" && m[|m| - 1] == '/' && (h != "" ==> h[|h| - 1] == '/')
    ensures m + (h + last) == (m + h) + last && m + h != "" && (m + h)[|m + h| - 1] == '/'
  {
  }

  // A string h + c, where h ends in a slash or is empty, ends in "/.." iff c is
  // ".." behind a slash.
  lemma EndsUpExactly(h: string, c: string)
    requires '/' !in c && (h != "" ==> h[|h| - 1] == '/')
    ensures var m := h + c; (|m| >= 3 && OccursAt(m, "/..", |m| - 3)) <==> h != "" && c == ".."
  {
    hide OccursAt;
    var m := h + c;
    if |m| >= 3 {
      Chars3(m, "/..", |m| - 3);
      LastThree(h, c);
      assert "/.."[0] == '/' && "/.."[1] == '.' && "/.."[2] == '.';
    } else {
      assert |h| + |c| < 3;
      assert c == ".." ==> |c| == 2;
    }
  }

  lemma LastThree(h: string, c: string)
    requires '/' !in c && (h != "" ==> h[|h| - 1] == '/') && |h + c| >= 3
    ensures var m := h + c;
            m[|m| - 3] == '/' && m[|m| - 2] == '.' && m[|m| - 1] == '.' <==> h != "" && c == ".."
  {
    var m := h + c;
    if |c| >= 3 {
      assert m[|m| - 3] == c[|c| - 3];
    } else if |c| == 2 {
      assert c == [c[0], c[1]] && m[|m| - 2] == c[0] && m[|m| - 1] == c[1];
      assert m[|m| - 3] == h[|h| - 1];
    } else if |c| == 1 {
      assert m[|m| - 2] == h[|h| - 1];
    } else {
      assert m[|m| - 1] == h[|h| - 1];
    }
  }

  // The component i leaves a "/.." behind: it begins with two dots, and is
  // neither a final "..", which becomes a slash, nor an inner one made of dots
  // only, of which at most one is left.
  predicate LeavesUp(cs: seq<string>, i: nat)
    requires i < |cs|
  {
    BeginsInDots(cs[i]) && if i + 1 == |cs| then cs[i] != ".." else !AllDots(cs[i])
  }

  // Exactly which strings still have a "/.." after the conversion.
  lemma ParentPatternLeft(s: string)
    ensures Occurs(DirparentU2A(s), "/..") <==> exists i :: 1 <= i < |Split(s)| && LeavesUp(Split(s), i)
  {
    hide NoUp, Marked, MarkedJoin, BeginsInDots, AllDots, Split, OccursAt, Occurs, ParentMarks;
    var cs := Split(s);
    var m := MarkedJoin(cs);
    var init, last := cs[..|cs| - 1] + [""], cs[|cs| - 1];
    var h := MarkedJoin(init);
    ParentMarksByComponents(s);
    LastPiece(cs);
    EndsUpExactly(h, last);
    NoUpMeans(DirparentU2A(s));
    if |cs| > 1 && last == ".." {
      assert m[..|m| - 3] + "//" == h + "/";
      NoUpConcat(h, "/");
      SlashAlone();
      MarkedJoinUp(init);
      EmptyBegins();
      assert forall i :: 1 <= i < |cs| ==> (Begins(init, i) <==> LeavesUp(cs, i));
    } else {
      assert DirparentU2A(s) == m;
      MarkedJoinUp(cs);
      assert forall i :: 1 <= i < |cs| ==> (Begins(cs, i) <==> LeavesUp(cs, i));
    }
  }

  lemma SlashAlone()
    ensures NoUp("/") && !BeginsInDots("/")
  {
  }

  lemma EmptyBegins()
    ensures !BeginsInDots("")
  {
  }

  // In particular, when no name begins with two dots (".." being none), the
  // result contains neither "../" nor "/..".
  lemma NoParentLeft(s: string)
    requires forall i :: 0 <= i < |Split(s)| && BeginsInDots(Split(s)[i]) ==> Split(s)[i] == ".."
    ensures !Occurs(DirparentU2A(s), "../") && !Occurs(DirparentU2A(s), "/..")
  {
    hide Occurs, DirparentU2A, Split, OccursAt;
    DirparentU2ASettles(s);
    ParentPatternLeft(s);
  }
}
