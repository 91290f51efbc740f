/** What `IsSubDomain` means: on names without empty labels, both absolute or both relative, one
    name lies below another exactly when its labels end with those of the other. */
module DomainLabels {
  import opened DomainNames

  predicate EndsWithAll(xs: seq<string>, ys: seq<string>) {
    |ys| <= |xs| && xs[|xs| - |ys|..] == ys
  }

  function Ending(s: string): string {
    if EndsWithDot(s) then "." else ""
  }

  lemma BehindFirstDot(s: string, k: nat)
    requires NoEmptyLabel(s) && k < |s| && s[k] == '.'
    ensures NoEmptyLabel(s[k + 1..]) && k > 0
    ensures s == s[..k] + "." + s[k + 1..]
  {
    var r := s[k + 1..];
    if r != "" { assert !DotPair(s, k); }
    forall i | 0 <= i < |r| - 1 ensures !DotPair(r, i) { assert !DotPair(s, k + 1 + i); }
  }

  lemma DotInFront(r: string)
    requires r != "" && r[0] == '.'
    ensures Words(r) == Words(r[1..])
  {
  }

  lemma FirstWord(s: string)
    requires s != "" && s[0] != '.'
    ensures var k := FirstDot(s);
      0 < k && Words(s) == [Fold(s[..k])] + (if k < |s| then Words(s[k + 1..]) else [])
  {
    var k := FirstDot(s);
    var rest := s[k..];
    if k < |s| {
      assert rest[0] == '.' && rest[1..] == s[k + 1..];
      DotInFront(rest);
    }
  }

  lemma SomeWord(s: string)
    requires s != "" && NoEmptyLabel(s)
    ensures Words(s) != []
  {
  }

  lemma FoldDotted(l: string, r: string)
    ensures Fold(l + "." + r) == Fold(l) + "." + Fold(r)
  {
    FoldConcat(l + ".", r);
    FoldConcat(l, ".");
  }

  lemma EndingOf(l: string, r: string)
    requires r != ""
    ensures Ending(l + "." + r) == Ending(r)
  {
    var s := l + "." + r;
    assert s[|s| - 1] == r[|r| - 1];
  }

  lemma OneMoreLabel(w: string, ws: seq<string>, end: string)
    requires ws != []
    ensures Dotted([w] + ws) + end == w + "." + (Dotted(ws) + end)
  {
    assert ([w] + ws)[1..] == ws;
  }

  /** A name without empty labels is made of its labels. */
  lemma {:induction false} MadeOfWords(s: string)
    requires NoEmptyLabel(s) && s != ""
    ensures Fold(s) == Dotted(Words(s)) + Ending(s)
    decreases |s|, 1
  {
    var k := FirstDot(s);
    FirstWord(s);
    if k == |s| {
      assert s[..k] == s && !EndsWithDot(s);
    } else {
      BehindFirstDot(s, k);
      WordThenRest(s, s[..k], s[k + 1..]);
    }
  }

  lemma {:induction false} WordThenRest(s: string, l: string, r: string)
    requires s == l + "." + r && NoEmptyLabel(r)
    requires Words(s) == [Fold(l)] + Words(r)
    ensures Fold(s) == Dotted(Words(s)) + Ending(s)
    decreases |r|, 2
  {
    FoldDotted(l, r);
    if r != "" {
      MadeOfWords(r);
      SomeWord(r);
      EndingOf(l, r);
      OneMoreLabel(Fold(l), Words(r), Ending(r));
    } else {
      assert EndsWithDot(s);
    }
  }

  lemma {:induction false} DottedSum(xs: seq<string>, ys: seq<string>)
    requires xs != [] && ys != []
    ensures Dotted(xs + ys) == Dotted(xs) + "." + Dotted(ys)
    decreases |xs|
  {
    var all := xs + ys;
    assert all[0] == xs[0] && all[1..] == xs[1..] + ys;
    if |xs| > 1 {
      DottedSum(xs[1..], ys);
    } else {
      assert all[1..] == ys;
    }
  }

  /** Whoever ends like another name, a dot in front, lies below it. */
  lemma TailFromFold(p: string, c: string, x: string)
    requires Fold(c) == x + "." + Fold(p) && p != ""
    ensures TailOf(p, c)
  {
    var k := |c| - |p|;
    assert |x| == k - 1;
    assert Fold(c)[k - 1] == '.';
    assert Lower(c[k - 1]) == '.';
    assert Fold(c) == Fold(c[..k]) + Fold(c[k..]) by {
      FoldConcat(c[..k], c[k..]);
      assert c == c[..k] + c[k..];
    }
    assert Fold(c)[k..] == Fold(p);
    assert Fold(c)[k..] == Fold(c[k..]);
  }

  lemma SubDomainByLabels(p: string, c: string)
    requires p != "" && NoEmptyLabel(p) && NoEmptyLabel(c) && (EndsWithDot(p) <==> EndsWithDot(c))
    ensures IsSubDomain(p, c) <==> EndsWithAll(Words(c), Words(p))
  {
    var ws, vs := Words(c), Words(p);
    SomeWord(p);
    if TailOf(p, c) {
      CutKeepsWords(c, p);
    }
    if EndsWithAll(ws, vs) {
      var front := ws[..|ws| - |vs|];
      assert ws == front + vs;
      assert c != "";
      MadeOfWords(p);
      MadeOfWords(c);
      if front == [] {
        assert ws == vs;
        assert c[0..] == c;
      } else {
        DottedSum(front, vs);
        assert Fold(c) == Dotted(front) + "." + Fold(p);
        TailFromFold(p, c, Dotted(front));
      }
    }
  }
}
