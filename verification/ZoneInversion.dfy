/** The two lookups belong together: what the descent of the forward lookup keeps at every step,
    and that forward and reverse lookup undo each other. */
module ZoneInversion {
  import opened Wrappers
  import opened DomainNames
  import opened ZoneGraph
  import opened ZoneLookup

  // ----- what the descent keeps -----------------------------------------------------------------

  /** No nested zone is called ".", the name of the root of all names. */
  ghost predicate NoNestedRoot<R>(st: State<R>) {
    forall p, n {:trigger st.children[p][n]} | p in st.children && n in st.children[p] ::
      st.children[p][n] in st.names ==> "." !in st.names[st.children[p][n]]
  }

  lemma HopName<R>(st: State<R>, z: R, q: string, hops: seq<Hop<R>>, i: nat)
    requires NoNestedRoot(st) && Descent(st, z, q, hops) && 1 <= i < |hops|
    ensures hops[i].name != "" && hops[i].name != "." && TailOf(hops[i].name, hops[i - 1].rest)
    ensures hops[i].rest == Cut(hops[i - 1].rest, hops[i].name)
    ensures hops[i].zone in st.names && hops[i].name in st.names[hops[i].zone]
    ensures ChildOf(st, hops[i - 1].zone, hops[i].zone)
  {
    assert Follows(st, hops, i);
    var n :| n in st.children[hops[i - 1].zone] && st.children[hops[i - 1].zone][n] == hops[i].zone;
    assert hops[i].name in st.names[hops[i].zone];
  }

  lemma FirstHop<R>(st: State<R>, z: R, q: string, hops: seq<Hop<R>>)
    requires Descent(st, z, q, hops)
    ensures hops[0].name in st.names[z] && hops[0].name != ""
    ensures IsSubDomain(hops[0].name, q) && |hops[0].name| <= |q| && hops[0].rest == Cut(q, hops[0].name)
  {
  }

  lemma RestHasNoDot<R>(st: State<R>, z: R, q: string, hops: seq<Hop<R>>, i: nat)
    requires Descent(st, z, q, hops) && i < |hops|
    ensures !EndsWithDot(hops[i].rest)
  {
    if i > 0 {
      assert Follows(st, hops, i);
    }
  }

  lemma Shorter<R>(st: State<R>, z: R, q: string, hops: seq<Hop<R>>)
    requires Descent(st, z, q, hops) && |hops| > 1
    ensures Descent(st, z, q, hops[..|hops| - 1])
  {
    var h := hops[..|hops| - 1];
    forall i | 1 <= i < |h| ensures Follows(st, h, i) {
      assert Follows(st, hops, i);
    }
  }

  lemma OneMore<R>(st: State<R>, z: R, q: string, hops: seq<Hop<R>>, h: Hop<R>)
    requires Descent(st, z, q, hops) && h.zone in st.key && h.zone in st.children
    requires ChildOf(st, hops[|hops| - 1].zone, h.zone) && Fits(st, h, hops[|hops| - 1].rest)
    ensures Descent(st, z, q, hops + [h])
  {
    var all := hops + [h];
    forall i | 1 <= i < |all| ensures Follows(st, all, i) {
      if i < |hops| {
        assert Follows(st, hops, i);
      }
    }
  }

  /** At every step the labels of the zone name and of what is left make up the query: none is
      lost, doubled or reordered, empty labels and letter case aside. */
  lemma {:induction false} DescentKeepsLabels<R>(st: State<R>, z: R, q: string, hops: seq<Hop<R>>)
    requires NoNestedRoot(st) && EndsWithDot(q) && Descent(st, z, q, hops)
    ensures Words(hops[|hops| - 1].rest) + Words(ZoneNameOf(hops)) == Words(q)
    ensures EndsWithDot(ZoneNameOf(hops))
    decreases |hops|
  {
    var k := |hops| - 1;
    var h := hops[k];
    if k == 0 {
      FirstHop(st, z, q, hops);
      assert ZoneNameOf(hops[..0]) == "";
      FirstCutKeepsLabels(q, h.name);
    } else {
      Shorter(st, z, q, hops);
      DescentKeepsLabels(st, z, q, hops[..k]);
      HopName(st, z, q, hops, k);
      assert hops[..k][k - 1] == hops[k - 1];
      NextCutKeepsLabels(hops[k - 1].rest, h.name, ZoneNameOf(hops[..k]));
    }
  }

  lemma FirstCutKeepsLabels(q: string, zn: string)
    requires EndsWithDot(q) && zn != "" && IsSubDomain(zn, q) && |zn| <= |q|
    ensures Words(Cut(q, zn)) + Words(Under(zn, "")) == Words(q) && EndsWithDot(Under(zn, ""))
  {
    WordsOfUnder(zn, "");
    if zn == "." {
      DotCutKeepsLabels(q);
    } else {
      CutKeepsWords(q, zn);
    }
  }

  lemma DotCutKeepsLabels(q: string)
    requires EndsWithDot(q)
    ensures Words(Cut(q, ".")) == Words(q) && Words(".") == []
  {
    var x := q[..|q| - 1];
    assert q == x + ".";
    WordsOfDotted(x, "");
    WordsOfRdn(x);
  }

  lemma NextCutKeepsLabels(s: string, zn: string, cur: string)
    requires zn != "" && TailOf(zn, s) && EndsWithDot(cur)
    ensures Words(Cut(s, zn)) + Words(Under(zn, cur)) == Words(s) + Words(cur) && EndsWithDot(Under(zn, cur))
  {
    CutKeepsWords(s, zn);
    WordsOfUnder(zn, cur);
    UnderEnds(zn, cur);
    Associate(Words(Cut(s, zn)), Words(zn), Words(cur));
  }

  lemma Associate<T>(a: seq<T>, b: seq<T>, c: seq<T>)
    ensures (a + b) + c == a + (b + c)
  {
  }

  // ----- letter case --------------------------------------------------------------------------------

  ghost predicate SameHops<R>(hops: seq<Hop<R>>, hops1: seq<Hop<R>>) {
    |hops| == |hops1| && forall i {:trigger hops[i]} {:trigger hops1[i]} | 0 <= i < |hops| ::
      hops[i].zone == hops1[i].zone && hops[i].name == hops1[i].name && SameLetters(hops[i].rest, hops1[i].rest)
  }

  /** Queries that differ in the case of letters only are led to the same zones, under the same names. */
  lemma {:induction false} DescentAnyCase<R>(st: State<R>, z: R, q: string, q1: string, hops: seq<Hop<R>>)
    returns (hops1: seq<Hop<R>>)
    requires Descent(st, z, q, hops) && SameLetters(q, q1)
    ensures Descent(st, z, q1, hops1) && SameHops(hops, hops1)
    ensures Deepest(st, hops[|hops| - 1]) <==> Deepest(st, hops1[|hops1| - 1])
    decreases |hops|
  {
    var k := |hops| - 1;
    var h := hops[k];
    if k == 0 {
      FitsAnyCase(st, h, q, q1);
      hops1 := [Hop(z, h.name, Cut(q1, h.name))];
    } else {
      Shorter(st, z, q, hops);
      var before := DescentAnyCase(st, z, q, q1, hops[..k]);
      assert hops[..k][k - 1] == hops[k - 1] && Follows(st, hops, k);
      var s, s1 := hops[k - 1].rest, before[k - 1].rest;
      FitsAnyCase(st, h, s, s1);
      var h1 := Hop(h.zone, h.name, Cut(s1, h.name));
      hops1 := before + [h1];
      OneMore(st, z, q1, before, h1);
      SameHopsMore(hops, before, h1);
    }
    DeepestAnyCase(st, h, hops1[k]);
  }

  lemma SameHopsMore<R>(hops: seq<Hop<R>>, before: seq<Hop<R>>, h1: Hop<R>)
    requires |hops| > 1 && SameHops(hops[..|hops| - 1], before)
    requires var h := hops[|hops| - 1]; h.zone == h1.zone && h.name == h1.name && SameLetters(h.rest, h1.rest)
    ensures SameHops(hops, before + [h1])
  {
    forall i | 0 <= i < |hops|
      ensures var g := (before + [h1])[i];
        hops[i].zone == g.zone && hops[i].name == g.name && SameLetters(hops[i].rest, g.rest)
    {
      if i < |hops| - 1 { assert hops[..|hops| - 1][i] == hops[i]; }
    }
  }

  lemma FitsAnyCase<R>(st: State<R>, h: Hop<R>, s: string, s1: string)
    requires Fits(st, h, s) && SameLetters(s, s1)
    ensures var h1 := Hop(h.zone, h.name, Cut(s1, h.name));
      Fits(st, h1, s1) && SameLetters(h.rest, h1.rest)
  {
    LongestAnyCase(st.names[h.zone], s, s1);
    RdnAnyCase(s[..|s| - |h.name|], s1[..|s| - |h.name|]);
  }

  lemma DeepestAnyCase<R>(st: State<R>, h: Hop<R>, h1: Hop<R>)
    requires h.zone == h1.zone && SameLetters(h.rest, h1.rest)
    ensures Deepest(st, h) <==> Deepest(st, h1)
  {
    forall names: seq<string> {:trigger Longest(names, h.rest)} {:trigger Longest(names, h1.rest)}
      ensures Longest(names, h.rest) == Longest(names, h1.rest)
    {
      LongestAnyCase(names, h.rest, h1.rest);
    }
  }

  // ----- when putting back what is left gives the query -----------------------------------------

  /** The match takes nothing but itself and the dot in front of it: there is nothing in front, or a
      label that is not empty. The root of all names is matched without a dot in front. */
  predicate Tight(s: string, zn: string)
    requires |zn| <= |s|
  {
    var k := |s| - |zn|;
    k == 0 || if zn == "." then s[k - 1] != '.' else k >= 2 && s[k - 2] != '.'
  }

  ghost predicate TightHop<R>(q: string, hops: seq<Hop<R>>, i: nat)
    requires i < |hops|
  {
    var s := if i == 0 then q else hops[i - 1].rest;
    |hops[i].name| <= |s| && Tight(s, hops[i].name)
  }

  ghost predicate AllTight<R>(q: string, hops: seq<Hop<R>>) {
    forall i {:trigger TightHop(q, hops, i)} | 0 <= i < |hops| :: TightHop(q, hops, i)
  }

  /** `b` is `a`, up to case, or shorter. */
  predicate Remains(a: string, b: string, exact: bool) {
    |b| <= |a| && (exact ==> Same(b, a)) && (|b| == |a| ==> exact)
  }

  lemma CutTight(s: string, zn: string)
    requires zn != "" && zn != "." && TailOf(zn, s)
    ensures var r, k := Cut(s, zn), |s| - |zn|;
      (r == "" && k == 0) || (|r| + 1 <= k && (r != "" && |r| + 1 == k <==> Tight(s, zn)))
    ensures Tight(s, zn) ==> s == (if Cut(s, zn) == "" then "" else Cut(s, zn) + ".") + s[|s| - |zn|..]
  {
    var k := |s| - |zn|;
    var r := Cut(s, zn);
    RdnStrips(s[..k]);
    if k > 0 {
      assert s[..k][k - 1] == '.';
      if k >= 2 {
        assert s[..k][k - 2] == s[k - 2];
        if s[k - 2] != '.' {
          var t := s[..k - 1];
          assert t[k - 2] == s[k - 2] && s[..k] == t + ".";
          RdnUnique(s[..k], t);
        }
      }
      if |r| + 1 == k && r != "" {
        assert r[|r| - 1] == s[k - 2];
      }
    }
  }

  lemma FirstCutTight(q: string, zn: string)
    requires EndsWithDot(q) && zn != "" && IsSubDomain(zn, q) && |zn| <= |q|
    ensures Under(zn, "") == zn && Remains(q, Under(Cut(q, zn), zn), Tight(q, zn))
  {
    if zn == "." {
      var x := q[..|q| - 1];
      assert q == x + ".";
      RdnStrips(x);
      if x != "" && x[|x| - 1] != '.' {
        RdnUnique(x, x);
      }
    } else {
      CutTight(q, zn);
      var tail := q[|q| - |zn|..];
      SameEnds(tail, zn);
      var r := Cut(q, zn);
      if r != "" {
        SameBehind(r + ".", tail, zn);
      }
    }
  }

  lemma NextCutTight(s: string, zn: string, cur: string)
    requires zn != "" && TailOf(zn, s) && !EndsWithDot(s) && EndsWithDot(cur)
    ensures EndsWithDot(Under(zn, cur))
    ensures Remains(Under(s, cur), Under(Cut(s, zn), Under(zn, cur)), Tight(s, zn))
  {
    TailHasNoDot(zn, s);
    CutTight(s, zn);
    UnderEnds(zn, cur);
    UnderTwice("x", zn, cur);
    var tail := s[|s| - |zn|..];
    var r := Cut(s, zn);
    if Tight(s, zn) {
      if r == "" {
        SameUnder(s, zn, cur);
      } else {
        UnderTwice(r, zn, cur);
        SameBehind(r + ".", tail, zn);
        SameUnder(s, r + "." + zn, cur);
      }
    }
  }

  lemma RemainsFurther(a: string, b: string, c: string, exact: bool, further: bool)
    requires Remains(a, b, exact) && Remains(b, c, further)
    ensures Remains(a, c, exact && further)
  {
    assert exact ==> |b| == |a|;
  }

  lemma {:induction false} DescentTight<R>(st: State<R>, z: R, q: string, hops: seq<Hop<R>>)
    requires NoNestedRoot(st) && EndsWithDot(q) && Descent(st, z, q, hops)
    ensures Remains(q, Under(hops[|hops| - 1].rest, ZoneNameOf(hops)), AllTight(q, hops))
    ensures EndsWithDot(ZoneNameOf(hops))
    decreases |hops|
  {
    var k := |hops| - 1;
    var h := hops[k];
    if k == 0 {
      FirstHop(st, z, q, hops);
      assert ZoneNameOf(hops[..0]) == "";
      FirstCutTight(q, h.name);
      assert AllTight(q, hops) <==> TightHop(q, hops, 0);
    } else {
      Shorter(st, z, q, hops);
      DescentTight(st, z, q, hops[..k]);
      TightRound(st, z, q, hops);
      TightSoFar(q, hops);
    }
  }

  lemma TightRound<R>(st: State<R>, z: R, q: string, hops: seq<Hop<R>>)
    requires NoNestedRoot(st) && EndsWithDot(q) && Descent(st, z, q, hops) && |hops| > 1
    requires var h := hops[..|hops| - 1];
      Remains(q, Under(h[|h| - 1].rest, ZoneNameOf(h)), AllTight(q, h)) && EndsWithDot(ZoneNameOf(h))
    ensures Remains(q, Under(hops[|hops| - 1].rest, ZoneNameOf(hops)),
                    AllTight(q, hops[..|hops| - 1]) && TightHop(q, hops, |hops| - 1))
    ensures EndsWithDot(ZoneNameOf(hops))
  {
    var k := |hops| - 1;
    var s, h, cur := hops[k - 1].rest, hops[k], ZoneNameOf(hops[..k]);
    HopName(st, z, q, hops, k);
    RestHasNoDot(st, z, q, hops, k - 1);
    NextCutTight(s, h.name, cur);
    RemainsFurther(q, Under(s, cur), Under(h.rest, Under(h.name, cur)), AllTight(q, hops[..k]), Tight(s, h.name));
  }

  lemma TightSoFar<R>(q: string, hops: seq<Hop<R>>)
    requires |hops| > 1
    ensures AllTight(q, hops) <==> AllTight(q, hops[..|hops| - 1]) && TightHop(q, hops, |hops| - 1)
  {
    var k := |hops| - 1;
    forall i | 0 <= i < k ensures TightHop(q, hops[..k], i) <==> TightHop(q, hops, i) {
    }
    if AllTight(q, hops[..k]) && TightHop(q, hops, k) {
      forall i | 0 <= i < |hops| ensures TightHop(q, hops, i) {
        if i < k { assert TightHop(q, hops[..k], i); }
      }
    }
  }

  /** Putting back what is left gives the query, up to case, exactly when no match stood behind an
      empty label. */
  lemma DescentExactIff<R>(st: State<R>, z: R, q: string, hops: seq<Hop<R>>)
    requires NoNestedRoot(st) && EndsWithDot(q) && Descent(st, z, q, hops)
    ensures Same(Under(hops[|hops| - 1].rest, ZoneNameOf(hops)), q) <==> AllTight(q, hops)
  {
    DescentTight(st, z, q, hops);
    SameLength(Under(hops[|hops| - 1].rest, ZoneNameOf(hops)), q);
  }

  lemma SameLength(a: string, b: string)
    ensures Same(a, b) ==> |a| == |b|
  {
    assert |Fold(a)| == |a| && |Fold(b)| == |b|;
  }

  /** In particular for a query without empty labels, which can be told before the lookup. */
  lemma DescentExact<R>(st: State<R>, z: R, q: string, hops: seq<Hop<R>>)
    requires NoNestedRoot(st) && EndsWithDot(q) && NoEmptyLabel(q) && Descent(st, z, q, hops)
    ensures Same(Under(hops[|hops| - 1].rest, ZoneNameOf(hops)), q)
    ensures NoEmptyLabel(hops[|hops| - 1].rest) && EndsWithDot(ZoneNameOf(hops))
  {
    TightWithoutEmpty(st, z, q, hops, |hops| - 1);
    DescentTight(st, z, q, hops);
    forall i | 0 <= i < |hops| ensures TightHop(q, hops, i) {
      TightWithoutEmpty(st, z, q, hops, i);
    }
    DescentExactIff(st, z, q, hops);
  }

  lemma {:induction false} TightWithoutEmpty<R>(st: State<R>, z: R, q: string, hops: seq<Hop<R>>, i: nat)
    requires NoNestedRoot(st) && EndsWithDot(q) && NoEmptyLabel(q) && Descent(st, z, q, hops) && i < |hops|
    ensures TightHop(q, hops, i) && NoEmptyLabel(hops[i].rest)
    decreases i
  {
    if i == 0 {
      FirstHop(st, z, q, hops);
      NoEmptyIsTight(q, hops[0].name);
    } else {
      TightWithoutEmpty(st, z, q, hops, i - 1);
      HopName(st, z, q, hops, i);
      NoEmptyIsTight(hops[i - 1].rest, hops[i].name);
    }
  }

  lemma NoEmptyIsTight(s: string, zn: string)
    requires NoEmptyLabel(s) && zn != "" && |zn| <= |s| && (if zn == "." then EndsWithDot(s) else TailOf(zn, s))
    ensures Tight(s, zn) && NoEmptyLabel(Cut(s, zn))
  {
    var k := |s| - |zn|;
    var r := Cut(s, zn);
    RdnStrips(s[..k]);
    forall i | 0 <= i < |r| - 1 ensures !DotPair(r, i) {
      assert !DotPair(s, i);
    }
    if zn == "." && k >= 1 { assert !DotPair(s, k - 1); }
    if k >= 2 { assert !DotPair(s, k - 2); }
  }

  lemma SameBehind(p: string, a: string, b: string)
    requires Same(a, b)
    ensures Same(p + a, p + b)
  {
    FoldConcat(p, a);
    FoldConcat(p, b);
  }

  /** The descent of one round ends with `h`, and putting back what is left gives another name. */
  ghost predicate Inexact<R>(st: State<R>, q: string, h: Hop<R>) {
    Descent(st, h.zone, q, [h]) && !Same(Under(h.rest, ZoneNameOf([h])), q)
  }

  /** Two dots in a row in front of the zone name: the descent forgets one of them. */
  lemma EmptyLabelLost<R>(st: State<R>, z: R)
    requires z in st.key && z in st.children && z in st.names && st.names[z] == ["b.c."]
    ensures Inexact(st, "a..b.c.", Hop(z, "b.c.", "a"))
  {
    var q, h := "a..b.c.", Hop(z, "b.c.", "a");
    DotForgotten();
    assert st.names[z][..0] == [] && Longest([], q) == "";
    assert Longest(st.names[z], q) == "b.c.";
    assert [h][..0] == [] && ZoneNameOf([h]) == Under("b.c.", "");
  }

  lemma DotForgotten()
    ensures var q := "a..b.c.";
      TailOf("b.c.", q) && Cut(q, "b.c.") == "a" && !Same(Under("a", Under("b.c.", "")), q)
  {
    var q := "a..b.c.";
    assert q[3..] == "b.c." && q[..3] == "a..";
    assert Rdn("a..") == Rdn("a.") == Rdn("a") == "a" by {
      assert "a.."[..2] == "a." && "a."[..1] == "a";
    }
    assert |Under("a", "b.c.")| == 6;
    SameLength(Under("a", "b.c."), q);
  }

  // ----- the names along a path ---------------------------------------------------------------

  /** One name of every zone along the path, from the top down. */
  ghost predicate Chosen<R>(st: State<R>, z: R, path: seq<string>, ms: seq<string>)
    decreases |path|
  {
    && Follow(st, z, path).Some? && |ms| == |path| + 1 && ms[0] in st.names[z]
    && (path != [] ==> Chosen(st, st.children[z][path[0]], path[1..], ms[1..]))
  }

  /** The fully qualified name they make. */
  function NameOf(ms: seq<string>): string {
    if ms == [] then "" else NameOf(ms[1..]) + Fqdn(ms[0])
  }

  lemma {:induction false} ProductFrom<R>(st: State<R>, z: R, path: seq<string>, fqdns: seq<string>, f: string)
    returns (ms: seq<string>, g: string)
    requires Follow(st, z, path).Some? && f in Product(st, z, path, fqdns)
    ensures Chosen(st, z, path, ms) && g in fqdns && f == NameOf(ms) + g
    decreases |path|
  {
    var here := Expand(st.names[z], fqdns);
    if path == [] {
      var n: string;
      n, g := ExpandFrom(st.names[z], fqdns, f);
      ms := [n];
      NameOfOne(n);
    } else {
      var rest, h := ProductFrom(st, st.children[z][path[0]], path[1..], here, f);
      var n: string;
      n, g := ExpandFrom(st.names[z], fqdns, h);
      ms := [n] + rest;
      ChosenMore(st, z, path, n, rest);
      Regroup(f, NameOf(rest), h, Fqdn(n), g);
    }
  }

  lemma NameOfOne(n: string)
    ensures NameOf([n]) == Fqdn(n)
  {
    assert [n][1..] == [] && "" + Fqdn(n) == Fqdn(n);
  }

  lemma Regroup(f: string, a: string, h: string, b: string, g: string)
    requires f == a + h && h == b + g
    ensures f == (a + b) + g
  {
  }

  lemma ChosenMore<R>(st: State<R>, z: R, path: seq<string>, n: string, rest: seq<string>)
    requires Follow(st, z, path).Some? && path != [] && n in st.names[z]
    requires Chosen(st, st.children[z][path[0]], path[1..], rest)
    ensures Chosen(st, z, path, [n] + rest) && NameOf([n] + rest) == NameOf(rest) + Fqdn(n)
  {
    assert ([n] + rest)[1..] == rest;
  }

  lemma {:induction false} FollowSnoc<R>(st: State<R>, z: R, path: seq<string>, n: string, fqdns: seq<string>)
    requires Follow(st, z, path).Some?
    requires var w := Follow(st, z, path).value;
      n in st.children[w] && st.children[w][n] in st.children && st.children[w][n] in st.names &&
        st.children[w][n] in st.key
    ensures var c := st.children[Follow(st, z, path).value][n];
      Follow(st, z, path + [n]) == Some(c)
      && Product(st, z, path + [n], fqdns) == Expand(st.names[c], Product(st, z, path, fqdns))
    decreases |path|
  {
    var all := path + [n];
    if path == [] {
      assert all[0] == n && all[1..] == [];
    } else {
      assert all[0] == path[0] && all[1..] == path[1..] + [n];
      FollowSnoc(st, st.children[z][path[0]], path[1..], n, Expand(st.names[z], fqdns));
    }
  }

  lemma {:induction false} NameOfSnoc(ms: seq<string>)
    requires ms != []
    ensures NameOf(ms) == Fqdn(ms[|ms| - 1]) + NameOf(ms[..|ms| - 1])
    decreases |ms|
  {
    var k := |ms| - 1;
    if k == 0 {
      assert NameOf(ms[1..]) == "" && NameOf(ms[..0]) == "";
    } else {
      NameOfSnoc(ms[1..]);
      assert ms[1..][..k - 1] == ms[..k][1..];
      Associate(Fqdn(ms[k]), NameOf(ms[..k][1..]), Fqdn(ms[0]));
    }
  }

  // ----- trees in which names do not overlap ------------------------------------------------------

  ghost predicate NoOverlap(names: seq<string>) {
    forall a, b | a in names && b in names && IsSubDomain(a, b) :: a == b
  }

  /** Nested names are relative and not empty. */
  ghost predicate Relative(names: seq<string>) {
    forall m | m in names :: m != "" && !EndsWithDot(m)
  }

  /** Root names are fully qualified and not the root of all names. */
  ghost predicate Absolute(names: seq<string>) {
    forall m | m in names :: EndsWithDot(m) && m != "."
  }

  /** No name of the zone filed under `n` lies below a name of another zone beside it, or above one. */
  ghost predicate Alone<R>(st: State<R>, z: R, n: string)
    requires Closed(st) && z in st.key && n in st.children[z]
  {
    var c := st.children[z][n];
    forall m | m in st.children[z] && st.children[z][m] != c ::
      forall a, b | a in st.names[c] && b in st.names[st.children[z][m]] :: !IsSubDomain(a, b) && !IsSubDomain(b, a)
  }

  /** No name of a zone along the path lies below another name of it or of a sibling. */
  ghost predicate Clear<R>(st: State<R>, z: R, path: seq<string>)
    requires Closed(st) && z in st.key && Follow(st, z, path).Some?
    decreases |path|
  {
    NoOverlap(st.names[z]) &&
    (path != [] ==>
       Alone(st, z, path[0]) && Relative(st.names[st.children[z][path[0]]]) &&
         Clear(st, st.children[z][path[0]], path[1..]))
  }

  /** No nested zone of `w` serves the relative name. */
  ghost predicate Unshadowed<R>(st: State<R>, w: R, rel: string)
    requires Closed(st) && w in st.key
  {
    forall n | n in st.children[w] :: Longest(st.names[st.children[w][n]], rel) == ""
  }

  lemma LongestIs(names: seq<string>, s: string, m: string)
    requires NoOverlap(names) && "." !in names && m in names && m != "" && TailOf(m, s)
    ensures Longest(names, s) == m
  {
    var r := Longest(names, s);
    assert IsSubDomain(m, s) && |m| <= |r|;
    TailsNest(m, r, s);
    assert IsSubDomain(m, r);
  }

  lemma TailOfSum(a: string, m: string)
    requires EndsWithDot(a) && m != ""
    ensures TailOf(m, a + m) && Cut(a + m, m) == Rdn(a)
  {
    assert (a + m)[|a|..] == m && (a + m)[..|a|] == a;
  }

  /** A child that matches is the one the name was made from. */
  lemma SameChild<R>(st: State<R>, z: R, n: string, m: string, name: string, s: string)
    requires Closed(st) && z in st.key && n in st.children[z] && m in st.children[z] && Alone(st, z, n)
    requires name != "" && name in st.names[st.children[z][n]] && TailOf(name, s)
    requires Longest(st.names[st.children[z][m]], s) != ""
    ensures st.children[z][n] == st.children[z][m]
  {
    var other := Longest(st.names[st.children[z][m]], s);
    assert IsSubDomain(other, s) && other in st.names[st.children[z][m]];
    if other == "." {
      assert IsSubDomain(other, name);
    } else if |name| <= |other| {
      TailsNest(name, other, s);
      assert IsSubDomain(name, other);
    } else {
      TailsNest(other, name, s);
      assert IsSubDomain(other, name);
    }
  }

  lemma DescentTail<R>(st: State<R>, z: R, q: string, hops: seq<Hop<R>>)
    requires Descent(st, z, q, hops) && |hops| > 1
    ensures Descent(st, hops[1].zone, hops[0].rest, hops[1..])
    ensures exists n :: z in st.children && n in st.children[z] && st.children[z][n] == hops[1].zone
  {
    var h := hops[1..];
    assert Follows(st, hops, 1);
    forall i | 1 <= i < |h| ensures Follows(st, h, i) {
      assert Follows(st, hops, i + 1);
    }
  }

  /** The query `s`, made from the relative name `p` and one name of every zone along the path, is
      looked up from `z`. */
  ghost predicate MadeAlong<R>(st: State<R>, z: R, path: seq<string>, ms: seq<string>, p: string, s: string,
                               hops: seq<Hop<R>>) {
    && Closed(st) && z in st.key && Chosen(st, z, path, ms) && Clear(st, z, path)
    && "." !in st.names[z] && ms[0] != ""
    && EndsWithDot(p) && s == (p + NameOf(ms[1..])) + ms[0]
    && Descent(st, z, s, hops) && Deepest(st, hops[|hops| - 1])
  }

  /** The descent has come along the path, by these names, and has `rest` left. */
  ghost predicate CameAlong<R>(st: State<R>, z: R, path: seq<string>, ms: seq<string>, rest: string, hops: seq<Hop<R>>)
  {
    && |path| + 1 == |ms| <= |hops|
    && (forall i | 0 <= i < |ms| :: hops[i].name == ms[i])
    && Some(hops[|path|].zone) == Follow(st, z, path) && hops[|path|].rest == rest
  }

  /** The descent for a name made along a path follows that path. */
  lemma {:induction false} DescentFollows<R>(st: State<R>, z: R, path: seq<string>, ms: seq<string>, p: string,
                                             s: string, hops: seq<Hop<R>>)
    requires MadeAlong(st, z, path, ms, p, s, hops)
    ensures CameAlong(st, z, path, ms, Rdn(p), hops)
    decreases |path|
  {
    FirstMatch(st, z, path, ms, p, s, hops);
    if path == [] {
      assert p + NameOf([]) == p && ms[1..] == [];
    } else {
      NextMatch(st, z, path, ms, p, s, hops);
      DescentFollows(st, st.children[z][path[0]], path[1..], ms[1..], p, (p + NameOf(ms[2..])) + ms[1], hops[1..]);
      CameFrom(st, z, path, ms, Rdn(p), hops);
    }
  }

  lemma CameFrom<R>(st: State<R>, z: R, path: seq<string>, ms: seq<string>, rest: string, hops: seq<Hop<R>>)
    requires path != [] && hops != [] && ms != [] && hops[0].name == ms[0]
    requires z in st.children && path[0] in st.children[z]
    requires Follow(st, st.children[z][path[0]], path[1..]) == Follow(st, z, path)
    requires CameAlong(st, st.children[z][path[0]], path[1..], ms[1..], rest, hops[1..])
    ensures CameAlong(st, z, path, ms, rest, hops)
  {
    forall i | 1 <= i < |ms| ensures hops[i].name == ms[i] {
      assert hops[1..][i - 1].name == ms[1..][i - 1];
    }
    assert hops[1..][|path| - 1] == hops[|path|];
  }

  /** It stops there exactly when no zone nested below serves what is left. */
  lemma StopsIff<R>(st: State<R>, z: R, path: seq<string>, ms: seq<string>, s: string, rest: string, hops: seq<Hop<R>>)
    requires Closed(st) && CameAlong(st, z, path, ms, rest, hops)
    requires Descent(st, z, s, hops) && Deepest(st, hops[|hops| - 1])
    ensures |hops| == |path| + 1 <==> Unshadowed(st, Follow(st, z, path).value, rest)
  {
    if |hops| > |path| + 1 {
      assert Follows(st, hops, |path| + 1);
    }
  }

  lemma FirstMatch<R>(st: State<R>, z: R, path: seq<string>, ms: seq<string>, p: string, s: string, hops: seq<Hop<R>>)
    requires MadeAlong(st, z, path, ms, p, s, hops)
    ensures hops != [] && |ms| == |path| + 1 && hops[0].name == ms[0] && hops[0].rest == Rdn(p + NameOf(ms[1..]))
  {
    EndsInDot(p, ms[1..]);
    TailOfSum(p + NameOf(ms[1..]), ms[0]);
    LongestIs(st.names[z], s, ms[0]);
    FirstHop(st, z, s, hops);
  }

  lemma NextMatch<R>(st: State<R>, z: R, path: seq<string>, ms: seq<string>, p: string, s: string, hops: seq<Hop<R>>)
    requires MadeAlong(st, z, path, ms, p, s, hops) && path != []
    requires hops[0].rest == Rdn(p + NameOf(ms[1..]))
    ensures |hops| > 1 && z in st.children && path[0] in st.children[z]
    ensures Follow(st, st.children[z][path[0]], path[1..]) == Follow(st, z, path)
    ensures MadeAlong(st, st.children[z][path[0]], path[1..], ms[1..], p, (p + NameOf(ms[2..])) + ms[1], hops[1..])
  {
    var c := st.children[z][path[0]];
    assert Chosen(st, c, path[1..], ms[1..]);
    assert Relative(st.names[c]);
    NextRest(p, ms);
    EndsInDot(p, ms[2..]);
    TailOfSum(p + NameOf(ms[2..]), ms[1]);
    GoesOn(st, z, path[0], ms[1], s, (p + NameOf(ms[2..])) + ms[1], hops);
    assert ms[1..][1..] == ms[2..] && hops[1..][|hops| - 2] == hops[|hops| - 1];
  }

  lemma EndsInDot(p: string, ms: seq<string>)
    requires EndsWithDot(p)
    ensures EndsWithDot(p + NameOf(ms))
  {
    if ms != [] {
      var x := p + NameOf(ms);
      assert NameOf(ms)[|NameOf(ms)| - 1] == '.';
      assert x[|x| - 1] == '.';
    } else {
      assert p + "" == p;
    }
  }

  lemma NextRest(p: string, ms: seq<string>)
    requires |ms| > 1 && ms[1] != "" && !EndsWithDot(ms[1])
    ensures Rdn(p + NameOf(ms[1..])) == (p + NameOf(ms[2..])) + ms[1]
  {
    var b := p + NameOf(ms[2..]);
    var s := b + ms[1];
    assert ms[1..][1..] == ms[2..];
    assert p + NameOf(ms[1..]) == s + ".";
    assert s[|s| - 1] == ms[1][|ms[1]| - 1];
    RdnUnique(s + ".", s);
  }

  /** Some child serves what is left: the descent goes on, into that child. */
  lemma GoesOn<R>(st: State<R>, z: R, n: string, name: string, s: string, s1: string, hops: seq<Hop<R>>)
    requires Closed(st) && z in st.key && n in st.children[z] && Alone(st, z, n)
    requires Descent(st, z, s, hops) && Deepest(st, hops[|hops| - 1]) && hops[0].rest == s1
    requires name in st.names[st.children[z][n]] && name != "" && TailOf(name, s1)
    ensures |hops| > 1 && hops[1].zone == st.children[z][n] && Descent(st, st.children[z][n], s1, hops[1..])
  {
    assert IsSubDomain(name, s1);
    assert Longest(st.names[st.children[z][n]], s1) != "";
    assert |hops| > 1;
    DescentTail(st, z, s, hops);
    var m :| m in st.children[z] && st.children[z][m] == hops[1].zone;
    assert hops[1..][0] == hops[1];
    SameChild(st, z, n, m, name, s1);
  }

  /** The zone name of a descent is the name made from its matches. */
  lemma {:induction false} ZoneNameIs<R>(hops: seq<Hop<R>>, ms: seq<string>)
    requires |hops| == |ms| > 0 && forall i | 0 <= i < |hops| :: hops[i].name == ms[i]
    requires EndsWithDot(ms[0]) && ms[0] != "." && Relative(ms[1..])
    ensures ZoneNameOf(hops) == NameOf(ms) && EndsWithDot(ZoneNameOf(hops)) && ZoneNameOf(hops) != "."
    decreases |hops|
  {
    var k := |hops| - 1;
    NameOfSnoc(ms);
    if k == 0 {
      assert ZoneNameOf(hops[..0]) == "" && NameOf(ms[..0]) == "";
    } else {
      assert forall m | m in ms[..k][1..] :: m in ms[1..];
      ZoneNameIs(hops[..k], ms[..k]);
      assert ms[1..][k - 1] == ms[k];
      UnderTwice("x", ms[k], NameOf(ms[..k]));
    }
  }

  // ----- reverse, then forward ----------------------------------------------------------------------

  /** The entry can be found by the name: the index lists it, no nested zone serves the name and none
      of its suffixes is delegated. */
  ghost predicate Reachable<R>(st: State<R>, idx: Index, w: R, e: Entry, n: string)
    requires Closed(st) && w in st.key
  {
    && Rdn(n) != "" && Unshadowed(st, w, Rdn(n)) && Undelegated(idx, st.key[w], Rdn(n), 0)
    && idx.byName(st.key[w], Rdn(n)).Ok? && e in idx.byName(st.key[w], Rdn(n)).value
  }

  lemma {:induction false} ChosenRelative<R>(st: State<R>, z: R, path: seq<string>, ms: seq<string>)
    requires Closed(st) && z in st.key && Chosen(st, z, path, ms) && Clear(st, z, path)
    ensures Relative(ms[1..])
    decreases |path|
  {
    if path != [] {
      var c := st.children[z][path[0]];
      assert Relative(st.names[c]);
      ChosenRelative(st, c, path[1..], ms[1..]);
      assert forall m | m in ms[1..] :: m == ms[1] || m in ms[1..][1..];
    }
  }

  /** The zone at the end of the path answers, under the name `f`, with the entry among others. */
  ghost predicate AnsweredAt<R>(st: State<R>, z: R, path: seq<string>, f: string, e: Entry, hops: seq<Hop<R>>,
                                r: Result<Info<R>>) {
    && |hops| == |path| + 1 && r.Ok? && r.value.zone.Some?
    && r.value.zone == Follow(st, z, path) && e in r.value.entries && r.value.zoneNames == [f]
  }

  /** How the descent for such a name runs. */
  lemma NameLeads<R>(st: State<R>, z: R, path: seq<string>, n: string, f: string, hops: seq<Hop<R>>)
    returns (ms: seq<string>)
    requires Closed(st) && z in st.key && Absolute(st.names[z])
    requires Follow(st, z, path).Some? && Clear(st, z, path) && f in Product(st, z, path, [""])
    requires Descent(st, z, Fqdn(Fqdn(n) + f), hops) && Deepest(st, hops[|hops| - 1])
    ensures CameAlong(st, z, path, ms, Rdn(n), hops) && f == NameOf(ms)
    ensures EndsWithDot(ms[0]) && ms[0] != "." && Relative(ms[1..])
  {
    var name := Fqdn(n) + f;
    var g;
    ms, g := ProductFrom(st, z, path, [""], f);
    assert f == NameOf(ms);
    AbsoluteQuery(st, z, path, ms, Fqdn(n), name);
    DescentFollows(st, z, path, ms, Fqdn(n), name, hops);
    RdnOfFqdn(n);
    ChosenRelative(st, z, path, ms);
  }

  /** A name composed of a name of an entry and a name of its zone, one of those multiplied up along
      the path to it, resolves to that entry in that zone exactly when the entry is reachable by that
      name. Nothing is asked of other names, other entries or zones off the path. */
  lemma NameResolvesIff<R>(st: State<R>, idx: Index, z: R, path: seq<string>, e: Entry, n: string, f: string,
                           hops: seq<Hop<R>>, r: Result<Info<R>>)
    requires Closed(st) && z in st.key && Absolute(st.names[z])
    requires Follow(st, z, path).Some? && Clear(st, z, path) && f in Product(st, z, path, [""])
    requires Resolves(st, idx, z, Fqdn(Fqdn(n) + f), hops, r)
    ensures AnsweredAt(st, z, path, f, e, hops, r) <==> Reachable(st, idx, Follow(st, z, path).value, e, n)
  {
    var w := Follow(st, z, path).value;
    var ms := NameLeads(st, z, path, n, f, hops);
    StopsIff(st, z, path, ms, Fqdn(Fqdn(n) + f), Rdn(n), hops);
    if |hops| == |path| + 1 {
      ZoneNameIs(hops, ms);
      AnswerHasIff(idx, w, st.key[w], Rdn(n), f, e, r);
    }
  }

  /** When the zone reached answers with the entry itself. */
  lemma AnswerHasIff<R>(idx: Index, w: R, key: ZoneKey, rel: string, cur: string, e: Entry, r: Result<Info<R>>)
    requires Answers(idx, w, key, rel, cur, r)
    ensures (r.Ok? && r.value.zone == Some(w) && e in r.value.entries && r.value.zoneNames == [cur]) <==>
      rel != "" && Undelegated(idx, key, rel, 0) && idx.byName(key, rel).Ok? && e in idx.byName(key, rel).value
  {
    if rel != "" && Undelegated(idx, key, rel, 0) {
      UndelegatedAnswer(idx, w, key, rel, cur, r);
    }
  }

  /** Where nothing is delegated the answer holds just what the index lists for the name. */
  lemma UndelegatedAnswer<R>(idx: Index, w: R, key: ZoneKey, rel: string, cur: string, r: Result<Info<R>>)
    requires rel != "" && Undelegated(idx, key, rel, 0) && Answers(idx, w, key, rel, cur, r)
    ensures r.Ok? && idx.byName(key, rel).Ok?
    ensures r.value == Info(Some(w), [cur], idx.byName(key, rel).value, [Under(rel, cur)])
  {
    var k, i := AnswerPosition(idx, w, key, rel, cur, r);
  }

  /** Where a reported name comes from: an entry, one of its names and one name of every zone. */
  lemma MadeFrom<R>(st: State<R>, idx: Index, z: R, ip: string, path: seq<string>, name: string)
    returns (e: Entry, n: string, ms: seq<string>)
    requires Hit(st, idx, z, ip, path) && name in InfoAt(st, idx, z, [""], ip, path).entryNames
    ensures var info := InfoAt(st, idx, z, [""], ip, path);
      e in info.entries && name in Expand(e.dnsNames, info.zoneNames) && NameOf(ms) in info.zoneNames
    ensures n in e.dnsNames && Chosen(st, z, path, ms) && name == Fqdn(n) + NameOf(ms)
  {
    var zs := Product(st, z, path, [""]);
    e := EntryNamesFrom(Found(st, idx, z, ip, path).value, zs, name);
    var f, g: string;
    n, f := ExpandFrom(e.dnsNames, zs, name);
    ms, g := ProductFrom(st, z, path, [""], f);
    assert f == NameOf(ms);
  }

  lemma AbsoluteQuery<R>(st: State<R>, z: R, path: seq<string>, ms: seq<string>, p: string, name: string)
    requires Absolute(if z in st.names then st.names[z] else []) && Chosen(st, z, path, ms) && name == p + NameOf(ms)
    ensures Fqdn(name) == name && name == (p + NameOf(ms[1..])) + ms[0]
    ensures "." !in st.names[z] && ms[0] != "" && EndsWithDot(ms[0]) && ms[0] != "."
  {
    assert ms[0] in st.names[z];
    Associate(p, NameOf(ms[1..]), ms[0]);
    assert name[|name| - 1] == ms[0][|ms[0]| - 1];
  }

  /** `name` was made for `info` from the name `n` of the entry `e` and the zone name `f`. */
  ghost predicate Makes<R>(info: Info<R>, e: Entry, n: string, f: string, name: string) {
    e in info.entries && n in e.dnsNames && f in info.zoneNames && name == Fqdn(n) + f
  }

  /** Every name the reverse lookup reports is made that way ... */
  lemma ReportedIsMade<R>(st: State<R>, idx: Index, z: R, ip: string, paths: seq<seq<string>>, infos: seq<Info<R>>,
                          i: nat, name: string) returns (e: Entry, n: string, f: string)
    requires Reverse(st, idx, z, [""], ip, paths, infos) && i < |infos| && name in infos[i].entryNames
    ensures Makes(infos[i], e, n, f, name)
  {
    var info := infos[i];
    var ms;
    e, n, ms := MadeFrom(st, idx, z, ip, paths[i], name);
    f := NameOf(ms);
  }

  /** ... and the forward lookup of it comes back to the same zone and entry exactly when that entry
      is reachable by that name. */
  lemma LookupsInvert<R>(st: State<R>, idx: Index, z: R, ip: string, paths: seq<seq<string>>, infos: seq<Info<R>>,
                         i: nat, e: Entry, n: string, f: string, name: string, hops: seq<Hop<R>>, r: Result<Info<R>>)
    requires Closed(st) && z in st.key && Absolute(st.names[z])
    requires Reverse(st, idx, z, [""], ip, paths, infos) && i < |infos| && Makes(infos[i], e, n, f, name)
    requires Follow(st, z, paths[i]).Some? ==> Clear(st, z, paths[i])
    requires Resolves(st, idx, z, Fqdn(name), hops, r)
    ensures infos[i].zone.Some? && infos[i].zone.value in st.key && name in infos[i].entryNames
    ensures |hops| == |paths[i]| + 1 && r.Ok? && r.value.zone == infos[i].zone && e in r.value.entries &&
      r.value.zoneNames == [f]
      <==> Reachable(st, idx, infos[i].zone.value, e, n)
  {
    var info := infos[i];
    assert Hit(st, idx, z, ip, paths[i]) && info == InfoAt(st, idx, z, [""], ip, paths[i]);
    NameResolvesIff(st, idx, z, paths[i], e, n, f, hops, r);
    ExpandHas(e.dnsNames, info.zoneNames, n, f);
    EntryNamesHas(info.entries, info.zoneNames, e, name);
  }

  /** Such a name is answered at all: the zone matches it. */
  lemma ReverseMatches<R>(st: State<R>, idx: Index, z: R, ip: string, path: seq<string>, name: string)
    requires Closed(st) && z in st.key && Absolute(st.names[z]) && Hit(st, idx, z, ip, path)
    requires name in InfoAt(st, idx, z, [""], ip, path).entryNames
    ensures Longest(st.names[z], Fqdn(name)) != ""
  {
    var e, n, ms := MadeFrom(st, idx, z, ip, path, name);
    AbsoluteQuery(st, z, path, ms, Fqdn(n), name);
    EndsInDot(Fqdn(n), ms[1..]);
    TailOfSum(Fqdn(n) + NameOf(ms[1..]), ms[0]);
    assert IsSubDomain(ms[0], name) && ms[0] in st.names[z];
  }

  // ----- forward, then reverse ----------------------------------------------------------------------

  /** The path a descent has taken, and its zone name in the product along it. */
  lemma {:induction false} PathOf<R>(st: State<R>, z: R, q: string, hops: seq<Hop<R>>) returns (path: seq<string>)
    requires Closed(st) && z in st.key && NoNestedRoot(st) && Descent(st, z, q, hops) && hops[0].name != "."
    ensures Follow(st, z, path) == Some(hops[|hops| - 1].zone)
    ensures ZoneNameOf(hops) in Product(st, z, path, [""])
    ensures EndsWithDot(ZoneNameOf(hops)) && ZoneNameOf(hops) != "."
    decreases |hops|
  {
    var k := |hops| - 1;
    var name := hops[k].name;
    if k == 0 {
      path := [];
      FirstHop(st, z, q, hops);
      assert ZoneNameOf(hops[..0]) == "";
      ExpandHas(st.names[z], [""], name, "");
      assert Fqdn(name) + "" == Fqdn(name);
    } else {
      Shorter(st, z, q, hops);
      var before := PathOf(st, z, q, hops[..k]);
      assert hops[..k][k - 1] == hops[k - 1];
      RelativeHop(st, z, q, hops, k);
      var n :| n in st.children[hops[k - 1].zone] && st.children[hops[k - 1].zone][n] == hops[k].zone;
      path := before + [n];
      PathStep(st, z, before, n, name, ZoneNameOf(hops[..k]));
    }
  }

  lemma RelativeHop<R>(st: State<R>, z: R, q: string, hops: seq<Hop<R>>, k: nat)
    requires NoNestedRoot(st) && Descent(st, z, q, hops) && 1 <= k < |hops|
    ensures ChildOf(st, hops[k - 1].zone, hops[k].zone) && hops[k].zone in st.names
    ensures hops[k].name in st.names[hops[k].zone] && hops[k].name != "" && !EndsWithDot(hops[k].name)
  {
    HopName(st, z, q, hops, k);
    RestHasNoDot(st, z, q, hops, k - 1);
    TailHasNoDot(hops[k].name, hops[k - 1].rest);
  }

  lemma TailHasNoDot(name: string, s: string)
    requires TailOf(name, s) && !EndsWithDot(s)
    ensures !EndsWithDot(name)
  {
    SameEnds(s[|s| - |name|..], name);
  }

  lemma PathStep<R>(st: State<R>, z: R, before: seq<string>, n: string, name: string, cur: string)
    requires Closed(st) && Follow(st, z, before).Some? && cur in Product(st, z, before, [""])
    requires var p := Follow(st, z, before).value; n in st.children[p] && name in st.names[st.children[p][n]]
    requires name != "" && !EndsWithDot(name) && EndsWithDot(cur) && cur != "."
    ensures Follow(st, z, before + [n]) == Some(st.children[Follow(st, z, before).value][n])
    ensures Under(name, cur) in Product(st, z, before + [n], [""])
    ensures EndsWithDot(Under(name, cur)) && Under(name, cur) != "."
  {
    var c := st.children[Follow(st, z, before).value][n];
    assert c in st.key;
    FollowSnoc(st, z, before, n, [""]);
    ExpandHas(st.names[c], Product(st, z, before, [""]), name, cur);
    assert Under(name, cur) == Fqdn(name) + cur;
    UnderTwice("x", name, cur);
  }

  /** Some name of that product has the labels of the zone name, also if the descent begins at the root of
      all names. */
  lemma {:induction false} NamedPath<R>(st: State<R>, z: R, q: string, hops: seq<Hop<R>>)
    returns (path: seq<string>, f: string)
    requires Closed(st) && z in st.key && NoNestedRoot(st) && EndsWithDot(q) && Descent(st, z, q, hops)
    ensures Follow(st, z, path) == Some(hops[|hops| - 1].zone) && f in Product(st, z, path, [""])
    ensures Words(f) == Words(ZoneNameOf(hops))
    decreases |hops|
  {
    var k := |hops| - 1;
    var name := hops[k].name;
    if k == 0 {
      FirstHop(st, z, q, hops);
      path, f := [], Fqdn(name) + "";
      ExpandHas(st.names[z], [""], name, "");
      assert ZoneNameOf(hops[..0]) == "" && f == Fqdn(name);
    } else {
      Shorter(st, z, q, hops);
      var before, g := NamedPath(st, z, q, hops[..k]);
      DescentKeepsLabels(st, z, q, hops[..k]);
      assert hops[..k][k - 1] == hops[k - 1];
      HopName(st, z, q, hops, k);
      var n :| n in st.children[hops[k - 1].zone] && st.children[hops[k - 1].zone][n] == hops[k].zone;
      path, f := before + [n], Fqdn(name) + g;
      FollowSnoc(st, z, before, n, [""]);
      ExpandHas(st.names[hops[k].zone], Product(st, z, before, [""]), name, g);
      SameLabels(name, g, ZoneNameOf(hops[..k]));
    }
  }

  lemma SameLabels(name: string, f: string, cur: string)
    requires Words(f) == Words(cur) && EndsWithDot(cur)
    ensures Words(Fqdn(name) + f) == Words(Under(name, cur)) == Words(name) + Words(cur)
  {
    WordsOfConcat(Fqdn(name), f);
    WordsOfFqdn(name);
    WordsOfUnder(name, cur);
  }

  /** An entry the forward lookup answers with is found again by each of its addresses, in the same
      zone and under a name with the labels of the query. */
  lemma ForwardThenReverse<R>(st: State<R>, idx: Index, z: R, q: string, hops: seq<Hop<R>>, e: Entry, n: string,
                              ip: string, paths: seq<seq<string>>, infos: seq<Info<R>>) returns (i: nat, name: string)
    requires Closed(st) && z in st.key && NoNestedRoot(st) && EndsWithDot(q)
    requires Descent(st, z, q, hops)
    requires n in e.dnsNames && Rdn(n) == hops[|hops| - 1].rest
    requires var key := st.key[hops[|hops| - 1].zone];
      idx.byIP(key, ip).Ok? && e in idx.byIP(key, ip).value
    requires Reverse(st, idx, z, [""], ip, paths, infos)
    ensures i < |infos| && infos[i].zone == Some(hops[|hops| - 1].zone) && e in infos[i].entries
    ensures name in infos[i].entryNames && Words(name) == Words(q)
  {
    var path, f := NamedPath(st, z, q, hops);
    assert Hit(st, idx, z, ip, path);
    i :| 0 <= i < |paths| && paths[i] == path;
    assert infos[i] == InfoAt(st, idx, z, [""], ip, paths[i]);
    name := Fqdn(n) + f;
    ExpandHas(e.dnsNames, Product(st, z, path, [""]), n, f);
    EntryNamesHas(infos[i].entries, infos[i].zoneNames, e, name);
    DescentKeepsLabels(st, z, q, hops);
    SameLabels(n, f, ZoneNameOf(hops));
    WordsOfRdn(n);
  }
}
