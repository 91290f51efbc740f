/** The rounds of the resolver loops of zonemodel/model.go on values: one step of the descent, one
    label of the delegation search, one child of the reverse lookup. */
module ZoneWalks {
  import opened Wrappers
  import opened DomainNames
  import opened Tables
  import opened ZoneGraph
  import opened ZoneLookup
  import opened ZoneInversion

  // ----- the descent ------------------------------------------------------------------------------

  /** Before a round: `zone` has just matched `sub` by its name `zn`; `hops` are the rounds done. */
  ghost predicate Entering<R>(st: State<R>, z: R, q: string, hops: seq<Hop<R>>, zone: R, zn: string, sub: string) {
    && zone in st.key && zone in st.names && zone in st.children
    && zn == Longest(st.names[zone], sub) && zn != "" && EndsWithDot(q)
    && (hops == [] ==> zone == z && sub == q)
    && (hops != [] ==>
          Descent(st, z, q, hops) && ChildOf(st, hops[|hops| - 1].zone, zone) && sub == hops[|hops| - 1].rest)
  }

  /** The zone at the end of the path and what is left of `s` there, if every zone on the way matches
      what its predecessor leaves, with the slices in bounds. */
  ghost function Arrives<R>(st: State<R>, z: R, s: string, path: seq<string>): (r: Option<(R, string)>)
    ensures r.Some? ==> r.value.0 in st.key && r.value.0 in st.names && r.value.0 in st.children
    decreases |path|
  {
    if z !in st.key || z !in st.names || z !in st.children then None
    else
      var zn := Longest(st.names[z], s);
      if zn == "" || |zn| > |s| then None
      else if path == [] then Some((z, Cut(s, zn)))
      else if path[0] in st.children[z] then Arrives(st, st.children[z][path[0]], Cut(s, zn), path[1..])
      else None
  }

  /** Where nothing is left of the query no nested zone is called ".". */
  ghost predicate InBounds<R>(st: State<R>, z: R, q: string) {
    forall path, n {:trigger Arrives(st, z, q, path), RootAt(st, Arrives(st, z, q, path).value.0, n)}
      | Arrives(st, z, q, path).Some? && Arrives(st, z, q, path).value.1 == "" ::
      !RootAt(st, Arrives(st, z, q, path).value.0, n)
  }

  /** The zone nested under `n` is called ".". */
  ghost predicate RootAt<R>(st: State<R>, y: R, n: string)
    requires y in st.children
  {
    n in st.children[y] && st.children[y][n] in st.names && "." in st.names[st.children[y][n]]
  }

  lemma {:induction false} ArrivesFurther<R>(st: State<R>, z: R, s: string, path: seq<string>, n: string)
    requires Arrives(st, z, s, path).Some? && n in st.children[Arrives(st, z, s, path).value.0]
    ensures var (y, rest) := Arrives(st, z, s, path).value;
      Arrives(st, z, s, path + [n]) == Arrives(st, st.children[y][n], rest, [])
    decreases |path|
  {
    var all := path + [n];
    if path == [] {
      assert all[1..] == [];
    } else {
      assert all[0] == path[0] && all[1..] == path[1..] + [n];
      ArrivesFurther(st, st.children[z][path[0]], Cut(s, Longest(st.names[z], s)), path[1..], n);
    }
  }

  /** Every descent goes along such a path ... */
  lemma {:induction false} DescentArrives<R>(st: State<R>, z: R, q: string, hops: seq<Hop<R>>)
    returns (path: seq<string>)
    requires Descent(st, z, q, hops)
    ensures var h := hops[|hops| - 1]; Arrives(st, z, q, path) == Some((h.zone, h.rest))
    decreases |hops|
  {
    var k := |hops| - 1;
    if k == 0 {
      path := [];
    } else {
      Shorter(st, z, q, hops);
      var before := DescentArrives(st, z, q, hops[..k]);
      assert hops[..k][k - 1] == hops[k - 1] && Follows(st, hops, k);
      var n :| n in st.children[hops[k - 1].zone] && st.children[hops[k - 1].zone][n] == hops[k].zone;
      ArrivesFurther(st, z, q, before, n);
      path := before + [n];
    }
  }

  /** ... and every such path is one of a descent. */
  lemma {:induction false} ArrivesDescends<R>(st: State<R>, z: R, q: string, path: seq<string>)
    returns (hops: seq<Hop<R>>)
    requires Arrives(st, z, q, path).Some?
    ensures Descent(st, z, q, hops)
    ensures var h := hops[|hops| - 1]; Arrives(st, z, q, path) == Some((h.zone, h.rest))
    decreases |path|
  {
    var zn := Longest(st.names[z], q);
    var h := Hop(z, zn, Cut(q, zn));
    if path == [] {
      hops := [h];
    } else {
      var rest := ArrivesDescends(st, st.children[z][path[0]], h.rest, path[1..]);
      hops := [h] + rest;
      OneBefore(st, z, q, h, path[0], rest);
    }
  }

  lemma OneBefore<R>(st: State<R>, z: R, q: string, h: Hop<R>, n: string, rest: seq<Hop<R>>)
    requires h.zone == z && Fits(st, h, q) && z in st.key && z in st.children && n in st.children[z]
    requires Descent(st, st.children[z][n], h.rest, rest)
    ensures Descent(st, z, q, [h] + rest)
  {
    var all := [h] + rest;
    forall i | 1 <= i < |all| ensures Follows(st, all, i) {
      if i > 1 {
        assert Follows(st, rest, i - 1);
      }
    }
  }

  /** Nothing is matched by the name "." only. */
  lemma NothingMatched(names: seq<string>)
    ensures Longest(names, "") == if "." in names then "." else ""
  {
    assert IsSubDomain(".", "");
  }

  /** The slice of the round is in bounds, and what is left gets shorter. */
  lemma RoundFits<R>(st: State<R>, z: R, q: string, hops: seq<Hop<R>>, zone: R, zn: string, sub: string)
    requires InBounds(st, z, q) && Entering(st, z, q, hops, zone, zn, sub)
    ensures 0 < |zn| <= |sub| && |Cut(sub, zn)| < |sub|
  {
    assert IsSubDomain(zn, sub);
    if hops != [] && sub == "" {
      NoRootThere(st, z, q, hops, zone);
      NothingMatched(st.names[zone]);
    }
  }

  lemma NoRootThere<R>(st: State<R>, z: R, q: string, hops: seq<Hop<R>>, zone: R)
    requires InBounds(st, z, q) && Descent(st, z, q, hops) && hops[|hops| - 1].rest == ""
    requires ChildOf(st, hops[|hops| - 1].zone, zone) && zone in st.names
    ensures "." !in st.names[zone]
  {
    var p := hops[|hops| - 1].zone;
    var path := DescentArrives(st, z, q, hops);
    var n :| n in st.children[p] && st.children[p][n] == zone;
    assert !RootAt(st, Arrives(st, z, q, path).value.0, n);
  }

  /** All slices of all rounds are in bounds, in whatever order the maps yield the nested zones, exactly
      when nowhere below `z` the query leaves nothing in front of a zone called ".". */
  lemma InBoundsIff<R>(st: State<R>, z: R, q: string)
    requires Closed(st) && EndsWithDot(q)
    ensures InBounds(st, z, q) <==>
      forall hops, zone, zn, sub {:trigger Entering(st, z, q, hops, zone, zn, sub)}
        | Entering(st, z, q, hops, zone, zn, sub) :: |zn| <= |sub|
  {
    if InBounds(st, z, q) {
      forall hops, zone, zn, sub | Entering(st, z, q, hops, zone, zn, sub) ensures |zn| <= |sub| {
        RoundFits(st, z, q, hops, zone, zn, sub);
      }
    } else {
      var path, n :| Arrives(st, z, q, path).Some? && Arrives(st, z, q, path).value.1 == ""
                     && RootAt(st, Arrives(st, z, q, path).value.0, n);
      var hops := ArrivesDescends(st, z, q, path);
      var c := st.children[hops[|hops| - 1].zone][n];
      NothingMatched(st.names[c]);
      assert Entering(st, z, q, hops, c, ".", "");
    }
  }

  /** It is so for every query if no nested zone is called ".". */
  lemma RootlessInBounds<R>(st: State<R>, z: R, q: string)
    requires Closed(st) && NoNestedRoot(st)
    ensures InBounds(st, z, q)
  {
    forall path, n | Arrives(st, z, q, path).Some? && Arrives(st, z, q, path).value.1 == ""
      ensures !RootAt(st, Arrives(st, z, q, path).value.0, n)
    {
      var y := Arrives(st, z, q, path).value.0;
      if n in st.children[y] {
        assert st.children[y][n] in st.names ==> "." !in st.names[st.children[y][n]];
      }
    }
  }

  ghost predicate Arrived<R>(st: State<R>, z: R, q: string, hops: seq<Hop<R>>, zone: R, sub: string, cur: string) {
    && Descent(st, z, q, hops) && hops[|hops| - 1].zone == zone && hops[|hops| - 1].rest == sub
    && cur == ZoneNameOf(hops) && EndsWithDot(cur) && !EndsWithDot(sub)
  }

  /** One round: the matched name is cut off and put in front of the zone name. */
  lemma RoundArrives<R>(st: State<R>, z: R, q: string, hops: seq<Hop<R>>, zone: R, zn: string, sub: string)
    requires Entering(st, z, q, hops, zone, zn, sub)
    requires |zn| <= |sub| && (hops != [] ==> EndsWithDot(ZoneNameOf(hops)))
    ensures SomeLabel([zn, ZoneNameOf(hops)])
    ensures Arrived(st, z, q, hops + [Hop(zone, zn, Cut(sub, zn))], zone, Cut(sub, zn), Joined([zn, ZoneNameOf(hops)]))
  {
    var h := Hop(zone, zn, Cut(sub, zn));
    var all := hops + [h];
    JoinTwo(zn, ZoneNameOf(hops));
    assert all[..|all| - 1] == hops;
    if hops == [] {
      assert all == [h];
      assert EndsWithDot(Under(zn, ""));
    } else {
      UnderEnds(zn, ZoneNameOf(hops));
      OneMore(st, z, q, hops, h);
    }
  }

  // ----- the labels in front of the zone -------------------------------------------------------------

  /** Joining with a relative name. */
  lemma JoinRelative(a: string, b: string)
    requires b != "" && !EndsWithDot(b)
    ensures SomeLabel([a, b]) && Rdn(Joined([a, b])) == a + "." + b
  {
    var xs := [a, b];
    assert xs[1] != "";
    assert Dotted(xs) == xs[0] + "." + Dotted(xs[1..]);
    var s := a + "." + b;
    assert s[|s| - 1] == b[|b| - 1];
    RdnUnique(s + ".", s);
  }

  /** Joining one more label with the zone name built so far, empty labels included. */
  lemma JoinFurther(l: string, rel: string, cur: string)
    requires rel != "" && !EndsWithDot(rel) && EndsWithDot(cur)
    ensures SomeLabel([l, Under(rel, cur)]) && Joined([l, Under(rel, cur)]) == Under(l + "." + rel, cur)
  {
    if l == "" {
      JoinNothing(rel, cur);
      assert "" + "." + rel == "." + rel;
    } else {
      UnderTwice(l, rel, cur);
      JoinTwo(l, Under(rel, cur));
    }
  }

  lemma JoinNothing(rel: string, cur: string)
    requires rel != "" && !EndsWithDot(rel) && EndsWithDot(cur)
    ensures SomeLabel(["", Under(rel, cur)]) && Joined(["", Under(rel, cur)]) == Under("." + rel, cur)
  {
    UnderTwice("x", rel, cur);
    JoinEmpty(Under(rel, cur));
    DotInFront(Under(rel, cur));
    DotUnder(rel, cur);
  }

  lemma DotInFront(b: string)
    requires EndsWithDot(b)
    ensures Fqdn("." + b) == "." + b
  {
    assert ("." + b)[|b|] == b[|b| - 1];
  }

  lemma DotUnder(rel: string, cur: string)
    requires rel != "" && cur != ""
    ensures "." + Under(rel, cur) == Under("." + rel, cur)
  {
    if cur == "." {
      assert "." + (rel + ".") == ("." + rel) + ".";
    } else {
      assert "." + (rel + "." + cur) == ("." + rel) + "." + cur;
    }
  }

  /** `s[e]` ends the part not looked at; `rel` is what stands behind it. */
  ghost predicate Behind(s: string, e: nat, rel: string) {
    && s != "" && !EndsWithDot(s) && e <= |s|
    && (e < |s| ==> s[e] == '.' && rel == s[e + 1..]) && (e == |s| ==> rel == "")
  }

  /** Joining the label `l` turns the names `rel` and `cur` into `rel1` and `cur1`. */
  ghost predicate Glues(l: string, rel: string, rel1: string, cur: string, cur1: string) {
    && SomeLabel([l, rel]) && Rdn(Joined([l, rel])) == rel1
    && SomeLabel([l, cur]) && Joined([l, cur]) == cur1
  }

  /** The rightmost label. */
  lemma FirstLabel(s: string, k: nat, cur: string)
    requires s != "" && !EndsWithDot(s) && EndsWithDot(cur) && k < |s|
    ensures Glues(s[k..], "", s[k..], cur, Under(s[k..], cur))
  {
    var l := s[k..];
    assert l[|l| - 1] == s[|s| - 1];
    JoinTwo(l, "");
    RdnOfFqdn(l);
    JoinTwo(l, cur);
  }

  lemma FurtherLabel(l: string, rel: string, cur: string)
    requires rel != "" && !EndsWithDot(rel) && EndsWithDot(cur)
    ensures Glues(l, rel, l + "." + rel, Under(rel, cur), Under(l + "." + rel, cur))
  {
    JoinRelative(l, rel);
    JoinFurther(l, rel, cur);
  }

  lemma SplitAt(s: string, k: nat, e: nat)
    requires k <= e < |s| && s[e] == '.'
    ensures s[k..] == s[k..e] + "." + s[e + 1..]
  {
  }

  /** One label further to the left: both names grow by it. */
  lemma NextLabel(s: string, k: nat, e: nat, l: string, rel: string, curz: string, cur: string)
    requires Behind(s, e, rel) && EndsWithDot(curz) && cur == Under(rel, curz) && k <= e && k < |s| && l == s[k..e]
    ensures Glues(l, rel, s[k..], cur, Under(s[k..], curz))
  {
    if e == |s| {
      assert l == s[k..] && Under("", curz) == curz;
      FirstLabel(s, k, curz);
    } else {
      assert rel != "" && rel[|rel| - 1] == s[|s| - 1];
      SplitAt(s, k, e);
      FurtherLabel(l, rel, curz);
    }
  }

  /** Between two label starts there is none. */
  lemma NoneBehind(idx: Index, key: ZoneKey, s: string, e: nat)
    requires e <= |s| && Undelegated(idx, key, s, e + 1)
    ensures Undelegated(idx, key, s, LastDot(s, e) + 2)
  {
    forall j: nat | LastDot(s, e) + 2 <= j < |s| && Boundary(s, j)
      ensures idx.byName(key, s[j..]).Ok? && !HasNS(idx.byName(key, s[j..]).value)
    {
      if j <= e { NoDotBehind(s, e, j - 1); }
    }
  }

  lemma NorHere(idx: Index, key: ZoneKey, s: string, k: nat)
    requires k < |s| && Undelegated(idx, key, s, k + 1)
    requires idx.byName(key, s[k..]).Ok? && !HasNS(idx.byName(key, s[k..]).value)
    ensures Undelegated(idx, key, s, k)
  {
    forall j: nat | k <= j < |s| && Boundary(s, j)
      ensures idx.byName(key, s[j..]).Ok? && !HasNS(idx.byName(key, s[j..]).value)
    {
      if j == k { assert s[j..] == s[k..]; }
    }
  }

  /** The label loop has looked at the part of `s` from `p` on; `labels` are those in front of it. */
  ghost predicate Scanned(idx: Index, key: ZoneKey, s: string, curz: string, p: nat, labels: seq<string>,
                          rel: string, cur: string, list: seq<Entry>) {
    && p <= |s| + 1 && EndsWithDot(curz) && cur == Under(rel, curz) && Undelegated(idx, key, s, p)
    && (p == 0 || s == "" ==> labels == [])
    && (p > 0 && s != "" ==> Behind(s, p - 1, rel) && labels == LabelsUpTo(s, p - 1))
    && (p > |s| ==> rel == "" && list == [])
    && (p <= |s| ==> p < |s| && rel == s[p..] && idx.byName(key, rel) == Ok(list))
  }

  lemma ScanStarts(idx: Index, key: ZoneKey, s: string, curz: string)
    requires EndsWithDot(curz) && !EndsWithDot(s)
    ensures Scanned(idx, key, s, curz, |s| + 1, SplitDomainName(s), "", curz, [])
  {
  }

  /** Another label: where it starts. */
  lemma ScanNext(idx: Index, key: ZoneKey, s: string, curz: string, p: nat, labels: seq<string>,
                 rel: string, cur: string, list: seq<Entry>) returns (k: nat)
    requires Scanned(idx, key, s, curz, p, labels, rel, cur, list) && labels != []
    ensures 0 < p && Behind(s, p - 1, rel) && labels == LabelsUpTo(s, p - 1) && k == LastDot(s, p - 1) + 1
    ensures k < |s| && Boundary(s, k) && labels[|labels| - 1] == s[k..p - 1] && cur == Under(rel, curz) &&
      EndsWithDot(curz)
  {
    k := LastDot(s, p - 1) + 1;
    LastLabel(s, p - 1);
  }

  /** Another label: what is joined. */
  lemma ScanLabel(idx: Index, key: ZoneKey, s: string, curz: string, p: nat, labels: seq<string>,
                  rel: string, cur: string, list: seq<Entry>) returns (k: nat)
    requires Scanned(idx, key, s, curz, p, labels, rel, cur, list) && labels != []
    ensures s != "" && !EndsWithDot(s) && 0 < p && labels == LabelsUpTo(s, p - 1) && k == LastDot(s, p - 1) + 1
    ensures k < |s| && Boundary(s, k) && Undelegated(idx, key, s, k + 1)
    ensures Glues(labels[|labels| - 1], rel, s[k..], cur, Under(s[k..], curz))
  {
    k := ScanNext(idx, key, s, curz, p, labels, rel, cur, list);
    NoneBehind(idx, key, s, p - 1);
    NextLabel(s, k, p - 1, labels[|labels| - 1], rel, curz, cur);
  }

  /** What is in front of the label that ends at `e`. */
  lemma InFrontOf(s: string, e: nat, labels: seq<string>)
    requires s != "" && !EndsWithDot(s) && e <= |s| && labels == LabelsUpTo(s, e) && LastDot(s, e) + 1 < |s|
    ensures var k := LastDot(s, e) + 1;
      if k == 0 then labels[..|labels| - 1] == []
      else Behind(s, k - 1, s[k..]) && labels[..|labels| - 1] == LabelsUpTo(s, k - 1)
  {
    LastLabel(s, e);
  }

  /** Nor is there a delegation here: the loop goes on. */
  lemma ScanOn(idx: Index, key: ZoneKey, s: string, curz: string, p: nat, k: nat, labels: seq<string>, list: seq<Entry>)
    requires s != "" && !EndsWithDot(s) && EndsWithDot(curz) && 0 < p <= |s| + 1 && k == LastDot(s, p - 1) + 1 &&
      k < |s|
    requires labels == LabelsUpTo(s, p - 1) && Undelegated(idx, key, s, k + 1)
    requires idx.byName(key, s[k..]) == Ok(list) && !HasNS(list)
    ensures Scanned(idx, key, s, curz, k, labels[..|labels| - 1], s[k..], Under(s[k..], curz), list)
  {
    InFrontOf(s, p - 1, labels);
    NorHere(idx, key, s, k);
    StandsAt(idx, key, s, curz, k, labels[..|labels| - 1], list);
  }

  lemma StandsAt(idx: Index, key: ZoneKey, s: string, curz: string, k: nat, labels: seq<string>, list: seq<Entry>)
    requires s != "" && EndsWithDot(curz) && k < |s|
    requires if k == 0 then labels == [] else Behind(s, k - 1, s[k..]) && labels == LabelsUpTo(s, k - 1)
    requires Undelegated(idx, key, s, k) && idx.byName(key, s[k..]) == Ok(list)
    ensures Scanned(idx, key, s, curz, k, labels, s[k..], Under(s[k..], curz), list)
  {
  }

  /** Nothing in front any more: nothing was delegated and the last list is the answer. */
  lemma ScanEnds(idx: Index, key: ZoneKey, s: string, curz: string, p: nat, rel: string, cur: string, list: seq<Entry>)
    requires Scanned(idx, key, s, curz, p, [], rel, cur, list)
    ensures Undelegated(idx, key, s, 0) && EntriesAt(idx, key, s) == Ok(list) && cur == Under(s, curz)
  {
    if s != "" {
      assert p == 0 && s[0..] == s;
    }
  }

  lemma LastLabel(s: string, e: nat)
    requires e <= |s|
    ensures var labels, d := LabelsUpTo(s, e), LastDot(s, e);
      labels[|labels| - 1] == s[d + 1..e] && labels[..|labels| - 1] == if d < 0 then [] else LabelsUpTo(s, d)
  {
    var d := LastDot(s, e);
    LastOf(if d < 0 then [] else LabelsUpTo(s, d), s[d + 1..e]);
    assert d < 0 ==> LabelsUpTo(s, e) == [] + [s[d + 1..e]];
  }

  // ----- the reverse lookup ----------------------------------------------------------------------------

  /** Every child has a lower rank: the recursion over the children ends. */
  ghost predicate Ranked<R>(st: State<R>, rank: map<R, nat>) {
    && st.children.Keys == st.key.Keys && rank.Keys <= st.key.Keys
    && forall z, n {:trigger st.children[z][n]} | z in rank && n in st.children[z] ::
         st.children[z][n] in rank && rank[st.children[z][n]] < rank[z]
  }

  /** The child maps as the reverse lookup follows them: not beyond a zone in which the lookup fails. */
  ghost function Followed<R>(st: State<R>, idx: Index, ip: string): State<R> {
    st.(children := map z | z in st.children ::
      if z in st.key && idx.byIP(st.key[z], ip).Err? then map[] else st.children[z])
  }

  lemma FollowedClosed<R>(st: State<R>, idx: Index, ip: string)
    requires Closed(st)
    ensures Closed(Followed(st, idx, ip))
  {
  }

  lemma FollowedHere<R>(st: State<R>, idx: Index, ip: string, rank: map<R, nat>, z: R, n: string)
    requires Ranked(Followed(st, idx, ip), rank) && z in rank && z in st.key && idx.byIP(st.key[z], ip).Ok?
    requires z in st.children && n in st.children[z]
    ensures st.children[z][n] in rank && rank[st.children[z][n]] < rank[z]
  {
    assert Followed(st, idx, ip).children[z][n] == st.children[z][n];
  }

  function Behead(n: string, ps: seq<seq<string>>): (r: seq<seq<string>>)
    ensures |r| == |ps|
    ensures forall i {:trigger r[i]} | 0 <= i < |ps| :: r[i] == [n] + ps[i]
  {
    seq(|ps|, i requires 0 <= i < |ps| => [n] + ps[i])
  }

  /** The zone itself and its children in `done` have been visited. */
  ghost predicate Visited<R>(st: State<R>, idx: Index, z: R, fqdns: seq<string>, ip: string, done: set<string>,
                             paths: seq<seq<string>>, infos: seq<Info<R>>) {
    && |paths| == |infos|
    && (forall i, j | 0 <= i < j < |paths| :: paths[i] != paths[j])
    && (forall i {:trigger infos[i]} | 0 <= i < |paths| :: Reports(st, idx, z, fqdns, ip, done, paths[i], infos[i]))
    && (forall p {:trigger Hit(st, idx, z, ip, p)} | Hit(st, idx, z, ip, p) && Within(done, p) :: p in paths)
    && Answered(st, idx, z, ip, done) && TopDown(paths)
  }

  /** No zone comes behind a zone below it. */
  predicate TopDown(paths: seq<seq<string>>) {
    forall i, j {:trigger paths[i], paths[j]} | 0 <= i < j < |paths| :: !(paths[j] < paths[i])
  }

  /** No lookup failed. */
  ghost predicate Answered<R>(st: State<R>, idx: Index, z: R, ip: string, done: set<string>) {
    forall p {:trigger Found(st, idx, z, ip, p)} | Follow(st, z, p).Some? && Within(done, p) ::
      Found(st, idx, z, ip, p).Ok?
  }

  ghost predicate AllAnswered<R>(st: State<R>, idx: Index, z: R, ip: string) {
    forall p {:trigger Found(st, idx, z, ip, p)} | Follow(st, z, p).Some? :: Found(st, idx, z, ip, p).Ok?
  }

  /** What the reverse lookup comes to: every lookup is answered and every find reported, from the top
      down, or the error is that of a failed lookup. */
  ghost predicate Outcome<R>(st: State<R>, idx: Index, z: R, fqdns: seq<string>, ip: string, r: Result<seq<Info<R>>>) {
    match r
    case Ok(infos) =>
      AllAnswered(st, idx, z, ip)
      && exists paths :: Reverse(st, idx, z, fqdns, ip, paths, infos) && TopDown(paths)
    case Err(error) => exists p :: Fails(st, idx, z, ip, p, error)
  }

  /** The same for the zone itself and its children in `done`. */
  ghost predicate OutcomeSoFar<R>(st: State<R>, idx: Index, z: R, fqdns: seq<string>, ip: string, done: set<string>,
                                  r: Result<seq<Info<R>>>) {
    match r
    case Ok(infos) => exists paths :: Visited(st, idx, z, fqdns, ip, done, paths, infos)
    case Err(error) => exists p :: Fails(st, idx, z, ip, p, error)
  }

  predicate Within(done: set<string>, p: seq<string>) {
    p == [] || p[0] in done
  }

  ghost predicate Reports<R>(st: State<R>, idx: Index, z: R, fqdns: seq<string>, ip: string, done: set<string>,
                             p: seq<string>, info: Info<R>) {
    Within(done, p) && Hit(st, idx, z, ip, p) && info == InfoAt(st, idx, z, fqdns, ip, p)
  }

  lemma VisitedSelf<R>(st: State<R>, idx: Index, z: R, fqdns: seq<string>, ip: string, es: seq<Entry>)
    requires z in st.key && z in st.names && z in st.children && idx.byIP(st.key[z], ip) == Ok(es)
    ensures var here := Expand(st.names[z], fqdns);
      var own := if es == [] then [] else [Info(Some(z), here, es, EntryNames(es, here))];
      OutcomeSoFar(st, idx, z, fqdns, ip, {}, Ok(own))
  {
    var here := Expand(st.names[z], fqdns);
    assert Follow(st, z, []) == Some(z);
    if es == [] {
      assert Visited(st, idx, z, fqdns, ip, {}, [], []);
    } else {
      assert Visited(st, idx, z, fqdns, ip, {}, [[]], [Info(Some(z), here, es, EntryNames(es, here))]);
    }
  }

  lemma FailsHere<R>(st: State<R>, idx: Index, z: R, fqdns: seq<string>, ip: string, error: string)
    requires z in st.key && z in st.names && z in st.children && idx.byIP(st.key[z], ip) == Err(error)
    ensures Outcome(st, idx, z, fqdns, ip, Err(error))
  {
    assert Fails(st, idx, z, ip, [], error);
  }

  /** What is found below a child is found below the zone, one step further away. */
  lemma Below<R>(st: State<R>, idx: Index, z: R, fqdns: seq<string>, ip: string, n: string, p: seq<string>)
    requires z in st.key && z in st.names && z in st.children && n in st.children[z]
    ensures var c := st.children[z][n];
      && Follow(st, z, [n] + p) == Follow(st, c, p)
      && (Hit(st, idx, z, ip, [n] + p) <==> Hit(st, idx, c, ip, p))
      && (Hit(st, idx, c, ip, p) ==>
            InfoAt(st, idx, z, fqdns, ip, [n] + p) == InfoAt(st, idx, c, Expand(st.names[z], fqdns), ip, p))
  {
    var q := [n] + p;
    assert q[0] == n && q[1..] == p;
  }

  lemma VisitedMore<R>(st: State<R>, idx: Index, z: R, fqdns: seq<string>, ip: string, done: set<string>,
                       paths: seq<seq<string>>, infos: seq<Info<R>>, n: string, ps: seq<seq<string>>,
                       more: seq<Info<R>>)
    requires z in st.key && z in st.names && z in st.children && n in st.children[z] && n !in done
    requires Visited(st, idx, z, fqdns, ip, done, paths, infos)
    requires Reverse(st, idx, st.children[z][n], Expand(st.names[z], fqdns), ip, ps, more)
    requires AllAnswered(st, idx, st.children[z][n], ip) && TopDown(ps)
    ensures Visited(st, idx, z, fqdns, ip, done + {n}, paths + Behead(n, ps), infos + more)
  {
    var all, both := paths + Behead(n, ps), infos + more;
    forall i, j | 0 <= i < j < |all| ensures all[i] != all[j] {
      MoreApart(st, idx, z, fqdns, ip, done, paths, infos, n, ps, i, j);
    }
    forall i | 0 <= i < |all| ensures Reports(st, idx, z, fqdns, ip, done + {n}, all[i], both[i]) {
      if i < |paths| {
        assert Reports(st, idx, z, fqdns, ip, done, paths[i], infos[i]);
      } else {
        assert both[i] == more[i - |paths|];
        Below(st, idx, z, fqdns, ip, n, ps[i - |paths|]);
      }
    }
    forall p | Hit(st, idx, z, ip, p) && Within(done + {n}, p) ensures p in all {
      if !Within(done, p) {
        assert p == [n] + p[1..];
        Below(st, idx, z, fqdns, ip, n, p[1..]);
        var i :| 0 <= i < |ps| && ps[i] == p[1..];
        assert all[|paths| + i] == p;
      }
    }
    MoreAnswered(st, idx, z, ip, done, n);
    forall i | 0 <= i < |paths| ensures Within(done, paths[i]) {
      assert Reports(st, idx, z, fqdns, ip, done, paths[i], infos[i]);
    }
    StaysTopDown(paths, done, n, ps);
  }

  lemma StaysTopDown(paths: seq<seq<string>>, done: set<string>, n: string, ps: seq<seq<string>>)
    requires TopDown(paths) && TopDown(ps) && n !in done && forall i | 0 <= i < |paths| :: Within(done, paths[i])
    ensures TopDown(paths + Behead(n, ps))
  {
    var all := paths + Behead(n, ps);
    forall i, j | 0 <= i < j < |all| ensures !(all[j] < all[i]) {
      if j >= |paths| {
        var q := ps[j - |paths|];
        assert all[j] == [n] + q && all[j][0] == n;
        if i >= |paths| {
          var p := ps[i - |paths|];
          assert all[i] == [n] + p && !(q < p);
          InFrontOfBoth(n, q, p);
        } else {
          assert all[i] == paths[i];
          HeadsDiffer(all[j], all[i]);
        }
      }
    }
  }

  lemma HeadsDiffer(a: seq<string>, b: seq<string>)
    requires a != [] && (b == [] || b[0] != a[0])
    ensures !(a < b)
  {
  }

  lemma InFrontOfBoth(n: string, q: seq<string>, p: seq<string>)
    ensures [n] + q < [n] + p ==> q < p
  {
    if [n] + q < [n] + p {
      forall i | 0 <= i < |q| ensures q[i] == p[i] {
        assert ([n] + q)[i + 1] == ([n] + p)[i + 1];
      }
    }
  }

  lemma MoreAnswered<R>(st: State<R>, idx: Index, z: R, ip: string, done: set<string>, n: string)
    requires z in st.key && z in st.names && z in st.children && n in st.children[z]
    requires Answered(st, idx, z, ip, done) && AllAnswered(st, idx, st.children[z][n], ip)
    ensures Answered(st, idx, z, ip, done + {n})
  {
    forall p | Follow(st, z, p).Some? && Within(done + {n}, p) ensures Found(st, idx, z, ip, p).Ok? {
      if !Within(done, p) {
        assert Found(st, idx, st.children[z][n], ip, p[1..]).Ok?;
      }
    }
  }

  lemma MoreApart<R>(st: State<R>, idx: Index, z: R, fqdns: seq<string>, ip: string, done: set<string>,
                     paths: seq<seq<string>>, infos: seq<Info<R>>, n: string, ps: seq<seq<string>>, i: nat, j: nat)
    requires Visited(st, idx, z, fqdns, ip, done, paths, infos) && n !in done
    requires forall k, l | 0 <= k < l < |ps| :: ps[k] != ps[l]
    requires i < j < |paths| + |ps|
    ensures (paths + Behead(n, ps))[i] != (paths + Behead(n, ps))[j]
  {
    var all := paths + Behead(n, ps);
    if j >= |paths| {
      var q := ps[j - |paths|];
      assert all[j] == [n] + q && all[j][0] == n && all[j][1..] == q;
      if i >= |paths| {
        assert all[i][1..] == ps[i - |paths|];
      } else {
        assert Reports(st, idx, z, fqdns, ip, done, paths[i], infos[i]);
      }
    }
  }

  /** What the zone's own result becomes with that of one more child. */
  function With<R>(infos: seq<Info<R>>, c: Result<seq<Info<R>>>): Result<seq<Info<R>>> {
    match c
    case Ok(more) => Ok(infos + more)
    case Err(error) => Err(error)
  }

  lemma OneMoreChild<R>(st: State<R>, idx: Index, z: R, fqdns: seq<string>, ip: string, done: set<string>,
                        infos: seq<Info<R>>, n: string, c: Result<seq<Info<R>>>)
    requires z in st.key && z in st.names && z in st.children && n in st.children[z] && n !in done
    requires OutcomeSoFar(st, idx, z, fqdns, ip, done, Ok(infos))
    requires Outcome(st, idx, st.children[z][n], Expand(st.names[z], fqdns), ip, c)
    ensures OutcomeSoFar(st, idx, z, fqdns, ip, done + {n}, With(infos, c))
  {
    match c
    case Ok(more) =>
      var paths :| Visited(st, idx, z, fqdns, ip, done, paths, infos);
      var ps :| Reverse(st, idx, st.children[z][n], Expand(st.names[z], fqdns), ip, ps, more) && TopDown(ps);
      VisitedMore(st, idx, z, fqdns, ip, done, paths, infos, n, ps, more);
    case Err(error) =>
      var p :| Fails(st, idx, st.children[z][n], ip, p, error);
      Below(st, idx, z, fqdns, ip, n, p);
      assert Fails(st, idx, z, ip, [n] + p, error);
  }

  /** One of the children still to be visited, out of `todo`. */
  lemma NextChild<R>(st: State<R>, idx: Index, z: R, fqdns: seq<string>, ip: string, todo: set<string>,
                     infos: seq<Info<R>>, n: string, c: Result<seq<Info<R>>>)
    requires z in st.key && z in st.names && z in st.children && n in todo && todo <= st.children[z].Keys
    requires OutcomeSoFar(st, idx, z, fqdns, ip, st.children[z].Keys - todo, Ok(infos))
    requires Outcome(st, idx, st.children[z][n], Expand(st.names[z], fqdns), ip, c)
    ensures OutcomeSoFar(st, idx, z, fqdns, ip, st.children[z].Keys - (todo - {n}), With(infos, c))
  {
    var kids := st.children[z].Keys;
    assert (kids - todo) + {n} == kids - (todo - {n});
    OneMoreChild(st, idx, z, fqdns, ip, kids - todo, infos, n, c);
  }

  lemma VisitedAll<R>(st: State<R>, idx: Index, z: R, fqdns: seq<string>, ip: string, infos: seq<Info<R>>)
    requires z in st.children && OutcomeSoFar(st, idx, z, fqdns, ip, st.children[z].Keys, Ok(infos))
    ensures Outcome(st, idx, z, fqdns, ip, Ok(infos))
  {
    var paths :| Visited(st, idx, z, fqdns, ip, st.children[z].Keys, paths, infos);
    forall i | 0 <= i < |paths|
      ensures Hit(st, idx, z, ip, paths[i]) && infos[i] == InfoAt(st, idx, z, fqdns, ip, paths[i])
    {
      assert Reports(st, idx, z, fqdns, ip, st.children[z].Keys, paths[i], infos[i]);
    }
    assert Reverse(st, idx, z, fqdns, ip, paths, infos);
  }
}
