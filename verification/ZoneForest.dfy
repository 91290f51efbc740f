/** The recursion of the reverse lookup over the child maps: exactly when it is bounded, that it visits
    every zone once where the child maps are exact, and what may go wrong where they are not. */
module ZoneForest {
  import opened Wrappers
  import opened DomainNames
  import opened FiniteSets
  import opened ZoneGraph
  import opened ZoneFiling
  import opened ZoneSerials
  import opened ZoneLookup
  import opened ZoneWalks
  import ZoneHistory

  // ----- a rank for the recursion ------------------------------------------------------------------

  /** The zones from which climbing meets `z`. */
  ghost function Offspring<R>(st: State<R>, z: R): set<R> {
    set y | y in st.key && Above(st.parent, Some(y), z)
  }

  ghost function RankOf<R>(st: State<R>): map<R, nat>
    requires Closed(st)
  {
    map z | z in st.key && Present(st, z) :: |Offspring(st, z)|
  }

  lemma OffspringShrinks<R>(st: State<R>, z: R, c: R)
    requires Closed(st) && Acyclic(st.parent) && c in st.key && z in st.key && st.parent[c] == Some(z)
    ensures |Offspring(st, c)| < |Offspring(st, z)|
  {
    forall y | y in Offspring(st, c) ensures y in Offspring(st, z) {
      var n: nat :| Climb(st.parent, Some(y), n) == Some(c);
      OneHigher(st.parent, Some(y), n, c);
      assert Climb(st.parent, Some(y), n + 1) == Some(z);
    }
    assert z in Offspring(st, z) by { assert Climb(st.parent, Some(z), 0) == Some(z); }
    NotItsOwnAncestor(st, z, c);
    Smaller(Offspring(st, c), Offspring(st, z), z);
  }

  lemma OneHigher<R>(parent: map<R, Option<R>>, o: Option<R>, n: nat, y: R)
    requires Climb(parent, o, n) == Some(y) && y in parent
    ensures Climb(parent, o, n + 1) == parent[y]
  {
    ClimbAdd(parent, o, n, 1);
    assert Climb(parent, Some(y), 1) == Climb(parent, parent[y], 0);
  }

  lemma NotItsOwnAncestor<R>(st: State<R>, z: R, c: R)
    requires Closed(st) && Acyclic(st.parent) && c in st.key && z in st.key && st.parent[c] == Some(z)
    ensures z !in Offspring(st, c)
  {
    if z in Offspring(st, c) {
      var n: nat :| Climb(st.parent, Some(z), n) == Some(c);
      OneHigher(st.parent, Some(z), n, c);
      NeverBack(st.parent, z, n + 1);
    }
  }

  /** In an acyclic graph no climb comes back. */
  lemma NeverBack<R>(parent: map<R, Option<R>>, z: R, m: nat)
    requires Acyclic(parent) && z in parent && m > 0
    ensures Climb(parent, Some(z), m) != Some(z)
  {
    assert Ends(parent, Some(z));
    if Climb(parent, Some(z), m) == Some(z) {
      NeverEnds(parent, Some(z), m);
    }
  }

  /** With exact child maps and no cycle the known zones can be ranked: the recursion ends. */
  lemma KnownZonesRanked<R>(st: State<R>)
    requires Sound(st) && Acyclic(st.parent)
    ensures Ranked(st, RankOf(st))
    ensures forall z | z in st.key && Present(st, z) :: z in RankOf(st)
  {
    var rank := RankOf(st);
    forall z, n | z in rank && n in st.children[z]
      ensures st.children[z][n] in rank && rank[st.children[z][n]] < rank[z]
    {
      var c := st.children[z][n];
      assert Listed(st, st.zones[st.key[z]], n, c);
      OffspringShrinks(st, z, c);
    }
  }

  // ----- exactly when there is a rank ------------------------------------------------------------------

  ghost predicate Reaches<R>(st: State<R>, z: R, y: R) {
    exists path :: Follow(st, z, path) == Some(y)
  }

  ghost function Reached<R>(st: State<R>, z: R): set<R> {
    set y | y in st.key && Reaches(st, z, y)
  }

  /** No zone below `z`, nor `z`, can be reached from one of its own children. */
  ghost predicate NoneBelowItself<R>(st: State<R>, z: R)
    requires Closed(st)
  {
    forall y, n {:trigger st.children[y][n]} | y in Reached(st, z) && n in st.children[y] ::
      !Reaches(st, st.children[y][n], y)
  }

  lemma {:induction false} FollowFurther<R>(st: State<R>, z: R, p: seq<string>, q: seq<string>)
    requires Follow(st, z, p).Some?
    ensures Follow(st, z, p + q) == Follow(st, Follow(st, z, p).value, q)
    decreases |p|
  {
    if p == [] {
      assert p + q == q;
    } else {
      assert (p + q)[0] == p[0] && (p + q)[1..] == p[1..] + q;
      FollowFurther(st, st.children[z][p[0]], p[1..], q);
    }
  }

  lemma ReachesFurther<R>(st: State<R>, z: R, y: R, x: R)
    requires Reaches(st, z, y) && Reaches(st, y, x)
    ensures Reaches(st, z, x)
  {
    var p :| Follow(st, z, p) == Some(y);
    var q :| Follow(st, y, q) == Some(x);
    FollowFurther(st, z, p, q);
  }

  lemma ReachesChild<R>(st: State<R>, z: R, n: string)
    requires Closed(st) && z in st.key && n in st.children[z]
    ensures Reaches(st, z, z) && Reaches(st, z, st.children[z][n])
  {
    assert Follow(st, z, []) == Some(z);
    assert [n][1..] == [];
    assert Follow(st, st.children[z][n], []) == Some(st.children[z][n]);
    assert Follow(st, z, [n]) == Some(st.children[z][n]);
  }

  /** A rank falls along every path. */
  lemma {:induction false} RankFalls<R>(st: State<R>, rank: map<R, nat>, z: R, path: seq<string>)
    requires Ranked(st, rank) && z in rank && Follow(st, z, path).Some?
    ensures var y := Follow(st, z, path).value; y in rank && rank[y] + |path| <= rank[z]
    decreases |path|
  {
    if path != [] {
      RankFalls(st, rank, st.children[z][path[0]], path[1..]);
    }
  }

  lemma RankedNotBelowItself<R>(st: State<R>, rank: map<R, nat>, z: R)
    requires Closed(st) && Ranked(st, rank) && z in rank
    ensures NoneBelowItself(st, z)
  {
    forall y, n | y in Reached(st, z) && n in st.children[y] ensures !Reaches(st, st.children[y][n], y) {
      var p :| Follow(st, z, p) == Some(y);
      RankFalls(st, rank, z, p);
      var c := st.children[y][n];
      if Reaches(st, c, y) {
        var q :| Follow(st, c, q) == Some(y);
        RankFalls(st, rank, c, q);
      }
    }
  }

  /** The number of zones reachable. */
  ghost function ReachRank<R>(st: State<R>, z: R): map<R, nat> {
    map y | y in Reached(st, z) :: |Reached(st, y)|
  }

  lemma ReachShrinks<R>(st: State<R>, z: R, y: R, n: string)
    requires Closed(st) && NoneBelowItself(st, z) && y in Reached(st, z) && n in st.children[y]
    ensures st.children[y][n] in Reached(st, z) && |Reached(st, st.children[y][n])| < |Reached(st, y)|
  {
    var c := st.children[y][n];
    ReachesChild(st, y, n);
    ReachesFurther(st, z, y, c);
    forall x | x in Reached(st, c) ensures x in Reached(st, y) {
      ReachesFurther(st, y, c, x);
    }
    Smaller(Reached(st, c), Reached(st, y), y);
  }

  lemma ReachRanks<R>(st: State<R>, z: R)
    requires Closed(st) && z in st.key && NoneBelowItself(st, z)
    ensures Ranked(st, ReachRank(st, z)) && z in ReachRank(st, z)
  {
    var rank := ReachRank(st, z);
    assert Follow(st, z, []) == Some(z);
    forall y, n | y in rank && n in st.children[y]
      ensures st.children[y][n] in rank && rank[st.children[y][n]] < rank[y]
    {
      ReachShrinks(st, z, y, n);
    }
  }

  /** From a zone below itself paths of any length lead on. */
  lemma {:induction false} RoundAndRound<R>(st: State<R>, y: R, round: seq<string>, m: nat) returns (path: seq<string>)
    requires round != [] && Follow(st, y, round) == Some(y)
    ensures Follow(st, y, path) == Some(y) && |path| >= m
  {
    if m == 0 {
      path := [];
    } else {
      var rest := RoundAndRound(st, y, round, m - 1);
      path := round + rest;
      FollowFurther(st, y, round, rest);
    }
  }

  lemma EndlessBelow<R>(st: State<R>, z: R, m: nat) returns (path: seq<string>)
    requires Closed(st) && z in st.key && !NoneBelowItself(st, z)
    ensures Follow(st, z, path).Some? && |path| >= m
  {
    var y, n :| y in Reached(st, z) && n in st.children[y] && Reaches(st, st.children[y][n], y);
    var p :| Follow(st, z, p) == Some(y);
    var q :| Follow(st, st.children[y][n], q) == Some(y);
    assert ([n] + q)[0] == n && ([n] + q)[1..] == q;
    var rest := RoundAndRound(st, y, [n] + q, m);
    FollowFurther(st, z, p, rest);
    path := p + rest;
  }

  ghost predicate Bounded<R>(st: State<R>, z: R, m: nat) {
    forall path {:trigger Follow(st, z, path)} | Follow(st, z, path).Some? :: |path| <= m
  }

  /** The recursion of the reverse lookup has a rank exactly when no zone below is reachable from one
      of its own children, and exactly when the paths it may take are bounded. */
  lemma RankedIff<R>(st: State<R>, z: R)
    requires Closed(st) && z in st.key
    ensures (exists rank: map<R, nat> :: Ranked(st, rank) && z in rank) <==> NoneBelowItself(st, z)
    ensures (exists m: nat :: Bounded(st, z, m)) <==> NoneBelowItself(st, z)
  {
    if NoneBelowItself(st, z) {
      ReachRanks(st, z);
      var rank := ReachRank(st, z);
      forall path | Follow(st, z, path).Some? ensures |path| <= rank[z] {
        RankFalls(st, rank, z, path);
      }
      assert Bounded(st, z, rank[z]);
    } else {
      forall rank: map<R, nat> | Ranked(st, rank) ensures z !in rank {
        if z in rank { RankedNotBelowItself(st, rank, z); }
      }
      forall m: nat ensures !Bounded(st, z, m) {
        var path := EndlessBelow(st, z, m + 1);
      }
    }
  }

  /** The reverse lookup for the address is bounded: it comes to no zone again from a child of it, without
      passing a zone in which the lookup fails. */
  ghost predicate LookupBounded<R>(st: State<R>, idx: Index, z: R, ip: string)
    requires Closed(st)
  {
    FollowedClosed(st, idx, ip);
    NoneBelowItself(Followed(st, idx, ip), z)
  }

  lemma LookupRanked<R>(st: State<R>, idx: Index, z: R, ip: string) returns (rank: map<R, nat>)
    requires Closed(st) && z in st.key && LookupBounded(st, idx, z, ip)
    ensures Ranked(Followed(st, idx, ip), rank) && z in rank
  {
    FollowedClosed(st, idx, ip);
    ReachRanks(Followed(st, idx, ip), z);
    rank := ReachRank(Followed(st, idx, ip), z);
  }

  /** That is the exact condition, failing lookups included: else some order of the children leads the
      recursion down without end. */
  lemma LookupBoundedIff<R>(st: State<R>, idx: Index, z: R, ip: string)
    requires Closed(st) && z in st.key
    ensures LookupBounded(st, idx, z, ip) <==> exists m: nat :: Bounded(Followed(st, idx, ip), z, m)
  {
    FollowedClosed(st, idx, ip);
    RankedIff(Followed(st, idx, ip), z);
  }

  lemma BoundedForAll<R>(st: State<R>, idx: Index, z: R, ip: string)
    requires Closed(st) && z in st.key && NoneBelowItself(st, z)
    ensures LookupBounded(st, idx, z, ip)
  {
    var followed := Followed(st, idx, ip);
    FollowedClosed(st, idx, ip);
    ReachRanks(st, z);
    var rank := ReachRank(st, z);
    forall y, n | y in rank && n in followed.children[y]
      ensures followed.children[y][n] in rank && rank[followed.children[y][n]] < rank[y]
    {
      assert followed.children[y][n] == st.children[y][n];
    }
    RankedNotBelowItself(followed, rank, z);
  }

  /** So with the intended filing the recursion is bounded below every known zone after every run whose
      calls were safe. */
  lemma SafeRunBounded<R>(ops: seq<ZoneHistory.Op<R>>, z: R)
    requires ZoneHistory.FreshIds(ops) && ZoneHistory.SafeRun(ops, Corrected)
    requires Present(ZoneHistory.Run(ops, Corrected), z)
    ensures NoneBelowItself(ZoneHistory.Run(ops, Corrected), z)
  {
    var st := ZoneHistory.Run(ops, Corrected);
    ZoneHistory.RunAcyclic(ops, Corrected);
    KnownZonesRanked(st);
    RankedNotBelowItself(st, RankOf(st), z);
  }

  // ----- exactly when the reverse lookup reports no zone twice ------------------------------------------

  lemma Reported<R>(st: State<R>, idx: Index, z: R, fqdns: seq<string>, ip: string,
                    paths: seq<seq<string>>, infos: seq<Info<R>>, i: nat)
    requires Reverse(st, idx, z, fqdns, ip, paths, infos) && i < |infos|
    ensures Hit(st, idx, z, ip, paths[i]) && infos[i] == InfoAt(st, idx, z, fqdns, ip, paths[i])
  {
    var info := infos[i];
  }

  /** Something is found for the address in the zone or below it. */
  ghost predicate HitBelow<R>(st: State<R>, idx: Index, z: R, ip: string) {
    exists p :: Hit(st, idx, z, ip, p)
  }

  /** Below `z` no zone in or below which something is found is listed twice: neither with two zones nor
      with one under two names. */
  ghost predicate ListedOnce<R>(st: State<R>, idx: Index, z: R, ip: string)
    requires Closed(st)
  {
    forall y, n, x, m {:trigger st.children[y][n], st.children[x][m]}
      | y in Reached(st, z) && n in st.children[y] && x in Reached(st, z) && m in st.children[x]
        && st.children[y][n] == st.children[x][m] && HitBelow(st, idx, st.children[y][n], ip) ::
      y == x && n == m
  }

  /** The path goes through `y` and ends with its child `n`. */
  ghost predicate EndsWith<R>(st: State<R>, z: R, path: seq<string>, before: seq<string>, y: R, n: string) {
    && path == before + [n] && Follow(st, z, before) == Some(y) && y in st.key
    && y in st.children && n in st.children[y] && Follow(st, z, path) == Some(st.children[y][n])
  }

  lemma {:induction false} LastEdge<R>(st: State<R>, z: R, path: seq<string>)
    returns (before: seq<string>, y: R, n: string)
    requires Follow(st, z, path).Some? && path != []
    ensures EndsWith(st, z, path, before, y, n)
    decreases |path|
  {
    if |path| == 1 {
      before, y, n := [], z, path[0];
      assert path[1..] == [] && path == before + [n];
    } else {
      before, y, n := LastEdge(st, st.children[z][path[0]], path[1..]);
      before := [path[0]] + before;
      assert before[1..] + [n] == path[1..];
    }
  }

  lemma HitFurther<R>(st: State<R>, idx: Index, z: R, ip: string, p: seq<string>, q: seq<string>)
    requires Follow(st, z, p).Some?
    ensures var y := Follow(st, z, p).value;
      Follow(st, z, p + q) == Follow(st, y, q) && (Hit(st, idx, z, ip, p + q) <==> Hit(st, idx, y, ip, q))
  {
    FollowFurther(st, z, p, q);
  }

  lemma NoWayBack<R>(st: State<R>, z: R, path: seq<string>)
    requires Closed(st) && NoneBelowItself(st, z) && path != []
    ensures Follow(st, z, path) != Some(z)
  {
    WayBack(st, z, path);
  }

  lemma WayBack<R>(st: State<R>, z: R, path: seq<string>)
    requires path != []
    ensures Follow(st, z, path) == Some(z) ==>
      z in Reached(st, z) && path[0] in st.children[z] && Reaches(st, st.children[z][path[0]], z)
  {
    if Follow(st, z, path) == Some(z) {
      assert Follow(st, st.children[z][path[0]], path[1..]) == Some(z);
      assert Reaches(st, z, z);
    }
  }

  /** Two paths to a zone in or below which something is found are the same. */
  lemma {:induction false} SamePath<R>(st: State<R>, idx: Index, z: R, ip: string, p: seq<string>, q: seq<string>)
    requires Closed(st) && NoneBelowItself(st, z) && ListedOnce(st, idx, z, ip)
    requires Follow(st, z, p).Some? && Follow(st, z, p) == Follow(st, z, q)
    requires HitBelow(st, idx, Follow(st, z, p).value, ip)
    ensures p == q
    decreases |p|
  {
    if p == [] {
      if q != [] { NoWayBack(st, z, q); }
    } else if q == [] {
      NoWayBack(st, z, p);
    } else {
      var p0, y, n := LastEdge(st, z, p);
      var q0, x, m := LastEdge(st, z, q);
      assert y in Reached(st, z) && x in Reached(st, z);
      assert st.children[y][n] == st.children[x][m];
      HitAbove(st, idx, y, ip, n);
      SamePath(st, idx, z, ip, p0, q0);
    }
  }

  lemma HitAbove<R>(st: State<R>, idx: Index, y: R, ip: string, n: string)
    requires Closed(st) && y in st.key && n in st.children[y] && HitBelow(st, idx, st.children[y][n], ip)
    ensures HitBelow(st, idx, y, ip)
  {
    var h :| Hit(st, idx, st.children[y][n], ip, h);
    Below(st, idx, y, [], ip, n, h);
  }

  /** Where the reverse lookup reports what is found at the end of the path that goes through `y`, its
      child `n` and on along `h`. */
  lemma ReportedVia<R>(st: State<R>, idx: Index, z: R, fqdns: seq<string>, ip: string, paths: seq<seq<string>>,
                       infos: seq<Info<R>>, y: R, n: string, h: seq<string>) returns (i: nat, p: seq<string>)
    requires Closed(st) && y in Reached(st, z) && n in st.children[y] && Hit(st, idx, st.children[y][n], ip, h)
    requires Reverse(st, idx, z, fqdns, ip, paths, infos)
    ensures i < |infos| && paths[i] == p + ([n] + h) && Follow(st, z, p) == Some(y)
    ensures infos[i].zone == Follow(st, st.children[y][n], h)
  {
    p :| Follow(st, z, p) == Some(y);
    Below(st, idx, y, fqdns, ip, n, h);
    HitFurther(st, idx, z, ip, p, [n] + h);
    i :| 0 <= i < |paths| && paths[i] == p + ([n] + h);
    Reported(st, idx, z, fqdns, ip, paths, infos, i);
  }

  /** A zone listed twice below `z` is reported twice, if something is found there; so are the zones
      below it. */
  lemma ReportedTwice<R>(st: State<R>, idx: Index, z: R, fqdns: seq<string>, ip: string, paths: seq<seq<string>>,
                         infos: seq<Info<R>>, y: R, n: string, x: R, m: string, h: seq<string>) returns (i: nat, j: nat)
    requires Closed(st) && y in Reached(st, z) && n in st.children[y] && x in Reached(st, z) && m in st.children[x]
    requires st.children[y][n] == st.children[x][m] && !(y == x && n == m)
    requires Hit(st, idx, st.children[y][n], ip, h) && Reverse(st, idx, z, fqdns, ip, paths, infos)
    ensures i < |infos| && j < |infos| && i != j
    ensures infos[i].zone == infos[j].zone == Follow(st, st.children[y][n], h)
  {
    var p, q;
    i, p := ReportedVia(st, idx, z, fqdns, ip, paths, infos, y, n, h);
    j, q := ReportedVia(st, idx, z, fqdns, ip, paths, infos, x, m, h);
    if i == j {
      SamePrefix(p, n, q, m, h);
    }
  }

  lemma SamePrefix(p: seq<string>, n: string, q: seq<string>, m: string, h: seq<string>)
    requires p + ([n] + h) == q + ([m] + h)
    ensures p == q && n == m
  {
    var a, b := p + ([n] + h), q + ([m] + h);
    assert |p| == |q| && a[..|p|] == p && b[..|q|] == q && a[|p|] == n && b[|q|] == m;
  }

  ghost predicate AllDifferent<R>(infos: seq<Info<R>>) {
    forall i, j | 0 <= i < j < |infos| :: infos[i].zone != infos[j].zone
  }

  /** The reverse lookup reports no zone twice exactly when no zone in or below which something is found
      is listed twice. */
  lemma ReportedOnceIff<R>(st: State<R>, idx: Index, z: R, fqdns: seq<string>, ip: string,
                           paths: seq<seq<string>>, infos: seq<Info<R>>)
    requires Closed(st) && NoneBelowItself(st, z) && Reverse(st, idx, z, fqdns, ip, paths, infos)
    ensures AllDifferent(infos) <==> ListedOnce(st, idx, z, ip)
  {
    if ListedOnce(st, idx, z, ip) {
      forall i, j | 0 <= i < j < |infos| ensures infos[i].zone != infos[j].zone {
        Reported(st, idx, z, fqdns, ip, paths, infos, i);
        Reported(st, idx, z, fqdns, ip, paths, infos, j);
        if infos[i].zone == infos[j].zone {
          HitAtEnd(st, idx, z, ip, paths[i]);
          SamePath(st, idx, z, ip, paths[i], paths[j]);
        }
      }
    } else {
      var y, n, x, m :| y in Reached(st, z) && n in st.children[y] && x in Reached(st, z) && m in st.children[x]
        && st.children[y][n] == st.children[x][m] && HitBelow(st, idx, st.children[y][n], ip) && !(y == x && n == m);
      var h :| Hit(st, idx, st.children[y][n], ip, h);
      var i, j := ReportedTwice(st, idx, z, fqdns, ip, paths, infos, y, n, x, m, h);
      assert infos[i].zone == infos[j].zone;
    }
  }

  lemma HitAtEnd<R>(st: State<R>, idx: Index, z: R, ip: string, p: seq<string>)
    requires Hit(st, idx, z, ip, p)
    ensures HitBelow(st, idx, Follow(st, z, p).value, ip)
  {
    assert p + [] == p;
    HitFurther(st, idx, z, ip, p, []);
  }

  // ----- what the reverse lookup reaches -------------------------------------------------------------------

  /** `w` is known, and `n` steps up its parents, all known, is `z`. */
  ghost predicate ClimbsTo<R>(st: State<R>, w: R, n: nat, z: R) {
    w in st.key && Present(st, w)
    && if n == 0 then w == z else w in st.parent && st.parent[w].Some? && ClimbsTo(st, st.parent[w].value, n - 1, z)
  }

  /** The parents of `w` lead to `z`. */
  ghost predicate LiesBelow<R>(st: State<R>, w: R, z: R) {
    exists n: nat :: ClimbsTo(st, w, n, z)
  }

  lemma {:induction false} ClimbHigher<R>(st: State<R>, w: R, n: nat, c: R, z: R)
    requires ClimbsTo(st, w, n, c) && c in st.parent && st.parent[c] == Some(z) && z in st.key && Present(st, z)
    ensures ClimbsTo(st, w, n + 1, z)
    decreases n
  {
    if n == 0 {
      assert ClimbsTo(st, z, 0, z);
    } else {
      ClimbHigher(st, st.parent[w].value, n - 1, c, z);
    }
  }

  lemma {:induction false} PathClimbsTo<R>(st: State<R>, z: R, path: seq<string>)
    requires Sound(st) && z in st.key && Present(st, z) && Follow(st, z, path).Some?
    ensures ClimbsTo(st, Follow(st, z, path).value, |path|, z)
    decreases |path|
  {
    if path != [] {
      var c := st.children[z][path[0]];
      assert Listed(st, st.zones[st.key[z]], path[0], c);
      PathClimbsTo(st, c, path[1..]);
      ClimbHigher(st, Follow(st, z, path).value, |path| - 1, c, z);
    }
  }

  lemma {:induction false} ClimbIsPath<R>(st: State<R>, w: R, n: nat, z: R) returns (path: seq<string>)
    requires Sound(st) && ClimbsTo(st, w, n, z)
    ensures Follow(st, z, path) == Some(w)
    decreases n
  {
    if n == 0 {
      path := [];
    } else {
      var p, name := st.parent[w].value, st.key[w].name;
      var before := ClimbIsPath(st, p, n - 1, z);
      assert Lists(st, st.key[w]) by { assert st.parent[st.zones[st.key[w]]] == Some(p); }
      assert st.children[p][name] == w;
      path := before + [name];
      FollowFurther(st, z, before, [name]);
      assert [name][1..] == [] && Follow(st, w, []) == Some(w);
    }
  }

  /** With exact child maps the recursion below a known zone reaches exactly the known zones whose
      parents lead to it. */
  lemma ReachesIff<R>(st: State<R>, z: R, w: R)
    requires Sound(st) && z in st.key && Present(st, z)
    ensures Reaches(st, z, w) <==> LiesBelow(st, w, z)
  {
    if Reaches(st, z, w) {
      var path :| Follow(st, z, path) == Some(w);
      PathClimbsTo(st, z, path);
    }
    if LiesBelow(st, w, z) {
      var n: nat :| ClimbsTo(st, w, n, z);
      var path := ClimbIsPath(st, w, n, z);
    }
  }

  /** A zone known below a known zone is listed with its parent only, under its own name. */
  lemma ExactListedOnce<R>(st: State<R>, idx: Index, z: R, ip: string)
    requires Sound(st) && z in st.key && Present(st, z)
    ensures ListedOnce(st, idx, z, ip)
  {
    forall y, n, x, m | y in Reached(st, z) && n in st.children[y] && x in Reached(st, z) && m in st.children[x]
                        && st.children[y][n] == st.children[x][m] && HitBelow(st, idx, st.children[y][n], ip)
      ensures y == x && n == m
    {
      ListedBelow(st, z, y, n);
      ListedBelow(st, z, x, m);
    }
  }

  lemma ListedBelow<R>(st: State<R>, z: R, y: R, n: string)
    requires Sound(st) && z in st.key && Present(st, z) && y in Reached(st, z) && n in st.children[y]
    ensures Listed(st, y, n, st.children[y][n])
  {
    ReachesIff(st, z, y);
    assert Listed(st, st.zones[st.key[y]], n, st.children[st.zones[st.key[y]]][n]);
  }

  /** Two paths from a known zone to the same zone are the same path. */
  lemma OnePath<R>(st: State<R>, z: R, p: seq<string>, q: seq<string>)
    requires Sound(st) && Acyclic(st.parent) && z in st.key && Present(st, z)
    requires Follow(st, z, p).Some? && Follow(st, z, p) == Follow(st, z, q)
    ensures p == q
  {
    var found := (k: ZoneKey, item: string) => Ok([Entry("", [], [], [], [])]);
    var everywhere := Index(found, found);
    KnownZonesRanked(st);
    RankedNotBelowItself(st, RankOf(st), z);
    ExactListedOnce(st, everywhere, z, "");
    assert Hit(st, everywhere, z, "", p);
    HitAtEnd(st, everywhere, z, "", p);
    SamePath(st, everywhere, z, "", p, q);
  }

  ghost predicate HasEntries(idx: Index, key: ZoneKey, ip: string) {
    idx.byIP(key, ip).Ok? && idx.byIP(key, ip).value != []
  }

  predicate Reports<R(==)>(infos: seq<Info<R>>, w: R) {
    exists i | 0 <= i < |infos| :: infos[i].zone == Some(w)
  }

  /** With exact child maps the reverse lookup reports the known zones below that have entries for the
      address, and each of them once. */
  lemma EveryZoneOnce<R>(st: State<R>, idx: Index, z: R, fqdns: seq<string>, ip: string,
                         paths: seq<seq<string>>, infos: seq<Info<R>>)
    requires Sound(st) && Acyclic(st.parent) && z in st.key && Present(st, z)
    requires Reverse(st, idx, z, fqdns, ip, paths, infos)
    ensures AllDifferent(infos)
    ensures forall w {:trigger LiesBelow(st, w, z)} {:trigger Reports(infos, w)} | w in st.key ::
      Reports(infos, w) <==> LiesBelow(st, w, z) && HasEntries(idx, st.key[w], ip)
  {
    KnownZonesRanked(st);
    RankedNotBelowItself(st, RankOf(st), z);
    ExactListedOnce(st, idx, z, ip);
    ReportedOnceIff(st, idx, z, fqdns, ip, paths, infos);
    forall w | w in st.key ensures Reports(infos, w) <==> LiesBelow(st, w, z) && HasEntries(idx, st.key[w], ip) {
      ReachesIff(st, z, w);
      ReportsIff(st, idx, z, fqdns, ip, paths, infos, w);
    }
  }

  /** Whatever the child maps, what is reported is what the recursion reaches and has entries. */
  lemma ReportsIff<R>(st: State<R>, idx: Index, z: R, fqdns: seq<string>, ip: string,
                      paths: seq<seq<string>>, infos: seq<Info<R>>, w: R)
    requires Closed(st) && w in st.key && Reverse(st, idx, z, fqdns, ip, paths, infos)
    ensures Reports(infos, w) <==> Reaches(st, z, w) && HasEntries(idx, st.key[w], ip)
  {
    if Reports(infos, w) {
      var i :| 0 <= i < |infos| && infos[i].zone == Some(w);
      Reported(st, idx, z, fqdns, ip, paths, infos, i);
    }
    if Reaches(st, z, w) && HasEntries(idx, st.key[w], ip) {
      var p :| Follow(st, z, p) == Some(w);
      assert Hit(st, idx, z, ip, p);
      var i :| 0 <= i < |paths| && paths[i] == p;
      Reported(st, idx, z, fqdns, ip, paths, infos, i);
    }
  }

  // ----- a cycle of children ------------------------------------------------------------------------

  /** Updating a known zone changes child maps as `RefiledAt` says. */
  lemma ChildrenAfterUpdate<R>(st: State<R>, id: R, d: ZoneData, st1: State<R>, z: R)
    requires Closed(st) && d.key in st.zones && z in st.key && st1 == Add(st, id, d, AsWritten)
    ensures z in st1.children && st1.children[z] ==
      var left := if st.parent[st.zones[d.key]] == Some(z) && st.key[z].name != d.parentRef
                  then st.children[z] - {d.key.name} else st.children[z];
      if ParentOf(st, d) == Some(z) then left[d.parentRef := st.zones[d.key]] else left
  {
    RefiledAt(st, d, AsWritten, z);
  }

  lemma NothingFurther<R>(parent: map<R, Option<R>>, z: R, n: nat)
    requires z in parent && parent[z] == None
    ensures Climb(parent, Some(z), n) == if n == 0 then Some(z) else None
  {
  }

  /** Going below a zone at the top that does not move is always safe. */
  lemma TopIsSafe<R>(st: State<R>, d: ZoneData)
    requires Closed(st) && d.ParentKey() in st.zones && d.ParentKey() != d.key
    requires var p := st.zones[d.ParentKey()]; st.parent[p] == None && !Moved(st, d.key, p)
    ensures SafeToAdd(st, d)
  {
    var p := st.zones[d.ParentKey()];
    NothingFurther(st.parent, p, 1);
    forall z | z in st.key && Moved(st, d.key, z) ensures !Above(st.parent, Some(p), z) {
      forall n: nat ensures Climb(st.parent, Some(p), n) != Some(z) {
        NothingFurther(st.parent, p, n);
      }
    }
  }

  /** Three calls on a known root `b`: `a` is added below it, becomes a root itself, and then `b`
      goes below `a`. */
  ghost predicate Exchanged<R>(st: State<R>, b: ZoneKey, a: ZoneData, a1: ZoneData, b1: ZoneData, i: R,
                               st1: State<R>, st2: State<R>, st3: State<R>) {
    && Valid(st) && b in st.zones && st.parentName[st.zones[b]] == ""
    && a.key !in st.zones && i !in st.key && a.key.name != "" && b.name != "" && a.key.name != b.name
    && a.parentRef == b.name && a.ParentKey() == b
    && a1.key == a.key && a1.parentRef == ""
    && b1.key == b && b1.parentRef == a.key.name && b1.ParentKey() == a.key
    && st1 == Add(st, i, a, AsWritten) && Valid(st1) && st2 == Add(st1, i, a1, AsWritten) && Valid(st2)
    && st3 == Add(st2, st.zones[b], b1, AsWritten)
  }

  lemma RootHasNoParent<R>(st: State<R>, z: R)
    requires Valid(st) && z in st.key && st.parentName[z] == ""
    ensures st.parent[z] == None
  {
    assert st.parent[z].Some? ==> st.Refers(z, st.key[st.parent[z].value]);
  }

  /** `a` sits below the root `z` under the name of `z`. */
  ghost predicate SitsBelow<R>(st: State<R>, b: ZoneKey, a: ZoneKey, z: R, i: R) {
    && Valid(st) && b in st.zones && st.zones[b] == z && st.parentName[z] == ""
    && a in st.zones && st.zones[a] == i && z != i
    && b.name in st.children[z] && st.children[z][b.name] == i
  }

  lemma SitsAfterOne<R>(st: State<R>, b: ZoneKey, a: ZoneData, a1: ZoneData, b1: ZoneData, i: R,
                        st1: State<R>, st2: State<R>, st3: State<R>)
    requires Exchanged(st, b, a, a1, b1, i, st1, st2, st3)
    ensures SafeToAdd(st, a) && SitsBelow(st1, b, a.key, st.zones[b], i)
  {
    AddedBelow(st, i, a, st1);
    AddedZone(st, i, a, AsWritten);
    RootHasNoParent(st, st.zones[b]);
    TopIsSafe(st, a);
  }

  /** Becoming a root itself, it strikes its own name from the children of `z`, where it is not. */
  lemma SitsStill<R>(st1: State<R>, b: ZoneKey, a1: ZoneData, z: R, i: R, st2: State<R>)
    requires SitsBelow(st1, b, a1.key, z, i) && a1.key.name != b.name && a1.parentRef == ""
    requires st2 == Add(st1, i, a1, AsWritten) && Valid(st2)
    ensures SitsBelow(st2, b, a1.key, z, i) && st2.parentName[i] == ""
  {
    AddedZone(st1, i, a1, AsWritten);
    ChildrenAfterUpdate(st1, i, a1, st2, z);
  }

  lemma CycleCloses<R>(st2: State<R>, b: ZoneKey, b1: ZoneData, z: R, i: R, st3: State<R>)
    requires SitsBelow(st2, b, b1.ParentKey(), z, i) && st2.parentName[i] == ""
    requires b1.key == b && b1.parentRef != "" && b1.ParentKey() != b && st3 == Add(st2, z, b1, AsWritten)
    ensures SafeToAdd(st2, b1) && ChildOf(st3, z, i) && ChildOf(st3, i, z)
  {
    RootHasNoParent(st2, i);
    RootHasNoParent(st2, z);
    TopIsSafe(st2, b1);
    ChildrenAfterUpdate(st2, z, b1, st3, z);
    ChildrenAfterUpdate(st2, z, b1, st3, i);
    assert st3.children[z][b.name] == i && st3.children[i][b1.parentRef] == z;
  }

  /** Every call ends, and no reference was ever cyclic. But `a`, filed under the wrong name, has
      stayed a child of `b`: in the end the two are children of each other. */
  lemma ChildCycle<R>(st: State<R>, b: ZoneKey, a: ZoneData, a1: ZoneData, b1: ZoneData, i: R,
                      st1: State<R>, st2: State<R>, st3: State<R>)
    requires Exchanged(st, b, a, a1, b1, i, st1, st2, st3)
    ensures SafeToAdd(st, a) && SafeToAdd(st1, a1) && SafeToAdd(st2, b1)
    ensures ChildOf(st3, st.zones[b], i) && ChildOf(st3, i, st.zones[b])
  {
    SitsAfterOne(st, b, a, a1, b1, i, st1, st2, st3);
    SitsStill(st1, b, a1, st.zones[b], i, st2);
    CycleCloses(st2, b, b1, st.zones[b], i, st3);
  }

  /** Two zones that are children of each other have no rank. */
  lemma NoRankInCycle<R>(st: State<R>, y: R, z: R)
    requires Closed(st) && ChildOf(st, y, z) && ChildOf(st, z, y) && y in st.key
    ensures !NoneBelowItself(st, y)
  {
    var n :| n in st.children[y] && st.children[y][n] == z;
    var m :| m in st.children[z] && st.children[z][m] == y;
    ReachesChild(st, y, n);
    ReachesChild(st, z, m);
  }

  // ----- zones listed twice, or still listed, or called like the root of all names -----------------------

  /** `b` is a root and `a` goes below it. */
  predicate Nests(a: ZoneData, b: ZoneData) {
    a.key != b.key && a.parentRef != "" && a.parentRef != a.key.name && a.ParentKey() == b.key && b.parentRef == ""
  }

  /** The model knows `a` as the zone `i`, below the zone `j` it knows as `b`, and all child maps are exact. */
  ghost predicate Nested<R>(st: State<R>, i: R, j: R, a: ZoneKey, b: ZoneKey) {
    && Sound(st) && a in st.zones && st.zones[a] == i && b in st.zones && st.zones[b] == j
    && st.parent[i] == Some(j) && st.parentName[i] == b.name && st.ParentKey(i) == b
  }

  /** The child is added first, its parent second: both calls keep the child maps exact. */
  lemma ChildFirst<R>(st: State<R>, i: R, j: R, a: ZoneData, b: ZoneData, st1: State<R>, st2: State<R>)
    requires Sound(st) && i !in st.key && a.key !in st.zones && b.key !in st.zones && Nests(a, b)
    requires st1 == Add(st, i, a, AsWritten) && Valid(st1) && j !in st1.key && st2 == Add(st1, j, b, AsWritten)
    ensures Nested(st2, i, j, a.key, b.key)
  {
    AddAsWrittenIff(st, i, a);
    AddedZone(st, i, a, AsWritten);
    AddAsWrittenIff(st1, j, b);
    AddedZone(st1, j, b, AsWritten);
    assert st2.parentName[st2.zones[a.key]] == a.parentRef && st2.ParentKey(i) == b.key;
  }

  /** A child adopted under its own name and added again is listed twice. */
  lemma ListedTwice<R>(st: State<R>, d: ZoneData, i: R, p: R, st1: State<R>)
    requires Nested(st, i, p, d.key, d.ParentKey()) && d.parentRef != "" && d.parentRef != d.key.name
    requires st1 == Add(st, i, d, AsWritten)
    ensures p in st1.children && d.key.name in st1.children[p] && d.parentRef in st1.children[p]
    ensures st1.children[p][d.key.name] == i && st1.children[p][d.parentRef] == i
  {
    assert st.parent[st.zones[d.key]] == Some(p) && Present(st, p) && Lists(st, d.key);
    ChildrenAfterUpdate(st, i, d, st1, p);
  }

  ghost predicate Twice<R>(infos: seq<Info<R>>, z: R) {
    exists i, j | 0 <= i < |infos| && 0 <= j < |infos| :: i != j && infos[i].zone == infos[j].zone == Some(z)
  }

  /** Whatever the index holds for the zone `z`, the reverse lookup from `p` reports `z` twice. */
  ghost predicate AlwaysTwice<R(!new)>(st: State<R>, p: R, z: R) {
    z in st.key &&
    forall idx, fqdns, ip, paths, infos {:trigger Reverse(st, idx, p, fqdns, ip, paths, infos)}
      | HasEntries(idx, st.key[z], ip) && Reverse(st, idx, p, fqdns, ip, paths, infos) :: Twice(infos, z)
  }

  lemma AddedAgain<R(!new)>(st: State<R>, d: ZoneData, i: R, p: R, st1: State<R>)
    requires Nested(st, i, p, d.key, d.ParentKey()) && d.parentRef != "" && d.parentRef != d.key.name
    requires st1 == Add(st, i, d, AsWritten)
    ensures AlwaysTwice(st1, p, i)
  {
    ListedTwice(st, d, i, p, st1);
    AddKeeps(st, i, d, AsWritten);
    BothListed(st1, p, i, d.key.name, d.parentRef);
  }

  lemma BothListed<R(!new)>(st: State<R>, p: R, z: R, n: string, m: string)
    requires Closed(st) && p in st.key && n in st.children[p] && m in st.children[p] && n != m
    requires st.children[p][n] == z && st.children[p][m] == z
    ensures AlwaysTwice(st, p, z)
  {
    forall idx, fqdns, ip, paths, infos | HasEntries(idx, st.key[z], ip) && Reverse(st, idx, p, fqdns, ip, paths, infos)
      ensures Twice(infos, z)
    {
      assert Follow(st, p, []) == Some(p) && p in Reached(st, p);
      assert Follow(st, z, []) == Some(z) && Hit(st, idx, z, ip, []);
      var i, j := ReportedTwice(st, idx, p, fqdns, ip, paths, infos, p, n, p, m, []);
    }
  }

  /** A removed zone stays a child of its parent. */
  lemma RemovedStays<R>(st: State<R>, i: R, j: R, a: ZoneKey, b: ZoneKey)
    requires Nested(st, i, j, a, b) && a != b && b.name != ""
    ensures var st1 := Remove(st, a, AsWritten);
      a !in st1.zones && ChildOf(st1, j, i) && !Sound(st1)
  {
    RemoveAsWrittenIff(st, a);
    assert st.parent[st.zones[a]] == Some(j) && Present(st, j) && Lists(st, a);
  }

  /** The root `z` matches `m` entirely, and one of its children what is left, nothing, by the name ".":
      the slice of the next round would drop a character more than there is. */
  ghost predicate OutOfBounds<R>(st: State<R>, z: R, i: R, m: string) {
    Descent(st, z, m, [Hop(z, m, "")]) && ChildOf(st, z, i) && i in st.names && |Longest(st.names[i], "")| > |""|
  }

  /** `b` is a root called `m` and `a` below it, under the name of `b`; then `a` becomes a root called
      like the root of all names, but stays below `b`. */
  lemma RootBelow<R>(st: State<R>, b: ZoneKey, a: ZoneData, z: R, i: R, m: string, st1: State<R>)
    requires SitsBelow(st, b, a.key, z, i) && st.names[z] == [m] && EndsWithDot(m) && m != "."
    requires a.key.name != b.name && a.parentRef == "" && a.names == ["."]
    requires st1 == Add(st, i, a, AsWritten) && Valid(st1)
    ensures OutOfBounds(st1, z, i, m)
  {
    SitsStill(st, b, a, z, i, st1);
    AddedZone(st, i, a, AsWritten);
    MatchesAll(m);
    MatchesNothing();
  }

  lemma MatchesAll(m: string)
    requires EndsWithDot(m)
    ensures Longest([m], m) == m && Cut(m, m) == ""
  {
    assert [m][..0] == [] && m[0..] == m && m[..0] == "";
    assert IsSubDomain(m, m);
  }

  lemma MatchesNothing()
    ensures Longest(["."], "") == "."
  {
    assert ["."][..0] == [];
    assert IsSubDomain(".", "");
  }
}
