/** The names of an entry from both ends: `AggregateNames` (common/responsibility.go) multiplies them
    up along the parent chain, the reverse lookup (zonemodel/model.go) down from the root. */
module NameProducts {
  import opened Wrappers
  import opened DomainNames
  import opened ZoneGraph
  import opened Tables
  import opened ZoneLookup
  import opened ZoneInversion

  /** One name in front of every suffix. */
  function Row(p: string, suffixes: seq<string>): (r: seq<string>)
    ensures |r| == |suffixes|
  {
    if suffixes == [] then [] else [p + Fqdn(suffixes[0])] + Row(p, suffixes[1..])
  }

  function Aggregate(names: seq<string>, suffixes: seq<string>): seq<string> {
    if names == [] then [] else Row(Fqdn(names[0]), suffixes) + Aggregate(names[1..], suffixes)
  }

  /** Lines 127-139. */
  method AggregateNames(domainNames: seq<string>, names: seq<string>) returns (result: seq<string>)
    ensures result == Aggregate(names, domainNames)
  {
    result := [];
    assert names[0..] == names;
    for i := 0 to |names|
      invariant result + Aggregate(names[i..], domainNames) == Aggregate(names, domainNames)
    {
      AggregateNext(names, i, domainNames);
      Associate(result, Row(Fqdn(names[i]), domainNames), Aggregate(names[i + 1..], domainNames));
      result := AppendRow(Fqdn(names[i]), domainNames, result);
    }
  }

  lemma AggregateNext(names: seq<string>, i: nat, suffixes: seq<string>)
    requires i < |names|
    ensures Aggregate(names[i..], suffixes) == Row(Fqdn(names[i]), suffixes) + Aggregate(names[i + 1..], suffixes)
  {
    assert names[i..][1..] == names[i + 1..];
  }

  method AppendRow(p: string, suffixes: seq<string>, list: seq<string>) returns (result: seq<string>)
    ensures result == list + Row(p, suffixes)
  {
    result := list;
    assert suffixes[0..] == suffixes;
    for j := 0 to |suffixes|
      invariant result + Row(p, suffixes[j..]) == list + Row(p, suffixes)
    {
      RowNext(p, suffixes, j);
      Associate(result, [p + Fqdn(suffixes[j])], Row(p, suffixes[j + 1..]));
      result := result + [p + Fqdn(suffixes[j])];
    }
  }

  lemma RowNext(p: string, suffixes: seq<string>, j: nat)
    requires j < |suffixes|
    ensures Row(p, suffixes[j..]) == [p + Fqdn(suffixes[j])] + Row(p, suffixes[j + 1..])
  {
    assert suffixes[j..][1..] == suffixes[j + 1..];
  }

  /** Upwards: the names of the entry, multiplied by those of its zone, of the zone above, ... */
  function Up(names: seq<string>, zones: seq<seq<string>>): seq<string>
    decreases |zones|
  {
    if zones == [] then names else Up(Aggregate(names, zones[0]), zones[1..])
  }

  function RdnAll(names: seq<string>): (r: seq<string>)
    ensures |r| == |names| && forall i {:trigger r[i]} | 0 <= i < |r| :: r[i] == Rdn(names[i])
  {
    seq(|names|, i requires 0 <= i < |names| => Rdn(names[i]))
  }

  function FqdnAll(names: seq<string>): (r: seq<string>)
    ensures |r| == |names| && forall i {:trigger r[i]} | 0 <= i < |r| :: r[i] == Fqdn(names[i])
  {
    seq(|names|, i requires 0 <= i < |names| => Fqdn(names[i]))
  }

  /** Downwards: the names the recursion of the reverse lookup hands to the zone at the front; the
      root is the last. The model keeps relative names, but for the root. */
  function Down(zones: seq<seq<string>>): seq<string>
    requires zones != []
  {
    if |zones| == 1 then Expand(FqdnAll(zones[0]), [""]) else Expand(RdnAll(zones[0]), Down(zones[1..]))
  }

  /** The names as the model keeps them. */
  function Relativised(zones: seq<seq<string>>): (r: seq<seq<string>>)
    ensures |r| == |zones|
  {
    if |zones| <= 1 then zones else [RdnAll(zones[0])] + Relativised(zones[1..])
  }

  // ----- down is up -------------------------------------------------------------------------------

  lemma {:induction false} ExpandFirst(names: seq<string>, fqdns: seq<string>)
    requires names != []
    ensures Expand(names, fqdns) == Prefixed(Fqdn(names[0]), fqdns) + Expand(names[1..], fqdns)
    decreases |names|
  {
    var k := |names| - 1;
    if k == 0 {
      assert names[..0] == [] && names[1..] == [];
      assert Expand(names, fqdns) == [] + Prefixed(Fqdn(names[0]), fqdns);
    } else {
      ExpandFirst(names[..k], fqdns);
      assert names[..k][1..] == names[1..][..k - 1];
      Associate(Prefixed(Fqdn(names[0]), fqdns), Expand(names[1..][..k - 1], fqdns), Prefixed(Fqdn(names[k]), fqdns));
    }
  }

  lemma {:induction false} ExpandSum(a: seq<string>, b: seq<string>, fqdns: seq<string>)
    ensures Expand(a + b, fqdns) == Expand(a, fqdns) + Expand(b, fqdns)
    decreases |a|
  {
    if a == [] {
      assert a + b == b;
    } else {
      assert (a + b)[0] == a[0] && (a + b)[1..] == a[1..] + b;
      ExpandFirst(a + b, fqdns);
      ExpandFirst(a, fqdns);
      ExpandSum(a[1..], b, fqdns);
      Associate(Prefixed(Fqdn(a[0]), fqdns), Expand(a[1..], fqdns), Expand(b, fqdns));
    }
  }

  lemma PrefixedAt(p: string, fqdns: seq<string>, i: nat)
    requires i < |fqdns|
    ensures Prefixed(p, fqdns)[i] == p + fqdns[i]
  {
  }

  lemma PrefixedTwice(p: string, q: string, fqdns: seq<string>)
    ensures Prefixed(p + q, fqdns) == Prefixed(p, Prefixed(q, fqdns))
  {
    forall i | 0 <= i < |fqdns| ensures Prefixed(p + q, fqdns)[i] == Prefixed(p, Prefixed(q, fqdns))[i] {
      Associate(p, q, fqdns[i]);
    }
  }

  lemma {:induction false} PrefixedSum(p: string, a: seq<string>, b: seq<string>)
    ensures Prefixed(p, a + b) == Prefixed(p, a) + Prefixed(p, b)
  {
  }

  /** A row, multiplied by the names further up, is the product prefixed. */
  lemma {:induction false} RowExpands(p: string, names: seq<string>, fqdns: seq<string>)
    ensures Expand(Row(p, names), fqdns) == Prefixed(p, Expand(names, fqdns))
    decreases |names|
  {
    if names != [] {
      var row := Row(p, names);
      ExpandFirst(names, fqdns);
      ExpandFirst(row, fqdns);
      assert row[1..] == Row(p, names[1..]);
      RowExpands(p, names[1..], fqdns);
      EndsAsTail(p, Fqdn(names[0]));
      PrefixedTwice(p, Fqdn(names[0]), fqdns);
      PrefixedSum(p, Prefixed(Fqdn(names[0]), fqdns), Expand(names[1..], fqdns));
    } else {
      assert Prefixed(p, []) == [];
    }
  }

  lemma EndsAsTail(p: string, q: string)
    requires EndsWithDot(q)
    ensures Fqdn(p + q) == p + q
  {
    assert (p + q)[|p + q| - 1] == q[|q| - 1];
  }

  /** Multiplying first with the nearer or first with the further names is the same. */
  lemma {:induction false} ExpandAggregated(names: seq<string>, near: seq<string>, far: seq<string>)
    ensures Expand(Aggregate(names, near), far) == Expand(names, Expand(near, far))
    decreases |names|
  {
    if names != [] {
      ExpandSum(Row(Fqdn(names[0]), near), Aggregate(names[1..], near), far);
      RowExpands(Fqdn(names[0]), near, far);
      ExpandAggregated(names[1..], near, far);
      ExpandFirst(names, Expand(near, far));
    }
  }

  lemma {:induction false} RowOfFqdn(p: string, suffixes: seq<string>)
    ensures Row(p, FqdnAll(suffixes)) == Row(p, suffixes)
    decreases |suffixes|
  {
    if suffixes != [] {
      assert FqdnAll(suffixes)[1..] == FqdnAll(suffixes[1..]);
      RowOfFqdn(p, suffixes[1..]);
    }
  }

  lemma {:induction false} AggregateOfFqdn(names: seq<string>, suffixes: seq<string>)
    ensures Aggregate(names, FqdnAll(suffixes)) == Aggregate(names, suffixes)
    decreases |names|
  {
    if names != [] {
      RowOfFqdn(Fqdn(names[0]), suffixes);
      AggregateOfFqdn(names[1..], suffixes);
    }
  }

  predicate AllQualified(names: seq<string>) {
    forall i {:trigger names[i]} | 0 <= i < |names| :: EndsWithDot(names[i])
  }

  lemma {:induction false} RowQualified(p: string, suffixes: seq<string>)
    ensures AllQualified(Row(p, suffixes))
    decreases |suffixes|
  {
    if suffixes != [] {
      RowQualified(p, suffixes[1..]);
      EndsAsTail(p, Fqdn(suffixes[0]));
    }
  }

  lemma {:induction false} AggregateQualified(names: seq<string>, suffixes: seq<string>)
    ensures AllQualified(Aggregate(names, suffixes))
    decreases |names|
  {
    if names != [] {
      RowQualified(Fqdn(names[0]), suffixes);
      AggregateQualified(names[1..], suffixes);
    }
  }

  lemma {:induction false} ExpandNothing(names: seq<string>)
    requires AllQualified(names)
    ensures Expand(names, [""]) == names
    decreases |names|
  {
    if names != [] {
      ExpandFirst(names, [""]);
      PrefixedNothing(names[0]);
      ExpandNothing(names[1..]);
    }
  }

  lemma PrefixedNothing(n: string)
    ensures Prefixed(n, [""]) == [n]
  {
    PrefixedAt(n, [""], 0);
    assert n + "" == n;
  }

  /** Going down multiplies what going up would multiply from the names the model keeps. */
  lemma {:induction false} DownIsUp(names: seq<string>, zones: seq<seq<string>>)
    requires zones != []
    ensures Expand(names, Down(zones)) == Up(names, Relativised(zones))
    decreases |zones|
  {
    if |zones| == 1 {
      var root := zones[0];
      ExpandAggregated(names, FqdnAll(root), [""]);
      AggregateQualified(names, FqdnAll(root));
      ExpandNothing(Aggregate(names, FqdnAll(root)));
      AggregateOfFqdn(names, root);
      assert Up(names, zones) == Up(Aggregate(names, root), []) by { assert zones[1..] == []; }
    } else {
      ExpandAggregated(names, RdnAll(zones[0]), Down(zones[1..]));
      DownIsUp(Aggregate(names, RdnAll(zones[0])), zones[1..]);
      assert Relativised(zones)[1..] == Relativised(zones[1..]);
    }
  }

  // ----- how many ------------------------------------------------------------------------------------

  function Combinations(zones: seq<seq<string>>): nat {
    if zones == [] then 1 else |zones[0]| * Combinations(zones[1..])
  }

  function RowsUp(names: seq<string>, suffixes: seq<string>): (r: seq<seq<string>>)
    ensures |r| == |names|
    ensures forall i {:trigger r[i]} | 0 <= i < |r| :: r[i] == Row(Fqdn(names[i]), suffixes)
  {
    seq(|names|, i requires 0 <= i < |names| => Row(Fqdn(names[i]), suffixes))
  }

  lemma {:induction false} AggregateIsFlat(names: seq<string>, suffixes: seq<string>)
    ensures Aggregate(names, suffixes) == Flat(RowsUp(names, suffixes))
    decreases |names|
  {
    if names != [] {
      var row := [Row(Fqdn(names[0]), suffixes)];
      AggregateIsFlat(names[1..], suffixes);
      assert RowsUp(names, suffixes) == row + RowsUp(names[1..], suffixes);
      FlatSum(row, RowsUp(names[1..], suffixes));
      assert row[..0] == [] && Flat(row) == row[0];
    }
  }

  lemma AggregateLength(names: seq<string>, suffixes: seq<string>)
    ensures |Aggregate(names, suffixes)| == |names| * |suffixes|
  {
    AggregateIsFlat(names, suffixes);
    FlatLength(RowsUp(names, suffixes), |suffixes|);
  }

  lemma {:induction false} UpLength(names: seq<string>, zones: seq<seq<string>>)
    ensures |Up(names, zones)| == |names| * Combinations(zones)
    decreases |zones|
  {
    if zones != [] {
      AggregateLength(names, zones[0]);
      UpLength(Aggregate(names, zones[0]), zones[1..]);
      Regroup(|names|, |zones[0]|, Combinations(zones[1..]));
    }
  }

  lemma Regroup(a: nat, b: nat, c: nat)
    ensures (a * b) * c == a * (b * c)
  {
  }

  lemma {:induction false} RowAt(p: string, suffixes: seq<string>, j: nat)
    requires j < |suffixes|
    ensures Row(p, suffixes)[j] == p + Fqdn(suffixes[j])
    decreases j
  {
    if j > 0 { RowAt(p, suffixes[1..], j - 1); }
  }

  /** Name `i` below suffix `j` is column `j` of row `i`. */
  lemma AggregateAt(names: seq<string>, suffixes: seq<string>, i: nat, j: nat)
    requires i < |names| && j < |suffixes|
    ensures Place(i, |suffixes|, j) < |Aggregate(names, suffixes)|
    ensures Aggregate(names, suffixes)[Place(i, |suffixes|, j)] == Fqdn(names[i]) + Fqdn(suffixes[j])
  {
    AggregateIsFlat(names, suffixes);
    PlaceAt(RowsUp(names, suffixes), |suffixes|, i, j);
    RowAt(Fqdn(names[i]), suffixes, j);
  }

  // ----- up from the raw names, up from the kept names --------------------------------------------------

  /** A name with at most one trailing dot. */
  predicate OneDot(n: string) {
    |n| <= |Rdn(n)| + 1
  }

  predicate AllOneDot(names: seq<string>) {
    forall i {:trigger names[i]} | 0 <= i < |names| :: OneDot(names[i])
  }

  /** No name of a nested zone has two trailing dots; the root is the last. */
  predicate NestedOneDot(zones: seq<seq<string>>) {
    |zones| > 1 ==> AllOneDot(zones[0]) && NestedOneDot(zones[1..])
  }

  /** As fully qualified names the first are at least as long. */
  predicate Longer(a: seq<string>, b: seq<string>) {
    |a| == |b| && forall i {:trigger a[i]} | 0 <= i < |a| :: |Fqdn(b[i])| <= |Fqdn(a[i])|
  }

  lemma LongerThanRelative(names: seq<string>)
    ensures Longer(names, RdnAll(names))
  {
    forall i | 0 <= i < |names| ensures |Fqdn(Rdn(names[i]))| <= |Fqdn(names[i])| {
      FqdnOfRdn(names[i]);
      RdnStrips(names[i]);
    }
  }

  lemma SameQualified(names: seq<string>)
    ensures FqdnAll(names) == FqdnAll(RdnAll(names)) <==> AllOneDot(names)
  {
    forall i | 0 <= i < |names|
      ensures FqdnAll(names)[i] == FqdnAll(RdnAll(names))[i] <==> OneDot(names[i])
    {
      FqdnOfRdn(names[i]);
      assert RdnAll(names)[i] == Rdn(names[i]);
    }
    if AllOneDot(names) {
      assert forall i | 0 <= i < |names| :: FqdnAll(names)[i] == FqdnAll(RdnAll(names))[i];
    } else {
      var i :| 0 <= i < |names| && !OneDot(names[i]);
      assert FqdnAll(names)[i] != FqdnAll(RdnAll(names))[i];
    }
  }

  lemma SumsEqual(p: string, q: string, s: string, t: string)
    requires |q| <= |p| && |t| <= |s| && p + s == q + t
    ensures p == q && s == t
  {
    assert |p + s| == |q + t|;
    assert (p + s)[..|p|] == p && (q + t)[..|q|] == q;
    assert (p + s)[|p|..] == s && (q + t)[|q|..] == t;
  }

  lemma ConcatEqual<T>(a: seq<T>, b: seq<T>, c: seq<T>, d: seq<T>)
    requires |a| == |c| && a + b == c + d
    ensures a == c && b == d
  {
    assert (a + b)[..|a|] == a && (c + d)[..|c|] == c;
    assert (a + b)[|a|..] == b && (c + d)[|c|..] == d;
  }

  lemma LongerRest(a: seq<string>, b: seq<string>)
    requires Longer(a, b) && a != []
    ensures Longer(a[1..], b[1..]) && |Fqdn(b[0])| <= |Fqdn(a[0])|
  {
  }

  lemma FirstAndRest(a: seq<string>, b: seq<string>)
    requires |a| == |b| > 0 && Fqdn(a[0]) == Fqdn(b[0]) && FqdnAll(a[1..]) == FqdnAll(b[1..])
    ensures FqdnAll(a) == FqdnAll(b)
  {
    forall i | 0 <= i < |a| ensures FqdnAll(a)[i] == FqdnAll(b)[i] {
      if i > 0 {
        assert FqdnAll(a[1..])[i - 1] == FqdnAll(b[1..])[i - 1];
      }
    }
  }

  lemma {:induction false} RowsEqual(p: string, q: string, a: seq<string>, b: seq<string>)
    requires |q| <= |p| && Longer(a, b) && a != [] && Row(p, a) == Row(q, b)
    ensures p == q && FqdnAll(a) == FqdnAll(b)
    decreases |a|
  {
    LongerRest(a, b);
    assert Row(p, a)[0] == p + Fqdn(a[0]) && Row(q, b)[0] == q + Fqdn(b[0]);
    SumsEqual(p, q, Fqdn(a[0]), Fqdn(b[0]));
    if |a| > 1 {
      assert Row(p, a)[1..] == Row(p, a[1..]) && Row(q, b)[1..] == Row(q, b[1..]);
      RowsEqual(p, q, a[1..], b[1..]);
    }
    FirstAndRest(a, b);
  }

  lemma {:induction false} AggregatesEqual(m: seq<string>, n: seq<string>, a: seq<string>, b: seq<string>)
    requires Longer(m, n) && Longer(a, b) && m != [] && a != [] && Aggregate(m, a) == Aggregate(n, b)
    ensures FqdnAll(m) == FqdnAll(n) && FqdnAll(a) == FqdnAll(b)
    decreases |m|
  {
    LongerRest(m, n);
    ConcatEqual(Row(Fqdn(m[0]), a), Aggregate(m[1..], a), Row(Fqdn(n[0]), b), Aggregate(n[1..], b));
    RowsEqual(Fqdn(m[0]), Fqdn(n[0]), a, b);
    if |m| > 1 {
      AggregatesEqual(m[1..], n[1..], a, b);
    }
    FirstAndRest(m, n);
  }

  lemma {:induction false} RowLonger(p: string, q: string, a: seq<string>, b: seq<string>)
    requires |q| <= |p| && Longer(a, b)
    ensures Longer(Row(p, a), Row(q, b))
    decreases |a|
  {
    if a != [] {
      LongerRest(a, b);
      RowLonger(p, q, a[1..], b[1..]);
      EndsAsTail(p, Fqdn(a[0]));
      EndsAsTail(q, Fqdn(b[0]));
      LongerSum([p + Fqdn(a[0])], Row(p, a[1..]), [q + Fqdn(b[0])], Row(q, b[1..]));
    }
  }

  lemma LongerSum(a: seq<string>, b: seq<string>, c: seq<string>, d: seq<string>)
    requires Longer(a, c) && Longer(b, d)
    ensures Longer(a + b, c + d)
  {
    forall i | 0 <= i < |a + b| ensures |Fqdn((c + d)[i])| <= |Fqdn((a + b)[i])| {
      if i < |a| {
        assert (a + b)[i] == a[i] && (c + d)[i] == c[i];
      } else {
        assert (a + b)[i] == b[i - |a|] && (c + d)[i] == d[i - |a|];
      }
    }
  }

  lemma {:induction false} AggregateLonger(m: seq<string>, n: seq<string>, a: seq<string>, b: seq<string>)
    requires Longer(m, n) && Longer(a, b)
    ensures Longer(Aggregate(m, a), Aggregate(n, b))
    decreases |m|
  {
    if m != [] {
      LongerRest(m, n);
      RowLonger(Fqdn(m[0]), Fqdn(n[0]), a, b);
      AggregateLonger(m[1..], n[1..], a, b);
      LongerSum(Row(Fqdn(m[0]), a), Aggregate(m[1..], a), Row(Fqdn(n[0]), b), Aggregate(n[1..], b));
    }
  }

  lemma QualifiedAre(names: seq<string>)
    requires AllQualified(names)
    ensures FqdnAll(names) == names
  {
  }

  /** If the products are the same, no nested name has lost a dot. */
  lemma {:induction false} ProductsEqual(m: seq<string>, n: seq<string>, zones: seq<seq<string>>)
    requires Longer(m, n) && zones != [] && |m| * Combinations(zones) > 0
    requires Up(m, zones) == Up(n, Relativised(zones))
    ensures FqdnAll(m) == FqdnAll(n) && NestedOneDot(zones)
    decreases |zones|
  {
    var z, rest := zones[0], zones[1..];
    NoneEmpty(|m|, |z|, Combinations(rest));
    if |zones| == 1 {
      assert rest == [];
      assert Longer(z, z);
      AggregatesEqual(m, n, z, z);
    } else {
      LongerThanRelative(z);
      AggregateLonger(m, n, z, RdnAll(z));
      AggregateLength(m, z);
      assert Relativised(zones)[1..] == Relativised(rest);
      ProductsEqual(Aggregate(m, z), Aggregate(n, RdnAll(z)), rest);
      AggregateQualified(m, z);
      AggregateQualified(n, RdnAll(z));
      QualifiedAre(Aggregate(m, z));
      QualifiedAre(Aggregate(n, RdnAll(z)));
      AggregatesEqual(m, n, z, RdnAll(z));
      SameQualified(z);
    }
  }

  lemma NoneEmpty(a: nat, b: nat, c: nat)
    requires a * (b * c) > 0
    ensures a > 0 && b > 0 && (a * b) * c > 0
  {
    Regroup(a, b, c);
    assert b == 0 ==> b * c == 0;
  }

  lemma {:induction false} ProductsSame(names: seq<string>, zones: seq<seq<string>>)
    requires zones != [] && NestedOneDot(zones)
    ensures Up(names, zones) == Up(names, Relativised(zones))
    decreases |zones|
  {
    if |zones| > 1 {
      var z := zones[0];
      SameQualified(z);
      AggregateOfFqdn(names, z);
      AggregateOfFqdn(names, RdnAll(z));
      assert Relativised(zones)[1..] == Relativised(zones[1..]);
      ProductsSame(Aggregate(names, z), zones[1..]);
    }
  }

  lemma {:induction false} CombinationsKept(zones: seq<seq<string>>)
    ensures Combinations(Relativised(zones)) == Combinations(zones)
    decreases |zones|
  {
    if |zones| > 1 {
      assert Relativised(zones)[1..] == Relativised(zones[1..]);
      CombinationsKept(zones[1..]);
    }
  }

  /** Both ends yield the same names in the same order exactly when there are none at all or no
      name of a nested zone has more than one trailing dot. */
  lemma BothEndsAgree(names: seq<string>, zones: seq<seq<string>>)
    requires zones != []
    ensures Up(names, zones) == Expand(names, Down(zones)) <==>
      |names| * Combinations(zones) == 0 || NestedOneDot(zones)
  {
    DownIsUp(names, zones);
    UpLength(names, zones);
    UpLength(names, Relativised(zones));
    CombinationsKept(zones);
    if |names| * Combinations(zones) > 0 {
      if NestedOneDot(zones) {
        ProductsSame(names, zones);
      } else if Up(names, zones) == Up(names, Relativised(zones)) {
        assert Longer(names, names);
        ProductsEqual(names, names, zones);
      }
    }
  }

  // ----- the products of the two components ----------------------------------------------------------------

  /** The zones along a path, from its end up to the root, and the names the model keeps for them. */
  ghost predicate NamedBy<R>(st: State<R>, z: R, path: seq<string>, zones: seq<seq<string>>)
    decreases |path|
  {
    && Follow(st, z, path).Some? && |zones| == |path| + 1
    && st.names[Follow(st, z, path).value] == (if path == [] then FqdnAll(zones[0]) else RdnAll(zones[0]))
    && (path != [] ==> NamedBy(st, z, path[..|path| - 1], zones[1..]))
  }

  lemma {:induction false} ProductIsDown<R>(st: State<R>, z: R, path: seq<string>, zones: seq<seq<string>>)
    requires NamedBy(st, z, path, zones)
    ensures Product(st, z, path, [""]) == Down(zones)
    decreases |path|
  {
    if path != [] {
      var k := |path| - 1;
      ProductIsDown(st, z, path[..k], zones[1..]);
      ProductFurther(st, z, path, zones[0]);
    }
  }

  lemma ProductFurther<R>(st: State<R>, z: R, path: seq<string>, names: seq<string>)
    requires path != [] && Follow(st, z, path).Some? && Follow(st, z, path[..|path| - 1]).Some?
    requires st.names[Follow(st, z, path).value] == RdnAll(names)
    ensures Product(st, z, path, [""]) == Expand(RdnAll(names), Product(st, z, path[..|path| - 1], [""]))
  {
    var k := |path| - 1;
    assert path[..k] + [path[k]] == path;
    FollowPrefix(st, z, path[..k], path[k]);
    FollowSnoc(st, z, path[..k], path[k], [""]);
  }

  lemma {:induction false} FollowPrefix<R>(st: State<R>, z: R, path: seq<string>, n: string)
    requires Follow(st, z, path + [n]).Some? && Follow(st, z, path).Some?
    ensures var w := Follow(st, z, path).value;
      n in st.children[w] && Follow(st, z, path + [n]) == Some(st.children[w][n])
    decreases |path|
  {
    var all := path + [n];
    if path == [] {
      assert all[0] == n && all[1..] == [];
    } else {
      assert all[0] == path[0] && all[1..] == path[1..] + [n];
      FollowPrefix(st, st.children[z][path[0]], path[1..], n);
    }
  }

  /** The names multiplied up for an entry are the ones the reverse lookup reports for it, in the
      same order, exactly when there are none or no nested name has more than one trailing dot. */
  lemma LookedUpIff<R>(st: State<R>, z: R, path: seq<string>, zones: seq<seq<string>>, e: Entry)
    requires NamedBy(st, z, path, zones)
    ensures Up(e.dnsNames, zones) == EntryNames([e], Product(st, z, path, [""])) <==>
      |e.dnsNames| * Combinations(zones) == 0 || NestedOneDot(zones)
  {
    ProductIsDown(st, z, path, zones);
    BothEndsAgree(e.dnsNames, zones);
    assert [e][..0] == [];
    assert EntryNames([], Down(zones)) + Expand(e.dnsNames, Down(zones)) == Expand(e.dnsNames, Down(zones));
  }
}
