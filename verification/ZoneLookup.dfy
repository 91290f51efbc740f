/** What the two resolvers of zonemodel/model.go answer: the forward lookup of a name and the
    reverse lookup of an address, both over the zones below one zone of a state. */
module ZoneLookup {
  import opened Wrappers
  import opened DomainNames
  import opened Tables
  import opened ZoneGraph

  /** What the resolvers read of a CoreDNSEntry. */
  datatype Entry = Entry(name: string, dnsNames: seq<string>, ns: seq<string>, a: seq<string>, aaaa: seq<string>)

  /** The index the resolvers query, frozen for the time of one call. */
  datatype Index = Index(
    byName: (ZoneKey, string) -> Result<seq<Entry>>,
    byIP: (ZoneKey, string) -> Result<seq<Entry>>)

  datatype Info<R> = Info(zone: Option<R>, zoneNames: seq<string>, entries: seq<Entry>, entryNames: seq<string>)

  // ----- matching one zone --------------------------------------------------------------------

  /** The first of the longest names that match, or "" (lines 175-186). */
  function Longest(names: seq<string>, q: string): (r: string)
    ensures r == "" || (r in names && IsSubDomain(r, q))
    ensures forall n {:trigger IsSubDomain(n, q)} | n in names && IsSubDomain(n, q) :: |n| <= |r|
  {
    if names == [] then ""
    else
      var k := |names| - 1;
      var best := Longest(names[..k], q);
      assert forall n | n in names :: n in names[..k] || n == names[k];
      if IsSubDomain(names[k], q) && |names[k]| > |best| then names[k] else best
  }

  lemma LongestNext(names: seq<string>, i: nat, q: string)
    requires i < |names|
    ensures var best := Longest(names[..i], q);
      Longest(names[..i + 1], q) == if IsSubDomain(names[i], q) && |names[i]| > |best| then names[i] else best
  {
    assert names[..i + 1][..i] == names[..i];
  }

  /** Of several longest names it is the first. */
  lemma {:induction false} LongestIsFirst(names: seq<string>, q: string) returns (i: nat)
    requires Longest(names, q) != ""
    ensures i < |names| && names[i] == Longest(names, q)
    ensures forall j | 0 <= j < i && IsSubDomain(names[j], q) :: |names[j]| < |names[i]|
    decreases |names|
  {
    var k := |names| - 1;
    if Longest(names, q) == Longest(names[..k], q) {
      i := LongestIsFirst(names[..k], q);
      forall j | 0 <= j < i && IsSubDomain(names[j], q) ensures |names[j]| < |names[i]| {
        assert names[..k][j] == names[j];
      }
    } else {
      i := k;
      forall j | 0 <= j < i && IsSubDomain(names[j], q) ensures |names[j]| < |names[i]| {
        assert names[..k][j] == names[j] && names[j] in names[..k];
      }
    }
  }

  /** The case of letters in the query does not matter. */
  lemma {:induction false} LongestAnyCase(names: seq<string>, q: string, q1: string)
    requires SameLetters(q, q1)
    ensures Longest(names, q) == Longest(names, q1)
    decreases |names|
  {
    if names != [] {
      var k := |names| - 1;
      LongestAnyCase(names[..k], q, q1);
      assert SameLetters(names[k], names[k]);
      SubDomainAnyCase(names[k], names[k], q, q1);
    }
  }

  // ----- the descent --------------------------------------------------------------------------

  /** A zone entered, the name by which it matched and what is left of the query. */
  datatype Hop<R> = Hop(zone: R, name: string, rest: string)

  ghost predicate Fits<R>(st: State<R>, h: Hop<R>, s: string) {
    && h.zone in st.names
    && h.name == Longest(st.names[h.zone], s) && h.name != ""
    && |h.name| <= |s| && h.rest == Cut(s, h.name)
  }

  ghost predicate ChildOf<R>(st: State<R>, p: R, c: R) {
    p in st.children && exists n :: n in st.children[p] && st.children[p][n] == c
  }

  /** `hops` follows nested zones from `z`, each matching what its predecessor left. */
  ghost predicate Descent<R>(st: State<R>, z: R, q: string, hops: seq<Hop<R>>) {
    && hops != [] && hops[0].zone == z && Fits(st, hops[0], q)
    && (forall i {:trigger Follows(st, hops, i)} | 1 <= i < |hops| :: Follows(st, hops, i))
    && (forall i {:trigger hops[i]} | 0 <= i < |hops| :: hops[i].zone in st.key && hops[i].zone in st.children)
  }

  /** Step `i` leads to a child and matches what the step before left. */
  ghost predicate Follows<R>(st: State<R>, hops: seq<Hop<R>>, i: nat)
    requires 1 <= i < |hops|
  {
    ChildOf(st, hops[i - 1].zone, hops[i].zone) && Fits(st, hops[i], hops[i - 1].rest)
  }

  /** No nested zone matches what is left. */
  ghost predicate Deepest<R>(st: State<R>, h: Hop<R>) {
    h.zone in st.children &&
    forall n | n in st.children[h.zone] ::
      st.children[h.zone][n] in st.names && Longest(st.names[st.children[h.zone][n]], h.rest) == ""
  }

  /** The fully qualified name of the zone reached. */
  ghost function ZoneNameOf<R>(hops: seq<Hop<R>>): string
    decreases |hops|
  {
    if hops == [] then "" else Under(hops[|hops| - 1].name, ZoneNameOf(hops[..|hops| - 1]))
  }

  // ----- the answer in the zone reached ---------------------------------------------------------

  predicate HasNS(es: seq<Entry>) {
    exists i | 0 <= i < |es| :: es[i].ns != []
  }

  /** No suffix of `s` that starts at position `k` or later is delegated, and all were looked up. */
  ghost predicate Undelegated(idx: Index, key: ZoneKey, s: string, k: nat) {
    forall j: nat {:trigger Boundary(s, j)} | k <= j < |s| && Boundary(s, j) ::
      idx.byName(key, s[j..]).Ok? && !HasNS(idx.byName(key, s[j..]).value)
  }

  /** The delegation found at the suffix starting at `k`, the shortest that carries an NS entry. */
  ghost predicate DelegatedAt<R>(idx: Index, key: ZoneKey, s: string, cur: string, info: Info<R>, k: nat, i: nat) {
    && k < |s| && Boundary(s, k) && Undelegated(idx, key, s, k + 1)
    && idx.byName(key, s[k..]).Ok?
    && var es := idx.byName(key, s[k..]).value;
       i < |es| && es[i].ns != [] && !HasNS(es[..i])
       && info == Info(None, [Under(s[k..], cur)], [es[i]], [Under(s[k..], cur)])
  }

  ghost predicate FailedAt(idx: Index, key: ZoneKey, s: string, e: string, k: nat) {
    k < |s| && Boundary(s, k) && Undelegated(idx, key, s, k + 1) && idx.byName(key, s[k..]) == Err(e)
  }

  /** The entries of the zone for `s`; at the apex the source looks nothing up. */
  function EntriesAt(idx: Index, key: ZoneKey, s: string): Result<seq<Entry>> {
    if s == "" then Ok([]) else idx.byName(key, s)
  }

  /** `r` answers the name `s` below the zone `z` called `cur`: a failed lookup, a delegation, or
      the entries of the zone itself. */
  ghost predicate Answers<R>(idx: Index, z: R, key: ZoneKey, s: string, cur: string, r: Result<Info<R>>) {
    match r
    case Err(e) => exists k: nat :: FailedAt(idx, key, s, e, k)
    case Ok(info) =>
      if info.zone == None then exists k: nat, i: nat :: DelegatedAt(idx, key, s, cur, info, k, i)
      else
        Undelegated(idx, key, s, 0) && EntriesAt(idx, key, s).Ok?
        && info == Info(Some(z), [cur], EntriesAt(idx, key, s).value, [Under(s, cur)])
  }

  /** The forward lookup of `q` from `z` went along `hops` and answered `r` at their end. */
  ghost predicate Resolves<R>(st: State<R>, idx: Index, z: R, q: string, hops: seq<Hop<R>>, r: Result<Info<R>>) {
    && Descent(st, z, q, hops) && Deepest(st, hops[|hops| - 1])
    && var h := hops[|hops| - 1];
       Answers(idx, h.zone, st.key[h.zone], h.rest, ZoneNameOf(hops), r)
  }

  lemma {:induction false} FirstNSUnique(es: seq<Entry>, i: nat, j: nat)
    requires i < |es| && j < |es| && es[i].ns != [] && es[j].ns != []
    requires !HasNS(es[..i]) && !HasNS(es[..j])
    ensures i == j
  {
    assert forall n: nat | n < i :: es[..i][n] == es[n];
    assert forall n: nat | n < j :: es[..j][n] == es[n];
  }

  /** The answer is determined by the zone reached and what is left of the name. */
  lemma AnswerUnique<R>(idx: Index, z: R, key: ZoneKey, s: string, cur: string, r: Result<Info<R>>, t: Result<Info<R>>)
    requires Answers(idx, z, key, s, cur, r) && Answers(idx, z, key, s, cur, t)
    ensures r == t
  {
    var k, i := AnswerPosition(idx, z, key, s, cur, r);
    var l, j := AnswerPosition(idx, z, key, s, cur, t);
    if k == l && k < |s| && r.Ok? && t.Ok? {
      FirstNSUnique(idx.byName(key, s[k..]).value, i, j);
    }
  }

  /** Where an answer comes from; the length of the name stands for "no suffix". */
  lemma AnswerPosition<R>(idx: Index, z: R, key: ZoneKey, s: string, cur: string, r: Result<Info<R>>)
    returns (k: nat, i: nat)
    requires Answers(idx, z, key, s, cur, r)
    ensures k <= |s|
    ensures k < |s| ==>
      match r
      case Err(e) => FailedAt(idx, key, s, e, k)
      case Ok(info) => DelegatedAt(idx, key, s, cur, info, k, i)
    ensures k == |s| ==>
      Undelegated(idx, key, s, 0) && EntriesAt(idx, key, s).Ok?
      && r == Ok(Info(Some(z), [cur], EntriesAt(idx, key, s).value, [Under(s, cur)]))
  {
    i := 0;
    match r
    case Err(e) =>
      k :| FailedAt(idx, key, s, e, k);
    case Ok(info) =>
      if info.zone == None {
        k, i :| DelegatedAt(idx, key, s, cur, info, k, i);
      } else {
        k := |s|;
      }
  }

  /** The name `s` has a label starting at `k`. */
  predicate LabelAt(s: string, k: nat) {
    k < |s| && (k == 0 || s[k - 1] == '.')
  }

  /** An entry with nameservers is listed for the suffix. */
  ghost predicate Delegates(idx: Index, key: ZoneKey, suffix: string) {
    idx.byName(key, suffix).Ok? && exists e :: e in idx.byName(key, suffix).value && e.ns != []
  }

  /** An answer delegates exactly when an entry with nameservers is listed for the name or one of its
      suffixes below the zone. */
  lemma DelegationIff<R>(idx: Index, z: R, key: ZoneKey, s: string, cur: string, info: Info<R>)
    requires Answers(idx, z, key, s, cur, Ok(info))
    ensures info.zone == None <==> exists k: nat :: LabelAt(s, k) && Delegates(idx, key, s[k..])
  {
    if info.zone == None {
      var k, i := AnswerPosition(idx, z, key, s, cur, Ok(info));
      assert LabelAt(s, k) && idx.byName(key, s[k..]).value[i] in idx.byName(key, s[k..]).value;
      assert Delegates(idx, key, s[k..]);
    } else {
      forall k: nat | LabelAt(s, k) ensures !Delegates(idx, key, s[k..]) {
        assert Boundary(s, k) && Undelegated(idx, key, s, 0);
      }
    }
  }

  /** It is the shortest such suffix that counts; the answer holds the first of its entries with
      nameservers, under the suffix below the zone. */
  lemma DelegationReported<R>(idx: Index, z: R, key: ZoneKey, s: string, cur: string, info: Info<R>)
    returns (k: nat, i: nat)
    requires Answers(idx, z, key, s, cur, Ok(info)) && info.zone == None && EndsWithDot(cur) && cur != "."
    ensures LabelAt(s, k) && Delegates(idx, key, s[k..])
    ensures forall j: nat | k < j && LabelAt(s, j) :: !Delegates(idx, key, s[j..])
    ensures var es := idx.byName(key, s[k..]).value;
      i < |es| && es[i].ns != [] && (forall j | 0 <= j < i :: es[j].ns == []) && info.entries == [es[i]]
    ensures info.zoneNames == info.entryNames == [s[k..] + "." + cur]
  {
    k, i := AnswerPosition(idx, z, key, s, cur, Ok(info));
    var es := idx.byName(key, s[k..]).value;
    assert es[i] in es;
    forall j: nat | k < j && LabelAt(s, j) ensures !Delegates(idx, key, s[j..]) {
      assert Boundary(s, j) && Undelegated(idx, key, s, k + 1);
    }
    forall j | 0 <= j < i ensures es[j].ns == [] {
      assert es[..i][j] == es[j];
    }
  }

  // ----- the reverse lookup -----------------------------------------------------------------------

  /** Every name below every zone name (lines 297-304). */
  function Expand(names: seq<string>, fqdns: seq<string>): seq<string> {
    if names == [] then []
    else
      var k := |names| - 1;
      Expand(names[..k], fqdns) + Prefixed(Fqdn(names[k]), fqdns)
  }

  lemma ExpandNext(names: seq<string>, i: nat, fqdns: seq<string>)
    requires i < |names|
    ensures Expand(names[..i + 1], fqdns) == Expand(names[..i], fqdns) + Prefixed(Fqdn(names[i]), fqdns)
  {
    assert names[..i + 1][..i] == names[..i];
  }

  function Prefixed(p: string, fqdns: seq<string>): (r: seq<string>)
    ensures |r| == |fqdns|
    ensures forall i | 0 <= i < |fqdns| :: r[i] == p + fqdns[i]
  {
    if fqdns == [] then [] else Prefixed(p, fqdns[..|fqdns| - 1]) + [p + fqdns[|fqdns| - 1]]
  }

  /** The product holds every pairing ... */
  lemma {:induction false} ExpandHas(names: seq<string>, fqdns: seq<string>, n: string, f: string)
    requires n in names && f in fqdns
    ensures Fqdn(n) + f in Expand(names, fqdns)
    decreases |names|
  {
    var k := |names| - 1;
    if n == names[k] {
      PrefixedHas(Fqdn(n), fqdns, f);
    } else {
      InFront(names, k, n);
      ExpandHas(names[..k], fqdns, n, f);
    }
  }

  /** ... and nothing else. */
  lemma {:induction false} ExpandFrom(names: seq<string>, fqdns: seq<string>, x: string) returns (n: string, f: string)
    requires x in Expand(names, fqdns)
    ensures n in names && f in fqdns && x == Fqdn(n) + f
    decreases |names|
  {
    var k := |names| - 1;
    if x in Prefixed(Fqdn(names[k]), fqdns) {
      n := names[k];
      f := PrefixedFrom(Fqdn(n), fqdns, x);
    } else {
      n, f := ExpandFrom(names[..k], fqdns, x);
      InFront(names, k, n);
    }
  }

  lemma PrefixedHas(p: string, fqdns: seq<string>, f: string)
    requires f in fqdns
    ensures p + f in Prefixed(p, fqdns)
  {
    var i :| 0 <= i < |fqdns| && fqdns[i] == f;
    assert Prefixed(p, fqdns)[i] == p + f;
  }

  lemma PrefixedFrom(p: string, fqdns: seq<string>, x: string) returns (f: string)
    requires x in Prefixed(p, fqdns)
    ensures f in fqdns && x == p + f
  {
    var i :| 0 <= i < |fqdns| && Prefixed(p, fqdns)[i] == x;
    f := fqdns[i];
  }

  lemma InFront<T>(xs: seq<T>, k: nat, x: T)
    requires |xs| == k + 1
    ensures x in xs <==> x in xs[..k] || x == xs[k]
  {
  }

  function EntryNames(es: seq<Entry>, fqdns: seq<string>): seq<string> {
    if es == [] then [] else EntryNames(es[..|es| - 1], fqdns) + Expand(es[|es| - 1].dnsNames, fqdns)
  }

  lemma EntryNamesLast(es: seq<Entry>, fqdns: seq<string>, x: string)
    requires es != []
    ensures x in EntryNames(es, fqdns) <==>
      x in EntryNames(es[..|es| - 1], fqdns) || x in Expand(es[|es| - 1].dnsNames, fqdns)
  {
    InSum(EntryNames(es[..|es| - 1], fqdns), Expand(es[|es| - 1].dnsNames, fqdns), x);
  }

  lemma {:induction false} EntryNamesHas(es: seq<Entry>, fqdns: seq<string>, e: Entry, x: string)
    requires e in es && x in Expand(e.dnsNames, fqdns)
    ensures x in EntryNames(es, fqdns)
    decreases |es|
  {
    EntryNamesLast(es, fqdns, x);
    if e != es[|es| - 1] {
      InFront(es, |es| - 1, e);
      EntryNamesHas(es[..|es| - 1], fqdns, e, x);
    }
  }

  lemma InSum<T>(a: seq<T>, b: seq<T>, x: T)
    ensures x in a + b <==> x in a || x in b
  {
  }

  lemma {:induction false} EntryNamesFrom(es: seq<Entry>, fqdns: seq<string>, x: string) returns (e: Entry)
    requires x in EntryNames(es, fqdns)
    ensures e in es && x in Expand(e.dnsNames, fqdns)
    decreases |es|
  {
    var k := |es| - 1;
    if x in Expand(es[k].dnsNames, fqdns) {
      e := es[k];
    } else {
      e := EntryNamesFrom(es[..k], fqdns, x);
      InFront(es, k, e);
    }
  }

  /** One row for every name. */
  function Rows(names: seq<string>, fqdns: seq<string>): (r: seq<seq<string>>)
    ensures |r| == |names|
    ensures forall i {:trigger r[i]} | 0 <= i < |r| :: r[i] == Prefixed(Fqdn(names[i]), fqdns)
  {
    seq(|names|, i requires 0 <= i < |names| => Prefixed(Fqdn(names[i]), fqdns))
  }

  lemma {:induction false} ExpandIsFlat(names: seq<string>, fqdns: seq<string>)
    ensures Expand(names, fqdns) == Flat(Rows(names, fqdns))
    decreases |names|
  {
    if names != [] {
      var k := |names| - 1;
      ExpandIsFlat(names[..k], fqdns);
      assert Rows(names, fqdns)[..k] == Rows(names[..k], fqdns);
    }
  }

  /** The names of all entries, one after the other. */
  function AllNames(es: seq<Entry>): seq<string> {
    if es == [] then [] else AllNames(es[..|es| - 1]) + es[|es| - 1].dnsNames
  }

  lemma RowsSum(a: seq<string>, b: seq<string>, fqdns: seq<string>)
    ensures Rows(a + b, fqdns) == Rows(a, fqdns) + Rows(b, fqdns)
  {
  }

  lemma {:induction false} EntryNamesFlat(es: seq<Entry>, fqdns: seq<string>)
    ensures EntryNames(es, fqdns) == Flat(Rows(AllNames(es), fqdns))
    decreases |es|
  {
    if es != [] {
      var k := |es| - 1;
      EntryNamesFlat(es[..k], fqdns);
      ExpandIsFlat(es[k].dnsNames, fqdns);
      RowsSum(AllNames(es[..k]), es[k].dnsNames, fqdns);
      FlatSum(Rows(AllNames(es[..k]), fqdns), Rows(es[k].dnsNames, fqdns));
    }
  }

  lemma ExpandLength(names: seq<string>, fqdns: seq<string>)
    ensures |Expand(names, fqdns)| == |names| * |fqdns|
  {
    ExpandIsFlat(names, fqdns);
    FlatLength(Rows(names, fqdns), |fqdns|);
  }

  /** Name `j` below zone name `l` is column `l` of row `j`. */
  lemma ExpandAt(names: seq<string>, fqdns: seq<string>, j: nat, l: nat)
    requires j < |names| && l < |fqdns|
    ensures Place(j, |fqdns|, l) < |Expand(names, fqdns)|
    ensures Expand(names, fqdns)[Place(j, |fqdns|, l)] == Fqdn(names[j]) + fqdns[l]
  {
    ExpandIsFlat(names, fqdns);
    PlaceAt(Rows(names, fqdns), |fqdns|, j, l);
  }

  /** The same for the names of several entries, which come one after the other. */
  lemma EntryNamesAt(es: seq<Entry>, fqdns: seq<string>, n: nat, name: string, l: nat)
    requires n < |AllNames(es)| && AllNames(es)[n] == name && l < |fqdns|
    ensures Place(n, |fqdns|, l) < |EntryNames(es, fqdns)|
    ensures EntryNames(es, fqdns)[Place(n, |fqdns|, l)] == Fqdn(name) + fqdns[l]
  {
    EntryNamesFlat(es, fqdns);
    PlaceAt(Rows(AllNames(es), fqdns), |fqdns|, n, l);
  }

  lemma EntryNamesLength(es: seq<Entry>, fqdns: seq<string>)
    ensures |EntryNames(es, fqdns)| == |AllNames(es)| * |fqdns|
  {
    EntryNamesFlat(es, fqdns);
    FlatLength(Rows(AllNames(es), fqdns), |fqdns|);
  }

  /** The number of names of all entries. */
  function NameCount(es: seq<Entry>): nat {
    if es == [] then 0 else NameCount(es[..|es| - 1]) + |es[|es| - 1].dnsNames|
  }

  /** Name `j` of entry `k` comes behind the names of the entries before. */
  lemma {:induction false} AllNamesAt(es: seq<Entry>, k: nat, j: nat)
    requires k < |es| && j < |es[k].dnsNames|
    ensures |AllNames(es)| == NameCount(es)
    ensures NameCount(es[..k]) + j < |AllNames(es)| && AllNames(es)[NameCount(es[..k]) + j] == es[k].dnsNames[j]
    decreases |es|
  {
    var n := |es| - 1;
    AllNamesLength(es);
    AllNamesLength(es[..n]);
    if k < n {
      assert es[..n][..k] == es[..k];
      AllNamesAt(es[..n], k, j);
    }
  }

  lemma {:induction false} AllNamesLength(es: seq<Entry>)
    ensures |AllNames(es)| == NameCount(es)
    decreases |es|
  {
    if es != [] { AllNamesLength(es[..|es| - 1]); }
  }

  /** The names are those of the entries, one by one and in their order, each below every name of the
      zone, and no others. */
  ghost predicate NamedInOrder(es: seq<Entry>, fqdns: seq<string>, names: seq<string>) {
    && |names| == NameCount(es) * |fqdns|
    && forall k, j, l {:trigger es[k].dnsNames[j], fqdns[l]}
         | 0 <= k < |es| && 0 <= j < |es[k].dnsNames| && 0 <= l < |fqdns| ::
         NameStandsAt(names, Place(NameCount(es[..k]) + j, |fqdns|, l), es[k].dnsNames[j], fqdns[l])
  }

  predicate NameStandsAt(names: seq<string>, at: nat, n: string, f: string) {
    at < |names| && names[at] == Fqdn(n) + f
  }

  lemma EntryNamesInOrder(es: seq<Entry>, fqdns: seq<string>)
    ensures NamedInOrder(es, fqdns, EntryNames(es, fqdns))
  {
    EntryNamesLength(es, fqdns);
    AllNamesLength(es);
    forall k, j, l | 0 <= k < |es| && 0 <= j < |es[k].dnsNames| && 0 <= l < |fqdns|
      ensures NameStandsAt(EntryNames(es, fqdns), Place(NameCount(es[..k]) + j, |fqdns|, l), es[k].dnsNames[j],
        fqdns[l])
    {
      EntryNameAt(es, fqdns, k, j, l, es[k].dnsNames[j], fqdns[l]);
    }
  }

  lemma EntryNameAt(es: seq<Entry>, fqdns: seq<string>, k: nat, j: nat, l: nat, name: string, f: string)
    requires k < |es| && j < |es[k].dnsNames| && l < |fqdns| && es[k].dnsNames[j] == name && fqdns[l] == f
    ensures NameStandsAt(EntryNames(es, fqdns), Place(NameCount(es[..k]) + j, |fqdns|, l), name, f)
  {
    AllNamesAt(es, k, j);
    EntryNamesAt(es, fqdns, NameCount(es[..k]) + j, name, l);
  }

  /** The zone reached from `z` through the child maps. */
  ghost function Follow<R>(st: State<R>, z: R, path: seq<string>): (r: Option<R>)
    ensures r.Some? ==> r.value in st.children && r.value in st.names && r.value in st.key
  {
    if z !in st.children || z !in st.names || z !in st.key then None
    else if path == [] then Some(z)
    else if path[0] in st.children[z] then Follow(st, st.children[z][path[0]], path[1..])
    else None
  }

  /** The names of the zone at the end of the path, from the top down. */
  ghost function Product<R>(st: State<R>, z: R, path: seq<string>, fqdns: seq<string>): seq<string>
    requires Follow(st, z, path).Some?
    decreases |path|
  {
    var here := Expand(st.names[z], fqdns);
    if path == [] then here else Product(st, st.children[z][path[0]], path[1..], here)
  }

  ghost function Found<R>(st: State<R>, idx: Index, z: R, ip: string, path: seq<string>): Result<seq<Entry>>
    requires Follow(st, z, path).Some?
  {
    idx.byIP(st.key[Follow(st, z, path).value], ip)
  }

  /** The information about the zone at the end of a path. */
  ghost function InfoAt<R>(st: State<R>, idx: Index, z: R, fqdns: seq<string>, ip: string, path: seq<string>): Info<R>
    requires Follow(st, z, path).Some? && Found(st, idx, z, ip, path).Ok?
  {
    var es := Found(st, idx, z, ip, path).value;
    var names := Product(st, z, path, fqdns);
    Info(Follow(st, z, path), names, es, EntryNames(es, names))
  }

  ghost predicate Hit<R>(st: State<R>, idx: Index, z: R, ip: string, path: seq<string>) {
    Follow(st, z, path).Some? && Found(st, idx, z, ip, path).Ok? && Found(st, idx, z, ip, path).value != []
  }

  /** The lookup fails in the zone at the end of the path. */
  ghost predicate Fails<R>(st: State<R>, idx: Index, z: R, ip: string, path: seq<string>, error: string) {
    Follow(st, z, path).Some? && Found(st, idx, z, ip, path) == Err(error)
  }

  /** `infos` holds one information for every path with entries for the address, and `paths` says
      which is which. */
  ghost predicate Reverse<R>(st: State<R>, idx: Index, z: R, fqdns: seq<string>, ip: string,
                             paths: seq<seq<string>>, infos: seq<Info<R>>) {
    && |paths| == |infos|
    && (forall i, j | 0 <= i < j < |paths| :: paths[i] != paths[j])
    && (forall i {:trigger infos[i]} | 0 <= i < |paths| ::
          Hit(st, idx, z, ip, paths[i]) && infos[i] == InfoAt(st, idx, z, fqdns, ip, paths[i]))
    && (forall p {:trigger Hit(st, idx, z, ip, p)} | Hit(st, idx, z, ip, p) :: p in paths)
  }

  /** So the names reported with a zone are in order. */
  lemma ReportedInOrder<R>(st: State<R>, idx: Index, z: R, fqdns: seq<string>, ip: string,
                           paths: seq<seq<string>>, infos: seq<Info<R>>, i: nat)
    requires Reverse(st, idx, z, fqdns, ip, paths, infos) && i < |infos|
    ensures NamedInOrder(infos[i].entries, infos[i].zoneNames, infos[i].entryNames)
  {
    var info := infos[i];
    EntryNamesInOrder(info.entries, info.zoneNames);
  }
}
