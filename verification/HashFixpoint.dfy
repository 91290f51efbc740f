/** `apply_hashes` (pkg/render/spiff.go): manifests carry the hashes of other manifests in their
    annotations, and passes over all of them are repeated until no annotation changes any more. */
module HashFixpoint {
  import opened FiniteSets
  import opened Wrappers

  type Bytes = seq<bv8>

  /** A manifest as far as it matters here: its annotations and all the rest. */
  datatype Doc = Doc(annos: map<string, string>, rest: string)

  /** YAML and SHA-256. */
  datatype Codec = Codec(parse: Bytes -> Option<Doc>, marshal: Doc -> Bytes, hash: Bytes -> string)

  type Files = map<string, Bytes>

  const PREFIX := "hashes."

  predicate IsHash(k: string) {
    PREFIX <= k
  }

  function Target(k: string): string
    requires IsHash(k)
  {
    k[|PREFIX|..]
  }

  /** The annotation for the hash of a manifest is called "hashes." and its name; no other is one. */
  lemma HashAnnotationIff(k: string, n: string)
    ensures IsHash(k) && Target(k) == n <==> k == "hashes." + n
  {
    if IsHash(k) { assert k == PREFIX + Target(k); }
  }

  predicate Filled(files: Files, n: string) {
    n in files && files[n] != []
  }

  /** The annotations of one manifest brought up to date: a hash is computed anew, or dropped if
      there is nothing to hash. */
  function Rewritten(c: Codec, files: Files, annos: map<string, string>): map<string, string> {
    map k | k in annos && (IsHash(k) ==> Filled(files, Target(k))) ::
      if IsHash(k) then c.hash(files[Target(k)]) else annos[k]
  }

  /** Every hash annotation names a manifest with content and holds its hash. */
  predicate UpToDate(c: Codec, files: Files, annos: map<string, string>) {
    forall k {:trigger IsHash(k)} | k in annos && IsHash(k) ::
      Filled(files, Target(k)) && annos[k] == c.hash(files[Target(k)])
  }

  lemma RewrittenSameIff(c: Codec, files: Files, annos: map<string, string>)
    ensures Rewritten(c, files, annos) == annos <==> UpToDate(c, files, annos)
  {
    var r := Rewritten(c, files, annos);
    if r == annos {
      forall k | k in annos && IsHash(k) ensures Filled(files, Target(k)) && annos[k] == c.hash(files[Target(k)]) {
        assert k in r && r[k] == annos[k];
      }
    }
  }

  predicate SettledAt(c: Codec, files: Files, n: string) {
    n in files && c.parse(files[n]).Some? && UpToDate(c, files, c.parse(files[n]).value.annos)
  }

  predicate Settled(c: Codec, files: Files) {
    forall n {:trigger files[n]} | n in files :: SettledAt(c, files, n)
  }

  /** A settled manifest can be read, and whatever it says is the hash of a manifest is just that. */
  lemma SettledIff(c: Codec, files: Files, n: string)
    ensures SettledAt(c, files, n) <==>
      n in files && c.parse(files[n]).Some?
      && var annos := c.parse(files[n]).value.annos;
         forall m | "hashes." + m in annos :: m in files && files[m] != [] && annos["hashes." + m] == c.hash(files[m])
  {
    if n in files && c.parse(files[n]).Some? {
      var annos := c.parse(files[n]).value.annos;
      forall m ensures IsHash("hashes." + m) && Target("hashes." + m) == m {
        HashAnnotationIff("hashes." + m, m);
      }
      forall k | IsHash(k) ensures k == "hashes." + Target(k) {
        HashAnnotationIff(k, Target(k));
      }
    }
  }

  /** What is written can be read back, and what is written is not empty; nothing is annotated in
      an empty file. */
  ghost predicate Lawful(c: Codec) {
    && (forall d {:trigger c.marshal(d)} :: c.parse(c.marshal(d)) == Some(d) && c.marshal(d) != [])
    && (c.parse([]).Some? ==> c.parse([]).value.annos == map[])
  }

  /** The files after visiting `n`. */
  function VisitedAt(c: Codec, files: Files, n: string): Files
    requires n in files && c.parse(files[n]).Some?
  {
    var d := c.parse(files[n]).value;
    var annos := Rewritten(c, files, d.annos);
    if annos == d.annos then files else files[n := c.marshal(d.(annos := annos))]
  }

  // ----- what every visit keeps ----------------------------------------------------------------------

  /** `files` came from `start` by visits: contents apart from hashes are kept, hashes are only
      dropped where there is nothing to hash, and untouched files are untouched. */
  ghost predicate DerivedAt(c: Codec, start: Files, files: Files, n: string)
    requires n in start && n in files
  {
    && (Filled(files, n) <==> Filled(start, n))
    && (files[n] != start[n] ==>
          c.parse(start[n]).Some? && c.parse(files[n]).Some? && files[n] == c.marshal(c.parse(files[n]).value))
    && (c.parse(start[n]).Some? && c.parse(files[n]).Some? ==>
          SameBut(start, c.parse(start[n]).value, c.parse(files[n]).value))
  }

  ghost predicate SameBut(start: Files, d0: Doc, d: Doc) {
    && d.rest == d0.rest
    && (forall k {:trigger k in d.annos} {:trigger k in d0.annos} ::
          (k in d.annos ==> k in d0.annos)
          && (k in d0.annos && (IsHash(k) ==> Filled(start, Target(k))) ==> k in d.annos))
    && (forall k {:trigger d.annos[k]} | k in d.annos && k in d0.annos && !IsHash(k) :: d.annos[k] == d0.annos[k])
  }

  ghost predicate Derived(c: Codec, start: Files, files: Files) {
    && files.Keys == start.Keys
    && forall n {:trigger files[n]} {:trigger start[n]} | n in start :: DerivedAt(c, start, files, n)
  }

  lemma FilledStays(c: Codec, start: Files, files: Files, n: string)
    requires Derived(c, start, files)
    ensures Filled(files, n) <==> Filled(start, n)
  {
    if n in start { assert DerivedAt(c, start, files, n); }
  }

  lemma RewrittenSameBut(c: Codec, start: Files, files: Files, d0: Doc, d: Doc)
    requires Derived(c, start, files) && SameBut(start, d0, d)
    ensures SameBut(start, d0, d.(annos := Rewritten(c, files, d.annos)))
  {
    var d1 := d.(annos := Rewritten(c, files, d.annos));
    forall k | k in d.annos && IsHash(k) ensures Filled(files, Target(k)) <==> Filled(start, Target(k)) {
      FilledStays(c, start, files, Target(k));
    }
  }

  lemma VisitDerives(c: Codec, start: Files, files: Files, n: string)
    requires Lawful(c) && Derived(c, start, files) && n in files && c.parse(files[n]).Some? && c.parse(start[n]).Some?
    ensures Derived(c, start, VisitedAt(c, files, n))
  {
    var d := c.parse(files[n]).value;
    var annos := Rewritten(c, files, d.annos);
    assert DerivedAt(c, start, files, n);
    if annos != d.annos {
      RewrittenSameBut(c, start, files, c.parse(start[n]).value, d);
      var b := c.marshal(d.(annos := annos));
      assert c.parse(b) == Some(d.(annos := annos));
      var files1 := files[n := b];
      assert files[n] != [];
      forall m | m in start ensures DerivedAt(c, start, files1, m) {
        assert DerivedAt(c, start, files, m);
      }
    }
  }

  // ----- references without cycles ----------------------------------------------------------------------

  /** Every manifest ranks above those whose hashes it asks for. */
  ghost predicate Ranked(c: Codec, files: Files, rank: map<string, nat>) {
    && files.Keys <= rank.Keys
    && forall n, k {:trigger files[n], IsHash(k)} | n in files && c.parse(files[n]).Some?
          && k in c.parse(files[n]).value.annos && IsHash(k) && Target(k) in files ::
         rank[Target(k)] < rank[n]
  }

  ghost predicate StableBelow(c: Codec, files: Files, rank: map<string, nat>, i: nat) {
    forall n {:trigger files[n]} | n in files && n in rank && rank[n] < i :: SettledAt(c, files, n)
  }

  /** The references of a derived manifest are among the original ones. */
  lemma RefersLower(c: Codec, start: Files, files: Files, rank: map<string, nat>, n: string, k: string)
    requires Derived(c, start, files) && Ranked(c, start, rank) && n in files && c.parse(files[n]).Some?
    requires k in c.parse(files[n]).value.annos && IsHash(k) && Target(k) in files
    ensures rank[Target(k)] < rank[n]
  {
    assert DerivedAt(c, start, files, n);
    if files[n] == start[n] {
      assert k in c.parse(start[n]).value.annos;
    }
  }

  /** The manifest asks for the hash of `m`. */
  predicate Asks(c: Codec, files: Files, n: string, m: string) {
    n in files && c.parse(files[n]).Some? &&
    exists k {:trigger IsHash(k)} | k in c.parse(files[n]).value.annos :: IsHash(k) && Target(k) == m
  }

  /** A visit does not disturb a settled manifest that does not ask for the visited one. */
  lemma StaysSettled(c: Codec, files: Files, n: string, m: string)
    requires n in files && c.parse(files[n]).Some? && SettledAt(c, files, m) && !Asks(c, files, m, n)
    ensures SettledAt(c, VisitedAt(c, files, n), m)
  {
    RewrittenSameIff(c, files, c.parse(files[n]).value.annos);
    if m != n {
      var files1, annos := VisitedAt(c, files, n), c.parse(files[m]).value.annos;
      forall k | k in annos && IsHash(k)
        ensures Filled(files1, Target(k)) && annos[k] == c.hash(files1[Target(k)])
      {
        assert Target(k) != n;
      }
    }
  }

  /** A visited manifest is settled, unless it asks for itself. */
  lemma VisitSettles(c: Codec, files: Files, n: string)
    requires Lawful(c) && n in files && c.parse(files[n]).Some? && !Asks(c, files, n, n)
    ensures SettledAt(c, VisitedAt(c, files, n), n)
  {
    var d := c.parse(files[n]).value;
    var annos := Rewritten(c, files, d.annos);
    RewrittenSameIff(c, files, d.annos);
    if annos != d.annos {
      var d1 := d.(annos := annos);
      var files1 := files[n := c.marshal(d1)];
      assert c.parse(files1[n]) == Some(d1);
      forall k | k in annos && IsHash(k) ensures Filled(files1, Target(k)) && annos[k] == c.hash(files1[Target(k)]) {
        assert Target(k) != n;
      }
    }
  }

  /** With ranks no manifest asks for one that ranks no lower. */
  lemma AsksLower(c: Codec, start: Files, files: Files, rank: map<string, nat>, n: string, m: string)
    requires Derived(c, start, files) && Ranked(c, start, rank) && n in files && m in files && rank[n] <= rank[m]
    ensures !Asks(c, files, n, m)
  {
    if Asks(c, files, n, m) {
      var k :| k in c.parse(files[n]).value.annos && IsHash(k) && Target(k) == m;
      RefersLower(c, start, files, rank, n, k);
    }
  }

  // ----- exactly when there are ranks -------------------------------------------------------------------

  /** From `n` to `m` in `k` steps, each to a manifest whose hash is asked for. */
  ghost predicate AsksIn(c: Codec, files: Files, n: string, m: string, k: nat)
    decreases k
  {
    if k == 0 then n == m
    else exists l {:trigger Asks(c, files, n, l)} | l in files :: Asks(c, files, n, l) && AsksIn(c, files, l, m, k - 1)
  }

  /** The content of `n` depends on `m`, directly or not. */
  ghost predicate Depends(c: Codec, files: Files, n: string, m: string) {
    exists k: nat :: AsksIn(c, files, n, m, k)
  }

  ghost predicate DependsOnItself(c: Codec, files: Files, n: string) {
    exists l {:trigger Asks(c, files, n, l)} | l in files :: Asks(c, files, n, l) && Depends(c, files, l, n)
  }

  lemma {:induction false} AsksFurther(c: Codec, files: Files, n: string, l: string, m: string, i: nat, j: nat)
    requires AsksIn(c, files, n, l, i) && AsksIn(c, files, l, m, j)
    ensures AsksIn(c, files, n, m, i + j)
    decreases i
  {
    if i > 0 {
      var o :| o in files && Asks(c, files, n, o) && AsksIn(c, files, o, l, i - 1);
      AsksFurther(c, files, o, l, m, i - 1, j);
    }
  }

  lemma {:induction false} RankFalls(c: Codec, files: Files, rank: map<string, nat>, n: string, m: string, k: nat)
    requires Ranked(c, files, rank) && n in files && AsksIn(c, files, n, m, k)
    ensures m in files && rank[m] + k <= rank[n]
    decreases k
  {
    if k > 0 {
      var l :| l in files && Asks(c, files, n, l) && AsksIn(c, files, l, m, k - 1);
      RankFalls(c, files, rank, l, m, k - 1);
    }
  }

  lemma RankedNotItself(c: Codec, files: Files, rank: map<string, nat>, n: string)
    requires Ranked(c, files, rank) && n in files
    ensures !DependsOnItself(c, files, n)
  {
    forall l | l in files && Asks(c, files, n, l) ensures !Depends(c, files, l, n) {
      forall k: nat ensures !AsksIn(c, files, l, n, k) {
        if AsksIn(c, files, l, n, k) { RankFalls(c, files, rank, l, n, k); }
      }
    }
  }

  ghost function Needed(c: Codec, files: Files, n: string): set<string> {
    set m | m in files && Depends(c, files, n, m)
  }

  ghost function NeedRank(c: Codec, files: Files): map<string, nat> {
    map n | n in files :: |Needed(c, files, n)|
  }

  lemma NeedShrinks(c: Codec, files: Files, n: string, m: string)
    requires n in files && m in files && Asks(c, files, n, m) && !DependsOnItself(c, files, n)
    ensures |Needed(c, files, m)| < |Needed(c, files, n)|
  {
    forall l | l in Needed(c, files, m) ensures l in Needed(c, files, n) {
      var k: nat :| AsksIn(c, files, m, l, k);
      assert AsksIn(c, files, n, l, k + 1);
    }
    assert AsksIn(c, files, n, n, 0);
    Smaller(Needed(c, files, m), Needed(c, files, n), n);
  }

  /** The manifests can be ranked exactly when none of them depends on itself. */
  lemma RankedIff(c: Codec, files: Files)
    ensures (exists rank: map<string, nat> :: Ranked(c, files, rank)) <==>
      forall n | n in files :: !DependsOnItself(c, files, n)
  {
    if forall n | n in files :: !DependsOnItself(c, files, n) {
      var rank := NeedRank(c, files);
      forall n, k | n in files && c.parse(files[n]).Some? && k in c.parse(files[n]).value.annos && IsHash(k)
                    && Target(k) in files
        ensures rank[Target(k)] < rank[n]
      {
        NeedShrinks(c, files, n, Target(k));
      }
      assert Ranked(c, files, rank);
    }
    forall rank: map<string, nat>, n | Ranked(c, files, rank) && n in files ensures !DependsOnItself(c, files, n) {
      RankedNotItself(c, files, rank, n);
    }
  }

  // ----- the result does not depend on the order ------------------------------------------------------------

  /** The files are as they would be written. */
  ghost predicate Canonical(c: Codec, files: Files) {
    forall n {:trigger files[n]} | n in files && files[n] != [] && c.parse(files[n]).Some? ::
      c.marshal(c.parse(files[n]).value) == files[n]
  }

  lemma WrittenAs(c: Codec, start: Files, a: Files, n: string)
    requires Derived(c, start, a) && Canonical(c, start) && n in start && SettledAt(c, a, n) && Filled(start, n)
    ensures a[n] == c.marshal(c.parse(a[n]).value)
    ensures c.parse(start[n]).Some? && SameBut(start, c.parse(start[n]).value, c.parse(a[n]).value)
  {
    assert DerivedAt(c, start, a, n);
  }

  lemma SameAnnotations(c: Codec, start: Files, a: Files, b: Files, d0: Doc, d: Doc, e: Doc)
    requires Derived(c, start, a) && SameBut(start, d0, d) && SameBut(start, d0, e)
    requires UpToDate(c, a, d.annos) && UpToDate(c, b, e.annos)
    requires forall k {:trigger IsHash(k)} | k in d.annos && IsHash(k) && Target(k) in a ::
      Target(k) in b && a[Target(k)] == b[Target(k)]
    ensures forall k | k in d.annos :: k in e.annos && e.annos[k] == d.annos[k]
  {
    forall k | k in d.annos ensures k in e.annos && e.annos[k] == d.annos[k] {
      if IsHash(k) {
        FilledStays(c, start, a, Target(k));
      } else {
        assert k in d0.annos;
      }
    }
  }

  /** Two settled results of the same files agree, manifest by manifest, from the lowest rank up. */
  lemma {:induction false} SameResultAt(c: Codec, start: Files, rank: map<string, nat>, a: Files, b: Files, n: string)
    requires Lawful(c) && Canonical(c, start) && Ranked(c, start, rank) && n in start
    requires Derived(c, start, a) && Settled(c, a) && Derived(c, start, b) && Settled(c, b)
    ensures a[n] == b[n]
    decreases rank[n]
  {
    FilledStays(c, start, a, n);
    FilledStays(c, start, b, n);
    if Filled(start, n) {
      WrittenAs(c, start, a, n);
      WrittenAs(c, start, b, n);
      var d0, d, e := c.parse(start[n]).value, c.parse(a[n]).value, c.parse(b[n]).value;
      forall k | k in d.annos && IsHash(k) && Target(k) in a ensures a[Target(k)] == b[Target(k)] {
        RefersLower(c, start, a, rank, n, k);
        SameResultAt(c, start, rank, a, b, Target(k));
      }
      forall k | k in e.annos && IsHash(k) && Target(k) in b ensures b[Target(k)] == a[Target(k)] {
        RefersLower(c, start, b, rank, n, k);
        SameResultAt(c, start, rank, a, b, Target(k));
      }
      SameAnnotations(c, start, a, b, d0, d, e);
      SameAnnotations(c, start, b, a, d0, e, d);
      assert d.annos == e.annos;
      assert d == e;
    }
  }

  lemma SameResult(c: Codec, start: Files, a: Files, b: Files)
    requires Lawful(c) && Canonical(c, start) && forall n | n in start :: !DependsOnItself(c, start, n)
    requires Derived(c, start, a) && Settled(c, a) && Derived(c, start, b) && Settled(c, b)
    ensures a == b
  {
    RankedIff(c, start);
    var rank: map<string, nat> :| Ranked(c, start, rank);
    forall n | n in start ensures a[n] == b[n] {
      SameResultAt(c, start, rank, a, b, n);
    }
  }

  lemma {:induction false} RankBound(rank: map<string, nat>) returns (b: nat)
    ensures forall n | n in rank :: rank[n] < b
    decreases |rank|
  {
    if rank == map[] {
      b := 0;
    } else {
      var n :| n in rank;
      b := RankBound(rank - {n});
      forall m | m in rank && m != n ensures rank[m] < b {
        assert m in rank - {n} && (rank - {n})[m] == rank[m];
      }
      b := if b <= rank[n] then rank[n] + 1 else b;
    }
  }

  /** The loop over the annotations has done all but `todo`. */
  ghost predicate Refreshed(c: Codec, files: Files, annos: map<string, string>, todo: set<string>,
                            result: map<string, string>)
  {
    && (forall k {:trigger k in result} :: k in result <==>
          k in annos && (k in todo || !IsHash(k) || Filled(files, Target(k))))
    && (forall k {:trigger result[k]} | k in result && k in annos ::
          result[k] ==
            if k !in todo && IsHash(k) && Filled(files, Target(k)) then c.hash(files[Target(k)]) else annos[k])
  }

  /** All manifests but those in `todo` are settled. */
  ghost predicate SettledBut(c: Codec, files: Files, todo: set<string>) {
    forall n {:trigger files[n]} | n in files && n !in todo :: SettledAt(c, files, n)
  }

  /** In the course of a pass: settled below rank `i`, and at rank `i` but for `todo`. */
  ghost predicate Rising(c: Codec, files: Files, rank: map<string, nat>, i: nat, todo: set<string>) {
    forall n {:trigger files[n]} | n in files && n in rank && (rank[n] < i || (rank[n] == i && n !in todo)) ::
      SettledAt(c, files, n)
  }

  lemma RisesOn(c: Codec, start: Files, files: Files, rank: map<string, nat>, i: nat, todo: set<string>, n: string)
    requires Lawful(c) && Derived(c, start, files) && Ranked(c, start, rank)
    requires n in files && c.parse(files[n]).Some? && Rising(c, files, rank, i, todo)
    ensures Rising(c, VisitedAt(c, files, n), rank, i, todo - {n})
  {
    var files1 := VisitedAt(c, files, n);
    forall m | m in files1 && m in rank && (rank[m] < i || (rank[m] == i && m !in todo - {n}))
      ensures SettledAt(c, files1, m)
    {
      if m == n {
        AsksLower(c, start, files, rank, n, n);
        VisitSettles(c, files, n);
      } else if rank[n] < i {
        RewrittenSameIff(c, files, c.parse(files[n]).value.annos);
        assert SettledAt(c, files, n) && files1 == files;
      } else {
        AsksLower(c, start, files, rank, m, n);
        StaysSettled(c, files, n, m);
      }
    }
  }

  /** A pass that began with `before` has done all but `todo`. */
  ghost predicate InPass(c: Codec, start: Files, before: Files, files: Files, mod: bool, todo: set<string>,
                         rank: map<string, nat>, i: nat) {
    && todo <= start.Keys && Derived(c, start, files)
    && (!mod ==> files == before && SettledBut(c, files, todo))
    && (mod ==> !Settled(c, before))
    && (forall n {:trigger start[n]} | n in start && n !in todo :: c.parse(start[n]).Some?)
    && (Ranked(c, start, rank) && StableBelow(c, before, rank, i) ==> Rising(c, files, rank, i, todo))
  }

  lemma PassOn(c: Codec, start: Files, before: Files, files: Files, mod: bool, todo: set<string>,
               rank: map<string, nat>, i: nat, n: string)
    requires Lawful(c) && InPass(c, start, before, files, mod, todo, rank, i)
    requires n in todo && c.parse(files[n]).Some? && c.parse(start[n]).Some?
    ensures InPass(c, start, before, VisitedAt(c, files, n), mod || !SettledAt(c, files, n), todo - {n}, rank, i)
  {
    VisitDerives(c, start, files, n);
    RewrittenSameIff(c, files, c.parse(files[n]).value.annos);
    if Ranked(c, start, rank) && StableBelow(c, before, rank, i) {
      RisesOn(c, start, files, rank, i, todo, n);
    }
  }

  lemma PassEnds(c: Codec, start: Files, before: Files, files: Files, mod: bool, rank: map<string, nat>, i: nat)
    requires InPass(c, start, before, files, mod, {}, rank, i)
    ensures !mod <==> Settled(c, before)
    ensures forall n | n in start :: c.parse(start[n]).Some?
    ensures Ranked(c, start, rank) && StableBelow(c, before, rank, i) ==> StableBelow(c, files, rank, i + 1)
  {
  }

  lemma UnreadableStays(c: Codec, start: Files, files: Files, n: string)
    requires Derived(c, start, files) && n in start
    ensures c.parse(files[n]).None? <==> c.parse(start[n]).None?
  {
    assert DerivedAt(c, start, files, n);
  }

  /** As long as something changes there is a manifest of rank `i` or more. */
  lemma AllStable(c: Codec, files: Files, rank: map<string, nat>, i: nat, bound: nat)
    requires StableBelow(c, files, rank, i) && !Settled(c, files) && files.Keys <= rank.Keys
    requires forall n | n in rank :: rank[n] < bound
    ensures i < bound
  {
    var n :| n in files && !SettledAt(c, files, n);
    assert !(rank[n] < i);
  }

  class Manifests {
    const codec: Codec
    var files: Files

    constructor (c: Codec, f: Files)
      ensures codec == c && files == f
    {
      codec, files := c, f;
    }

    /** Lines 96-113. */
    method Refresh(annos: map<string, string>) returns (result: map<string, string>, changed: bool)
      ensures result == Rewritten(codec, files, annos)
      ensures changed <==> !UpToDate(codec, files, annos)
    {
      result, changed := annos, false;
      var todo := annos.Keys;
      while todo != {}
        invariant todo <= annos.Keys
        invariant Refreshed(codec, files, annos, todo, result)
        invariant changed <==> result != annos
      {
        var k :| k in todo;
        todo := todo - {k};
        if IsHash(k) {
          if Filled(files, Target(k)) {
            var n := codec.hash(files[Target(k)]);
            if n != annos[k] {
              changed := true;
              result := result[k := n];
            }
          } else {
            changed := true;
            result := result - {k};
          }
        }
      }
      RewrittenSameIff(codec, files, annos);
      assert result == Rewritten(codec, files, annos);
    }

    /** One manifest (lines 87-122): none if it cannot be read, else whether it was rewritten. */
    method Visit(n: string) returns (r: Option<bool>)
      requires n in files
      modifies this
      ensures r.None? <==> codec.parse(old(files)[n]).None?
      ensures r.None? ==> files == old(files)
      ensures r.Some? ==> files == VisitedAt(codec, old(files), n) && (r.value <==> !SettledAt(codec, old(files), n))
    {
      match codec.parse(files[n])
      case None =>
        return None;
      case Some(doc) =>
        var annos, changed := Refresh(doc.annos);
        RewrittenSameIff(codec, files, doc.annos);
        if changed {
          files := files[n := codec.marshal(doc.(annos := annos))];
        }
        return Some(changed);
    }

    /** One pass over all manifests, in whatever order the map yields them. A pass that changes
        nothing leaves every hash right; no assumption on cycles is needed for that. A pass in a
        state in which all manifests below rank `i` are settled settles those of rank `i`, too. */
    method Pass(ghost start: Files, ghost rank: map<string, nat>, ghost i: nat) returns (r: Option<bool>)
      requires Lawful(codec) && Derived(codec, start, files)
      modifies this
      ensures Derived(codec, start, files)
      ensures r.None? <==> exists n :: n in start && codec.parse(start[n]).None?
      ensures r == Some(false) <==> Settled(codec, old(files))
      ensures r == Some(false) ==> files == old(files)
      ensures r.Some? && Ranked(codec, start, rank) && StableBelow(codec, old(files), rank, i) ==>
        StableBelow(codec, files, rank, i + 1)
    {
      ghost var before := files;
      var mod := false;
      var todo := files.Keys;
      while todo != {}
        invariant InPass(codec, start, before, files, mod, todo, rank, i)
      {
        var n :| n in todo;
        ghost var was := files;
        var v := Visit(n);
        UnreadableStays(codec, start, was, n);
        if v.None? {
          return None;
        }
        PassOn(codec, start, before, was, mod, todo, rank, i, n);
        if v.value {
          mod := true;
        }
        todo := todo - {n};
      }
      PassEnds(codec, start, before, files, mod, rank, i);
      r := Some(mod);
    }

    /** The passes come to an end if no manifest depends on itself; the error is the first manifest
        that cannot be read. */
    method ApplyHashes() returns (ok: bool)
      requires Lawful(codec) && forall n | n in files :: !DependsOnItself(codec, files, n)
      modifies this
      ensures ok <==> forall n | n in old(files) :: codec.parse(old(files)[n]).Some?
      ensures Derived(codec, old(files), files)
      ensures ok ==> Settled(codec, files)
    {
      ghost var start := files;
      RankedIff(codec, files);
      ghost var rank: map<string, nat> :| Ranked(codec, files, rank);
      ghost var bound := RankBound(rank);
      ghost var i := 0;
      var mod := true;
      while mod
        invariant Derived(codec, start, files)
        invariant StableBelow(codec, files, rank, i)
        invariant mod ==> i <= bound
        invariant !mod ==> Settled(codec, files) && forall n | n in start :: codec.parse(start[n]).Some?
        decreases if mod then 1 + bound - i else 0
      {
        ghost var before := files;
        var r := Pass(start, rank, i);
        if r.None? {
          return false;
        }
        mod := r.value;
        if mod {
          AllStable(codec, before, rank, i, bound);
        }
        i := i + 1;
      }
      return true;
    }
  }
}
