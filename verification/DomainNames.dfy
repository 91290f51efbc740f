/** Domain names as the zone model handles them: plain character sequences, cut and glued by hand.

    `Rdn` and `Join` are the repository's own (zonemodel/util.go). `Fqdn`, `IsSubDomain` and
    `SplitDomainName` belong to the DNS library it calls; they are defined here for names
    without backslash escapes, comparing ASCII letters without regard to case
    (section 2.3.3 of RFC 1035).

    `Words` is the abstraction: the non-empty labels of a name, in lower case. */
module DomainNames {
  function Lower(c: char): char {
    if 'A' <= c <= 'Z' then (c as int + 32) as char else c
  }

  function Fold(s: string): (r: string)
    ensures |r| == |s|
    ensures forall i {:trigger r[i]} | 0 <= i < |s| :: r[i] == Lower(s[i])
  {
    seq(|s|, i requires 0 <= i < |s| => Lower(s[i]))
  }

  /** Equality of names up to ASCII case. */
  predicate Same(a: string, b: string) {
    Fold(a) == Fold(b)
  }

  predicate EndsWithDot(s: string) {
    s != "" && s[|s| - 1] == '.'
  }

  /** Nothing but dots from position `k` on. */
  predicate DotsFrom(s: string, k: nat) {
    forall i {:trigger s[i]} | k <= i < |s| :: s[i] == '.'
  }

  function Fqdn(s: string): (r: string)
    ensures EndsWithDot(r)
    ensures s <= r
  {
    if EndsWithDot(s) then s else s + "."
  }

  /** A relative name: what is left when every trailing dot is gone. */
  function Rdn(s: string): (r: string)
    ensures |r| <= |s| && !EndsWithDot(r)
  {
    if EndsWithDot(s) then Rdn(s[..|s| - 1]) else s
  }

  lemma {:induction false} RdnStrips(s: string)
    ensures var r := Rdn(s); r == s[..|r|] && DotsFrom(s, |r|)
    decreases |s|
  {
    if EndsWithDot(s) {
      RdnStrips(s[..|s| - 1]);
      assert forall i | 0 <= i < |s| - 1 :: s[..|s| - 1][i] == s[i];
    }
  }

  /** That leaves no choice. */
  lemma RdnUnique(s: string, r: string)
    requires r <= s && DotsFrom(s, |r|) && !EndsWithDot(r)
    ensures r == Rdn(s)
  {
    RdnStrips(s);
    var t := Rdn(s);
    assert t == s[..|t|] && r == s[..|r|];
  }

  lemma RdnOfFqdn(s: string)
    ensures Rdn(Fqdn(s)) == Rdn(s)
  {
    if !EndsWithDot(s) {
      assert (s + ".")[..|s|] == s;
    }
  }

  /** Gluing the fully qualified form of a relative name back loses all but one trailing dot. */
  lemma FqdnOfRdn(s: string)
    ensures Fqdn(Rdn(s)) == Rdn(s) + "."
    ensures Fqdn(Rdn(s)) == Fqdn(s) <==> |s| <= |Rdn(s)| + 1
  {
    var r := Rdn(s);
    RdnStrips(s);
    assert s == r + s[|r|..];
    if |s| == |r| + 1 {
      assert s[|r|..] == ".";
    }
  }

  method StripDots(name: string) returns (r: string)
    ensures r == Rdn(name)
  {
    r := name;
    while EndsWithDot(r)
      invariant r <= name && DotsFrom(name, |r|)
      decreases |r|
    {
      r := r[..|r| - 1];
    }
    RdnUnique(name, r);
  }

  // ----- Join ---------------------------------------------------------------------------------

  /** Go's strings.Join with the separator ".". */
  function Dotted(xs: seq<string>): string {
    if |xs| == 0 then "" else if |xs| == 1 then xs[0] else xs[0] + "." + Dotted(xs[1..])
  }

  predicate SomeLabel(xs: seq<string>) {
    exists i | 0 <= i < |xs| :: xs[i] != ""
  }

  /** What `Join` computes. With only empty labels the source indexes position -1. */
  function Joined(labels: seq<string>): (r: string)
    requires SomeLabel(labels)
  {
    var n := |labels| - 1;
    if labels[n] == "" then
      assert SomeLabel(labels[..n]) by {
        var i :| 0 <= i < |labels| && labels[i] != "";
        assert labels[..n][i] != "";
      }
      Joined(labels[..n])
    else if labels[n] == "." then Dotted(labels[..n]) + "."
    else Fqdn(Dotted(labels))
  }

  method Join(labels: seq<string>) returns (r: string)
    requires SomeLabel(labels)
    ensures r == Joined(labels)
  {
    var ls := labels;
    var ll := |ls|;
    while ll > 0 && ls[ll - 1] == ""
      invariant ll == |ls| && SomeLabel(ls)
      invariant Joined(ls) == Joined(labels)
    {
      var i :| 0 <= i < |ls| && ls[i] != "";
      assert ls[..ll - 1][i] != "";
      ls := ls[..ll - 1];
      ll := ll - 1;
    }
    if ls[ll - 1] == "." {
      r := Dotted(ls[..ll - 1]) + ".";
    } else {
      r := Fqdn(Dotted(ls));
    }
  }

  /** The relative name `rel` placed under the zone name `cur`. */
  function Under(rel: string, cur: string): string {
    if rel == "" then cur
    else if cur == "" then Fqdn(rel)
    else if cur == "." then rel + "."
    else rel + "." + cur
  }

  /** Joining one label or relative name with a zone name that is empty or ends with its dot. */
  lemma JoinTwo(a: string, b: string)
    requires a != "" && (b == "" || EndsWithDot(b))
    ensures SomeLabel([a, b]) && Joined([a, b]) == Under(a, b)
  {
    assert [a, b][0] != "";
    assert [a, b][..1] == [a];
    if b == "" {
      assert Joined([a, b]) == Joined([a]) by { assert SomeLabel([a]) by { assert [a][0] != ""; } }
      assert [a][..0] == [];
    } else if b != "." {
      assert Dotted([a, b]) == a + "." + b;
    }
  }

  /** Joining the empty label the label loop may meet inside a name with two dots in a row. */
  lemma JoinEmpty(b: string)
    requires b != ""
    ensures SomeLabel(["", b])
    ensures Joined(["", b]) == if b == "." then "." else Fqdn("." + b)
  {
    var xs := ["", b];
    assert xs[1] != "";
    if b == "." {
      assert xs[..1] == [""];
    } else {
      assert Dotted(xs) == xs[0] + "." + Dotted(xs[1..]);
    }
  }

  // ----- labels -------------------------------------------------------------------------------

  /** `k` is the start of a label of `s`. */
  predicate Boundary(s: string, k: nat) {
    k == 0 || (k < |s| && s[k - 1] == '.')
  }

  /** `p` is, letter case aside, the tail of `c` from the start of a label on. */
  predicate TailOf(p: string, c: string) {
    |p| <= |c| && Boundary(c, |c| - |p|) && Same(c[|c| - |p|..], p)
  }

  /** dns.IsSubDomain: `child` ends with all labels of `parent`; the root "." is above every name.
      A final dot belongs to the last label, so relative and absolute names never match. */
  predicate IsSubDomain(parent: string, child: string) {
    parent == "." || TailOf(parent, child)
  }

  /** The position of the last dot in front of position `i`, or -1. */
  function LastDot(s: string, i: nat): (d: int)
    requires i <= |s|
    ensures -1 <= d < i && (d >= 0 ==> s[d] == '.')
  {
    if i == 0 then -1 else if s[i - 1] == '.' then i - 1 else LastDot(s, i - 1)
  }

  /** Behind it there is no other dot. */
  lemma {:induction false} NoDotBehind(s: string, i: nat, j: nat)
    requires i <= |s| && LastDot(s, i) < j < i
    ensures s[j] != '.'
    decreases i
  {
    if j < i - 1 { NoDotBehind(s, i - 1, j); }
  }

  /** The labels between the dots of `s[..i]`. */
  function LabelsUpTo(s: string, i: nat): (r: seq<string>)
    requires i <= |s|
    ensures |r| > 0
    decreases i
  {
    var d := LastDot(s, i);
    if d < 0 then [s[..i]] else LabelsUpTo(s, d) + [s[d + 1..i]]
  }

  /** dns.SplitDomainName: the labels of a name; a final dot ends the last one. */
  function SplitDomainName(s: string): seq<string> {
    if s == "" || s == "." then []
    else LabelsUpTo(s, if EndsWithDot(s) then |s| - 1 else |s|)
  }

  // ----- letter case ------------------------------------------------------------------------------

  predicate Letter(c: char) {
    'A' <= c <= 'Z' || 'a' <= c <= 'z'
  }

  /** The same character or the two cases of one letter, whose codes are 32 apart. */
  predicate SameLetter(c: char, d: char) {
    c == d || (Letter(c) && Letter(d) && (c as int == d as int + 32 || d as int == c as int + 32))
  }

  /** The names differ in the case of letters at most. */
  predicate SameLetters(a: string, b: string) {
    |a| == |b| && forall i {:trigger a[i]} {:trigger b[i]} | 0 <= i < |a| :: SameLetter(a[i], b[i])
  }

  lemma LowerIff(c: char, d: char)
    ensures Lower(c) == Lower(d) <==> SameLetter(c, d)
  {
  }

  /** That is what comparing names without regard to case means. */
  lemma SameIff(a: string, b: string)
    ensures Same(a, b) <==> SameLetters(a, b)
  {
    assert |Fold(a)| == |a| && |Fold(b)| == |b|;
    if SameLetters(a, b) {
      assert forall i | 0 <= i < |a| :: Fold(a)[i] == Fold(b)[i];
    }
    if Same(a, b) {
      forall i | 0 <= i < |a| ensures SameLetter(a[i], b[i]) {
        assert Fold(a)[i] == Fold(b)[i];
        LowerIff(a[i], b[i]);
      }
    }
  }

  /** The zone name is the root of all names, or the end of the name from a dot or the beginning on. */
  lemma SubDomainIff(p: string, c: string)
    ensures IsSubDomain(p, c) <==>
      p == "." || (|p| <= |c| && var k := |c| - |p|;
                   (k == 0 || (k < |c| && c[k - 1] == '.')) && SameLetters(c[k..], p))
  {
    if |p| <= |c| { SameIff(c[|c| - |p|..], p); }
  }

  /** Neither the case of the zone name nor that of the name matters. */
  lemma SubDomainAnyCase(p: string, p1: string, c: string, c1: string)
    requires SameLetters(p, p1) && SameLetters(c, c1)
    ensures IsSubDomain(p, c) <==> IsSubDomain(p1, c1)
  {
    TailAnyCase(p, p1, c, c1);
    TailAnyCase(p1, p, c1, c);
  }

  lemma TailAnyCase(p: string, p1: string, c: string, c1: string)
    requires SameLetters(p, p1) && SameLetters(c, c1)
    ensures IsSubDomain(p, c) ==> IsSubDomain(p1, c1)
  {
    SubDomainIff(p, c);
    SubDomainIff(p1, c1);
    if p == "." {
      assert p1[0] == '.';
    } else if IsSubDomain(p, c) {
      var k := |c| - |p|;
      forall i | 0 <= i < |p| ensures SameLetter(c1[k..][i], p1[i]) {
        assert SameLetter(c[k + i], c1[k + i]) && SameLetter(c[k..][i], p[i]) && SameLetter(p[i], p1[i]);
      }
      assert k > 0 ==> SameLetter(c[k - 1], c1[k - 1]);
    }
  }

  lemma {:induction false} RdnAnyCase(s: string, s1: string)
    requires SameLetters(s, s1)
    ensures SameLetters(Rdn(s), Rdn(s1))
    decreases |s|
  {
    if s != "" {
      var k := |s| - 1;
      assert SameLetter(s[k], s1[k]);
      if EndsWithDot(s) { RdnAnyCase(s[..k], s1[..k]); }
    }
  }

  // ----- the label abstraction ----------------------------------------------------------------

  /** The position of the first dot, or the length. */
  function FirstDot(s: string): (k: nat)
    ensures k <= |s| && (k < |s| ==> s[k] == '.')
    ensures forall i | 0 <= i < k :: s[i] != '.'
  {
    if s == "" || s[0] == '.' then 0 else 1 + FirstDot(s[1..])
  }

  /** The non-empty labels of a name in lower case. */
  function Words(s: string): seq<string> {
    if s == "" then []
    else if s[0] == '.' then Words(s[1..])
    else [Fold(s[..FirstDot(s)])] + Words(s[FirstDot(s)..])
  }

  /** None of them is empty or has a dot, and none has a capital. */
  lemma {:induction false} WordsPlain(s: string, i: nat)
    requires i < |Words(s)|
    ensures Words(s)[i] != "" && '.' !in Words(s)[i] && forall c | c in Words(s)[i] :: !('A' <= c <= 'Z')
    decreases |s|
  {
    if s[0] == '.' {
      WordsPlain(s[1..], i);
    } else if i > 0 {
      WordsPlain(s[FirstDot(s)..], i - 1);
    }
  }

  lemma {:induction false} WordsOfConcat(a: string, b: string)
    requires a == "" || EndsWithDot(a) || b == "" || b[0] == '.'
    ensures Words(a + b) == Words(a) + Words(b)
    decreases |a|
  {
    if a == "" || b == "" {
      assert a + b == if a == "" then b else a;
    } else if a[0] == '.' {
      assert (a + b)[1..] == a[1..] + b;
      WordsOfConcat(a[1..], b);
    } else {
      var k := FirstDot(a);
      assert FirstDot(a + b) == k by {
        var d := FirstDot(a + b);
        assert forall i | 0 <= i < k :: (a + b)[i] == a[i];
        if k < |a| { assert (a + b)[k] == '.'; } else { assert (a + b)[k] == b[0]; }
      }
      assert (a + b)[..k] == a[..k];
      assert (a + b)[k..] == a[k..] + b;
      WordsOfConcat(a[k..], b);
    }
  }

  lemma {:induction false} WordsOfDots(s: string)
    requires DotsFrom(s, 0)
    ensures Words(s) == []
    decreases |s|
  {
    if s != "" { WordsOfDots(s[1..]); }
  }

  lemma WordsOfRdn(s: string)
    ensures Words(Rdn(s)) == Words(s)
  {
    var r := Rdn(s);
    RdnStrips(s);
    assert s == r + s[|r|..];
    WordsOfConcat(r, s[|r|..]);
    assert DotsFrom(s[|r|..], 0);
    WordsOfDots(s[|r|..]);
  }

  lemma WordsOfFqdn(s: string)
    ensures Words(Fqdn(s)) == Words(s)
  {
    WordsOfConcat(s, ".");
    WordsOfDots(".");
  }

  lemma {:induction false} WordsOfSame(a: string, b: string)
    requires Same(a, b)
    ensures Words(a) == Words(b)
    decreases |a|
  {
    assert |a| == |b|;
    assert forall i | 0 <= i < |a| :: Lower(a[i]) == Lower(b[i]) by {
      forall i | 0 <= i < |a| ensures Lower(a[i]) == Lower(b[i]) {
        assert Fold(a)[i] == Fold(b)[i];
      }
    }
    if a != "" {
      if a[0] == '.' {
        assert Same(a[1..], b[1..]);
        WordsOfSame(a[1..], b[1..]);
      } else {
        var k := FirstDot(a);
        assert FirstDot(b) == k;
        assert Fold(a[..k]) == Fold(b[..k]);
        assert Same(a[k..], b[k..]);
        WordsOfSame(a[k..], b[k..]);
      }
    }
  }

  lemma WordsOfUnder(rel: string, cur: string)
    requires cur == "" || EndsWithDot(cur)
    ensures Words(Under(rel, cur)) == Words(rel) + Words(cur)
  {
    if rel == "" {
    } else if cur == "" {
      WordsOfFqdn(rel);
    } else {
      WordsOfDotted(rel, cur);
    }
  }

  lemma WordsOfDotted(rel: string, cur: string)
    ensures Words(rel + ".") == Words(rel)
    ensures Words(rel + "." + cur) == Words(rel) + Words(cur)
    ensures Words(".") == []
  {
    WordsOfDots(".");
    WordsOfConcat(rel, ".");
    assert EndsWithDot(rel + ".");
    WordsOfConcat(rel + ".", cur);
  }

  // ----- cutting a matched zone name off ------------------------------------------------------

  /** What `ResolveFQDN` keeps of `s` once the zone name `zn` has matched. */
  function Cut(s: string, zn: string): string
    requires |zn| <= |s|
  {
    Rdn(s[..|s| - |zn|])
  }

  /** No two dots in a row and no leading dot. */
  predicate NoEmptyLabel(s: string) {
    && (s != "" ==> s[0] != '.')
    && forall i {:trigger DotPair(s, i)} | 0 <= i < |s| - 1 :: !DotPair(s, i)
  }

  predicate DotPair(s: string, i: nat)
    requires i + 1 < |s|
  {
    s[i] == '.' && s[i + 1] == '.'
  }

  /** Cutting keeps every non-empty label, whatever the name looks like. */
  lemma CutKeepsWords(s: string, zn: string)
    requires TailOf(zn, s)
    ensures Words(s) == Words(Cut(s, zn)) + Words(zn)
  {
    var k := |s| - |zn|;
    assert s == s[..k] + s[k..];
    WordsOfConcat(s[..k], s[k..]);
    WordsOfSame(s[k..], zn);
    WordsOfRdn(s[..k]);
  }

  /** Cutting and putting back is the identity up to case when no label is empty. */
  lemma CutExact(s: string, zn: string)
    requires TailOf(zn, s) && zn != "" && NoEmptyLabel(s)
    ensures NoEmptyLabel(Cut(s, zn))
    ensures s == (if Cut(s, zn) == "" then "" else Cut(s, zn) + ".") + s[|s| - |zn|..]
  {
    var k := |s| - |zn|;
    var r := Cut(s, zn);
    RdnStrips(s[..k]);
    if k > 0 {
      assert s[..k][k - 1] == '.';
      assert |r| + 1 >= k by {
        var i := k - 2;
        if 0 <= i { assert !DotPair(s, i); }
      }
      assert s[..k] == r + ".";
    }
    forall i | 0 <= i < |r| - 1 ensures !DotPair(r, i) {
      assert !DotPair(s, i);
    }
  }

  lemma FoldConcat(a: string, b: string)
    ensures Fold(a + b) == Fold(a) + Fold(b)
  {
  }

  lemma UnderEnds(rel: string, cur: string)
    requires EndsWithDot(cur)
    ensures EndsWithDot(Under(rel, cur))
  {
    assert Under(rel, cur)[|Under(rel, cur)| - 1] == '.';
  }

  /** Putting relative names below a zone name one after the other or all at once. */
  lemma UnderTwice(a: string, b: string, cur: string)
    requires a != "" && b != "" && !EndsWithDot(b) && EndsWithDot(cur)
    ensures Under(a, Under(b, cur)) == Under(a + "." + b, cur)
    ensures EndsWithDot(Under(b, cur)) && Under(b, cur) != "."
  {
    var x := Under(b, cur);
    assert x[|x| - 1] == '.' && x[0] == b[0];
    if cur == "." {
      assert a + "." + (b + ".") == (a + "." + b) + ".";
    } else {
      assert a + "." + (b + "." + cur) == (a + "." + b) + "." + cur;
    }
  }

  lemma SameUnder(a: string, b: string, cur: string)
    requires Same(a, b) && !EndsWithDot(a) && a != "" && EndsWithDot(cur)
    ensures Same(Under(a, cur), Under(b, cur))
  {
    assert |a| == |b|;
    FoldConcat(a, ".");
    FoldConcat(b, ".");
    FoldConcat(a + ".", cur);
    FoldConcat(b + ".", cur);
  }

  lemma SameEnds(a: string, b: string)
    requires Same(a, b)
    ensures EndsWithDot(a) <==> EndsWithDot(b)
  {
    assert |Fold(a)| == |Fold(b)|;
    if a != "" {
      assert Fold(a)[|a| - 1] == Fold(b)[|a| - 1];
    }
  }

  /** Two tails of the same name: the shorter is a tail of the longer. */
  lemma TailsNest(a: string, b: string, s: string)
    requires TailOf(a, s) && TailOf(b, s) && |a| <= |b| && a != ""
    ensures TailOf(a, b)
  {
    var i, j := |s| - |a|, |s| - |b|;
    forall x | 0 <= x < |b| ensures Lower(b[x]) == Lower(s[j + x]) {
      assert Fold(b)[x] == Fold(s[j..])[x];
    }
    forall x | 0 <= x < |a| ensures Lower(a[x]) == Lower(s[i + x]) {
      assert Fold(a)[x] == Fold(s[i..])[x];
    }
    var k := |b| - |a|;
    assert Fold(b[k..]) == Fold(a) by {
      forall x | 0 <= x < |a| ensures Fold(b[k..])[x] == Fold(a)[x] {
        assert Lower(b[k + x]) == Lower(s[j + (k + x)]);
      }
    }
    if k > 0 {
      assert Lower(b[k - 1]) == Lower(s[i - 1]);
    }
  }
}
