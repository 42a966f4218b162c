/** Deterministic similarity: app/domain/matching.py, over ASCII text and exact reals. */
module Matching {
  import opened Wrappers
  import opened Digits
  import References
  import Lcs

  // ---------------------------------------------------------------------------
  // Text
  // ---------------------------------------------------------------------------

  const STOPWORDS: set<string> := {
    "a", "an", "and", "are", "as", "at", "be", "been", "by", "for", "from", "had", "has",
    "have", "in", "into", "is", "it", "its", "of", "on", "or", "that", "the", "this", "to",
    "was", "were", "will", "with", "our", "their", "there", "they", "we", "you", "your",
    "please", "kind", "regards", "dear", "hi", "hello", "thanks", "thank", "regarding",
    "ref", "re", "fwd", "fw"
  }

  const COMPANY_SUFFIXES: set<string> := {
    "limited", "ltd", "plc", "llp", "llc", "inc", "incorporated", "corp", "corporation",
    "company", "co", "gmbh", "ag", "sa", "bv", "nv", "pty", "holdings", "group",
    "international", "uk", "europe"
  }

  function LowerChar(c: char): char { if 'A' <= c <= 'Z' then (c as int + 32) as char else c }

  function Lower(s: string): (r: string)
    ensures |r| == |s|
  {
    seq(|s|, i requires 0 <= i < |s| => LowerChar(s[i]))
  }

  function SkipSpaces(s: string): (r: string)
    ensures |r| <= |s|
    ensures s != "" && IsSpace(s[0]) ==> |r| < |s|
  {
    if s != "" && IsSpace(s[0]) then SkipSpaces(s[1..]) else s
  }

  /** Every run of whitespace becomes one space. */
  function Collapse(s: string): string
    decreases |s|
  {
    if s == "" then ""
    else if IsSpace(s[0]) then " " + Collapse(SkipSpaces(s))
    else [s[0]] + Collapse(s[1..])
  }

  function Normalise(s: string): string { Collapse(Lower(References.Strip(s))) }

  predicate IsWordChar(c: char) { 'a' <= c <= 'z' || '0' <= c <= '9' }

  function WordLength(s: string): (n: nat)
    ensures n <= |s|
  {
    if s != "" && IsWordChar(s[0]) then 1 + WordLength(s[1..]) else 0
  }

  /** `re.findall(r"[a-z0-9]+", s)`. */
  function Words(s: string): seq<string>
    decreases |s|
  {
    if s == "" then []
    else if IsWordChar(s[0]) then [s[..WordLength(s)]] + Words(s[WordLength(s)..])
    else Words(s[1..])
  }

  function Tokens(s: string, dropStopwords: bool): set<string> {
    set w <- Words(Normalise(s)) | dropStopwords ==> w !in STOPWORDS && |w| > 1
  }

  function KeepWordChars(s: string): string {
    if s == "" then ""
    else (if IsWordChar(s[0]) then [s[0]] else "") + KeepWordChars(s[1..])
  }

  /** A policy or claim reference reduced to comparable characters. */
  function NormaliseReference(s: string): string { KeepWordChars(Normalise(s)) }

  /** What is kept leads the words and ends in no company form; everything dropped is one. */
  ghost predicate TrimmedTo(words: seq<string>, kept: seq<string>) {
    && kept <= words
    && (kept != [] ==> kept[|kept| - 1] !in COMPANY_SUFFIXES)
    && forall i :: |kept| <= i < |words| ==> words[i] in COMPANY_SUFFIXES
  }

  /** The words left once trailing company forms are removed. */
  function WithoutSuffixes(words: seq<string>): (kept: seq<string>)
    ensures TrimmedTo(words, kept)
  {
    if words != [] && words[|words| - 1] in COMPANY_SUFFIXES
    then WithoutSuffixes(words[..|words| - 1])
    else words
  }

  /** There is one way to do that. */
  lemma TrimmedIsUnique(words: seq<string>, kept: seq<string>)
    requires TrimmedTo(words, kept)
    ensures kept == WithoutSuffixes(words)
  {
    var other := WithoutSuffixes(words);
    assert |kept| == |other|;
  }

  function Joined(words: seq<string>): string {
    if words == [] then ""
    else if |words| == 1 then words[0]
    else words[0] + " " + Joined(words[1..])
  }

  function Organisation(s: string): string { Joined(WithoutSuffixes(Words(Normalise(s)))) }

  method NormaliseOrganisation(s: string) returns (r: string)
    ensures r == Organisation(s)
    ensures exists kept :: TrimmedTo(Words(Normalise(s)), kept) && r == Joined(kept)
  {
    var words := Words(Normalise(s));
    while words != [] && words[|words| - 1] in COMPANY_SUFFIXES
      invariant WithoutSuffixes(words) == WithoutSuffixes(Words(Normalise(s)))
    {
      words := words[..|words| - 1];
    }
    r := Joined(words);
  }

  // ---------------------------------------------------------------------------
  // Similarities, each in 0..1
  // ---------------------------------------------------------------------------

  predicate IsUnit(x: real) { 0.0 <= x <= 1.0 }

  lemma {:induction false} SubsetSize<T>(a: set<T>, b: set<T>)
    requires a <= b
    ensures |a| <= |b|
    decreases a
  {
    if a != {} {
      var x :| x in a;
      SubsetSize(a - {x}, b - {x});
    }
  }

  lemma QuotientIsUnit(x: nat, y: nat)
    requires x <= y && y > 0
    ensures IsUnit(x as real / y as real)
  {
    assert x as real / y as real <= y as real / y as real;
  }

  function Jaccard<T(==)>(a: set<T>, b: set<T>): (r: real)
    ensures IsUnit(r)
  {
    if a == {} || b == {} then 0.0
    else
      SubsetSize(a * b, a + b);
      SubsetSize(a, a + b);
      QuotientIsUnit(|a * b|, |a + b|);
      |a * b| as real / |a + b| as real
  }

  function Containment<T(==)>(a: set<T>, b: set<T>): (r: real)
    ensures IsUnit(r)
  {
    if a == {} || b == {} then 0.0
    else
      SubsetSize(a * b, a);
      SubsetSize(a * b, b);
      var smaller := if |a| <= |b| then |a| else |b|;
      QuotientIsUnit(|a * b|, smaller);
      |a * b| as real / smaller as real
  }

  /** The character ratio of two normalised strings, by what it measures. */
  function Ratio(a: string, b: string): real {
    if a == "" || b == "" then 0.0
    else 2.0 * Lcs.Length(a, b) as real / (|a| + |b|) as real
  }

  /** In 0..1, the same whichever way round, and 1 exactly for equal non-empty strings. */
  lemma RatioMeasures(a: string, b: string)
    ensures IsUnit(Ratio(a, b))
    ensures Ratio(a, b) == Ratio(b, a)
    ensures Ratio(a, b) == 1.0 <==> a == b && a != ""
  {
    Lcs.LengthBounds(a, b);
    Lcs.LengthIsSymmetric(a, b);
    if a != "" && b != "" {
      var l, n := Lcs.Length(a, b), |a| + |b|;
      assert 2 * l <= n && (2 * l == n <==> a == b);
      QuotientIsUnit(2 * l, n);
      assert Ratio(a, b) == (2 * l) as real / n as real;
      if Ratio(a, b) == 1.0 { assert (2 * l) as real == n as real; }
    }
  }

  /** `sequence_ratio`: shortcuts, a length swap, then the two-row loop. */
  method SequenceRatio(left: string, right: string) returns (r: real)
    ensures r == Ratio(Normalise(left), Normalise(right))
  {
    var a, b := Normalise(left), Normalise(right);
    if a == "" || b == "" {
      return 0.0;
    }
    if a == b {
      RatioMeasures(a, b);
      return 1.0;
    }
    RatioMeasures(a, b);
    if |a| < |b| {
      a, b := b, a;
    }
    var n := Lcs.TwoRows(a, b);
    r := 2.0 * n as real / (|a| + |b|) as real;
  }

  function Larger(x: real, y: real): real { if x >= y then x else y }

  function NameSimilarity(left: string, right: string): real {
    var l, r := Organisation(left), Organisation(right);
    if l == "" || r == "" then 0.0
    else if l == r then 1.0
    else Larger(Containment(Tokens(l, false), Tokens(r, false)), Ratio(Normalise(l), Normalise(r)))
  }

  function TextSimilarity(left: string, right: string): real {
    Jaccard(Tokens(left, true), Tokens(right, true))
  }

  function LocationSimilarity(left: string, right: string): real {
    Containment(Tokens(left, true), Tokens(right, true))
  }

  lemma SetSimilaritiesAreSymmetric<T>(a: set<T>, b: set<T>)
    ensures Jaccard(a, b) == Jaccard(b, a) && Containment(a, b) == Containment(b, a)
  {
    assert a * b == b * a && a + b == b + a;
  }

  lemma QuotientExtremes(x: nat, y: nat)
    requires y > 0
    ensures x as real / y as real == 1.0 <==> x == y
    ensures x as real / y as real == 0.0 <==> x == 0
  {
    var q := x as real / y as real;
    assert q * y as real == x as real;
  }

  lemma SameSizeSubset<T>(a: set<T>, b: set<T>)
    requires a <= b
    ensures |a| == |b| <==> a == b
  {
    if a != b {
      var x :| x in b && x !in a;
      SubsetSize(a, b - {x});
    }
  }

  /** What the overlap of two word sets means at its extremes. */
  lemma JaccardMeasures<T>(a: set<T>, b: set<T>)
    ensures IsUnit(Jaccard(a, b)) && Jaccard(a, b) == Jaccard(b, a)
    ensures Jaccard(a, b) == 1.0 <==> a == b && a != {}
    ensures Jaccard(a, b) == 0.0 <==> a * b == {}
  {
    SetSimilaritiesAreSymmetric(a, b);
    if a != {} && b != {} {
      SubsetSize(a, a + b);
      QuotientExtremes(|a * b|, |a + b|);
      SameSizeSubset(a * b, a + b);
      assert a * b == a + b <==> a == b;
    }
  }

  lemma ContainmentMeasures<T>(a: set<T>, b: set<T>)
    ensures IsUnit(Containment(a, b)) && Containment(a, b) == Containment(b, a)
    ensures Containment(a, b) == 1.0 <==> a != {} && b != {} && (a <= b || b <= a)
    ensures Containment(a, b) == 0.0 <==> a * b == {}
  {
    SetSimilaritiesAreSymmetric(a, b);
    if a != {} && b != {} {
      QuotientExtremes(|a * b|, if |a| <= |b| then |a| else |b|);
      SameSizeSubset(a * b, a);
      SameSizeSubset(a * b, b);
      SubsetSize(a * b, a);
      SubsetSize(a * b, b);
      assert a * b == a <==> a <= b;
      assert a * b == b <==> b <= a;
    }
  }

  /** Comparing two names gives a unit score that does not depend on their order. */
  lemma NameSimilarityMeasures(left: string, right: string)
    ensures IsUnit(NameSimilarity(left, right))
    ensures NameSimilarity(left, right) == NameSimilarity(right, left)
  {
    var l, r := Organisation(left), Organisation(right);
    RatioMeasures(Normalise(l), Normalise(r));
    SetSimilaritiesAreSymmetric(Tokens(l, false), Tokens(r, false));
  }

  // ---------------------------------------------------------------------------
  // The weighted score
  // ---------------------------------------------------------------------------

  /** A signal's score and its weight; a score below zero was not comparable. */
  type Part = (real, real)

  function Usable(parts: seq<Part>): seq<Part> {
    if parts == [] then []
    else (if parts[0].0 >= 0.0 && parts[0].1 > 0.0 then [parts[0]] else []) + Usable(parts[1..])
  }

  function Weight(parts: seq<Part>): real {
    if parts == [] then 0.0 else parts[0].1 + Weight(parts[1..])
  }

  function Scored(parts: seq<Part>): real {
    if parts == [] then 0.0 else parts[0].0 * parts[0].1 + Scored(parts[1..])
  }

  lemma {:induction false} WeightIsPositive(parts: seq<Part>)
    requires forall p <- parts :: p.1 > 0.0
    ensures Weight(parts) >= 0.0 && (parts != [] ==> Weight(parts) > 0.0)
  {
    if parts != [] { WeightIsPositive(parts[1..]); }
  }

  function WeightedScore(parts: seq<Part>): real {
    var usable := Usable(parts);
    if usable == [] then 0.0
    else
      UsableIsPart(parts);
      WeightIsPositive(usable);
      Quotient(Scored(usable), Weight(usable))
  }

  lemma {:induction false} ScoredWithin(parts: seq<Part>, lo: real, hi: real)
    requires forall p <- parts :: p.1 > 0.0 && lo <= p.0 <= hi
    ensures lo * Weight(parts) <= Scored(parts) <= hi * Weight(parts)
  {
    if parts != [] {
      ScoredWithin(parts[1..], lo, hi);
      TermWithin(parts[0].0, parts[0].1, Scored(parts[1..]), Weight(parts[1..]), lo, hi);
    }
  }

  lemma TermWithin(s: real, w: real, x: real, y: real, lo: real, hi: real)
    requires w > 0.0 && lo <= s <= hi && lo * y <= x <= hi * y
    ensures lo * (w + y) <= s * w + x <= hi * (w + y)
  {
    assert lo * (w + y) == lo * w + lo * y && hi * (w + y) == hi * w + hi * y;
    assert lo * w <= s * w <= hi * w;
  }

  lemma ConvexSum(u: seq<Part>, lo: real, hi: real)
    requires u != [] && forall p <- u :: p.1 > 0.0 && lo <= p.0 <= hi
    ensures Weight(u) > 0.0 && lo <= Quotient(Scored(u), Weight(u)) <= hi
  {
    WeightIsPositive(u);
    ScoredWithin(u, lo, hi);
    DivideBetween(Scored(u), Weight(u), lo, hi);
  }

  function Quotient(x: real, w: real): real
    requires w != 0.0
  {
    x / w
  }

  /** A convex combination: between any bounds that hold of every compared signal. */
  lemma ScoreIsConvex(parts: seq<Part>, lo: real, hi: real)
    requires Usable(parts) != []
    requires forall p <- Usable(parts) :: lo <= p.0 <= hi
    ensures lo <= WeightedScore(parts) <= hi
  {
    UsableIsPart(parts);
    ConvexSum(Usable(parts), lo, hi);
  }

  lemma DivideBetween(x: real, w: real, lo: real, hi: real)
    requires w > 0.0 && lo * w <= x <= hi * w
    ensures lo <= Quotient(x, w) <= hi
  {
    assert (x / w) * w == x;
  }

  lemma ScoreIsUnit(parts: seq<Part>)
    requires forall p <- parts :: p.0 <= 1.0
    ensures IsUnit(WeightedScore(parts))
  {
    UsableIsPart(parts);
    if Usable(parts) != [] { ScoreIsConvex(parts, 0.0, 1.0); }
  }

  lemma {:induction false} UsableIsPart(parts: seq<Part>)
    ensures forall p :: p in Usable(parts) <==> p in parts && p.0 >= 0.0 && p.1 > 0.0
  {
    if parts != [] { UsableIsPart(parts[1..]); }
  }

  lemma {:induction false} UsableConcat(a: seq<Part>, b: seq<Part>)
    ensures Usable(a + b) == Usable(a) + Usable(b)
  {
    if a == [] {
      assert a + b == b;
    } else {
      UsableConcat(a[1..], b);
      assert (a + b)[0] == a[0] && (a + b)[1..] == a[1..] + b;
      Regroup(if a[0].0 >= 0.0 && a[0].1 > 0.0 then [a[0]] else [], Usable(a[1..]), Usable(b));
    }
  }

  /** A signal that could not be compared has no influence wherever it stands. */
  lemma UncomparedIsIgnored(a: seq<Part>, p: Part, b: seq<Part>)
    requires p.0 < 0.0 || p.1 <= 0.0
    ensures WeightedScore(a + [p] + b) == WeightedScore(a + b)
  {
    UsableConcat(a + [p], b);
    UsableConcat(a, [p]);
    UsableConcat(a, b);
    assert Usable([p]) == [];
    assert Usable(a) + [] == Usable(a);
  }

  lemma {:induction false} SumsConcat(a: seq<Part>, b: seq<Part>)
    ensures Weight(a + b) == Weight(a) + Weight(b) && Scored(a + b) == Scored(a) + Scored(b)
  {
    if a == [] {
      assert a + b == b;
    } else {
      SumsConcat(a[1..], b);
      var whole := a + b;
      assert whole[0] == a[0] && whole[1..] == a[1..] + b;
    }
  }

  lemma UsableSums(l: seq<Part>, p: Part, r: seq<Part>)
    ensures Weight(Usable(l + [p] + r)) == Weight(Usable([p])) + Weight(Usable(l + r))
    ensures Scored(Usable(l + [p] + r)) == Scored(Usable([p])) + Scored(Usable(l + r))
  {
    UsableConcat(l + [p], r);
    UsableConcat(l, [p]);
    UsableConcat(l, r);
    SumsConcat(Usable(l) + Usable([p]), Usable(r));
    SumsConcat(Usable(l), Usable([p]));
    SumsConcat(Usable(l), Usable(r));
  }

  /** Taking one occurrence out of each of two permutations leaves permutations. */
  lemma RemoveOne(x: Part, a: seq<Part>, b: seq<Part>) returns (l: seq<Part>, r: seq<Part>)
    requires multiset([x] + a) == multiset(b)
    ensures b == l + [x] + r && multiset(a) == multiset(l + r)
  {
    assert x in multiset([x] + a);
    var i :| 0 <= i < |b| && b[i] == x;
    l, r := b[..i], b[i + 1..];
    assert b == l + [x] + r;
    assert multiset(a) == multiset([x] + a) - multiset{x};
    assert multiset(l + r) == multiset(b) - multiset{x};
  }

  lemma {:induction false} SumsOfPermutation(a: seq<Part>, b: seq<Part>)
    requires multiset(a) == multiset(b)
    ensures Weight(Usable(a)) == Weight(Usable(b)) && Scored(Usable(a)) == Scored(Usable(b))
  {
    if a == [] {
      assert |b| == |multiset(b)| == 0;
    } else {
      assert a == [a[0]] + a[1..] && a == [] + [a[0]] + a[1..];
      var l, r := RemoveOne(a[0], a[1..], b);
      SumsOfPermutation(a[1..], l + r);
      UsableSums(l, a[0], r);
      UsableSums([], a[0], a[1..]);
      assert [] + a[1..] == a[1..];
    }
  }

  /** The order in which the signals are listed does not matter. */
  lemma ScoreIgnoresOrder(a: seq<Part>, b: seq<Part>)
    requires multiset(a) == multiset(b)
    ensures WeightedScore(a) == WeightedScore(b)
  {
    SumsOfPermutation(a, b);
    UsableIsPart(a);
    UsableIsPart(b);
    WeightIsPositive(Usable(a));
    WeightIsPositive(Usable(b));
  }

  /** A zero signal adds its weight and nothing else. */
  lemma ContradictionSums(a: seq<Part>, w: real, b: seq<Part>)
    requires w > 0.0
    ensures Weight(Usable(a + [(0.0, w)] + b)) == w + Weight(Usable(a + b))
    ensures Scored(Usable(a + [(0.0, w)] + b)) == Scored(Usable(a + b))
  {
    var p: Part := (0.0, w);
    UsableSums(a, p, b);
    assert Usable([p]) == [p] && Weight([p]) == w && Scored([p]) == 0.0;
  }

  lemma UsableBounds(parts: seq<Part>)
    requires forall p <- parts :: p.0 <= 1.0 && p.1 > 0.0
    ensures 0.0 <= Scored(Usable(parts)) <= Weight(Usable(parts)) <= Weight(parts)
  {
    UsableIsPart(parts);
    WeightIsPositive(Usable(parts));
    ScoredWithin(Usable(parts), 0.0, 1.0);
    UsableWeighsLess(parts);
  }

  lemma ScoreIsQuotient(parts: seq<Part>, x: real, y: real)
    requires Scored(Usable(parts)) == x && Weight(Usable(parts)) == y > 0.0
    ensures WeightedScore(parts) == x / y
  {
  }

  /**
   * A compared signal that scored zero caps the result at the share of the other
   * weights, however well everything else agrees.
   */
  lemma ContradictionCaps(a: seq<Part>, w: real, b: seq<Part>, total: real)
    requires w > 0.0 && total > 0.0
    requires forall p <- a + b :: p.0 <= 1.0 && p.1 > 0.0
    requires Weight(a + b) + w <= total
    ensures WeightedScore(a + [(0.0, w)] + b) <= (total - w) / total
  {
    var x, y := Scored(Usable(a + b)), Weight(Usable(a + b));
    ContradictionSums(a, w, b);
    UsableBounds(a + b);
    ScoreIsQuotient(a + [(0.0, w)] + b, x, y + w);
    CapArithmetic(x, y, w, total);
  }

  /** The same of a contradiction that is listed first. */
  lemma LeadingContradiction(w: real, others: seq<Part>, total: real)
    requires w > 0.0 && total > 0.0
    requires forall p <- others :: p.0 <= 1.0 && p.1 > 0.0
    requires Weight(others) + w <= total
    ensures WeightedScore([(0.0, w)] + others) <= (total - w) / total
  {
    assert [] + others == others;
    assert [] + [(0.0, w)] + others == [(0.0, w)] + others;
    ContradictionCaps([], w, others, total);
  }

  lemma CapArithmetic(x: real, y: real, w: real, total: real)
    requires 0.0 <= x <= y && w > 0.0 && total > 0.0 && y + w <= total
    ensures x / (y + w) <= (total - w) / total
  {
    var f := w / total;
    assert f * total == w && f >= 0.0;
    assert f * (y + w) <= f * total;
    assert (1.0 - f) * total == total - w;
    assert (1.0 - f) * (y + w) == (y + w) - f * (y + w);
    DivideBetween(x, y + w, 0.0, 1.0 - f);
  }

  lemma {:induction false} UsableWeighsLess(parts: seq<Part>)
    requires forall p <- parts :: p.1 > 0.0
    ensures Weight(Usable(parts)) <= Weight(parts)
  {
    if parts != [] {
      UsableWeighsLess(parts[1..]);
      SumsConcat(if parts[0].0 >= 0.0 then [parts[0]] else [], Usable(parts[1..]));
      assert Weight([parts[0]]) == parts[0].1;
    }
  }
}
