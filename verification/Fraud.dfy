/** Signals worth a second look: `assess_fraud_indicators` of app/domain/assessment.py. */
module Fraud {
  import opened Wrappers
  import opened Matching

  datatype Indicator =
    | NearInception | NearExpiry | LateNotification | RepeatedSubmission
    | Inconsistent | ChangedRepeatedly | DocumentsUnreadable | SparseDescription

  datatype Risk = Low | Medium | High

  datatype Config = Config(medium: real, high: real, edgeDays: int)

  /** Thresholds as configured by default. */
  const DEFAULTS := Config(0.35, 0.65, 30)

  /** Moments in seconds, policy dates in days. */
  datatype Facts = Facts(
    dateOfLoss: Option<int>, receivedAt: Option<int>, effective: Option<int>, expiry: Option<int>,
    duplicates: nat, conflicting: nat, corrections: nat, unreadable: nat, description: string)

  datatype Assessment = Assessment(level: Risk, score: real, indicators: seq<Indicator>)

  const DAY: int := 86400

  function Weight(i: Indicator): (w: real)
    ensures 0.0 < w <= 0.3
    ensures w > 0.25 ==> i == NearInception || i == RepeatedSubmission
  {
    match i
    case NearInception => 0.3
    case NearExpiry => 0.2
    case LateNotification => 0.25
    case RepeatedSubmission => 0.3
    case Inconsistent => 0.25
    case ChangedRepeatedly => 0.15
    case DocumentsUnreadable => 0.1
    case SparseDescription => 0.1
  }

  /** The days from one policy date to another lie inside the edge window. */
  predicate InWindow(days: int, c: Config) { 0 <= days <= c.edgeDays }

  /** The fact behind each indicator. */
  predicate Shows(f: Facts, c: Config, i: Indicator) {
    match i
    case NearInception =>
      f.effective.Some? && f.dateOfLoss.Some? && InWindow(f.dateOfLoss.value / DAY - f.effective.value, c)
    case NearExpiry =>
      f.expiry.Some? && f.dateOfLoss.Some? && InWindow(f.expiry.value - f.dateOfLoss.value / DAY, c)
    case LateNotification =>
      f.dateOfLoss.Some? && f.receivedAt.Some? && (f.receivedAt.value - f.dateOfLoss.value) / DAY >= 30
    case RepeatedSubmission => f.duplicates > 0
    case Inconsistent => f.conflicting > 0
    case ChangedRepeatedly => f.corrections >= 5
    case DocumentsUnreadable => f.unreadable > 0
    case SparseDescription => Normalise(f.description) != "" && |Tokens(Normalise(f.description), true)| < 4
  }

  // ---------------------------------------------------------------------------
  // Diminishing returns
  // ---------------------------------------------------------------------------

  /** What one indicator leaves unaccounted for. */
  function Leaves(i: Indicator): (v: real)
    ensures 0.7 <= v < 1.0
    ensures v < 0.75 ==> i == NearInception || i == RepeatedSubmission
  {
    1.0 - Weight(i)
  }

  function LeftBy(s: seq<Indicator>): (vs: seq<real>)
    ensures |vs| == |s| && AreShares(vs)
    ensures forall k :: 0 <= k < |s| ==> vs[k] == Leaves(s[k])
  {
    seq(|s|, k requires 0 <= k < |s| => Leaves(s[k]))
  }

  predicate AreShares(vs: seq<real>) { forall k :: 0 <= k < |vs| ==> 0.7 <= vs[k] < 1.0 }

  function Product(vs: seq<real>): real {
    if vs == [] then 1.0 else vs[0] * Product(vs[1..])
  }

  /** One minus what every indicator leaves. */
  function Score(s: seq<Indicator>): real { 1.0 - Product(LeftBy(s)) }

  function Level(score: real, c: Config): Risk {
    if score >= c.high then High else if score >= c.medium then Medium else Low
  }

  lemma ProductStaysUnit(x: real, y: real)
    requires 0.0 < x <= 1.0 && 0.0 < y <= 1.0
    ensures 0.0 < x * y <= y && x * y <= x
  {
  }

  lemma ProductGrows(x: real, y: real, z: real)
    requires 0.0 <= x && y <= z
    ensures x * y <= x * z
  {
  }

  lemma Associates(x: real, y: real, z: real)
    ensures x * (y * z) == (x * y) * z
  {
  }

  lemma Commutes(x: real, y: real, z: real)
    ensures x * (y * z) == y * (x * z)
  {
  }

  lemma {:induction false} ProductIsUnit(vs: seq<real>)
    requires AreShares(vs)
    ensures 0.0 < Product(vs) <= 1.0
  {
    if vs != [] {
      ProductIsUnit(vs[1..]);
      ProductStaysUnit(vs[0], Product(vs[1..]));
    }
  }

  lemma {:induction false} ProductConcat(a: seq<real>, b: seq<real>)
    ensures Product(a + b) == Product(a) * Product(b)
  {
    if a == [] {
      assert a + b == b;
    } else {
      ProductConcat(a[1..], b);
      assert (a + b)[1..] == a[1..] + b;
      Associates(a[0], Product(a[1..]), Product(b));
    }
  }

  lemma ProductCons(v: real, vs: seq<real>)
    ensures Product([v] + vs) == v * Product(vs)
  {
    assert ([v] + vs)[1..] == vs;
  }

  lemma ProductOne(v: real)
    ensures Product([v]) == v
  {
    assert [v][1..] == [];
  }

  lemma Exchange(head: real, v: real, rest: real, inner: real, outer: real)
    requires inner == v * rest && outer == head * rest
    ensures head * inner == v * outer
  {
    Commutes(head, v, rest);
  }

  /** Where a share stands makes no difference. */
  lemma {:induction false} MoveToFront(before: seq<real>, v: real, after: seq<real>)
    ensures Product(before + ([v] + after)) == v * Product(before + after)
  {
    if before == [] {
      assert before + ([v] + after) == [v] + after && before + after == after;
      ProductCons(v, after);
    } else {
      var head, tail := before[0], before[1..];
      MoveToFront(tail, v, after);
      assert before + ([v] + after) == [head] + (tail + ([v] + after));
      assert before + after == [head] + (tail + after);
      ProductCons(head, tail + ([v] + after));
      ProductCons(head, tail + after);
      Exchange(head, v, Product(tail + after), Product(tail + ([v] + after)), Product(before + after));
    }
  }

  lemma Peel<T>(x: T, a: multiset<T>, b: multiset<T>)
    requires multiset{x} + a <= multiset{x} + b
    ensures a <= b
  {
    forall y ensures a[y] <= b[y] {
      assert (multiset{x} + a)[y] <= (multiset{x} + b)[y];
    }
  }

  /** The first element of a smaller collection, found in a larger one. */
  lemma TakeOut<T>(a: seq<T>, b: seq<T>) returns (before: seq<T>, after: seq<T>)
    requires a != [] && multiset(a) <= multiset(b)
    ensures b == before + ([a[0]] + after)
    ensures multiset(a[1..]) <= multiset(before + after)
  {
    assert a[0] in multiset(a);
    var k :| 0 <= k < |b| && b[k] == a[0];
    before, after := b[..k], b[k + 1..];
    assert b == before + ([a[0]] + after);
    assert multiset(b) == multiset{a[0]} + multiset(before + after);
    assert a == [a[0]] + a[1..];
    Peel(a[0], multiset(a[1..]), multiset(before + after));
  }

  lemma LightEnough(before: seq<real>, v: real, after: seq<real>)
    requires AreShares(before + ([v] + after))
    ensures 0.0 <= v && AreShares(before + after)
  {
    var all, rest := before + ([v] + after), before + after;
    assert all[|before|] == v;
    forall k | 0 <= k < |rest| ensures 0.7 <= rest[k] < 1.0 {
      assert rest[k] == if k < |before| then all[k] else all[k + 1];
    }
  }

  lemma PutBack(before: seq<real>, v: real, after: seq<real>, bound: real)
    requires 0.0 <= v && Product(before + after) <= bound
    ensures Product(before + ([v] + after)) <= v * bound
  {
    MoveToFront(before, v, after);
    ProductGrows(v, Product(before + after), bound);
  }

  /** The more shares are multiplied, the less is left; order never matters. */
  lemma {:induction false} MoreLeavesLess(a: seq<real>, b: seq<real>)
    requires multiset(a) <= multiset(b) && AreShares(b)
    ensures Product(b) <= Product(a)
  {
    if a == [] {
      ProductIsUnit(b);
    } else {
      var before, after := TakeOut(a, b);
      LightEnough(before, a[0], after);
      MoreLeavesLess(a[1..], before + after);
      PutBack(before, a[0], after, Product(a[1..]));
    }
  }

  lemma LeftByConcat(a: seq<Indicator>, b: seq<Indicator>)
    ensures LeftBy(a + b) == LeftBy(a) + LeftBy(b)
  {
  }

  lemma {:induction false} SharesKeepInclusion(a: seq<Indicator>, b: seq<Indicator>)
    requires multiset(a) <= multiset(b)
    ensures multiset(LeftBy(a)) <= multiset(LeftBy(b))
  {
    if a != [] {
      var before, after := TakeOut(a, b);
      SharesKeepInclusion(a[1..], before + after);
      var x := [a[0]];
      assert a == x + a[1..];
      LeftByConcat(x, a[1..]);
      LeftByConcat(before, x + after);
      LeftByConcat(x, after);
      LeftByConcat(before, after);
    }
  }

  /** Two lists of the same indicators score alike, in whatever order. */
  lemma ScoreIgnoresOrder(a: seq<Indicator>, b: seq<Indicator>)
    requires multiset(a) == multiset(b)
    ensures Score(a) == Score(b)
  {
    SharesKeepInclusion(a, b);
    SharesKeepInclusion(b, a);
    MoreLeavesLess(LeftBy(a), LeftBy(b));
    MoreLeavesLess(LeftBy(b), LeftBy(a));
  }

  function Rank(r: Risk): nat { match r case Low => 0 case Medium => 1 case High => 2 }

  /** More indicators never lower the score or the level. */
  lemma MoreNeverLowers(a: seq<Indicator>, b: seq<Indicator>, c: Config)
    requires multiset(a) <= multiset(b)
    ensures Score(a) <= Score(b) < 1.0
    ensures Rank(Level(Score(a), c)) <= Rank(Level(Score(b), c))
  {
    SharesKeepInclusion(a, b);
    MoreLeavesLess(LeftBy(a), LeftBy(b));
    ProductIsUnit(LeftBy(b));
  }

  /** The score is at least every weight in it, and never certainty. */
  lemma ScoreBounds(s: seq<Indicator>, i: Indicator)
    requires i in s
    ensures Weight(i) <= Score(s) < 1.0
  {
    SharesKeepInclusion([i], s);
    assert LeftBy([i]) == [Leaves(i)];
    ProductOne(Leaves(i));
    MoreLeavesLess(LeftBy([i]), LeftBy(s));
    ProductIsUnit(LeftBy(s));
  }

  // ---------------------------------------------------------------------------
  // The assessment
  // ---------------------------------------------------------------------------

  const EVERY_INDICATOR: seq<Indicator> := [
    NearInception, NearExpiry, LateNotification, RepeatedSubmission,
    Inconsistent, ChangedRepeatedly, DocumentsUnreadable, SparseDescription]

  /** The indicators a notice shows, in the order they are looked for. */
  function Shown(f: Facts, c: Config, among: seq<Indicator>): seq<Indicator> {
    if among == [] then []
    else
      var last := among[|among| - 1];
      Shown(f, c, among[..|among| - 1]) + (if Shows(f, c, last) then [last] else [])
  }

  function Insert(i: Indicator, sorted: seq<Indicator>): (r: seq<Indicator>)
    ensures multiset(r) == multiset{i} + multiset(sorted)
  {
    if sorted == [] || Weight(sorted[0]) <= Weight(i) then [i] + sorted
    else
      assert sorted == [sorted[0]] + sorted[1..];
      [sorted[0]] + Insert(i, sorted[1..])
  }

  /** Heaviest first, equal weights in the order found. */
  function Heaviest(s: seq<Indicator>): (r: seq<Indicator>)
    ensures multiset(r) == multiset(s)
  {
    if s == [] then []
    else
      assert s == [s[0]] + s[1..];
      Insert(s[0], Heaviest(s[1..]))
  }

  lemma ScoreSnoc(s: seq<Indicator>, k: nat)
    requires k < |s|
    ensures Score(s[..k + 1]) == Score(s[..k]) + Weight(s[k]) * (1.0 - Score(s[..k]))
  {
    assert LeftBy(s[..k + 1]) == LeftBy(s[..k]) + [Leaves(s[k])];
    ProductConcat(LeftBy(s[..k]), [Leaves(s[k])]);
    ProductOne(Leaves(s[k]));
    Takes(Product(LeftBy(s[..k])), Weight(s[k]));
  }

  lemma Takes(left: real, w: real)
    ensures 1.0 - left * (1.0 - w) == (1.0 - left) + w * (1.0 - (1.0 - left))
  {
  }

  method Look(f: Facts, c: Config) returns (found: seq<Indicator>)
    ensures found == Shown(f, c, EVERY_INDICATOR)
  {
    found := [];
    for k := 0 to |EVERY_INDICATOR|
      invariant found == Shown(f, c, EVERY_INDICATOR[..k])
    {
      assert EVERY_INDICATOR[..k + 1][..k] == EVERY_INDICATOR[..k];
      if Shows(f, c, EVERY_INDICATOR[k]) {
        found := found + [EVERY_INDICATOR[k]];
      }
    }
    assert EVERY_INDICATOR[..|EVERY_INDICATOR|] == EVERY_INDICATOR;
  }

  /** Each indicator, heaviest first, takes its share of what remains. */
  method Combine(indicators: seq<Indicator>) returns (score: real)
    ensures score == Score(indicators)
  {
    score := 0.0;
    var order := Heaviest(indicators);
    for k := 0 to |order|
      invariant score == Score(order[..k])
    {
      ScoreSnoc(order, k);
      score := score + Weight(order[k]) * (1.0 - score);
    }
    assert order[..|order|] == order;
    ScoreIgnoresOrder(order, indicators);
  }

  /** What is shown: each indicator whose fact holds, once. */
  lemma ShownExactly(f: Facts, c: Config)
    ensures forall i :: i in Shown(f, c, EVERY_INDICATOR) <==> Shows(f, c, i)
    ensures Distinct(Shown(f, c, EVERY_INDICATOR))
  {
    forall i: Indicator ensures i in Shown(f, c, EVERY_INDICATOR) <==> Shows(f, c, i) {
      EveryIndicatorIsListed(i);
      ShownMembers(f, c, EVERY_INDICATOR, i);
    }
    ShownStaysDistinct(f, c, EVERY_INDICATOR);
  }

  method Assess(f: Facts, c: Config) returns (a: Assessment)
    ensures forall i :: i in a.indicators <==> Shows(f, c, i)
    ensures Distinct(a.indicators)
    ensures a.score == Score(a.indicators) && a.level == Level(a.score, c)
  {
    var found := Look(f, c);
    var score := Combine(found);
    ShownExactly(f, c);
    a := Assessment(Level(score, c), score, found);
  }

  predicate Distinct(s: seq<Indicator>) { forall i, j :: 0 <= i < j < |s| ==> s[i] != s[j] }

  lemma EveryIndicatorIsListed(i: Indicator)
    ensures i in EVERY_INDICATOR
  {
    var k := match i
      case NearInception => 0 case NearExpiry => 1 case LateNotification => 2 case RepeatedSubmission => 3
      case Inconsistent => 4 case ChangedRepeatedly => 5 case DocumentsUnreadable => 6 case SparseDescription => 7;
    assert EVERY_INDICATOR[k] == i;
  }

  lemma {:induction false} ShownMembers(f: Facts, c: Config, among: seq<Indicator>, i: Indicator)
    ensures i in Shown(f, c, among) <==> i in among && Shows(f, c, i)
  {
    if among != [] {
      ShownMembers(f, c, among[..|among| - 1], i);
      assert among == among[..|among| - 1] + [among[|among| - 1]];
    }
  }

  lemma {:induction false} ShownStaysDistinct(f: Facts, c: Config, among: seq<Indicator>)
    requires Distinct(among)
    ensures Distinct(Shown(f, c, among))
  {
    if among != [] {
      var before := among[..|among| - 1];
      ShownStaysDistinct(f, c, before);
      ShownMembers(f, c, before, among[|among| - 1]);
    }
  }

  // ---------------------------------------------------------------------------
  // How many indicators a level takes
  // ---------------------------------------------------------------------------

  lemma ProductOfThree(x: real, y: real, z: real)
    ensures Product([x, y, z]) == x * (y * z)
  {
    assert [x, y, z] == [x] + [y, z] && [y, z] == [y] + [z];
    ProductCons(x, [y, z]);
    ProductCons(y, [z]);
    ProductOne(z);
  }

  lemma ProductOfTwo(x: real, y: real)
    ensures Product([x, y]) == x * y
  {
    assert [x, y] == [x] + [y];
    ProductCons(x, [y]);
    ProductOne(y);
  }

  lemma TwoLeave(x: real, y: real, low: real)
    requires x >= 0.7 && y >= low >= 0.7
    ensures x * y >= 0.7 * low
  {
    ProductGrows(x, low, y);
    ProductGrows(low, 0.7, x);
  }

  lemma ThreeLeave(x: real, y: real, z: real)
    requires x >= 0.7 && y >= 0.7 && z >= 0.75
    ensures x * (y * z) >= 0.3675
  {
    TwoLeave(y, z, 0.75);
    ProductGrows(x, 0.525, y * z);
  }

  /** Of three shares one is lighter than the two heaviest indicators leave. */
  lemma OneIsLighter(x: real, y: real, z: real)
    requires x >= 0.7 && y >= 0.7 && z >= 0.7
    requires x >= 0.75 || y >= 0.75 || z >= 0.75
    ensures x * (y * z) >= 0.3675
  {
    if z >= 0.75 {
      ThreeLeave(x, y, z);
    } else if y >= 0.75 {
      ThreeLeave(x, z, y);
    } else {
      ThreeLeave(y, z, x);
      Commutes(x, y, z);
    }
  }

  /** Only two indicators weigh 0.3, so three leave more than the high level allows. */
  lemma ThreeLeaveTooMuch(s: seq<Indicator>)
    requires Distinct(s) && |s| == 3
    ensures Product(LeftBy(s)) >= 0.3675
  {
    assert LeftBy(s) == [Leaves(s[0]), Leaves(s[1]), Leaves(s[2])];
    assert s[0] != s[1] && s[1] != s[2] && s[0] != s[2];
    ProductOfThree(Leaves(s[0]), Leaves(s[1]), Leaves(s[2]));
    OneIsLighter(Leaves(s[0]), Leaves(s[1]), Leaves(s[2]));
  }

  /** At the default thresholds one indicator is never medium, and three are never high. */
  lemma LevelsNeedIndicators(s: seq<Indicator>)
    requires Distinct(s)
    ensures Level(Score(s), DEFAULTS) != Low ==> |s| >= 2
    ensures Level(Score(s), DEFAULTS) == High ==> |s| >= 4
  {
    if |s| == 1 {
      assert LeftBy(s) == [Leaves(s[0])];
      ProductOne(Leaves(s[0]));
    } else if |s| == 2 {
      assert LeftBy(s) == [Leaves(s[0]), Leaves(s[1])];
      ProductOfTwo(Leaves(s[0]), Leaves(s[1]));
      TwoLeave(Leaves(s[0]), Leaves(s[1]), 0.7);
    } else if |s| == 3 {
      ThreeLeaveTooMuch(s);
    }
  }

  /** Both counts are reached: two indicators can be medium and four can be high. */
  lemma LevelsAreReached()
    ensures Level(Score([NearInception, RepeatedSubmission]), DEFAULTS) == Medium
    ensures Level(Score([NearInception, RepeatedSubmission, LateNotification, Inconsistent]), DEFAULTS) == High
  {
    assert LeftBy([NearInception, RepeatedSubmission]) == [0.7, 0.7];
    ProductOfTwo(0.7, 0.7);
    assert LeftBy([NearInception, RepeatedSubmission, LateNotification, Inconsistent]) == [0.7] + [0.7, 0.75, 0.75];
    ProductOfThree(0.7, 0.75, 0.75);
    ProductCons(0.7, [0.7, 0.75, 0.75]);
  }
}
