/** The prompt's text within its budget: `_build_corpus` of app/services/fnol/extraction.py. */
module Corpus {
  import opened Wrappers
  import opened Digits
  import opened References

  const FLOOR: nat := 2000

  function Max(a: int, b: int): int { if a >= b then a else b }

  function Min(a: int, b: int): int { if a <= b then a else b }

  /** The characters one of `count` attachments gets while `remaining` are left. */
  function Share(length: nat, count: nat, remaining: int): (share: nat)
    requires remaining > 0
    ensures share <= length
  {
    Min(length, Max(FLOOR, remaining / Max(1, count)))
  }

  /** The share of each attachment in turn, until the budget is spent. */
  function Shares(texts: seq<string>, count: nat, remaining: int): (shares: seq<nat>)
    ensures |shares| <= |texts|
    ensures forall k :: 0 <= k < |shares| ==> shares[k] <= |texts[k]|
  {
    if texts == [] || remaining <= 0 then []
    else
      var share := Share(|texts[0]|, count, remaining);
      [share] + Shares(texts[1..], count, remaining - share)
  }

  function Sum(shares: seq<nat>): nat {
    if shares == [] then 0 else shares[0] + Sum(shares[1..])
  }

  function Heading(index: nat): string { "\n\n--- ATTACHMENT " + Decimal(index) + " ---\n" }

  /** The included attachments, numbered from `first`, each cut to its share. */
  function Attachments(texts: seq<string>, shares: seq<nat>, first: nat): string
    requires |shares| <= |texts|
    requires forall k :: 0 <= k < |shares| ==> shares[k] <= |texts[k]|
  {
    if shares == [] then ""
    else Heading(first) + texts[0][..shares[0]] + Attachments(texts[1..], shares[1..], first + 1)
  }

  /** What is left once the notice itself is in. */
  function Left(source: string, budget: int): nat { Max(0, budget - |Strip(source)|) }

  function Corpus(source: string, texts: seq<string>, budget: int): string {
    Strip(source) + Attachments(texts, Shares(texts, |texts|, Left(source, budget)), 1)
  }

  /** What the attachments from here on contribute. */
  function Rest(texts: seq<string>, count: nat, remaining: int, first: nat): string {
    Attachments(texts, Shares(texts, count, remaining), first)
  }

  lemma NextAttachment(texts: seq<string>, count: nat, remaining: int, first: nat)
    requires texts != [] && remaining > 0
    ensures var share := Share(|texts[0]|, count, remaining);
      Rest(texts, count, remaining, first)
        == Heading(first) + texts[0][..share] + Rest(texts[1..], count, remaining - share, first + 1)
  {
    var share := Share(|texts[0]|, count, remaining);
    var rest := Shares(texts[1..], count, remaining - share);
    assert ([share] + rest)[1..] == rest;
  }

  lemma TakeAttachment(corpus: string, texts: seq<string>, index: nat, remaining: int)
    requires index < |texts| && remaining > 0
    ensures var share := Share(|texts[index]|, |texts|, remaining);
      corpus + Rest(texts[index..], |texts|, remaining, index + 1)
        == corpus + (Heading(index + 1) + texts[index][..share])
           + Rest(texts[index + 1..], |texts|, remaining - share, index + 2)
  {
    var share := Share(|texts[index]|, |texts|, remaining);
    NextAttachment(texts[index..], |texts|, remaining, index + 1);
    assert texts[index..][1..] == texts[index + 1..];
    Regroup(corpus, Heading(index + 1) + texts[index][..share],
            Rest(texts[index + 1..], |texts|, remaining - share, index + 2));
  }

  lemma NothingLeft(corpus: string, texts: seq<string>, index: nat, remaining: int)
    requires index == |texts| || (index < |texts| && remaining <= 0)
    ensures corpus + Rest(texts[index..], |texts|, remaining, index + 1) == corpus
  {
  }

  method BuildCorpus(source: string, texts: seq<string>, budget: int) returns (corpus: string)
    ensures corpus == Corpus(source, texts, budget)
  {
    corpus := Strip(source);
    var remaining: int := Max(0, budget - |corpus|);
    assert texts[0..] == texts;
    var index := 0;
    while index < |texts| && remaining > 0
      invariant index <= |texts|
      invariant corpus + Rest(texts[index..], |texts|, remaining, index + 1) == Corpus(source, texts, budget)
    {
      TakeAttachment(corpus, texts, index, remaining);
      var share := Share(|texts[index]|, |texts|, remaining);
      corpus := corpus + (Heading(index + 1) + texts[index][..share]);
      remaining := remaining - share;
      index := index + 1;
    }
    NothingLeft(corpus, texts, index, remaining);
  }

  // ---------------------------------------------------------------------------
  // The budget
  // ---------------------------------------------------------------------------

  lemma QuotientIsSmall(remaining: int, count: nat)
    requires remaining > 0
    ensures 0 <= remaining / Max(1, count) <= remaining
  {
    var d := Max(1, count);
    var q := remaining / d;
    assert q * d <= remaining;
    assert q >= 0;
    assert q <= q * d by { assert q * (d - 1) >= 0; }
  }

  /** However long the attachments are, they overrun what is left by less than one floor. */
  lemma {:induction false} AttachmentsAreBudgeted(texts: seq<string>, count: nat, remaining: int)
    ensures Sum(Shares(texts, count, remaining)) <= if remaining > 0 then remaining + FLOOR - 1 else 0
  {
    if texts != [] && remaining > 0 {
      var share := Share(|texts[0]|, count, remaining);
      var rest := Shares(texts[1..], count, remaining - share);
      QuotientIsSmall(remaining, count);
      AttachmentsAreBudgeted(texts[1..], count, remaining - share);
      assert ([share] + rest)[1..] == rest;
    }
  }

  /** An included attachment is whole, or shown to at least the floor. */
  lemma {:induction false} IncludedIsShown(texts: seq<string>, count: nat, remaining: int, k: nat)
    requires k < |Shares(texts, count, remaining)|
    ensures Shares(texts, count, remaining)[k] >= Min(|texts[k]|, FLOOR)
  {
    if k > 0 {
      IncludedIsShown(texts[1..], count, remaining - Share(|texts[0]|, count, remaining), k - 1);
    }
  }

  /** An attachment is left out only once the whole budget has gone to earlier ones. */
  lemma {:induction false} LeftOutOnlyWhenSpent(texts: seq<string>, count: nat, remaining: int)
    ensures |Shares(texts, count, remaining)| < |texts| ==> Sum(Shares(texts, count, remaining)) >= remaining
  {
    if texts != [] && remaining > 0 {
      var share := Share(|texts[0]|, count, remaining);
      var rest := Shares(texts[1..], count, remaining - share);
      LeftOutOnlyWhenSpent(texts[1..], count, remaining - share);
      assert ([share] + rest)[1..] == rest;
    }
  }

  lemma Cancel(d: int, x: int)
    requires d > 0 && d * x > 0
    ensures x > 0
  {
  }

  lemma QuotientReaches(a: int, d: int, m: int)
    requires d > 0 && a >= d * m
    ensures a / d >= m
  {
    assert d * (a / d + 1 - m) > 0;
    Cancel(d, a / d + 1 - m);
  }

  lemma QuotientGrows(a: int, b: int, d: int)
    requires a <= b && d > 0
    ensures a / d <= b / d
  {
    QuotientReaches(b, d, a / d);
  }

  /** While every attachment still has its even part of the budget, none is left out. */
  lemma {:induction false} EvenPartsGoRound(texts: seq<string>, count: nat, remaining: int, part: nat)
    requires count > 0 && part >= FLOOR && |texts| * part <= remaining && remaining / count <= part
    ensures |Shares(texts, count, remaining)| == |texts|
  {
    if texts != [] {
      var share := Share(|texts[0]|, count, remaining);
      assert |texts| * part == part + |texts[1..]| * part;
      if texts[1..] != [] {
        assert |texts[1..]| * part >= 0;
        assert remaining > 0;
        assert share <= part;
        assert remaining - share <= remaining;
        assert remaining - share >= 0;
        QuotientGrows(remaining - share, remaining, count);
        EvenPartsGoRound(texts[1..], count, remaining - share, part);
      } else {
        assert remaining >= part;
      }
    }
  }

  /**
   * With two thousand characters for each attachment, none is left out and each shows at
   * least its first two thousand, or all it has.
   */
  lemma EveryAttachmentIsShown(source: string, texts: seq<string>, budget: int)
    requires Left(source, budget) >= FLOOR * |texts|
    ensures var shares := Shares(texts, |texts|, Left(source, budget));
      |shares| == |texts| && forall k :: 0 <= k < |texts| ==> Min(|texts[k]|, FLOOR) <= shares[k] <= |texts[k]|
  {
    var room := Left(source, budget);
    if texts != [] {
      var part := room / |texts|;
      QuotientReaches(room, |texts|, FLOOR);
      EvenPartsGoRound(texts, |texts|, room, part);
      forall k | 0 <= k < |texts| ensures Shares(texts, |texts|, room)[k] >= Min(|texts[k]|, FLOOR) {
        IncludedIsShown(texts, |texts|, room, k);
      }
    }
  }

  /** The whole stripped notice leads the corpus, over budget or not. */
  lemma NoticeComesFirst(source: string, texts: seq<string>, budget: int)
    ensures Strip(source) <= Corpus(source, texts, budget)
    ensures |Strip(source)| >= budget ==> Corpus(source, texts, budget) == Strip(source)
  {
  }
}
