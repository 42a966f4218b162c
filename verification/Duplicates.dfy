/** Whether two records describe the same loss: app/domain/duplicates.py. */
module Duplicates {
  import opened Wrappers
  import opened Matching
  import opened PolicyMatch

  /** A notice or a claim as the comparison reads it; an absent text is empty. */
  datatype Loss = Loss(
    policyNumber: string, policyId: Option<nat>, dateOfLoss: Option<int>,
    insuredName: string, claimantName: string, location: string, description: string,
    assets: string, externalReference: string, reference: string)

  datatype Compared = Compared(
    policy: real, lossDate: real, insured: real, claimant: real,
    location: real, description: real, assets: real, external: real)

  const HOUR: int := 3600
  const DAY: int := 24 * HOUR
  const DATE_DECAY_DAYS: int := 4
  const CANDIDATE_THRESHOLD: real := 0.62
  const STRONG_THRESHOLD: real := 0.85

  function PolicySignal(x: Loss, y: Loss): real {
    var a, b := NormaliseReference(x.policyNumber), NormaliseReference(y.policyNumber);
    if a != "" && b != "" then (if a == b then 1.0 else 0.0)
    else if x.policyId.Some? && x.policyId == y.policyId then 1.0
    else UNCOMPARED
  }

  /** Moments in seconds; a day and a half still counts as the same day. */
  function DateSignal(left: Option<int>, right: Option<int>): real {
    if left.None? || right.None? then UNCOMPARED
    else
      var gap := if left.value >= right.value then left.value - right.value else right.value - left.value;
      if gap <= 36 * HOUR then 1.0
      else if gap <= DATE_DECAY_DAYS * DAY then 1.0 - (gap / DAY) as real / DATE_DECAY_DAYS as real
      else 0.0
  }

  function TextSignal(left: string, right: string): real {
    if left == "" || right == "" then UNCOMPARED else TextSimilarity(left, right)
  }

  function Claimant(x: Loss): string { if x.claimantName != "" then x.claimantName else x.insuredName }

  /** The other side falls back on its own reference; this side does not. */
  function ExternalSignal(x: Loss, y: Loss): real {
    var a := NormaliseReference(x.externalReference);
    var b := NormaliseReference(if y.externalReference != "" then y.externalReference else y.reference);
    if a != "" && b != "" then (if a == b then 1.0 else 0.0) else UNCOMPARED
  }

  function Compare(x: Loss, y: Loss): Compared {
    Compared(
      PolicySignal(x, y),
      DateSignal(x.dateOfLoss, y.dateOfLoss),
      NameSignal(x.insuredName, y.insuredName),
      NameSignal(Claimant(x), Claimant(y)),
      LocationSignal(x.location, y.location),
      TextSignal(x.description, y.description),
      TextSignal(x.assets, y.assets),
      ExternalSignal(x, y))
  }

  function CommonParts(s: Compared): seq<Part> {
    [(s.lossDate, 2.5), (s.insured, 1.5), (s.claimant, 1.0),
     (s.location, 2.0), (s.description, 2.0), (s.assets, 0.8)]
  }

  function LossParts(s: Compared): seq<Part> {
    [(s.policy, 3.0)] + CommonParts(s) + [(s.external, 3.0)]
  }

  function Score(x: Loss, y: Loss): real { Round4(WeightedScore(LossParts(Compare(x, y)))) }

  predicate IsDuplicateCandidate(x: Loss, y: Loss, threshold: real) { Score(x, y) >= threshold }

  predicate AllBounded(s: Compared) {
    && s.policy <= 1.0 && s.lossDate <= 1.0 && s.insured <= 1.0 && s.claimant <= 1.0
    && s.location <= 1.0 && s.description <= 1.0 && s.assets <= 1.0 && s.external <= 1.0
  }

  lemma DateSignalMeasures(left: Option<int>, right: Option<int>)
    ensures DateSignal(left, right) == DateSignal(right, left)
    ensures left.Some? && right.Some? ==> IsUnit(DateSignal(left, right))
    ensures DateSignal(left, right) <= 1.0
  {
  }

  lemma CompareIsBounded(x: Loss, y: Loss)
    ensures AllBounded(Compare(x, y))
  {
    NameSignalIsBounded(x.insuredName, y.insuredName);
    NameSignalIsBounded(Claimant(x), Claimant(y));
    DateSignalMeasures(x.dateOfLoss, y.dateOfLoss);
  }

  lemma LossPartsAreBounded(s: Compared)
    requires AllBounded(s)
    ensures forall p <- LossParts(s) :: p.0 <= 1.0 && p.1 > 0.0
    ensures forall p <- CommonParts(s) + [(s.external, 3.0)] :: p.0 <= 1.0 && p.1 > 0.0
    ensures forall p <- [(s.policy, 3.0)] + CommonParts(s) :: p.0 <= 1.0 && p.1 > 0.0
  {
  }

  /** Every duplicate score lies between 0 and 1. */
  lemma DuplicateScoreIsUnit(x: Loss, y: Loss)
    ensures IsUnit(Score(x, y))
  {
    CompareIsBounded(x, y);
    LossPartsAreBounded(Compare(x, y));
    ScoreIsUnit(LossParts(Compare(x, y)));
    Round4KeepsUnit(WeightedScore(LossParts(Compare(x, y))));
  }

  lemma NameSignalIsSymmetric(left: string, right: string)
    ensures NameSignal(left, right) == NameSignal(right, left)
  {
    NameSimilarityMeasures(left, right);
  }

  lemma TextSignalsAreSymmetric(left: string, right: string)
    ensures TextSignal(left, right) == TextSignal(right, left)
    ensures LocationSignal(left, right) == LocationSignal(right, left)
  {
    SetSimilaritiesAreSymmetric(Tokens(left, true), Tokens(right, true));
  }

  /** Neither record, or each, can bring an external reference into the comparison. */
  predicate ReferencesPair(x: Loss, y: Loss) {
    || (x.externalReference != "") == (y.externalReference != "")
    || (x.externalReference != "" && (NormaliseReference(x.externalReference) == "" || NormaliseReference(y.reference) == ""))
    || (y.externalReference != "" && (NormaliseReference(y.externalReference) == "" || NormaliseReference(x.reference) == ""))
  }

  lemma EmptyReference()
    ensures NormaliseReference("") == ""
  {
    assert Lower("") == "";
  }

  /** The external signal is the one that can depend on the order, and this is when it does not. */
  lemma ExternalSignalSymmetry(x: Loss, y: Loss)
    ensures ExternalSignal(x, y) == ExternalSignal(y, x) <==> ReferencesPair(x, y)
  {
    EmptyReference();
  }

  /** All eight signals agree in both directions exactly when the references pair up. */
  lemma CompareIsSymmetric(x: Loss, y: Loss)
    ensures Compare(x, y) == Compare(y, x) <==> ReferencesPair(x, y)
  {
    ExternalSignalSymmetry(x, y);
    DateSignalMeasures(x.dateOfLoss, y.dateOfLoss);
    NameSignalIsSymmetric(x.insuredName, y.insuredName);
    NameSignalIsSymmetric(Claimant(x), Claimant(y));
    TextSignalsAreSymmetric(x.location, y.location);
    TextSignalsAreSymmetric(x.description, y.description);
    TextSignalsAreSymmetric(x.assets, y.assets);
  }

  /** Comparing two records gives one score, whichever is asked about the other. */
  lemma ScoreIsSymmetric(x: Loss, y: Loss)
    requires ReferencesPair(x, y)
    ensures Score(x, y) == Score(y, x)
  {
    CompareIsSymmetric(x, y);
  }

  lemma AllButExternal(x: Loss, y: Loss)
    ensures Compare(y, x).(external := Compare(x, y).external) == Compare(x, y)
  {
    DateSignalMeasures(x.dateOfLoss, y.dateOfLoss);
    NameSignalIsSymmetric(x.insuredName, y.insuredName);
    NameSignalIsSymmetric(Claimant(x), Claimant(y));
    TextSignalsAreSymmetric(x.location, y.location);
    TextSignalsAreSymmetric(x.description, y.description);
    TextSignalsAreSymmetric(x.assets, y.assets);
  }

  /** The score before rounding. */
  function Raw(x: Loss, y: Loss): real { WeightedScore(LossParts(Compare(x, y))) }

  /** What the seven signals that never depend on the order score together. */
  function Base(x: Loss, y: Loss): real {
    WeightedScore([(Compare(x, y).policy, 3.0)] + CommonParts(Compare(x, y)))
  }

  lemma BaseIsShared(x: Loss, y: Loss)
    ensures Base(x, y) == Base(y, x)
  {
    AllButExternal(x, y);
  }

  lemma BaseIsUnit(x: Loss, y: Loss)
    ensures IsUnit(Base(x, y))
  {
    CompareIsBounded(x, y);
    LossPartsAreBounded(Compare(x, y));
    ScoreIsUnit([(Compare(x, y).policy, 3.0)] + CommonParts(Compare(x, y)));
  }

  /** One record's external reference is compared and the other's is not. */
  predicate ComparedOneWay(x: Loss, y: Loss) { ExternalSignal(x, y) != UNCOMPARED && ExternalSignal(y, x) == UNCOMPARED }

  /** When the references do not pair up, they are compared in just one of the directions. */
  lemma UnpairedIsOneWay(x: Loss, y: Loss)
    ensures !ReferencesPair(x, y) <==> ComparedOneWay(x, y) || ComparedOneWay(y, x)
  {
    EmptyReference();
    ExternalSignalSymmetry(x, y);
  }

  lemma UncomparedScoresBase(x: Loss, y: Loss)
    requires ExternalSignal(x, y) == UNCOMPARED
    ensures Raw(x, y) == Base(x, y)
  {
    var shared := [(Compare(x, y).policy, 3.0)] + CommonParts(Compare(x, y));
    assert LossParts(Compare(x, y)) == shared + [(UNCOMPARED, 3.0)] + [] && shared + [] == shared;
    UncomparedIsIgnored(shared, (UNCOMPARED, 3.0), []);
  }

  /** A value that moved towards a target, unless it was there already. */
  predicate MovedTowards(target: real, before: real, after: real) {
    (after < before <==> target < before) && (after > before <==> target > before)
  }

  lemma Pull(x: real, y: real, v: real, w: real)
    requires y > 0.0 && w > 0.0
    ensures MovedTowards(v, x / y, (x + v * w) / (y + w))
  {
    var r, q := x / y, (x + v * w) / (y + w);
    assert r * y == x && q * (y + w) == x + v * w;
    assert (q - r) * (y + w) == (v - r) * w;
  }

  lemma PartSums(parts: seq<Part>, v: real, w: real)
    requires w > 0.0 && v >= 0.0
    ensures var u, more := Usable(parts), Usable(parts + [(v, w)]);
      && more == u + [(v, w)] && Weight(u) >= 0.0 && (u != [] ==> Weight(u) > 0.0)
      && Scored(more) == Scored(u) + v * w && Weight(more) == Weight(u) + w
  {
    var u := Usable(parts);
    UsableConcat(parts, [(v, w)]);
    assert Usable([(v, w)]) == [(v, w)];
    SumsConcat(u, [(v, w)]);
    UsableIsPart(parts);
    WeightIsPositive(u);
    assert Weight([(v, w)]) == w && Scored([(v, w)]) == v * w;
  }

  lemma LonePart(w: real, v: real)
    requires w > 0.0
    ensures (v * w) / w == v
  {
  }

  /** Adding one more compared signal pulls the score towards that signal. */
  lemma PartPulls(parts: seq<Part>, v: real, w: real)
    requires w > 0.0 && v >= 0.0
    ensures MovedTowards(v, WeightedScore(parts), WeightedScore(parts + [(v, w)]))
  {
    var x, y := Scored(Usable(parts)), Weight(Usable(parts));
    PartSums(parts, v, w);
    ScoreIsQuotient(parts + [(v, w)], x + v * w, y + w);
    if Usable(parts) == [] {
      LonePart(w, v);
    } else {
      ScoreIsQuotient(parts, x, y);
      Pull(x, y, v, w);
    }
  }

  /** A one-way comparison scores the base pulled towards what it found. */
  lemma OneWayPulls(x: Loss, y: Loss)
    requires ComparedOneWay(x, y)
    ensures Raw(y, x) == Base(x, y)
    ensures ExternalSignal(x, y) == 0.0 || ExternalSignal(x, y) == 1.0
    ensures ExternalSignal(x, y) == 0.0 ==>
      (Raw(x, y) < Raw(y, x) <==> Base(x, y) > 0.0) && (Raw(x, y) == Raw(y, x) <==> Base(x, y) == 0.0)
    ensures ExternalSignal(x, y) == 1.0 ==>
      (Raw(x, y) > Raw(y, x) <==> Base(x, y) < 1.0) && (Raw(x, y) == Raw(y, x) <==> Base(x, y) == 1.0)
  {
    var s := Compare(x, y);
    var shared := [(s.policy, 3.0)] + CommonParts(s);
    UncomparedScoresBase(y, x);
    BaseIsShared(x, y);
    BaseIsUnit(x, y);
    assert LossParts(s) == shared + [(s.external, 3.0)];
    PartPulls(shared, s.external, 3.0);
  }

  /**
   * A reference that contradicts the other record lowers the score of the record that
   * carries it, exactly when the other signals score anything at all.
   */
  lemma ContradictingReferenceLowers(x: Loss, y: Loss)
    requires ComparedOneWay(x, y) && ExternalSignal(x, y) == 0.0
    ensures Raw(x, y) < Raw(y, x) <==> Base(x, y) > 0.0
  {
    OneWayPulls(x, y);
  }

  /**
   * A reference that quotes the other record's own number raises it, exactly when the
   * other signals do not already agree in full.
   */
  lemma QuotedNumberRaises(x: Loss, y: Loss)
    requires ComparedOneWay(x, y) && ExternalSignal(x, y) == 1.0
    ensures Raw(x, y) > Raw(y, x) <==> Base(x, y) < 1.0
  {
    OneWayPulls(x, y);
  }

  /** What a one-way comparison would have to find for the two scores to agree all the same. */
  predicate FoundAsExpected(signal: real, base: real) {
    (signal == 0.0 && base == 0.0) || (signal == 1.0 && base == 1.0)
  }

  /**
   * Exactly when two records score alike whichever is asked about the other: their
   * references pair up, or the one comparison that is made finds a contradiction where
   * nothing else agrees, or agreement where everything else does.
   */
  lemma ScoresAgreeExactlyWhen(x: Loss, y: Loss)
    ensures Raw(x, y) == Raw(y, x) <==>
      || ReferencesPair(x, y)
      || (ComparedOneWay(x, y) && FoundAsExpected(ExternalSignal(x, y), Base(x, y)))
      || (ComparedOneWay(y, x) && FoundAsExpected(ExternalSignal(y, x), Base(x, y)))
  {
    UnpairedIsOneWay(x, y);
    BaseIsShared(x, y);
    if ReferencesPair(x, y) {
      CompareIsSymmetric(x, y);
    } else if ComparedOneWay(x, y) {
      OneWayPulls(x, y);
    } else {
      OneWayPulls(y, x);
    }
  }

  // ---------------------------------------------------------------------------
  // Two records that score differently each way
  // ---------------------------------------------------------------------------

  const BARE: Loss := Loss("", None, Some(0), "", "", "", "", "", "", "7")

  lemma SevenReads()
    ensures NormaliseReference("7") == "7" && NormaliseReference("8") == "8"
  {
    assert Lower("7") == "7" && Lower("8") == "8";
    assert Collapse("7") == "7" + Collapse("") && Collapse("8") == "8" + Collapse("");
    assert KeepWordChars("7") == "7" + KeepWordChars("") && KeepWordChars("8") == "8" + KeepWordChars("");
  }

  /** Nothing but the dates can be compared, the references apart. */
  predicate OnlyDated(x: Loss) {
    && x.policyNumber == "" && x.policyId == None && x.insuredName == "" && x.claimantName == ""
    && x.location == "" && x.description == "" && x.assets == ""
  }

  lemma DatedSignals(x: Loss, y: Loss)
    requires OnlyDated(x) && OnlyDated(y)
    ensures Compare(x, y) == Compared(UNCOMPARED, DateSignal(x.dateOfLoss, y.dateOfLoss), UNCOMPARED, UNCOMPARED,
                                      UNCOMPARED, UNCOMPARED, UNCOMPARED, ExternalSignal(x, y))
  {
    EmptyReference();
  }

  lemma DatedUsable(d: real)
    requires d >= 0.0
    ensures Usable([(UNCOMPARED, 3.0)] + ([(d, 2.5)] + AllUncompared())) == [(d, 2.5)]
  {
    UsableConcat([(UNCOMPARED, 3.0)], [(d, 2.5)] + AllUncompared());
    UsableConcat([(d, 2.5)], AllUncompared());
    NoneUsable();
    assert Usable([(UNCOMPARED, 3.0)]) == [] && Usable([(d, 2.5)]) == [(d, 2.5)];
  }

  lemma DatedBase(x: Loss, y: Loss)
    requires OnlyDated(x) && OnlyDated(y) && DateSignal(x.dateOfLoss, y.dateOfLoss) >= 0.0
    ensures Base(x, y) == DateSignal(x.dateOfLoss, y.dateOfLoss)
  {
    var d := DateSignal(x.dateOfLoss, y.dateOfLoss);
    var parts := [(UNCOMPARED, 3.0)] + ([(d, 2.5)] + AllUncompared());
    DatedSignals(x, y);
    assert [(Compare(x, y).policy, 3.0)] + CommonParts(Compare(x, y)) == parts;
    DatedUsable(d);
    assert Scored([(d, 2.5)]) == d * 2.5 && Weight([(d, 2.5)]) == 2.5;
    ScoreIsQuotient(parts, d * 2.5, 2.5);
    LonePart(2.5, d);
  }

  function AllUncompared(): seq<Part> {
    [(UNCOMPARED, 1.5), (UNCOMPARED, 1.0), (UNCOMPARED, 2.0), (UNCOMPARED, 2.0), (UNCOMPARED, 0.8)]
  }

  lemma NoneUsable()
    ensures Usable(AllUncompared()) == []
  {
    UsableIsPart(AllUncompared());
    var u := Usable(AllUncompared());
    assert forall p :: p !in u;
    HasFirst(u);
  }

  lemma HasFirst(parts: seq<Part>)
    ensures parts != [] ==> exists p :: p in parts
  {
    if parts != [] { assert parts[0] in parts; }
  }

  lemma ExampleSignals(number: string, x: Loss, y: Loss)
    requires number == "7" || number == "8"
    requires x.externalReference == number && y.externalReference == "" && y.reference == "7"
    ensures ExternalSignal(x, y) == (if number == "7" then 1.0 else 0.0) && ExternalSignal(y, x) == UNCOMPARED
  {
    SevenReads();
    EmptyReference();
  }

  /** Same day, but the reference names another record: 5/11 one way, 1 the other. */
  lemma ContradictionExample()
    ensures var x, y := BARE.(externalReference := "8"), BARE;
      ComparedOneWay(x, y) && ExternalSignal(x, y) == 0.0 && Base(x, y) == 1.0 && Raw(x, y) < Raw(y, x)
  {
    var x, y := BARE.(externalReference := "8"), BARE;
    ExampleSignals("8", x, y);
    DatedBase(x, y);
    ContradictingReferenceLowers(x, y);
  }

  /** Two days apart, but the reference quotes the other record's number. */
  lemma QuotationExample()
    ensures var x, y := BARE.(externalReference := "7", dateOfLoss := Some(2 * DAY)), BARE;
      ComparedOneWay(x, y) && ExternalSignal(x, y) == 1.0 && Base(x, y) == 0.5 && Raw(x, y) > Raw(y, x)
  {
    var x, y := BARE.(externalReference := "7", dateOfLoss := Some(2 * DAY)), BARE;
    ExampleSignals("7", x, y);
    DatedBase(x, y);
    QuotedNumberRaises(x, y);
  }

  lemma CommonWeights(s: Compared)
    ensures Weight(CommonParts(s) + [(s.external, 3.0)]) == 12.8
  {
    var p := CommonParts(s) + [(s.external, 3.0)];
    assert p[7..] == [];
    WeightCons(p[6], p[7..]); assert [p[6]] + p[7..] == p[6..];
    WeightCons(p[5], p[6..]); assert [p[5]] + p[6..] == p[5..];
    WeightCons(p[4], p[5..]); assert [p[4]] + p[5..] == p[4..];
    WeightCons(p[3], p[4..]); assert [p[3]] + p[4..] == p[3..];
    WeightCons(p[2], p[3..]); assert [p[2]] + p[3..] == p[2..];
    WeightCons(p[1], p[2..]); assert [p[1]] + p[2..] == p[1..];
    WeightCons(p[0], p[1..]); assert [p[0]] + p[1..] == p;
  }

  lemma ContradictedPolicyBounds(s: Compared)
    requires AllBounded(s) && s.policy == 0.0
    ensures WeightedScore(LossParts(s)) <= 12.8 / 15.8
  {
    var others := CommonParts(s) + [(s.external, 3.0)];
    LossPartsAreBounded(s);
    CommonWeights(s);
    assert LossParts(s) == [(0.0, 3.0)] + others;
    LeadingContradiction(3.0, others, 15.8);
  }

  /** Records on different policies never reach the strong level, however alike the rest is. */
  lemma DifferentPoliciesAreNeverStrong(x: Loss, y: Loss)
    requires PolicySignal(x, y) == 0.0
    ensures Score(x, y) <= 0.8102 < STRONG_THRESHOLD
  {
    CompareIsBounded(x, y);
    ContradictedPolicyBounds(Compare(x, y));
    Round4IsClose(WeightedScore(LossParts(Compare(x, y))));
  }
}
