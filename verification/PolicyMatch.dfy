/** Scoring and ranking candidate policies: app/domain/policy_match.py. */
module PolicyMatch {
  import opened Wrappers
  import opened Matching

  datatype Strength = Exact | High | Possible | NoMatch

  datatype Config = Config(candidate: real, high: real)

  /** Thresholds as configured by default. */
  const DEFAULTS := Config(0.45, 0.80)

  /** The notice as the matcher reads it; an absent text is empty. */
  datatype Notice = Notice(
    policyNumber: string, insuredName: string, insuredOrganisation: string,
    reporterOrganisation: string, reporterEmail: string, lossLocation: string,
    lineOfBusiness: string, lossDay: Option<int>)

  datatype Policy = Policy(
    id: nat, policyNumber: string, insuredName: string, insuredOrganisation: string,
    brokerName: string, insuredEmail: string, primaryLocation: string,
    lineOfBusiness: string, effective: int, expiry: int)

  datatype Signals = Signals(
    policyNumber: real, insuredName: real, organisation: real, broker: real,
    email: real, location: real, lineOfBusiness: real, inForce: real)

  datatype Candidate = Candidate(
    policyId: nat, policyNumber: string, score: real, strength: Strength, signals: Signals)

  const UNCOMPARED: real := -1.0

  // ---------------------------------------------------------------------------
  // Rounding
  // ---------------------------------------------------------------------------

  function RoundHalfEven(x: real): int {
    var f := x.Floor;
    var d := x - f as real;
    if d < 0.5 then f else if d > 0.5 then f + 1 else if f % 2 == 0 then f else f + 1
  }

  /** `round(x, 4)`. */
  function Round4(x: real): real { RoundHalfEven(x * 10000.0) as real / 10000.0 }

  lemma Round4IsClose(x: real)
    ensures x - 0.00005 <= Round4(x) <= x + 0.00005
  {
    var y := x * 10000.0;
    assert y - 0.5 <= RoundHalfEven(y) as real <= y + 0.5;
  }

  lemma Round4KeepsUnit(x: real)
    requires IsUnit(x)
    ensures IsUnit(Round4(x))
  {
    var y := x * 10000.0;
    assert 0 <= RoundHalfEven(y) <= 10000;
  }

  // ---------------------------------------------------------------------------
  // The signals of one policy
  // ---------------------------------------------------------------------------

  predicate OccursAt(whole: string, piece: string, i: nat) {
    i + |piece| <= |whole| && whole[i..i + |piece|] == piece
  }

  predicate Contains(whole: string, piece: string) {
    exists i: nat :: i <= |whole| && OccursAt(whole, piece, i)
  }

  function NumberSignal(noticeNumber: string, policyNumber: string): (r: real)
    ensures r <= 1.0
  {
    var a, b := NormaliseReference(noticeNumber), NormaliseReference(policyNumber);
    if a == "" || b == "" then UNCOMPARED
    else if a == b then 1.0
    else if Contains(b, a) || Contains(a, b) then 0.8
    else 0.0
  }

  function NameSignal(left: string, right: string): real {
    if left == "" || right == "" then UNCOMPARED else NameSimilarity(left, right)
  }

  function LocationSignal(left: string, right: string): (r: real)
    ensures r <= 1.0
  {
    if left == "" || right == "" then UNCOMPARED else LocationSimilarity(left, right)
  }

  /** What follows the last `@`, or the whole text without one. */
  function Domain(address: string): string {
    if address == "" then ""
    else if address[|address| - 1] == '@' then ""
    else Domain(address[..|address| - 1]) + [address[|address| - 1]]
  }

  function EmailSignal(left: string, right: string): (r: real)
    ensures r <= 1.0
  {
    var l, r := Normalise(left), Normalise(right);
    if l == "" || r == "" then UNCOMPARED
    else if l == r then 1.0
    else if Domain(l) != "" && Domain(l) == Domain(r) then 0.6
    else 0.0
  }

  function LineSignal(left: string, right: string): (r: real)
    ensures r <= 1.0
  {
    if left == "" || right == "" then UNCOMPARED else if left == right then 1.0 else 0.0
  }

  function InForceSignal(day: Option<int>, p: Policy): (r: real)
    ensures r <= 1.0
  {
    match day
    case None => UNCOMPARED
    case Some(d) => if p.effective <= d <= p.expiry then 1.0 else 0.0
  }

  function SignalsOf(n: Notice, p: Policy): Signals {
    Signals(
      NumberSignal(n.policyNumber, p.policyNumber),
      NameSignal(n.insuredName, p.insuredName),
      NameSignal(n.insuredOrganisation, p.insuredOrganisation),
      NameSignal(n.reporterOrganisation, p.brokerName),
      EmailSignal(n.reporterEmail, p.insuredEmail),
      LocationSignal(n.lossLocation, p.primaryLocation),
      LineSignal(n.lineOfBusiness, p.lineOfBusiness),
      InForceSignal(n.lossDay, p))
  }

  function OtherParts(s: Signals): seq<Part> {
    [(s.insuredName, 2.0), (s.organisation, 1.2), (s.broker, 0.8), (s.email, 1.0),
     (s.location, 0.8), (s.lineOfBusiness, 0.6), (s.inForce, 1.5)]
  }

  function Parts(s: Signals): seq<Part> { [(s.policyNumber, 5.0)] + OtherParts(s) }

  function StrengthOf(score: real, s: Signals, c: Config): Strength {
    if s.policyNumber >= 1.0 && s.inForce != 0.0 && score >= c.high then Exact
    else if score >= c.high then High
    else if score >= c.candidate then Possible
    else NoMatch
  }

  function ScorePolicy(n: Notice, p: Policy, c: Config): Candidate {
    var s := SignalsOf(n, p);
    var score := WeightedScore(Parts(s));
    Candidate(p.id, p.policyNumber, Round4(score), StrengthOf(score, s, c), s)
  }

  /** At least one signal that names this insured was compared and agreed at all. */
  predicate Identified(k: Candidate) {
    var s := k.signals;
    s.policyNumber > 0.0 || s.insuredName > 0.0 || s.organisation > 0.0 || s.broker > 0.0 || s.email > 0.0
  }

  predicate Bounded(s: Signals) {
    && s.policyNumber <= 1.0 && s.insuredName <= 1.0 && s.organisation <= 1.0 && s.broker <= 1.0
    && s.email <= 1.0 && s.location <= 1.0 && s.lineOfBusiness <= 1.0 && s.inForce <= 1.0
  }

  lemma NameSignalIsBounded(left: string, right: string)
    ensures NameSignal(left, right) <= 1.0
  {
    NameSimilarityMeasures(left, right);
  }

  lemma SignalsAreBounded(n: Notice, p: Policy)
    ensures Bounded(SignalsOf(n, p))
  {
    NameSignalIsBounded(n.insuredName, p.insuredName);
    NameSignalIsBounded(n.insuredOrganisation, p.insuredOrganisation);
    NameSignalIsBounded(n.reporterOrganisation, p.brokerName);
  }

  lemma PartsAreBounded(s: Signals)
    requires Bounded(s)
    ensures forall part <- Parts(s) :: part.0 <= 1.0 && part.1 > 0.0
    ensures forall part <- OtherParts(s) :: part.0 <= 1.0 && part.1 > 0.0
  {
  }

  /** Every score on record lies between 0 and 1. */
  lemma ScoresAreUnit(n: Notice, p: Policy, c: Config)
    ensures IsUnit(ScorePolicy(n, p, c).score)
  {
    SignalsAreBounded(n, p);
    PartsAreBounded(SignalsOf(n, p));
    ScoreIsUnit(Parts(SignalsOf(n, p)));
    Round4KeepsUnit(WeightedScore(Parts(SignalsOf(n, p))));
  }

  lemma WeightCons(p: Part, rest: seq<Part>)
    ensures Weight([p] + rest) == p.1 + Weight(rest)
  {
    assert ([p] + rest)[1..] == rest;
  }

  lemma OtherWeights(s: Signals)
    ensures Weight(OtherParts(s)) == 7.9
  {
    var p := OtherParts(s);
    assert p[7..] == [];
    WeightCons(p[6], p[7..]); assert [p[6]] + p[7..] == p[6..];
    WeightCons(p[5], p[6..]); assert [p[5]] + p[6..] == p[5..];
    WeightCons(p[4], p[5..]); assert [p[4]] + p[5..] == p[4..];
    WeightCons(p[3], p[4..]); assert [p[3]] + p[4..] == p[3..];
    WeightCons(p[2], p[3..]); assert [p[2]] + p[3..] == p[2..];
    WeightCons(p[1], p[2..]); assert [p[1]] + p[2..] == p[1..];
    WeightCons(p[0], p[1..]); assert [p[0]] + p[1..] == p;
  }

  lemma ContradictionBounds(s: Signals)
    requires Bounded(s) && s.policyNumber == 0.0
    ensures WeightedScore(Parts(s)) <= 7.9 / 12.9
  {
    PartsAreBounded(s);
    OtherWeights(s);
    assert Parts(s) == [(0.0, 5.0)] + OtherParts(s);
    LeadingContradiction(5.0, OtherParts(s), 12.9);
  }

  /**
   * A policy whose number contradicts the notice's is capped by the other weights: it can
   * be at most a possible match whenever the high threshold lies above 7.9 / 12.9, as the
   * default 0.80 does.
   */
  lemma ContradictedNumberIsNeverHigh(n: Notice, p: Policy, c: Config)
    requires NumberSignal(n.policyNumber, p.policyNumber) == 0.0
    requires c.high > 7.9 / 12.9
    ensures ScorePolicy(n, p, c).score <= 0.6125 < DEFAULTS.high
    ensures ScorePolicy(n, p, c).strength in {Possible, NoMatch}
  {
    var s := SignalsOf(n, p);
    SignalsAreBounded(n, p);
    ContradictionBounds(s);
    Round4IsClose(WeightedScore(Parts(s)));
  }
}
