/** Human references such as `FNOL-2026-000412`: app/domain/references.py. */
module References {
  import opened Wrappers
  import opened Digits

  const FNOL_PREFIX := "FNOL"
  const CLAIM_PREFIX := "CLM"

  datatype Reference = Reference(prefix: string, year: nat, sequence: nat) {
    /** `format_reference`. */
    function Text(): string {
      prefix + "-" + ZeroPad(year, 4) + "-" + ZeroPad(sequence, 6)
    }
  }

  predicate IsCapital(c: char) { 'A' <= c <= 'Z' }

  function UpperChar(c: char): char {
    if 'a' <= c <= 'z' then (c as int - 32) as char else c
  }

  function Upper(s: string): (u: string)
    ensures |u| == |s|
  {
    seq(|s|, i requires 0 <= i < |s| => UpperChar(s[i]))
  }

  function StripLeft(s: string): string {
    if s != "" && IsSpace(s[0]) then StripLeft(s[1..]) else s
  }

  function StripRight(s: string): string {
    if s != "" && IsSpace(s[|s| - 1]) then StripRight(s[..|s| - 1]) else s
  }

  function Strip(s: string): string { StripRight(StripLeft(s)) }

  /** How many capital letters the text starts with. */
  function Capitals(s: string): (n: nat)
    ensures n <= |s|
    ensures forall i :: 0 <= i < n ==> IsCapital(s[i])
    ensures n < |s| ==> !IsCapital(s[n])
  {
    if s != "" && IsCapital(s[0]) then 1 + Capitals(s[1..]) else 0
  }

  /**
   * The anchored pattern `[A-Z]{2,6}-\d{4}-\d{4,8}`. A hyphen is no capital letter,
   * so the prefix group can only be the whole leading run of capitals.
   */
  predicate WellFormed(text: string) {
    var p := Capitals(text);
    && 2 <= p <= 6
    && p + 10 <= |text| <= p + 14
    && text[p] == '-'
    && AllDigits(text[p + 1..p + 5])
    && text[p + 5] == '-'
    && AllDigits(text[p + 6..])
  }

  function ParseReference(reference: string): Option<Reference> {
    Match(Upper(Strip(reference)))
  }

  function Match(text: string): Option<Reference> {
    if !WellFormed(text) then None
    else
      var p := Capitals(text);
      Some(Reference(text[..p], Value(text[p + 1..p + 5]), Value(text[p + 6..])))
  }

  /** The references the format can carry without loss. */
  predicate Representable(r: Reference) {
    && 2 <= |r.prefix| <= 6
    && (forall i :: 0 <= i < |r.prefix| ==> IsCapital(r.prefix[i]))
    && r.year < 10_000
    && r.sequence < 100_000_000
  }

  lemma {:induction false} CapitalsOfPrefix(p: string, rest: string)
    requires forall i :: 0 <= i < |p| ==> IsCapital(p[i])
    requires rest != "" && !IsCapital(rest[0])
    ensures Capitals(p + rest) == |p|
  {
    if p == "" {
      assert p + rest == rest;
    } else {
      CapitalsOfPrefix(p[1..], rest);
      assert (p + rest)[1..] == p[1..] + rest;
    }
  }

  /** Text that stripping and upper-casing leave alone. */
  predicate Bare(s: string) {
    forall i :: 0 <= i < |s| ==> !IsSpace(s[i]) && UpperChar(s[i]) == s[i]
  }

  lemma BareIsUnchanged(s: string)
    requires s != "" && Bare(s)
    ensures Upper(Strip(s)) == s
  {
  }

  lemma SmallPowers()
    ensures Pow10(4) == 10_000 && Pow10(6) == 1_000_000 && Pow10(8) == 100_000_000
  {
    assert Pow10(2) == 100 && Pow10(4) == 100 * Pow10(2);
    assert Pow10(6) == 100 * Pow10(4) && Pow10(8) == 100 * Pow10(6);
  }

  /** Everything the parser returns is in the representable range. */
  lemma ParsedIsRepresentable(text: string)
    requires ParseReference(text).Some?
    ensures Representable(ParseReference(text).value)
  {
    var t := Upper(Strip(text));
    var p := Capitals(t);
    SmallPowers();
    ValueBound(t[p + 1..p + 5]);
    ValueBound(t[p + 6..]);
    PowMonotone(|t| - p - 6, 8);
  }

  lemma {:induction false} PowMonotone(a: nat, b: nat)
    requires a <= b
    ensures Pow10(a) <= Pow10(b)
    decreases b - a
  {
    if a < b { PowMonotone(a, b - 1); }
  }

  /** Where the parts of a formatted reference sit. */
  lemma Layout(p: string, y: string, q: string)
    requires |y| == 4
    ensures var s := p + "-" + y + "-" + q;
      && s[..|p|] == p && s[|p| + 1..|p| + 5] == y && s[|p| + 6..] == q
      && s[|p|] == '-' && s[|p| + 5] == '-'
  {
  }

  lemma TextIsBare(p: string, y: string, q: string)
    requires Bare(p) && AllDigits(y) && AllDigits(q)
    ensures Bare(p + "-" + y + "-" + q)
  {
    assert Bare(p + "-");
    assert Bare(p + "-" + y);
    assert Bare(p + "-" + y + "-");
  }

  lemma TextIsWellFormed(p: string, y: string, q: string)
    requires 2 <= |p| <= 6 && |y| == 4 && 4 <= |q| <= 8
    requires forall i :: 0 <= i < |p| ==> IsCapital(p[i])
    requires AllDigits(y) && AllDigits(q)
    ensures var s := p + "-" + y + "-" + q; WellFormed(s) && Capitals(s) == |p|
  {
    var s := p + "-" + y + "-" + q;
    Layout(p, y, q);
    assert s == p + ("-" + y + "-" + q);
    CapitalsOfPrefix(p, "-" + y + "-" + q);
  }

  lemma FieldWidths(r: Reference)
    requires Representable(r)
    ensures |ZeroPad(r.year, 4)| == 4 && 4 <= |ZeroPad(r.sequence, 6)| <= 8
  {
    SmallPowers();
    DecimalLength(r.year, 4);
    DecimalLength(r.sequence, 8);
  }

  lemma MatchAt(s: string, p: string, y: string, q: string)
    requires WellFormed(s) && Capitals(s) == |p|
    requires s[..|p|] == p && s[|p| + 1..|p| + 5] == y && s[|p| + 6..] == q
    ensures AllDigits(y) && AllDigits(q) && Match(s) == Some(Reference(p, Value(y), Value(q)))
  {
  }

  /** A text laid out as three fields parses to the values of those fields. */
  lemma MatchFields(p: string, y: string, q: string)
    requires 2 <= |p| <= 6 && |y| == 4 && 4 <= |q| <= 8
    requires forall i :: 0 <= i < |p| ==> IsCapital(p[i])
    requires AllDigits(y) && AllDigits(q)
    ensures Match(p + "-" + y + "-" + q) == Some(Reference(p, Value(y), Value(q)))
  {
    Layout(p, y, q);
    TextIsWellFormed(p, y, q);
    MatchAt(p + "-" + y + "-" + q, p, y, q);
  }

  lemma RoundTripForward(r: Reference)
    requires Representable(r)
    ensures ParseReference(r.Text()) == Some(r)
  {
    FieldWidths(r);
    MatchFields(r.prefix, ZeroPad(r.year, 4), ZeroPad(r.sequence, 6));
    TextIsBare(r.prefix, ZeroPad(r.year, 4), ZeroPad(r.sequence, 6));
    BareIsUnchanged(r.Text());
    ValueZeroPad(r.year, 4);
    ValueZeroPad(r.sequence, 6);
  }

  /** Parsing gives back what was formatted for exactly the representable references. */
  lemma RoundTrip(r: Reference)
    ensures ParseReference(r.Text()) == Some(r) <==> Representable(r)
  {
    if Representable(r) {
      RoundTripForward(r);
    } else if ParseReference(r.Text()) == Some(r) {
      ParsedIsRepresentable(r.Text());
    }
  }

  /** Reformatting a parsed reference is stable, whatever spelling it was parsed from. */
  lemma ReformatIsStable(text: string)
    requires ParseReference(text).Some?
    ensures ParseReference(ParseReference(text).value.Text()) == ParseReference(text)
  {
    ParsedIsRepresentable(text);
    RoundTripForward(ParseReference(text).value);
  }

  predicate HyphenFree(s: string) { forall i :: 0 <= i < |s| ==> s[i] != '-' }

  lemma SplitAtHyphen(a: string, b: string, a': string, b': string)
    requires HyphenFree(a) && HyphenFree(a')
    requires a + "-" + b == a' + "-" + b'
    ensures a == a' && b == b'
  {
    var s, s' := a + "-" + b, a' + "-" + b';
    assert s[|a|] == '-' && s'[|a'|] == '-';
    assert forall k :: 0 <= k < |a| ==> s[k] == a[k];
    assert forall k :: 0 <= k < |a'| ==> s'[k] == a'[k];
    assert a == s[..|a|] && a' == s'[..|a'|];
    assert b == s[|a| + 1..] && b' == s'[|a'| + 1..];
  }

  /**
   * Two references are the same text only when they are the same reference, with no
   * bound on the year or the sequence: uniqueness survives past the fixed widths.
   */
  lemma TextIsInjective(r: Reference, r': Reference)
    requires HyphenFree(r.prefix) && HyphenFree(r'.prefix)
    ensures r.Text() == r'.Text() <==> r == r'
  {
    if r.Text() == r'.Text() {
      var y, q := ZeroPad(r.year, 4), ZeroPad(r.sequence, 6);
      var y', q' := ZeroPad(r'.year, 4), ZeroPad(r'.sequence, 6);
      assert r.Text() == r.prefix + "-" + (y + "-" + q);
      assert r'.Text() == r'.prefix + "-" + (y' + "-" + q');
      SplitAtHyphen(r.prefix, y + "-" + q, r'.prefix, y' + "-" + q');
      SplitAtHyphen(y, q, y', q');
      ValueZeroPad(r.year, 4);
      ValueZeroPad(r'.year, 4);
      ValueZeroPad(r.sequence, 6);
      ValueZeroPad(r'.sequence, 6);
    }
  }
}
