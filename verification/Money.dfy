/**
 * Amounts written and read back: `parse_money_minor` of app/domain/normalisation.py and
 * `_money` of app/domain/knowledge_graph.py.
 */
module Money {
  import opened Wrappers
  import opened Digits
  import opened References
  import Matching

  const MAX_LOSS_MINOR: nat := 1_000_000_000_000

  // ---------------------------------------------------------------------------
  // Reading
  // ---------------------------------------------------------------------------

  predicate IsWordChar(c: char) { 'a' <= c <= 'z' || 'A' <= c <= 'Z' || IsDigit(c) || c == '_' }

  /** The text starts with this word, and the word ends there. */
  predicate StartsWithWord(s: string, word: string) {
    word <= s && (|s| == |word| || !IsWordChar(s[|word|]))
  }

  predicate StartsWithAny(s: string, words: seq<string>) { exists w <- words :: StartsWithWord(s, w) }

  /** A digit, any whitespace, then one of the words, somewhere in the text. */
  predicate HasMultiple(s: string, words: seq<string>) {
    s != "" && ((IsDigit(s[0]) && StartsWithAny(Matching.SkipSpaces(s[1..]), words)) || HasMultiple(s[1..], words))
  }

  const MILLIONS: seq<string> := ["m", "mn", "million"]
  const THOUSANDS: seq<string> := ["k", "thousand"]

  function Multiplier(text: string): (m: nat)
    ensures m >= 1
  {
    if HasMultiple(text, MILLIONS) then 1_000_000
    else if HasMultiple(text, THOUSANDS) then 1_000
    else 1
  }

  predicate StartsAmount(s: string) {
    s != "" && (IsDigit(s[0]) || (s[0] == '-' && |s| > 1 && IsDigit(s[1])))
  }

  /** The text from where the first amount starts. */
  function FromAmount(s: string): (rest: Option<string>)
    ensures rest.Some? ==> StartsAmount(rest.value)
  {
    if s == "" then None else if StartsAmount(s) then Some(s) else FromAmount(s[1..])
  }

  predicate InRun(c: char) { IsDigit(c) || c == ',' || IsSpace(c) }

  function RunLength(s: string): (n: nat)
    ensures n <= |s|
  {
    if s != "" && InRun(s[0]) then 1 + RunLength(s[1..]) else 0
  }

  /** A point and one or two decimals. */
  function FractionLength(s: string): (n: nat)
    ensures n <= |s|
  {
    if |s| >= 3 && s[0] == '.' && IsDigit(s[1]) && IsDigit(s[2]) then 3
    else if |s| >= 2 && s[0] == '.' && IsDigit(s[1]) then 2
    else 0
  }

  function AmountLength(s: string): (n: nat)
    requires StartsAmount(s)
    ensures n <= |s|
  {
    var sign := if s[0] == '-' then 1 else 0;
    var run := RunLength(s[sign..]);
    sign + run + FractionLength(s[sign + run..])
  }

  predicate IsSeparator(c: char) { c == ',' || c == ' ' }

  function WithoutSeparators(s: string): string {
    if s == "" then ""
    else (if IsSeparator(s[0]) then "" else [s[0]]) + WithoutSeparators(s[1..])
  }

  /** How much of the text comes before its first point. */
  function BeforePoint(s: string): (n: nat)
    ensures n <= |s|
    ensures n < |s| ==> s[n] == '.'
  {
    if s == "" || s[0] == '.' then 0 else 1 + BeforePoint(s[1..])
  }

  function FromParts(whole: string, decimals: string): Option<int> {
    if whole == "" || !AllDigits(whole) || !AllDigits(decimals) || |decimals| > 2 then None
    else Some(100 * Value(whole) + (if |decimals| == 2 then Value(decimals) else 10 * Value(decimals)))
  }

  /** A plain decimal literal in hundredths, or nothing when it is not one. */
  function Hundredths(s: string): Option<int> {
    var n := BeforePoint(s);
    FromParts(s[..n], if n < |s| then s[n + 1..] else "")
  }

  function SignedHundredths(s: string): Option<int> {
    if s != "" && s[0] == '-' then
      var h := Hundredths(s[1..]);
      if h.Some? then Some(-h.value) else None
    else Hundredths(s)
  }

  function Accepted(minor: int): Option<nat> {
    if 0 <= minor <= MAX_LOSS_MINOR then Some(minor) else None
  }

  /** An amount in minor units; negative and implausible values are refused. */
  function ParseMoneyMinor(value: string): (minor: Option<nat>)
    ensures minor.Some? ==> minor.value <= MAX_LOSS_MINOR
  {
    var text := Matching.Lower(Strip(value));
    var from := FromAmount(text);
    if from.None? then None
    else
      var amount := SignedHundredths(Strip(WithoutSeparators(from.value[..AmountLength(from.value)])));
      if amount.None? then None else Accepted(amount.value * Multiplier(text))
  }

  // ---------------------------------------------------------------------------
  // Writing
  // ---------------------------------------------------------------------------

  function Symbol(currency: string): string {
    var code := Upper(if currency == "" then "GBP" else currency);
    if code == "GBP" then "£" else if code == "USD" then "$" else if code == "EUR" then "€"
    else if code == "SGD" then "S$" else ""
  }

  /** Digits in groups of three, separated by commas. */
  function Grouped(n: nat): string {
    if n < 1000 then Decimal(n) else Grouped(n / 1000) + "," + ZeroPad(n % 1000, 3)
  }

  /** The nearest whole unit, halves to even. */
  function WholeUnits(minor: nat): nat {
    var down, rest := minor / 100, minor % 100;
    if rest < 50 || (rest == 50 && down % 2 == 0) then down else down + 1
  }

  function PrintMoney(minor: int, currency: string): string {
    Symbol(currency) + ((if minor < 0 then "-" else "") + Grouped(WholeUnits(if minor < 0 then -minor else minor)))
  }

  // ---------------------------------------------------------------------------
  // What grouping writes
  // ---------------------------------------------------------------------------

  predicate DigitsAndCommas(s: string) { forall i :: 0 <= i < |s| ==> IsDigit(s[i]) || s[i] == ',' }

  /** Digits and commas, a digit at both ends. */
  predicate IsGrouping(s: string) {
    DigitsAndCommas(s) && s != "" && IsDigit(s[0]) && IsDigit(s[|s| - 1])
  }

  lemma {:induction false} GroupedIsGrouping(n: nat)
    ensures IsGrouping(Grouped(n))
  {
    if n >= 1000 {
      GroupedIsGrouping(n / 1000);
    }
  }

  lemma {:induction false} WithoutSeparatorsConcat(a: string, b: string)
    ensures WithoutSeparators(a + b) == WithoutSeparators(a) + WithoutSeparators(b)
  {
    if a == "" {
      assert a + b == b;
    } else {
      WithoutSeparatorsConcat(a[1..], b);
      assert (a + b)[0] == a[0] && (a + b)[1..] == a[1..] + b;
      Regroup(if IsSeparator(a[0]) then "" else [a[0]], WithoutSeparators(a[1..]), WithoutSeparators(b));
    }
  }

  lemma {:induction false} DigitsHaveNoSeparators(s: string)
    requires AllDigits(s)
    ensures WithoutSeparators(s) == s
  {
    if s != "" { DigitsHaveNoSeparators(s[1..]); }
  }

  lemma ThreeDigits(n: nat)
    requires n < 1000
    ensures |ZeroPad(n, 3)| == 3 && Value(ZeroPad(n, 3)) == n
  {
    ValueZeroPad(n, 3);
    DecimalLength(n, 3);
    assert Pow10(3) == 1000 by { assert Pow10(1) == 10 && Pow10(2) == 100; }
  }

  lemma NextGroup(head: string, tail: string, high: nat, low: nat)
    requires AllDigits(head) && AllDigits(tail) && |tail| == 3 && Value(head) == high && Value(tail) == low
    ensures AllDigits(head + tail) && Value(head + tail) == 1000 * high + low
  {
    ValueConcat(head, tail);
    assert Pow10(3) == 1000 by { assert Pow10(1) == 10 && Pow10(2) == 100; }
  }

  /** Without its commas a grouping is the number's digits again. */
  lemma {:induction false} UngroupingIsExact(n: nat)
    ensures AllDigits(WithoutSeparators(Grouped(n))) && WithoutSeparators(Grouped(n)) != ""
    ensures Value(WithoutSeparators(Grouped(n))) == n
  {
    if n < 1000 {
      DigitsHaveNoSeparators(Decimal(n));
      ValueDecimal(n);
    } else {
      var head, tail := Grouped(n / 1000), ZeroPad(n % 1000, 3);
      UngroupingIsExact(n / 1000);
      ThreeDigits(n % 1000);
      DigitsHaveNoSeparators(tail);
      WithoutSeparatorsConcat(head + ",", tail);
      WithoutSeparatorsConcat(head, ",");
      NextGroup(WithoutSeparators(head), tail, n / 1000, n % 1000);
      assert WithoutSeparators(Grouped(n)) == WithoutSeparators(head) + tail;
    }
  }

  // ---------------------------------------------------------------------------
  // Reading back what was written
  // ---------------------------------------------------------------------------

  /** No word can start anywhere in the text: its first letter does not occur. */
  predicate NoWords(s: string, words: seq<string>) { forall w <- words :: w != "" && w[0] !in s }

  lemma {:induction false} SkippedCharacters(s: string, c: char)
    requires c !in s
    ensures c !in Matching.SkipSpaces(s)
  {
    if s != "" && IsSpace(s[0]) { SkippedCharacters(s[1..], c); }
  }

  lemma NoWordStarts(s: string, words: seq<string>)
    requires NoWords(s, words)
    ensures !StartsWithAny(Matching.SkipSpaces(s), words)
  {
    forall w | w in words ensures !StartsWithWord(Matching.SkipSpaces(s), w) {
      SkippedCharacters(s, w[0]);
    }
  }

  lemma {:induction false} NoWordsNoMultiple(s: string, words: seq<string>)
    requires NoWords(s, words)
    ensures !HasMultiple(s, words)
  {
    if s != "" {
      assert forall c :: c in s[1..] ==> c in s;
      NoWordsNoMultiple(s[1..], words);
      NoWordStarts(s[1..], words);
    }
  }

  /** A digit followed by one of the words, wherever it stands in the text. */
  lemma {:induction false} WordAfterDigit(before: string, digit: char, word: string, words: seq<string>)
    requires IsDigit(digit) && word in words && word != "" && !IsSpace(word[0])
    ensures HasMultiple(before + ([digit] + word), words)
  {
    if before == "" {
      assert before + ([digit] + word) == [digit] + word;
      assert ([digit] + word)[1..] == word;
      assert Matching.SkipSpaces(word) == word;
      assert StartsWithWord(word, word);
    } else {
      WordAfterDigit(before[1..], digit, word, words);
      assert (before + ([digit] + word))[1..] == before[1..] + ([digit] + word);
    }
  }

  lemma {:induction false} RunOfGrouping(s: string, rest: string)
    requires DigitsAndCommas(s) && (rest == "" || !InRun(rest[0]))
    ensures RunLength(s + rest) == |s|
  {
    if s == "" {
      assert s + rest == rest;
    } else {
      RunOfGrouping(s[1..], rest);
      assert (s + rest)[1..] == s[1..] + rest;
    }
  }

  /** Text before the amount that no amount can start in. */
  predicate NoStart(s: string) { forall i :: 0 <= i < |s| ==> !IsDigit(s[i]) && s[i] != '-' }

  lemma {:induction false} AmountAfter(before: string, amount: string)
    requires NoStart(before) && StartsAmount(amount)
    ensures FromAmount(before + amount) == Some(amount)
  {
    if before == "" {
      assert before + amount == amount;
    } else {
      AmountAfter(before[1..], amount);
      assert (before + amount)[1..] == before[1..] + amount;
    }
  }

  lemma {:induction false} PointAfter(whole: string, rest: string)
    requires AllDigits(whole) && (rest == "" || rest[0] == '.')
    ensures BeforePoint(whole + rest) == |whole|
  {
    if whole == "" {
      assert whole + rest == rest;
    } else {
      PointAfter(whole[1..], rest);
      assert (whole + rest)[1..] == whole[1..] + rest;
    }
  }

  /** Either nothing or a point and two digits. */
  predicate IsPence(s: string) { s == "" || (|s| == 3 && s[0] == '.' && IsDigit(s[1]) && IsDigit(s[2])) }

  function Pence(s: string): nat
    requires IsPence(s)
  {
    if s == "" then 0 else Value(s[1..])
  }

  /** The amount a sign, whole units and pence denote, in hundredths. */
  predicate Denotes(sign: string, n: nat, pence: string, h: int) {
    && IsPence(pence)
    && ((sign == "" && h == 100 * n + Pence(pence)) || (sign == "-" && h == -(100 * n + Pence(pence))))
  }

  lemma TwoDecimals(whole: string, decimals: string)
    requires whole != "" && AllDigits(whole) && AllDigits(decimals) && |decimals| == 2
    ensures FromParts(whole, decimals) == Some(100 * Value(whole) + Value(decimals))
  {
  }

  lemma PartsOf(whole: string, pence: string)
    requires AllDigits(whole) && pence != "" && pence[0] == '.'
    ensures Hundredths(whole + pence) == FromParts(whole, pence[1..])
  {
    PointAfter(whole, pence);
    assert (whole + pence)[..|whole|] == whole && (whole + pence)[|whole| + 1..] == pence[1..];
  }

  lemma PenceRead(whole: string, pence: string)
    requires whole != "" && AllDigits(whole) && IsPence(pence) && pence != ""
    ensures Hundredths(whole + pence) == Some(100 * Value(whole) + Value(pence[1..]))
  {
    PartsOf(whole, pence);
    TwoDecimals(whole, pence[1..]);
  }

  lemma WholeReads(whole: string)
    requires whole != "" && AllDigits(whole)
    ensures Hundredths(whole) == Some(100 * Value(whole))
  {
    PointAfter(whole, "");
    assert whole + "" == whole && whole[..|whole|] == whole;
    assert Hundredths(whole) == FromParts(whole, "");
  }

  lemma HundredthsOf(whole: string, pence: string, n: nat)
    requires whole != "" && AllDigits(whole) && Value(whole) == n && IsPence(pence)
    ensures Hundredths(whole + pence) == Some(100 * n + Pence(pence))
  {
    if pence == "" {
      WholeReads(whole);
      assert whole + pence == whole;
    } else {
      PenceRead(whole, pence);
    }
  }

  lemma StripBare(s: string)
    requires s != "" && !IsSpace(s[0]) && !IsSpace(s[|s| - 1])
    ensures Strip(s) == s
  {
  }

  /** A text that follows an amount without being read into it. */
  predicate Follows(pence: string, suffix: string) {
    suffix == "" || (pence == "" && !InRun(suffix[0]) && suffix[0] != '.')
  }

  /** The amount expression covers a whole signed grouping and its decimals, and stops there. */
  lemma AmountIsWhole(sign: string, grouping: string, pence: string, suffix: string)
    requires sign == "" || sign == "-"
    requires IsGrouping(grouping) && IsPence(pence) && Follows(pence, suffix)
    ensures var body := sign + grouping + pence;
      StartsAmount(body + suffix) && AmountLength(body + suffix) == |body|
  {
    var s := sign + grouping + pence + suffix;
    var rest := pence + suffix;
    assert s[|sign|..] == grouping + rest;
    RunOfGrouping(grouping, rest);
    assert s[|sign| + |grouping|..] == rest;
    assert s[0] == (sign + grouping)[0];
  }

  lemma PenceHaveNoSeparators(pence: string)
    requires IsPence(pence)
    ensures WithoutSeparators(pence) == pence
  {
    if pence != "" {
      DigitsHaveNoSeparators(pence[1..]);
    }
  }

  lemma NegativeReads(body: string, h: int)
    requires Hundredths(body) == Some(h)
    ensures SignedHundredths("-" + body) == Some(-h)
  {
    assert ("-" + body)[1..] == body;
  }

  lemma PositiveReads(body: string, h: int)
    requires Hundredths(body) == Some(h) && body != "" && body[0] != '-'
    ensures SignedHundredths("" + body) == Some(h)
  {
    assert "" + body == body;
  }

  lemma SignedReads(sign: string, body: string, magnitude: int, h: int)
    requires Hundredths(body) == Some(magnitude) && body != "" && body[0] != '-'
    requires (sign == "" && h == magnitude) || (sign == "-" && h == -magnitude)
    ensures SignedHundredths(sign + body) == Some(h)
  {
    if sign == "-" {
      NegativeReads(body, magnitude);
    } else {
      PositiveReads(body, magnitude);
    }
  }

  /** Without its separators a written amount is a plain literal. */
  lemma LiteralIs(sign: string, n: nat, pence: string)
    requires (sign == "" || sign == "-") && IsPence(pence)
    ensures WithoutSeparators(sign + Grouped(n) + pence) == sign + (WithoutSeparators(Grouped(n)) + pence)
  {
    WithoutSeparatorsConcat(sign + Grouped(n), pence);
    WithoutSeparatorsConcat(sign, Grouped(n));
    assert WithoutSeparators(sign) == sign;
    PenceHaveNoSeparators(pence);
    Regroup(sign, WithoutSeparators(Grouped(n)), pence);
  }

  lemma LiteralIsBare(sign: string, whole: string, pence: string)
    requires (sign == "" || sign == "-") && IsPence(pence) && whole != "" && AllDigits(whole)
    ensures Strip(sign + (whole + pence)) == sign + (whole + pence)
  {
    var literal := sign + (whole + pence);
    assert !IsSpace(literal[0]) && !IsSpace(literal[|literal| - 1]);
    StripBare(literal);
  }

  /** What a written amount reads as, before the ceiling is judged. */
  lemma LiteralReads(sign: string, n: nat, pence: string, h: int)
    requires Denotes(sign, n, pence, h)
    ensures SignedHundredths(Strip(WithoutSeparators(sign + Grouped(n) + pence))) == Some(h)
  {
    var whole := WithoutSeparators(Grouped(n));
    UngroupingIsExact(n);
    LiteralIs(sign, n, pence);
    LiteralIsBare(sign, whole, pence);
    HundredthsOf(whole, pence, n);
    assert (whole + pence)[0] == whole[0];
    SignedReads(sign, whole + pence, 100 * n + Pence(pence), h);
  }

  const SYMBOLS: seq<string> := ["", "£", "$", "€", "S$"]

  lemma LowerConcat(a: string, b: string)
    ensures Matching.Lower(a + b) == Matching.Lower(a) + Matching.Lower(b)
  {
  }

  predicate Caseless(s: string) { forall i :: 0 <= i < |s| ==> !('A' <= s[i] <= 'Z') }

  lemma CaselessIsLower(s: string)
    requires Caseless(s)
    ensures Matching.Lower(s) == s
  {
  }

  /** The body of a written amount: digits, commas, perhaps a sign before and a point within. */
  lemma BodyShape(sign: string, n: nat, pence: string)
    requires sign == "" || sign == "-"
    requires IsPence(pence)
    ensures var body := sign + Grouped(n) + pence;
      && body != "" && !IsSpace(body[0]) && !IsSpace(body[|body| - 1])
      && (forall c <- body :: IsDigit(c) || c == ',' || c == '-' || c == '.')
  {
    GroupedIsGrouping(n);
  }

  lemma SymbolShape(symbol: string)
    requires symbol in SYMBOLS
    ensures var low := Matching.Lower(symbol);
      NoStart(low) && 'm' !in low && 'k' !in low && 't' !in low
    ensures symbol != "" ==> !IsSpace(symbol[0])
  {
  }

  /** Lower-case text that stripping leaves alone. */
  predicate Plain(s: string) { Caseless(s) && s != "" && !IsSpace(s[0]) && !IsSpace(s[|s| - 1]) }

  lemma TextShape(symbol: string, rest: string)
    requires symbol in SYMBOLS && Plain(rest)
    ensures Matching.Lower(Strip(symbol + rest)) == Matching.Lower(symbol) + rest
  {
    SymbolShape(symbol);
    StripBare(symbol + rest);
    LowerConcat(symbol, rest);
    CaselessIsLower(rest);
  }

  /** The amount this text starts with is this many hundredths. */
  predicate Reads(from: string, h: int) {
    StartsAmount(from) && SignedHundredths(Strip(WithoutSeparators(from[..AmountLength(from)]))) == Some(h)
  }

  lemma BodyReads(sign: string, n: nat, pence: string, suffix: string, h: int)
    requires Denotes(sign, n, pence, h) && Follows(pence, suffix)
    ensures Reads(sign + Grouped(n) + pence + suffix, h)
  {
    var body := sign + Grouped(n) + pence;
    GroupedIsGrouping(n);
    AmountIsWhole(sign, Grouped(n), pence, suffix);
    assert (body + suffix)[..|body|] == body;
    LiteralReads(sign, n, pence, h);
  }

  lemma ValueReads(symbol: string, rest: string, h: int)
    requires symbol in SYMBOLS && Plain(rest) && Reads(rest, h)
    ensures ParseMoneyMinor(symbol + rest) == Accepted(h * Multiplier(Matching.Lower(symbol) + rest))
  {
    TextShape(symbol, rest);
    SymbolShape(symbol);
    AmountAfter(Matching.Lower(symbol), rest);
  }

  lemma BodyIsPlain(sign: string, n: nat, pence: string)
    requires (sign == "" || sign == "-") && IsPence(pence)
    ensures Plain(sign + Grouped(n) + pence)
  {
    var body := sign + Grouped(n) + pence;
    BodyShape(sign, n, pence);
    assert forall i :: 0 <= i < |body| ==> body[i] in body;
  }

  lemma NoMultiplier(symbol: string, sign: string, n: nat, pence: string)
    requires symbol in SYMBOLS && (sign == "" || sign == "-") && IsPence(pence)
    ensures Multiplier(Matching.Lower(symbol) + (sign + Grouped(n) + pence)) == 1
  {
    var text := Matching.Lower(symbol) + (sign + Grouped(n) + pence);
    BodyShape(sign, n, pence);
    SymbolShape(symbol);
    assert 'm' !in text && 'k' !in text && 't' !in text;
    NoWordsNoMultiple(text, MILLIONS);
    NoWordsNoMultiple(text, THOUSANDS);
  }

  lemma BodyReadsAlone(sign: string, n: nat, pence: string, h: int)
    requires Denotes(sign, n, pence, h)
    ensures Reads(sign + Grouped(n) + pence, h)
  {
    var body := sign + Grouped(n) + pence;
    BodyReads(sign, n, pence, "", h);
    assert body + "" == body;
  }

  lemma UnmultipliedReads(symbol: string, rest: string, h: int)
    requires symbol in SYMBOLS && Plain(rest) && Reads(rest, h)
    requires Multiplier(Matching.Lower(symbol) + rest) == 1
    ensures ParseMoneyMinor(symbol + rest) == Accepted(h)
  {
    ValueReads(symbol, rest, h);
  }

  /** An amount of whole units and perhaps pence, under any symbol, reads as itself. */
  lemma WrittenAmountReads(symbol: string, sign: string, n: nat, pence: string, h: int)
    requires symbol in SYMBOLS && Denotes(sign, n, pence, h)
    ensures ParseMoneyMinor(symbol + (sign + Grouped(n) + pence)) == Accepted(h)
  {
    BodyReadsAlone(sign, n, pence, h);
    BodyIsPlain(sign, n, pence);
    NoMultiplier(symbol, sign, n, pence);
    UnmultipliedReads(symbol, sign + Grouped(n) + pence, h);
  }

  predicate Ends(word: string) { Caseless(word) && word != "" && !IsSpace(word[|word| - 1]) }

  lemma PlainThenWord(body: string, word: string)
    requires Plain(body) && Ends(word)
    ensures Plain(body + word)
  {
  }

  lemma WordShape(word: string)
    requires word in MILLIONS + THOUSANDS
    ensures Ends(word) && Follows("", word)
  {
  }

  lemma WholeBodyIsPlain(n: nat)
    ensures Plain(Grouped(n))
  {
    BodyIsPlain("", n, "");
    assert "" + Grouped(n) + "" == Grouped(n);
  }

  lemma SuffixMultiplies(symbol: string, n: nat, word: string)
    requires symbol in SYMBOLS && word in MILLIONS + THOUSANDS
    ensures Multiplier(Matching.Lower(symbol) + (Grouped(n) + word)) == if word in MILLIONS then 1_000_000 else 1_000
  {
    var g := Grouped(n);
    GroupedIsGrouping(n);
    var before := Matching.Lower(symbol) + g[..|g| - 1];
    var digit := g[|g| - 1];
    var text := Matching.Lower(symbol) + (g + word);
    assert text == before + ([digit] + word);
    if word in MILLIONS {
      WordAfterDigit(before, digit, word, MILLIONS);
    } else {
      WordAfterDigit(before, digit, word, THOUSANDS);
      SymbolShape(symbol);
      assert 'm' !in g && 'm' !in word;
      NoWordsNoMultiple(text, MILLIONS);
    }
  }

  /** An amount in thousands or millions reads as that many. */
  lemma SuffixedAmountReads(symbol: string, n: nat, word: string)
    requires symbol in SYMBOLS && word in MILLIONS + THOUSANDS
    ensures ParseMoneyMinor(symbol + (Grouped(n) + word))
        == Accepted(100 * n * (if word in MILLIONS then 1_000_000 else 1_000))
  {
    var body := Grouped(n);
    assert "" + body + "" == body;
    WordShape(word);
    WholeBodyIsPlain(n);
    PlainThenWord(body, word);
    BodyReads("", n, "", word, 100 * n);
    ValueReads(symbol, body + word, 100 * n);
    SuffixMultiplies(symbol, n, word);
  }

  // ---------------------------------------------------------------------------
  // The printer and the parser together
  // ---------------------------------------------------------------------------

  lemma SymbolIsKnown(currency: string)
    ensures Symbol(currency) in SYMBOLS
  {
  }

  lemma WholeAmountReads(symbol: string, sign: string, n: nat, h: int)
    requires symbol in SYMBOLS && Denotes(sign, n, "", h)
    ensures ParseMoneyMinor(symbol + (sign + Grouped(n))) == Accepted(h)
  {
    WrittenAmountReads(symbol, sign, n, "", h);
    assert sign + Grouped(n) + "" == sign + Grouped(n);
  }

  /** The whole units a printed amount shows, in minor units. */
  function Shown(minor: int): int {
    if minor < 0 then -100 * WholeUnits(-minor) else 100 * WholeUnits(minor)
  }

  /** What any printed amount reads back as: the whole units it shows, if acceptable. */
  lemma PrintedReads(minor: int, currency: string)
    ensures ParseMoneyMinor(PrintMoney(minor, currency)) == Accepted(Shown(minor))
  {
    SymbolIsKnown(currency);
    if minor < 0 {
      WholeAmountReads(Symbol(currency), "-", WholeUnits(-minor), Shown(minor));
    } else {
      WholeAmountReads(Symbol(currency), "", WholeUnits(minor), Shown(minor));
    }
  }

  /**
   * Printing and reading back is exact on the whole-unit amounts up to the largest
   * accepted loss, in every currency, and on no other amount.
   */
  lemma PrintedRoundTrip(minor: int, currency: string)
    ensures (var back := ParseMoneyMinor(PrintMoney(minor, currency)); back.Some? && back.value == minor)
        <==> 0 <= minor <= MAX_LOSS_MINOR && minor % 100 == 0
  {
    PrintedReads(minor, currency);
  }

  /** With its pence written out every accepted amount reads back exactly. */
  lemma PenceRoundTrip(minor: nat, symbol: string)
    requires minor <= MAX_LOSS_MINOR && symbol in SYMBOLS
    ensures ParseMoneyMinor(symbol + (Grouped(minor / 100) + ("." + ZeroPad(minor % 100, 2)))) == Some(minor)
  {
    var pence := "." + ZeroPad(minor % 100, 2);
    ValueZeroPad(minor % 100, 2);
    DecimalLength(minor % 100, 2);
    assert Pow10(2) == 100 by { assert Pow10(1) == 10; }
    assert pence[1..] == ZeroPad(minor % 100, 2);
    WrittenAmountReads(symbol, "", minor / 100, pence, minor);
    assert "" + Grouped(minor / 100) + pence == Grouped(minor / 100) + pence;
  }
}
