/**
 * The strings of a PDF content stream: the token pattern, `_decode_pdf_string` and the
 * token loop of app/services/documents/text.py.
 */
module PdfStrings {
  import opened Wrappers

  type byte = b: int | 0 <= b < 256

  type bytes = seq<byte>

  const OPEN: byte := 0x28
  const CLOSE: byte := 0x29
  const BACKSLASH: byte := 0x5C
  const LESS: byte := 0x3C
  const GREATER: byte := 0x3E
  const NEWLINE: byte := 0x0A

  // ---------------------------------------------------------------------------
  // Finding the tokens
  // ---------------------------------------------------------------------------

  predicate IsHexDigit(b: byte) { 0x30 <= b <= 0x39 || 0x41 <= b <= 0x46 || 0x61 <= b <= 0x66 }

  predicate IsBlank(b: byte) { b == 0x20 || 0x09 <= b <= 0x0D }

  /** How far a literal string reaches past its opening parenthesis, its end included. */
  function LiteralReach(s: bytes): (n: Option<nat>)
    ensures n.Some? ==> 1 <= n.value <= |s|
  {
    if s == [] || s[0] == OPEN then None
    else if s[0] == CLOSE then Some(1)
    else if s[0] == BACKSLASH then
      if |s| == 1 || s[1] == NEWLINE then None else Further(2, LiteralReach(s[2..]))
    else Further(1, LiteralReach(s[1..]))
  }

  function Further(k: nat, n: Option<nat>): Option<nat> { if n.Some? then Some(k + n.value) else None }

  /** The run of hexadecimal digits and blanks a text starts with. */
  function HexRun(s: bytes): (n: nat)
    ensures n <= |s|
  {
    if s != [] && (IsHexDigit(s[0]) || IsBlank(s[0])) then 1 + HexRun(s[1..]) else 0
  }

  /** The token the text starts with, if it starts with one. */
  function TokenLength(s: bytes): (n: Option<nat>)
    ensures n.Some? ==> 2 <= n.value <= |s|
  {
    if s == [] then None
    else if s[0] == OPEN then Further(1, LiteralReach(s[1..]))
    else if s[0] == LESS then
      var run := HexRun(s[1..]);
      if run > 0 && 1 + run < |s| && s[1 + run] == GREATER then Some(run + 2) else None
    else None
  }

  /** Every token, leftmost first, each search resuming where the last token ended. */
  function Tokens(s: bytes): seq<bytes>
    decreases |s|
  {
    if s == [] then []
    else
      var n := TokenLength(s);
      if n.Some? then [s[..n.value]] + Tokens(s[n.value..]) else Tokens(s[1..])
  }

  // ---------------------------------------------------------------------------
  // Decoding a token
  // ---------------------------------------------------------------------------

  function Latin1(s: bytes): (t: string)
    ensures |t| == |s|
  {
    seq(|s|, i requires 0 <= i < |s| => s[i] as char)
  }

  /** What a backslash and this byte stand for; anything unlisted stands for itself. */
  function Escaped(b: byte): char {
    if b == 0x6E then '\n' else if b == 0x72 then '\r' else if b == 0x74 then '\t'
    else if b == 0x62 then 0x08 as char else if b == 0x66 then 0x0C as char
    else b as char
  }

  function DecodeBody(s: bytes): string {
    if s == [] then ""
    else if s[0] == BACKSLASH && |s| > 1 then [Escaped(s[1])] + DecodeBody(s[2..])
    else [s[0] as char] + DecodeBody(s[1..])
  }

  function HexValue(b: byte): (v: nat)
    requires IsHexDigit(b)
    ensures v < 16
  {
    if b <= 0x39 then b - 0x30 else if b <= 0x46 then b - 0x37 else b - 0x57
  }

  function OnlyHex(s: bytes): (digits: bytes)
    ensures forall i :: 0 <= i < |digits| ==> IsHexDigit(digits[i])
  {
    if s == [] then []
    else (if IsHexDigit(s[0]) then [s[0]] else []) + OnlyHex(s[1..])
  }

  /** Pairs of digits as bytes; a missing last digit is zero. */
  function FromHex(digits: bytes): bytes
    requires forall i :: 0 <= i < |digits| ==> IsHexDigit(digits[i])
  {
    if digits == [] then []
    else if |digits| == 1 then [16 * HexValue(digits[0])]
    else [16 * HexValue(digits[0]) + HexValue(digits[1])] + FromHex(digits[2..])
  }

  const REPLACEMENT: char := '\U{FFFD}'

  function Unit(s: bytes): (u: nat)
    requires |s| >= 2
    ensures u < 0x10000
  {
    256 * (s[0] as int) + s[1] as int
  }

  predicate IsHigh(u: nat) { 0xD800 <= u < 0xDC00 }

  predicate IsLow(u: nat) { 0xDC00 <= u < 0xE000 }

  /** Big-endian UTF-16; what cannot be decoded is replaced. */
  function DecodeUtf16(s: bytes): string {
    if s == [] then ""
    else if |s| == 1 then [REPLACEMENT]
    else if IsHigh(Unit(s)) then
      if |s| >= 4 && IsLow(Unit(s[2..]))
      then [Joined(Unit(s), Unit(s[2..]))] + DecodeUtf16(s[4..])
      else [REPLACEMENT] + DecodeUtf16(s[2..])
    else if IsLow(Unit(s)) then [REPLACEMENT] + DecodeUtf16(s[2..])
    else [Unit(s) as char] + DecodeUtf16(s[2..])
  }

  function Joined(high: nat, low: nat): char
    requires IsHigh(high) && IsLow(low)
  {
    (0x10000 + (high - 0xD800) * 0x400 + (low - 0xDC00)) as char
  }

  predicate HasMark(s: bytes) { |s| >= 2 && s[0] == 0xFE && s[1] == 0xFF }

  function TextOf(s: bytes): string { if HasMark(s) then DecodeUtf16(s[2..]) else Latin1(s) }

  function Decoded(token: bytes): string
    requires |token| >= 2
  {
    if token[0] == LESS then TextOf(FromHex(OnlyHex(token)))
    else DecodeBody(token[1..|token| - 1])
  }

  /** The loop over the body of a literal string. */
  method DecodeLiteral(body: bytes) returns (out: string)
    ensures out == DecodeBody(body)
  {
    out := "";
    var index := 0;
    while index < |body|
      invariant index <= |body|
      invariant out + DecodeBody(body[index..]) == DecodeBody(body)
    {
      if body[index] == BACKSLASH && index + 1 < |body| {
        assert body[index..][2..] == body[index + 2..];
        out := out + [Escaped(body[index + 1])];
        index := index + 2;
      } else {
        assert body[index..][1..] == body[index + 1..];
        out := out + [body[index] as char];
        index := index + 1;
      }
    }
  }

  method DecodeToken(token: bytes) returns (out: string)
    requires |token| >= 2
    ensures out == Decoded(token)
  {
    if token[0] == LESS {
      out := TextOf(FromHex(OnlyHex(token)));
    } else {
      out := DecodeLiteral(token[1..|token| - 1]);
    }
  }

  predicate AreTokens(tokens: seq<bytes>) { forall i :: 0 <= i < |tokens| ==> |tokens[i]| >= 2 }

  function AllDecoded(tokens: seq<bytes>): (texts: seq<string>)
    requires AreTokens(tokens)
    ensures |texts| == |tokens|
    ensures forall i :: 0 <= i < |tokens| ==> texts[i] == Decoded(tokens[i])
  {
    seq(|tokens|, i requires 0 <= i < |tokens| => Decoded(tokens[i]))
  }

  lemma {:induction false} TokensAreTokens(s: bytes)
    ensures AreTokens(Tokens(s))
    decreases |s|
  {
    if s != [] {
      var n := TokenLength(s);
      if n.Some? { TokensAreTokens(s[n.value..]); } else { TokensAreTokens(s[1..]); }
    }
  }

  /** The strings one content stream shows, in order. */
  method Chunks(stream: bytes) returns (chunks: seq<string>)
    ensures AreTokens(Tokens(stream)) && chunks == AllDecoded(Tokens(stream))
  {
    TokensAreTokens(stream);
    var tokens := Tokens(stream);
    chunks := [];
    for i := 0 to |tokens|
      invariant chunks == AllDecoded(tokens[..i])
    {
      var chunk := DecodeToken(tokens[i]);
      chunks := chunks + [chunk];
    }
    assert tokens[..|tokens|] == tokens;
  }

  // ---------------------------------------------------------------------------
  // Writing strings
  // ---------------------------------------------------------------------------

  predicate NeedsEscape(b: byte) { b == OPEN || b == CLOSE || b == BACKSLASH }

  /** Section 7.3.4.2 of ISO 32000-1: parentheses and backslashes behind a backslash. */
  function EscapedBody(s: bytes): bytes {
    if s == [] then []
    else (if NeedsEscape(s[0]) then [BACKSLASH, s[0]] else [s[0]]) + EscapedBody(s[1..])
  }

  function HexDigitOf(v: nat): (b: byte)
    requires v < 16
    ensures IsHexDigit(b) && HexValue(b) == v
  {
    if v < 10 then 0x30 + v else 0x37 + v
  }

  /** Section 7.3.4.3 of ISO 32000-1: two digits for each byte. */
  function HexBody(s: bytes): (digits: bytes)
    ensures |digits| == 2 * |s|
    ensures forall i :: 0 <= i < |digits| ==> IsHexDigit(digits[i])
  {
    if s == [] then [] else [HexDigitOf(s[0] / 16), HexDigitOf(s[0] % 16)] + HexBody(s[1..])
  }

  datatype Written = Literal(content: bytes) | Hexadecimal(content: bytes)

  function Print(w: Written): (t: bytes)
    ensures |t| >= 2
  {
    match w
    case Literal(s) => [OPEN] + EscapedBody(s) + [CLOSE]
    case Hexadecimal(s) => [LESS] + HexBody(s) + [GREATER]
  }

  function Utf16(text: string): bytes {
    if text == "" then []
    else
      var u := text[0] as int;
      (if u < 0x10000 then [u / 256, u % 256]
       else
         var high, low := 0xD800 + (u - 0x10000) / 0x400, 0xDC00 + (u - 0x10000) % 0x400;
         [high / 256, high % 256, low / 256, low % 256]) + Utf16(text[1..])
  }

  // ---------------------------------------------------------------------------
  // Reading back what was written
  // ---------------------------------------------------------------------------

  lemma {:induction false} BodyRoundTrip(s: bytes)
    ensures DecodeBody(EscapedBody(s)) == Latin1(s)
  {
    if s != [] {
      BodyRoundTrip(s[1..]);
      var first := if NeedsEscape(s[0]) then [BACKSLASH, s[0]] else [s[0]];
      assert EscapedBody(s)[|first|..] == EscapedBody(s[1..]);
      assert Latin1(s) == [s[0] as char] + Latin1(s[1..]);
    }
  }

  lemma ReachPlain(b: byte, tail: bytes)
    requires !NeedsEscape(b)
    ensures LiteralReach([b] + tail) == Further(1, LiteralReach(tail))
  {
    assert ([b] + tail)[1..] == tail;
  }

  lemma ReachEscape(b: byte, tail: bytes)
    requires NeedsEscape(b)
    ensures LiteralReach([BACKSLASH, b] + tail) == Further(2, LiteralReach(tail))
  {
    assert ([BACKSLASH, b] + tail)[2..] == tail;
  }

  lemma {:induction false} ReachOfBody(s: bytes, tail: bytes)
    requires tail != [] && tail[0] == CLOSE
    ensures LiteralReach(EscapedBody(s) + tail) == Some(|EscapedBody(s)| + 1)
  {
    if s == [] {
      assert EscapedBody(s) + tail == tail;
    } else {
      var body := EscapedBody(s[1..]);
      ReachOfBody(s[1..], tail);
      if NeedsEscape(s[0]) {
        Regroup([BACKSLASH, s[0]], body, tail);
        ReachEscape(s[0], body + tail);
      } else {
        Regroup([s[0]], body, tail);
        ReachPlain(s[0], body + tail);
      }
    }
  }

  predicate AreHexDigits(digits: bytes) { forall i :: 0 <= i < |digits| ==> IsHexDigit(digits[i]) }

  lemma HexRunCons(b: byte, tail: bytes)
    requires IsHexDigit(b)
    ensures HexRun([b] + tail) == 1 + HexRun(tail)
  {
    assert ([b] + tail)[1..] == tail;
  }

  lemma {:induction false} RunOfDigits(digits: bytes, tail: bytes)
    requires AreHexDigits(digits) && tail != [] && tail[0] == GREATER
    ensures HexRun(digits + tail) == |digits|
  {
    if digits == [] {
      assert digits + tail == tail;
    } else {
      RunOfDigits(digits[1..], tail);
      assert digits + tail == [digits[0]] + (digits[1..] + tail);
      HexRunCons(digits[0], digits[1..] + tail);
    }
  }

  /** The pattern needs at least one digit, so an empty hexadecimal string is no token. */
  predicate Findable(w: Written) { w.Hexadecimal? ==> w.content != [] }

  /** The pattern matches this text, all of it. */
  predicate IsToken(t: bytes) { TokenLength(t) == Some(|t|) }

  lemma {:induction false} ReachIsLocal(s: bytes, n: nat)
    requires LiteralReach(s) == Some(n)
    ensures LiteralReach(s[..n]) == Some(n)
    decreases |s|
  {
    if s[0] == BACKSLASH {
      ReachIsLocal(s[2..], n - 2);
      assert s[..n][2..] == s[2..][..n - 2];
    } else if s[0] != CLOSE {
      ReachIsLocal(s[1..], n - 1);
      assert s[..n][1..] == s[1..][..n - 1];
    }
  }

  lemma {:induction false} ReachExtends(s: bytes, rest: bytes)
    requires LiteralReach(s).Some?
    ensures LiteralReach(s + rest) == LiteralReach(s)
    decreases |s|
  {
    if s[0] == BACKSLASH {
      ReachExtends(s[2..], rest);
      assert (s + rest)[2..] == s[2..] + rest;
    } else if s[0] != CLOSE {
      ReachExtends(s[1..], rest);
      assert (s + rest)[1..] == s[1..] + rest;
    }
  }

  /** A run depends on nothing past the byte that ends it. */
  lemma {:induction false} RunEnds(s: bytes, t: bytes)
    requires HexRun(s) < |s| && |t| > HexRun(s) && t[..HexRun(s) + 1] == s[..HexRun(s) + 1]
    ensures HexRun(t) == HexRun(s)
  {
    assert t[0] == t[..HexRun(s) + 1][0] == s[0];
    if HexRun(s) > 0 {
      assert t[1..][..HexRun(s)] == t[..HexRun(s) + 1][1..] == s[..HexRun(s) + 1][1..] == s[1..][..HexRun(s)];
      RunEnds(s[1..], t[1..]);
    }
  }

  /** What the pattern takes it would take by itself, and takes whatever follows. */
  lemma TokenIsLocal(s: bytes)
    requires TokenLength(s).Some?
    ensures IsToken(s[..TokenLength(s).value])
  {
    var t := s[..TokenLength(s).value];
    assert t[0] == s[0];
    if s[0] == OPEN {
      ReachIsLocal(s[1..], |t| - 1);
      assert t[1..] == s[1..][..|t| - 1];
    } else {
      assert t[1..] == s[1..][..|t| - 1];
      RunEnds(s[1..], t[1..]);
    }
  }

  lemma TokenExtends(t: bytes, rest: bytes)
    requires IsToken(t)
    ensures TokenLength(t + rest) == Some(|t|)
  {
    assert (t + rest)[1..] == t[1..] + rest;
    if t[0] == OPEN {
      ReachExtends(t[1..], rest);
    } else {
      RunEnds(t[1..], t[1..] + rest);
    }
  }

  lemma {:induction false} FoundAreTokens(s: bytes)
    ensures forall t <- Tokens(s) :: IsToken(t)
    decreases |s|
  {
    if s != [] {
      var n := TokenLength(s);
      if n.Some? {
        TokenIsLocal(s);
        FoundAreTokens(s[n.value..]);
      } else {
        FoundAreTokens(s[1..]);
      }
    }
  }

  /** Text that no token can start in. */
  predicate Quiet(s: bytes) { forall i :: 0 <= i < |s| ==> s[i] != OPEN && s[i] != LESS }

  lemma {:induction false} SkipQuiet(quiet: bytes, rest: bytes)
    requires Quiet(quiet)
    ensures Tokens(quiet + rest) == Tokens(rest)
  {
    if quiet == [] {
      assert quiet + rest == rest;
    } else {
      SkipQuiet(quiet[1..], rest);
      assert (quiet + rest)[1..] == quiet[1..] + rest;
    }
  }

  lemma FirstToken(t: bytes, rest: bytes)
    requires IsToken(t)
    ensures Tokens(t + rest) == [t] + Tokens(rest)
  {
    TokenExtends(t, rest);
    assert (t + rest)[..|t|] == t && (t + rest)[|t|..] == rest;
  }

  /** Pieces with text before, between and after them. */
  function Spread(gaps: seq<bytes>, ts: seq<bytes>): bytes
    requires |gaps| == |ts| + 1
  {
    if ts == [] then gaps[0]
    else gaps[0] + (ts[0] + Spread(gaps[1..], ts[1..]))
  }

  predicate AllQuiet(gaps: seq<bytes>) { forall i :: 0 <= i < |gaps| ==> Quiet(gaps[i]) }

  predicate AreAllTokens(ts: seq<bytes>) { forall i :: 0 <= i < |ts| ==> IsToken(ts[i]) }

  lemma {:induction false} TokensAreFound(gaps: seq<bytes>, ts: seq<bytes>)
    requires |gaps| == |ts| + 1 && AllQuiet(gaps) && AreAllTokens(ts)
    ensures Tokens(Spread(gaps, ts)) == ts
  {
    if ts == [] {
      SkipQuiet(gaps[0], []);
      assert gaps[0] + [] == gaps[0];
    } else {
      var rest := Spread(gaps[1..], ts[1..]);
      TokensAreFound(gaps[1..], ts[1..]);
      SkipQuiet(gaps[0], ts[0] + rest);
      FirstToken(ts[0], rest);
      assert ts == [ts[0]] + ts[1..];
    }
  }

  /**
   * Pieces spread over a page, with text around them that opens none, are found one by one
   * and whole exactly when each is a match of the pattern by itself.
   */
  lemma FoundExactlyWhen(gaps: seq<bytes>, ts: seq<bytes>)
    requires |gaps| == |ts| + 1 && AllQuiet(gaps)
    ensures Tokens(Spread(gaps, ts)) == ts <==> AreAllTokens(ts)
  {
    if AreAllTokens(ts) {
      TokensAreFound(gaps, ts);
    }
    FoundAreTokens(Spread(gaps, ts));
    assert forall i :: 0 <= i < |ts| ==> ts[i] in ts;
  }

  lemma PrintedIsToken(w: Written)
    requires Findable(w)
    ensures IsToken(Print(w))
  {
    match w
    case Literal(c) =>
      ReachOfBody(c, [CLOSE]);
      assert Print(w)[1..] == EscapedBody(c) + [CLOSE];
    case Hexadecimal(c) =>
      RunOfDigits(HexBody(c), [GREATER]);
      assert Print(w)[1..] == HexBody(c) + [GREATER];
      assert Print(w)[1 + |HexBody(c)|] == GREATER;
  }

  function Printed(ws: seq<Written>): (ts: seq<bytes>)
    ensures |ts| == |ws| && forall i :: 0 <= i < |ws| ==> ts[i] == Print(ws[i])
  {
    seq(|ws|, i requires 0 <= i < |ws| => Print(ws[i]))
  }

  /** Written strings with text before, between and after them. */
  function Page(gaps: seq<bytes>, ws: seq<Written>): bytes
    requires |gaps| == |ws| + 1
  {
    Spread(gaps, Printed(ws))
  }

  /** The tokenizer finds exactly the strings of a page, in order. */
  lemma PageTokens(gaps: seq<bytes>, ws: seq<Written>)
    requires |gaps| == |ws| + 1 && AllQuiet(gaps)
    requires forall i :: 0 <= i < |ws| ==> Findable(ws[i])
    ensures Tokens(Page(gaps, ws)) == Printed(ws)
  {
    forall i | 0 <= i < |ws| ensures IsToken(Print(ws[i])) {
      PrintedIsToken(ws[i]);
    }
    TokensAreFound(gaps, Printed(ws));
  }

  lemma {:induction false} OnlyHexOfDigits(digits: bytes)
    requires AreHexDigits(digits)
    ensures OnlyHex(digits) == digits
  {
    if digits != [] { OnlyHexOfDigits(digits[1..]); }
  }

  lemma {:induction false} OnlyHexConcat(a: bytes, b: bytes)
    ensures OnlyHex(a + b) == OnlyHex(a) + OnlyHex(b)
  {
    if a == [] {
      assert a + b == b;
    } else {
      OnlyHexConcat(a[1..], b);
      assert (a + b)[1..] == a[1..] + b;
    }
  }

  lemma {:induction false} HexRoundTrip(s: bytes)
    ensures FromHex(HexBody(s)) == s
  {
    if s != [] {
      HexRoundTrip(s[1..]);
      assert HexBody(s)[2..] == HexBody(s[1..]);
    }
  }

  lemma OnlyHexOfPrinted(digits: bytes)
    requires AreHexDigits(digits)
    ensures OnlyHex([LESS] + digits + [GREATER]) == digits
  {
    OnlyHexConcat([LESS] + digits, [GREATER]);
    OnlyHexConcat([LESS], digits);
    OnlyHexOfDigits(digits);
    assert OnlyHex([LESS]) == [] && OnlyHex([GREATER]) == [];
  }

  /** What a written string means: Latin-1, or UTF-16 when a hexadecimal one is so marked. */
  function Meaning(w: Written): string {
    match w
    case Literal(s) => Latin1(s)
    case Hexadecimal(s) => TextOf(s)
  }

  lemma PrintedDecodes(w: Written)
    ensures Decoded(Print(w)) == Meaning(w)
  {
    match w
    case Literal(s) =>
      assert Print(w)[1..|Print(w)| - 1] == EscapedBody(s);
      BodyRoundTrip(s);
    case Hexadecimal(s) =>
      OnlyHexOfPrinted(HexBody(s));
      HexRoundTrip(s);
  }

  /**
   * Whatever strings are written on a page, literal or hexadecimal, with any text around
   * them that opens no string, the token loop yields what they mean, all of it, in order.
   */
  lemma PageReadsBack(gaps: seq<bytes>, ws: seq<Written>)
    requires |gaps| == |ws| + 1 && AllQuiet(gaps)
    requires forall i :: 0 <= i < |ws| ==> Findable(ws[i])
    ensures var tokens := Tokens(Page(gaps, ws));
      && AreTokens(tokens) && |AllDecoded(tokens)| == |ws|
      && forall i :: 0 <= i < |ws| ==> AllDecoded(tokens)[i] == Meaning(ws[i])
  {
    PageTokens(gaps, ws);
    forall i | 0 <= i < |ws| ensures Decoded(Print(ws[i])) == Meaning(ws[i]) {
      PrintedDecodes(ws[i]);
    }
  }

  lemma {:induction false} Utf16IsShorter(s: bytes)
    ensures 2 * |DecodeUtf16(s)| <= |s| + 1
  {
    if |s| >= 2 {
      if IsHigh(Unit(s)) && |s| >= 4 && IsLow(Unit(s[2..])) {
        Utf16IsShorter(s[4..]);
      } else {
        Utf16IsShorter(s[2..]);
      }
    }
  }

  /** A hexadecimal string comes back as its bytes exactly when it has no byte-order mark. */
  lemma HexMeansItsBytes(s: bytes)
    ensures Decoded(Print(Hexadecimal(s))) == Latin1(s) <==> !HasMark(s)
  {
    PrintedDecodes(Hexadecimal(s));
    if HasMark(s) {
      Utf16IsShorter(s[2..]);
    }
  }

  lemma {:induction false} Utf16RoundTrip(text: string)
    ensures DecodeUtf16(Utf16(text)) == text
  {
    if text != "" {
      var u := text[0] as int;
      var all := Utf16(text);
      Utf16RoundTrip(text[1..]);
      if u < 0x10000 {
        assert all[2..] == Utf16(text[1..]);
        assert Unit(all) == u;
      } else {
        assert all[4..] == Utf16(text[1..]);
        assert Unit(all) == 0xD800 + (u - 0x10000) / 0x400;
        assert Unit(all[2..]) == 0xDC00 + (u - 0x10000) % 0x400;
      }
    }
  }

  /** Any text at all survives being written as marked UTF-16 in hexadecimal. */
  lemma MarkedTextRoundTrip(text: string)
    ensures Decoded(Print(Hexadecimal([0xFE, 0xFF] + Utf16(text)))) == text
  {
    var s: bytes := [0xFE, 0xFF] + Utf16(text);
    PrintedDecodes(Hexadecimal(s));
    assert s[2..] == Utf16(text);
    Utf16RoundTrip(text);
  }

  lemma {:induction false} PaddingIsZero(digits: bytes)
    requires |digits| % 2 == 1 && AreHexDigits(digits)
    ensures FromHex(digits) == FromHex(digits + [0x30])
  {
    if |digits| > 1 {
      PaddingIsZero(digits[2..]);
      assert (digits + [0x30])[2..] == digits[2..] + [0x30];
    } else {
      assert (digits + [0x30])[2..] == [];
    }
  }

  /** An odd number of digits means what it means with a zero appended. */
  lemma OddDigitsArePadded(digits: bytes)
    requires |digits| % 2 == 1 && AreHexDigits(digits)
    ensures Decoded([LESS] + digits + [GREATER]) == Decoded([LESS] + (digits + [0x30]) + [GREATER])
  {
    OnlyHexOfPrinted(digits);
    OnlyHexOfPrinted(digits + [0x30]);
    PaddingIsZero(digits);
  }

  // ---------------------------------------------------------------------------
  // What the standard makes of a literal string
  // ---------------------------------------------------------------------------

  const RETURN: byte := 0x0D

  predicate IsOctal(b: byte) { 0x30 <= b <= 0x37 }

  predicate IsEol(b: byte) { b == NEWLINE || b == RETURN }

  /** How many octal digits an escape takes: as many as there are, up to three. */
  function OctalRun(s: bytes, limit: nat): (n: nat)
    ensures n <= limit && n <= |s| && forall i :: 0 <= i < n ==> IsOctal(s[i])
  {
    if limit > 0 && s != [] && IsOctal(s[0]) then 1 + OctalRun(s[1..], limit - 1) else 0
  }

  function OctalValue(digits: bytes): nat {
    if digits == [] then 0
    else 8 * OctalValue(digits[..|digits| - 1]) + if IsOctal(digits[|digits| - 1]) then digits[|digits| - 1] - 0x30 else 0
  }

  /** The byte of an octal escape. */
  function OctalChar(s: bytes): char { (OctalValue(s[..OctalRun(s, 3)]) % 256) as char }

  function EolLength(s: bytes): (n: nat)
    requires s != [] && IsEol(s[0])
    ensures 1 <= n <= |s| && n <= 2
  {
    if s[0] == RETURN && |s| > 1 && s[1] == NEWLINE then 2 else 1
  }

  /**
   * Section 7.3.4.2 of ISO 32000-1: up to three octal digits are one byte, overflow
   * ignored; a backslash before an end of line drops both; any other end of line is a line
   * feed; an unlisted escape stands for itself. A body cut out of a token never ends in a
   * backslash of its own; here one would stand for itself.
   */
  function IsoBody(s: bytes): string
    decreases |s|
  {
    if s == [] then ""
    else if s[0] == BACKSLASH && |s| > 1 then
      if IsOctal(s[1]) then
        [OctalChar(s[1..])] + IsoBody(s[1 + OctalRun(s[1..], 3)..])
      else if IsEol(s[1]) then IsoBody(s[1 + EolLength(s[1..])..])
      else [Escaped(s[1])] + IsoBody(s[2..])
    else if IsEol(s[0]) then "\n" + IsoBody(s[EolLength(s)..])
    else [s[0] as char] + IsoBody(s[1..])
  }

  /** No escape stands before an octal digit or an end of line, and there is no return. */
  predicate ReadsAlike(s: bytes) {
    if s == [] then true
    else if s[0] == BACKSLASH && |s| > 1 then !IsOctal(s[1]) && !IsEol(s[1]) && ReadsAlike(s[2..])
    else s[0] != RETURN && ReadsAlike(s[1..])
  }

  /** Digits after the first come through one by one. */
  lemma {:induction false} DigitsComeThrough(s: bytes, n: nat)
    requires n <= |s| && forall i :: 0 <= i < n ==> IsOctal(s[i])
    ensures |DecodeBody(s)| == n + |DecodeBody(s[n..])|
  {
    if n > 0 {
      DigitsComeThrough(s[1..], n - 1);
      assert s[1..][n - 1..] == s[n..];
    } else {
      assert s[0..] == s;
    }
  }

  lemma EscapedDigits(s: bytes)
    requires |s| > 1 && s[0] == BACKSLASH && IsOctal(s[1])
    ensures OctalRun(s[1..], 3) >= 1
    ensures |DecodeBody(s)| == OctalRun(s[1..], 3) + |DecodeBody(s[1 + OctalRun(s[1..], 3)..])|
  {
    var n := OctalRun(s[1..], 3);
    assert s[1..][0] == s[1];
    assert forall i :: 0 <= i < n - 1 ==> s[2..][i] == s[1..][i + 1];
    DigitsComeThrough(s[2..], n - 1);
    assert s[2..][n - 1..] == s[1 + n..];
  }

  /** What the code reads is never the shorter. */
  lemma {:induction false} IsoIsNoLonger(s: bytes)
    ensures |IsoBody(s)| <= |DecodeBody(s)|
    decreases |s|
  {
    if s != [] {
      if s[0] == BACKSLASH && |s| > 1 {
        if IsOctal(s[1]) {
          EscapedDigits(s);
          IsoIsNoLonger(s[1 + OctalRun(s[1..], 3)..]);
        } else if IsEol(s[1]) {
          ContinuedLine(s);
          IsoIsNoLonger(s[1 + EolLength(s[1..])..]);
        } else {
          IsoIsNoLonger(s[2..]);
        }
      } else if IsEol(s[0]) {
        LineEnd(s);
        IsoIsNoLonger(s[EolLength(s)..]);
      } else {
        IsoIsNoLonger(s[1..]);
      }
    }
  }

  lemma ContinuedLine(s: bytes)
    requires |s| > 1 && s[0] == BACKSLASH && IsEol(s[1])
    ensures |DecodeBody(s)| > |DecodeBody(s[1 + EolLength(s[1..])..])|
  {
    assert s[1..][0] == s[1];
    if EolLength(s[1..]) == 2 {
      assert s[1..][1] == s[2] && s[2..][0] == s[2] && s[2..][1..] == s[3..];
    }
  }

  lemma LineEnd(s: bytes)
    requires s != [] && IsEol(s[0])
    ensures |DecodeBody(s)| == EolLength(s) + |DecodeBody(s[EolLength(s)..])|
  {
    if EolLength(s) == 2 {
      assert s[1..][0] == s[1] && s[1..][1..] == s[2..];
    }
  }

  lemma OneOctalValue(b: byte)
    requires IsOctal(b)
    ensures OctalValue([b]) == b - 0x30
  {
    assert [b][..0] == [];
    assert OctalValue([b][..0]) == 0;
  }

  lemma OneDigit(s: bytes)
    requires s != [] && IsOctal(s[0]) && OctalRun(s, 3) == 1
    ensures OctalChar(s) == (s[0] - 0x30) as char
  {
    assert s[..1] == [s[0]];
    OneOctalValue(s[0]);
  }

  lemma OctalDiffers(s: bytes)
    requires |s| > 1 && s[0] == BACKSLASH && IsOctal(s[1])
    ensures DecodeBody(s) != IsoBody(s)
  {
    var n := OctalRun(s[1..], 3);
    EscapedDigits(s);
    IsoIsNoLonger(s[1 + n..]);
    if n == 1 {
      OneDigit(s[1..]);
      assert DecodeBody(s)[0] == s[1] as char != (s[1] - 0x30) as char;
      assert IsoBody(s)[0] == OctalChar(s[1..]);
    } else {
      assert |IsoBody(s)| == 1 + |IsoBody(s[1 + n..])|;
    }
  }

  /**
   * A body once cut out is decoded as the standard has it exactly when it escapes no octal
   * digit and no end of line and holds no return.
   */
  lemma {:induction false} BodyStandardExactlyWhen(s: bytes)
    ensures DecodeBody(s) == IsoBody(s) <==> ReadsAlike(s)
  {
    if s != [] {
      if s[0] == BACKSLASH && |s| > 1 {
        if IsOctal(s[1]) {
          OctalDiffers(s);
        } else if IsEol(s[1]) {
          ContinuedLine(s);
          IsoIsNoLonger(s[1 + EolLength(s[1..])..]);
        } else {
          BodyStandardExactlyWhen(s[2..]);
          assert DecodeBody(s)[1..] == DecodeBody(s[2..]) && IsoBody(s)[1..] == IsoBody(s[2..]);
        }
      } else if s[0] == RETURN {
        assert DecodeBody(s)[0] == '\r' && IsoBody(s)[0] == '\n';
      } else {
        BodyStandardExactlyWhen(s[1..]);
        assert DecodeBody(s)[1..] == DecodeBody(s[1..]) && IsoBody(s)[1..] == IsoBody(s[1..]);
      }
    }
  }

  /** An opening parenthesis written `\050` comes through as its digits. */
  lemma OctalExample()
    ensures DecodeBody([BACKSLASH, 0x30, 0x35, 0x30]) == "050"
    ensures IsoBody([BACKSLASH, 0x30, 0x35, 0x30]) == "("
  {
    var s: bytes := [BACKSLASH, 0x30, 0x35, 0x30];
    assert s[2..] == [0x35, 0x30] && s[2..][1..] == [0x30] && s[2..][1..][1..] == [];
    assert DecodeBody([]) == "" && DecodeBody([0x30]) == "0" && DecodeBody([0x35, 0x30]) == "50";
    assert s[1..] == [0x30, 0x35, 0x30] && s[1..][1..] == [0x35, 0x30];
    assert OctalRun([0x30], 1) == 1 && OctalRun([0x35, 0x30], 2) == 2 && OctalRun(s[1..], 3) == 3;
    assert s[1..][..3] == [0x30, 0x35, 0x30] && s[4..] == [];
    assert [0x30, 0x35, 0x30][..2] == [0x30, 0x35] && [0x30, 0x35][..1] == [0x30] && [0x30][..0] == [];
    assert OctalValue([0x30]) == 0 && OctalValue([0x30, 0x35]) == 5 && OctalValue([0x30, 0x35, 0x30]) == 40;
    assert OctalChar(s[1..]) == 40 as char == '(';
    assert DecodeBody(s) == ['0'] + "50" == "050";
  }

  // ---------------------------------------------------------------------------
  // Which literal strings of the standard are found and read as it has them
  // ---------------------------------------------------------------------------

  /**
   * The body of a literal string in that section: a backslash takes the next byte along,
   * and the parentheses that stand bare are balanced, `depth` of them still open.
   */
  predicate Balanced(s: bytes, depth: nat) {
    if s == [] then depth == 0
    else if s[0] == BACKSLASH then |s| > 1 && Balanced(s[2..], depth)
    else if s[0] == OPEN then Balanced(s[1..], depth + 1)
    else if s[0] == CLOSE then depth > 0 && Balanced(s[1..], depth - 1)
    else Balanced(s[1..], depth)
  }

  predicate HasBare(s: bytes) {
    if s == [] then false
    else if s[0] == BACKSLASH && |s| > 1 then HasBare(s[2..])
    else s[0] == OPEN || s[0] == CLOSE || HasBare(s[1..])
  }

  predicate EscapesLineFeed(s: bytes) {
    if s == [] then false
    else if s[0] == BACKSLASH && |s| > 1 then s[1] == NEWLINE || EscapesLineFeed(s[2..])
    else EscapesLineFeed(s[1..])
  }

  function LiteralOf(s: bytes): bytes { [OPEN] + s + [CLOSE] }

  lemma {:induction false} ReachOfLiteral(s: bytes)
    requires Balanced(s, 0)
    ensures LiteralReach(s + [CLOSE]) == if HasBare(s) || EscapesLineFeed(s) then None else Some(|s| + 1)
  {
    var t := s + [CLOSE];
    if s != [] {
      if s[0] == BACKSLASH {
        ReachOfLiteral(s[2..]);
        assert t[2..] == s[2..] + [CLOSE];
      } else if s[0] != OPEN {
        ReachOfLiteral(s[1..]);
        assert t[1..] == s[1..] + [CLOSE];
      }
    }
  }

  /** The pattern takes a literal string whole exactly when no parenthesis is bare and no line feed escaped. */
  lemma LiteralFoundExactlyWhen(s: bytes)
    requires Balanced(s, 0)
    ensures IsToken(LiteralOf(s)) <==> !HasBare(s) && !EscapesLineFeed(s)
  {
    ReachOfLiteral(s);
    assert LiteralOf(s)[1..] == s + [CLOSE];
  }

  lemma {:induction false} AlikeEscapesNoLineFeed(s: bytes)
    requires ReadsAlike(s)
    ensures !EscapesLineFeed(s)
  {
    if s != [] {
      if s[0] == BACKSLASH && |s| > 1 { AlikeEscapesNoLineFeed(s[2..]); } else { AlikeEscapesNoLineFeed(s[1..]); }
    }
  }

  function Literals(bodies: seq<bytes>): (ts: seq<bytes>)
    ensures |ts| == |bodies| && forall i :: 0 <= i < |ts| ==> ts[i] == LiteralOf(bodies[i])
  {
    seq(|bodies|, i requires 0 <= i < |bodies| => LiteralOf(bodies[i]))
  }

  /** Found whole, each and no other, and decoded as the standard has it. */
  ghost predicate ReadAsStandard(gaps: seq<bytes>, bodies: seq<bytes>)
    requires |gaps| == |bodies| + 1
  {
    && Tokens(Spread(gaps, Literals(bodies))) == Literals(bodies)
    && forall i :: 0 <= i < |bodies| ==> DecodeBody(bodies[i]) == IsoBody(bodies[i])
  }

  /**
   * Of any literal strings the standard allows, on a page with text around them that opens
   * none, each is found whole and read as the standard has it exactly when none has a bare
   * parenthesis, escapes an octal digit or an end of line, or holds a return.
   */
  lemma StandardExactlyWhen(gaps: seq<bytes>, bodies: seq<bytes>)
    requires |gaps| == |bodies| + 1 && AllQuiet(gaps)
    requires forall i :: 0 <= i < |bodies| ==> Balanced(bodies[i], 0)
    ensures ReadAsStandard(gaps, bodies) <==>
      forall i :: 0 <= i < |bodies| ==> ReadsAlike(bodies[i]) && !HasBare(bodies[i])
  {
    FoundExactlyWhen(gaps, Literals(bodies));
    forall i | 0 <= i < |bodies|
      ensures DecodeBody(bodies[i]) == IsoBody(bodies[i]) <==> ReadsAlike(bodies[i])
      ensures ReadsAlike(bodies[i]) ==> (IsToken(LiteralOf(bodies[i])) <==> !HasBare(bodies[i]))
    {
      BodyStandardExactlyWhen(bodies[i]);
      LiteralFoundExactlyWhen(bodies[i]);
      if ReadsAlike(bodies[i]) { AlikeEscapesNoLineFeed(bodies[i]); }
    }
  }

  const NESTED: bytes := [0x61, OPEN, 0x62, CLOSE, 0x63]

  lemma NestedIsLegal()
    ensures Balanced(NESTED, 0) && ReadsAlike(NESTED) && HasBare(NESTED) && IsoBody(NESTED) == "a(b)c"
  {
    var s := NESTED;
    assert s[1..] == [OPEN, 0x62, CLOSE, 0x63] && s[1..][1..] == [0x62, CLOSE, 0x63];
    assert s[1..][1..][1..] == [CLOSE, 0x63] && s[1..][1..][1..][1..] == [0x63] && [0x63][1..] == [];
    assert Balanced([0x63], 0) && Balanced([CLOSE, 0x63], 1) && Balanced([0x62, CLOSE, 0x63], 1);
    assert ReadsAlike([0x63]) && ReadsAlike([CLOSE, 0x63]) && ReadsAlike([0x62, CLOSE, 0x63]);
    assert IsoBody([0x63]) == "c" && IsoBody([CLOSE, 0x63]) == ")c" && IsoBody([0x62, CLOSE, 0x63]) == "b)c";
    assert IsoBody([OPEN, 0x62, CLOSE, 0x63]) == "(" + IsoBody([0x62, CLOSE, 0x63]);
  }

  /** Of the legal string `(a(b)c)` only the inner one is found. */
  lemma NestedExample()
    ensures Balanced(NESTED, 0) && ReadsAlike(NESTED) && IsoBody(NESTED) == "a(b)c"
    ensures Tokens(LiteralOf(NESTED)) == [LiteralOf([0x62])] && DecodeBody([0x62]) == "b"
  {
    NestedIsLegal();
    var t, tail: bytes := LiteralOf([0x62]), [0x63, CLOSE];
    LiteralFoundExactlyWhen([0x62]);
    FirstToken(t, tail);
    SkipQuiet(tail, []);
    assert tail + [] == tail;
    NestedOpens(t, tail);
    assert LiteralOf(NESTED) == [OPEN, 0x61] + (t + tail);
  }

  lemma NestedOpens(t: bytes, tail: bytes)
    requires t != [] && t[0] == OPEN
    ensures Tokens([OPEN, 0x61] + (t + tail)) == Tokens(t + tail)
  {
    var s := [OPEN, 0x61] + (t + tail);
    assert s[1..] == [0x61] + (t + tail) && s[1..][1..] == t + tail;
    assert (t + tail)[0] == OPEN;
    assert LiteralReach(s[1..]).None?;
  }
}
