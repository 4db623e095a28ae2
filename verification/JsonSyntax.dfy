/**
 * Strings and numbers as RFC 8259 and UTF-16 spell them, piece by piece, and
 * the proof that the grammar functions read exactly these spellings.
 */
module JsonSyntax {
  import opened Words
  import opened Wrappers
  import opened JsonValue
  import opened JsonText
  import opened JsonGrammar

  // -------------------------------------------------------------------------
  // Hexadecimal digits
  // -------------------------------------------------------------------------

  /** Each digit has one character below ten and two from ten up. */
  lemma HexDigitsExactly(c: char, d: nat)
    requires d < 16
    ensures IsHexDigit(c) && HexValue(c) == d <==> c == "0123456789abcdef"[d] || c == "0123456789ABCDEF"[d]
    ensures DigitChar(d) == "0123456789abcdef"[d]
  {
  }

  lemma Hex4Reads(d: string, rest: string)
    requires |d| == 4 && AllHex(d)
    ensures ReadHex4(d + rest) == Ok((NumberOf(d, Sixteen), rest))
  {
    hide HexValue, IsHexDigit;
    var s := d + rest;
    assert s[..4] == d && s[4..] == rest;
    FourDigits(d);
  }

  lemma FourDigits(d: string)
    requires |d| == 4 && AllHex(d)
    ensures NumberOf(d, Sixteen) == ((HexValue(d[0]) * 16 + HexValue(d[1])) * 16 + HexValue(d[2])) * 16 + HexValue(d[3])
    ensures NumberOf(d, Sixteen) < 0x1_0000
  {
    hide HexValue, IsHexDigit;
    assert d[..3][..2] == d[..2] && d[..2][..1] == d[..1] && d[..1][..0] == "";
    assert NumberOf(d[..0], Sixteen) == 0;
    assert NumberOf(d[..1], Sixteen) == HexValue(d[0]);
    assert NumberOf(d[..2], Sixteen) == HexValue(d[0]) * 16 + HexValue(d[1]);
    assert NumberOf(d[..3], Sixteen) == (HexValue(d[0]) * 16 + HexValue(d[1])) * 16 + HexValue(d[2]);
  }

  // -------------------------------------------------------------------------
  // Surrogates
  // -------------------------------------------------------------------------

  predicate IsHigh(n: nat) {
    0xD800 <= n <= 0xDBFF
  }

  predicate IsLow(n: nat) {
    0xDC00 <= n <= 0xDFFF
  }

  /** The two halves UTF-16 splits a code point of a higher plane into. */
  function HighOf(cp: nat): (n: nat)
    requires 0x1_0000 <= cp <= 0x10_FFFF
    ensures IsHigh(n)
  {
    0xD800 + (cp - 0x1_0000) / 0x400
  }

  function LowOf(cp: nat): (n: nat)
    requires 0x1_0000 <= cp <= 0x10_FFFF
    ensures IsLow(n)
  {
    0xDC00 + (cp - 0x1_0000) % 0x400
  }

  /** Putting the halves together again gives the code point, and every pair of halves is some code point's. */
  lemma SurrogatesInvert(cp: nat, high: nat, low: nat)
    ensures 0x1_0000 <= cp <= 0x10_FFFF ==> FromSurrogates(HighOf(cp), LowOf(cp)) == cp
    ensures IsHigh(high) && IsLow(low) ==>
              HighOf(FromSurrogates(high, low)) == high && LowOf(FromSurrogates(high, low)) == low
  {
  }

  // -------------------------------------------------------------------------
  // The pieces of a string
  // -------------------------------------------------------------------------

  datatype Piece =
    | Plain(c: char)
    | Short(letter: char)
    | Unit(digits: string)
    | Pair(high: string, low: string)

  /** The characters that have a two-character escape. */
  function ShortMeaning(letter: char): Option<char> {
    if letter == '"' || letter == '\\' || letter == '/' then Some(letter)
    else if letter == 'b' then Some(8 as char)
    else if letter == 't' then Some(9 as char)
    else if letter == 'n' then Some(10 as char)
    else if letter == 'f' then Some(12 as char)
    else if letter == 'r' then Some(13 as char)
    else None
  }

  predicate IsHex4(d: string) {
    |d| == 4 && AllHex(d)
  }

  predicate Legal(p: Piece) {
    match p
    case Plain(c) => c as int >= 0x20 && c != '"' && c != '\\'
    case Short(letter) => ShortMeaning(letter).Some?
    case Unit(d) => IsHex4(d) && !IsHigh(NumberOf(d, Sixteen)) && !IsLow(NumberOf(d, Sixteen))
    case Pair(h, l) => IsHex4(h) && IsHex4(l) && IsHigh(NumberOf(h, Sixteen)) && IsLow(NumberOf(l, Sixteen))
  }

  /** What follows the first backslash and `u` of a unicode escape. */
  function UnitsOf(p: Piece): string
    requires p.Unit? || p.Pair?
  {
    if p.Unit? then p.digits else p.high + ("\\u" + p.low)
  }

  function Spelling(p: Piece): (s: string)
    ensures s != ""
  {
    match p
    case Plain(c) => [c]
    case Short(letter) => ['\\', letter]
    case _ => "\\u" + UnitsOf(p)
  }

  /** The code point a unicode escape names: in UTF-16 it is spelled with exactly these units. */
  function PointOf(p: Piece): (cp: nat)
    requires Legal(p) && (p.Unit? || p.Pair?)
    ensures cp <= 0x10_FFFF && !IsHigh(cp) && !IsLow(cp)
    ensures p.Unit? ==> cp == NumberOf(p.digits, Sixteen)
    ensures p.Pair? ==>
              cp >= 0x1_0000 && NumberOf(p.high, Sixteen) == HighOf(cp) && NumberOf(p.low, Sixteen) == LowOf(cp)
  {
    match p
    case Unit(d) =>
      FourDigits(d);
      NumberOf(d, Sixteen)
    case Pair(h, l) => Joined(NumberOf(h, Sixteen), NumberOf(l, Sixteen))
  }

  /** Ten bits of each half, above the first plane. */
  function Joined(high: nat, low: nat): (cp: nat)
    requires IsHigh(high) && IsLow(low)
    ensures 0x1_0000 <= cp <= 0x10_FFFF && HighOf(cp) == high && LowOf(cp) == low
  {
    0x1_0000 + high % 0x400 * 0x400 + low % 0x400
  }

  function Meaning(p: Piece): string
    requires Legal(p)
  {
    match p
    case Plain(c) => [c]
    case Short(letter) => [ShortMeaning(letter).value]
    case _ => EncodeUtf8(PointOf(p))
  }

  /** A unit outside the surrogates, or a high and a low one, in digits of either case, is the code point. */
  lemma EscapedPointReads(p: Piece, rest: string)
    requires Legal(p) && (p.Unit? || p.Pair?)
    ensures ReadCodePoint(UnitsOf(p) + rest) == Ok((PointOf(p), rest))
  {
    hide ReadHex4, NumberOf;
    match p
    case Unit(d) =>
      Hex4Reads(d, rest);
    case Pair(h, l) =>
      var after := "\\u" + l + rest;
      assert UnitsOf(p) + rest == h + after;
      assert after[2..] == l + rest;
      Hex4Reads(h, after);
      Hex4Reads(l, rest);
      SurrogatesInvert(PointOf(p), 0, 0);
  }

  lemma PieceReads(p: Piece, rest: string, out: string)
    requires Legal(p)
    ensures ReadChars(Spelling(p) + rest, out) == ReadChars(rest, out + Meaning(p))
  {
    hide ReadEscape, EncodeUtf8, NumberOf, UnitsOf;
    var s := Spelling(p) + rest;
    if p.Plain? {
      assert s[1..] == rest;
    } else {
      EscapeReads(p, rest);
      assert s == ['\\'] + s[1..];
    }
  }

  lemma EscapeReads(p: Piece, rest: string)
    requires Legal(p) && !p.Plain?
    ensures ReadEscape((Spelling(p) + rest)[1..]) == Ok((Meaning(p), rest)) && Spelling(p)[0] == '\\'
  {
    hide ReadCodePoint, EncodeUtf8, NumberOf, UnitsOf;
    var e := (Spelling(p) + rest)[1..];
    if p.Short? {
      assert e == [p.letter] + rest;
    } else {
      assert e == "u" + (UnitsOf(p) + rest);
      EscapedPointReads(p, rest);
      assert e[1..] == UnitsOf(p) + rest;
    }
  }

  /** Conversely, whatever is read after a backslash and a `u` is spelled like that. */
  lemma ReadPointIsEscaped(s: string) returns (p: Piece)
    requires ReadCodePoint(s).Ok?
    ensures (p.Unit? || p.Pair?) && Legal(p)
    ensures s == UnitsOf(p) + ReadCodePoint(s).value.1 && ReadCodePoint(s).value.0 == PointOf(p)
  {
    hide HexValue, IsHexDigit;
    var d, rest := s[..4], s[4..];
    FourDigits(d);
    hide NumberOf;
    assert s == d + rest;
    if IsHigh(NumberOf(d, Sixteen)) {
      var l := rest[2..][..4];
      FourDigits(l);
      p := Pair(d, l);
      assert rest == "\\u" + l + rest[2..][4..];
      SurrogatesInvert(0, NumberOf(d, Sixteen), NumberOf(l, Sixteen));
      SurrogatesInvert(PointOf(p), 0, 0);
    } else {
      p := Unit(d);
    }
  }

  lemma ReadEscapeIsPiece(s: string) returns (p: Piece)
    requires ReadEscape(s).Ok?
    ensures Legal(p) && !p.Plain? && ['\\'] + s == Spelling(p) + ReadEscape(s).value.1
    ensures ReadEscape(s).value.0 == Meaning(p)
  {
    hide ReadCodePoint, EncodeUtf8, NumberOf, ReadEscape;
    EscapeCases(s);
    if s[0] == 'u' {
      p := ReadPointIsEscaped(s[1..]);
      UnicodeSpelling(p, s, ReadCodePoint(s[1..]).value.1);
    } else {
      p := Short(s[0]);
      assert ['\\'] + s == ['\\', s[0]] + s[1..];
    }
  }

  lemma EscapeCases(s: string)
    requires ReadEscape(s).Ok?
    ensures s != ""
    ensures s[0] == 'u' ==>
              ReadCodePoint(s[1..]).Ok? &&
              ReadEscape(s).value == (EncodeUtf8(ReadCodePoint(s[1..]).value.0), ReadCodePoint(s[1..]).value.1)
    ensures s[0] != 'u' ==>
              ShortMeaning(s[0]).Some? && ReadEscape(s).value == ([ShortMeaning(s[0]).value], s[1..])
  {
    hide ReadCodePoint, EncodeUtf8;
  }

  lemma UnicodeSpelling(p: Piece, s: string, rest: string)
    requires p.Unit? || p.Pair?
    requires s != "" && s[0] == 'u' && s[1..] == UnitsOf(p) + rest
    ensures ['\\'] + s == Spelling(p) + rest
  {
    hide UnitsOf;
    assert ['\\'] + s == "\\u" + s[1..];
  }

  predicate AllLegal(ps: seq<Piece>) {
    forall i :: 0 <= i < |ps| ==> Legal(ps[i])
  }

  function SpellAll(ps: seq<Piece>): string {
    if ps == [] then "" else Spelling(ps[0]) + SpellAll(ps[1..])
  }

  function MeanAll(ps: seq<Piece>): string
    requires AllLegal(ps)
  {
    if ps == [] then "" else Meaning(ps[0]) + MeanAll(ps[1..])
  }

  lemma Gather(a: string, b: string, c: string, d: string)
    ensures a + (b + c) == a + b + c && a + b + c + d == a + (b + c + d)
  {
  }

  lemma {:induction false} PiecesRead(ps: seq<Piece>, post: string, out: string)
    requires AllLegal(ps)
    ensures ReadChars(SpellAll(ps) + "\"" + post, out) == Ok((out + MeanAll(ps), post))
    decreases |ps|
  {
    hide Legal, Spelling, Meaning;
    if ps == [] {
      assert SpellAll(ps) + "\"" + post == "\"" + post;
      assert ("\"" + post)[1..] == post;
      assert out + MeanAll(ps) == out;
    } else {
      hide ReadChars;
      Gather(Spelling(ps[0]), SpellAll(ps[1..]), "\"", post);
      PieceReads(ps[0], SpellAll(ps[1..]) + "\"" + post, out);
      PiecesRead(ps[1..], post, out + Meaning(ps[0]));
      Gather(out, Meaning(ps[0]), MeanAll(ps[1..]), "");
    }
  }

  lemma {:induction false} CharsArePieces(s: string, out: string) returns (ps: seq<Piece>)
    requires ReadChars(s, out).Ok?
    ensures AllLegal(ps)
    ensures s == SpellAll(ps) + "\"" + ReadChars(s, out).value.1
    ensures ReadChars(s, out).value.0 == out + MeanAll(ps)
    decreases |s|
  {
    hide ReadEscape, Legal, Spelling, Meaning;
    if s[0] == '"' {
      ps := [];
      assert s == "\"" + s[1..];
    } else {
      var p: Piece, rest: string;
      if s[0] != '\\' {
        p, rest := Plain(s[0]), s[1..];
        PlainIsLegal(s[0]);
        assert s == [s[0]] + rest;
      } else {
        p := ReadEscapeIsPiece(s[1..]);
        rest := ReadEscape(s[1..]).value.1;
        assert s == ['\\'] + s[1..];
      }
      assert s == Spelling(p) + rest;
      assert ReadChars(s, out) == ReadChars(rest, out + Meaning(p));
      var more := CharsArePieces(rest, out + Meaning(p));
      ps := [p] + more;
      PrependPiece(p, more);
      Gather(Spelling(p), SpellAll(more), "\"", ReadChars(s, out).value.1);
      Gather(out, Meaning(p), MeanAll(more), "");
    }
  }

  lemma PlainIsLegal(c: char)
    requires c as int >= 0x20 && c != '"' && c != '\\'
    ensures Legal(Plain(c)) && Spelling(Plain(c)) == [c] && Meaning(Plain(c)) == [c]
  {
  }

  lemma PrependPiece(p: Piece, ps: seq<Piece>)
    requires Legal(p) && AllLegal(ps)
    ensures AllLegal([p] + ps) && SpellAll([p] + ps) == Spelling(p) + SpellAll(ps)
    ensures MeanAll([p] + ps) == Meaning(p) + MeanAll(ps)
  {
    assert ([p] + ps)[1..] == ps;
  }

  /**
   * A string is read, with this result and this rest, exactly when the text is
   * a quoted run of plain characters and legal escapes that mean it.
   */
  lemma StringsExactly(s: string, bytes: string, rest: string)
    ensures ReadString(s) == Ok((bytes, rest)) <==>
            exists ps :: AllLegal(ps) && bytes == MeanAll(ps) && s == "\"" + SpellAll(ps) + "\"" + rest
  {
    hide ReadChars, Legal, SpellAll, MeanAll;
    if ReadString(s) == Ok((bytes, rest)) {
      var ps := CharsArePieces(s[1..], "");
      assert s == "\"" + s[1..];
      Gather("\"", SpellAll(ps), "\"", rest);
      assert bytes == "" + MeanAll(ps) == MeanAll(ps);
    }
    if ps :| AllLegal(ps) && bytes == MeanAll(ps) && s == "\"" + SpellAll(ps) + "\"" + rest {
      Gather("\"", SpellAll(ps), "\"", rest);
      assert s[1..] == SpellAll(ps) + "\"" + rest;
      PiecesRead(ps, rest, "");
      assert "" + MeanAll(ps) == MeanAll(ps);
    }
  }

  lemma PairIsPoint(cp: nat, point: nat)
    requires 0x1_0000 <= cp <= 0x10_FFFF && 0x1_0000 <= point <= 0x10_FFFF
    requires HighOf(point) == HighOf(cp) && LowOf(point) == LowOf(cp)
    ensures point == cp
  {
  }

  /** A pair in a string, in digits of either case, is the UTF-8 of the code point split that way. */
  lemma PairInString(cp: nat, high: string, low: string, rest: string)
    requires 0x1_0000 <= cp <= 0x10_FFFF && IsHex4(high) && IsHex4(low)
    requires NumberOf(high, Sixteen) == HighOf(cp) && NumberOf(low, Sixteen) == LowOf(cp)
    ensures ReadString("\"\\u" + high + "\\u" + low + "\"" + rest).Ok?
    ensures var r := ReadString("\"\\u" + high + "\\u" + low + "\"" + rest).value;
      DecodeUtf8(r.0) == Some(cp) && r.1 == rest
  {
    hide ReadString, NumberOf, EncodeUtf8, DecodeUtf8, AllHex;
    var p := Pair(high, low);
    PairIsPoint(cp, PointOf(p));
    hide PointOf;
    PrependPiece(p, []);
    assert [p] + [] == [p] && SpellAll([p]) == Spelling(p) && MeanAll([p]) == Meaning(p) == EncodeUtf8(cp);
    var s := "\"\\u" + high + "\\u" + low + "\"" + rest;
    assert s == "\"" + SpellAll([p]) + "\"" + rest;
    StringsExactly(s, MeanAll([p]), rest);
    EncodedIsWellFormed(cp);
  }

  // -------------------------------------------------------------------------
  // Numbers
  // -------------------------------------------------------------------------

  datatype Token = Token(minus: bool, whole: string, fraction: string, exponent: string)

  predicate SomeDigits(s: string) {
    s != "" && AllDigits(s)
  }

  /** A zero, or digits that do not start with one; then a fraction and an exponent, each with digits if at all. */
  predicate IsToken(t: Token) {
    && SomeDigits(t.whole) && (t.whole[0] == '0' ==> t.whole == "0")
    && (t.fraction != "" ==> t.fraction[0] == '.' && SomeDigits(t.fraction[1..]))
    && (t.exponent != "" ==> (t.exponent[0] == 'e' || t.exponent[0] == 'E') && IsPower(t.exponent[1..]))
  }

  predicate IsPower(s: string) {
    SomeDigits(s) || (s != "" && (s[0] == '+' || s[0] == '-') && SomeDigits(s[1..]))
  }

  function Sign(t: Token): string {
    if t.minus then "-" else ""
  }

  function TokenText(t: Token): string {
    Sign(t) + (t.whole + (t.fraction + t.exponent))
  }

  predicate IsPlain(t: Token) {
    t.fraction == "" && t.exponent == ""
  }

  /** What follows cannot be taken for more of the token; after a single zero, digits cannot either. */
  predicate EndsToken(t: Token, rest: string) {
    rest != "" ==>
      && (IsDigit(rest[0]) ==> IsPlain(t) && t.whole == "0")
      && (t.exponent == "" ==> rest[0] != 'e' && rest[0] != 'E')
      && (IsPlain(t) ==> rest[0] != '.')
  }

  /** The value, if it is in range: an integer unless there is a fraction or an exponent. */
  function TokenMeaning(t: Token): Option<Value>
    requires IsToken(t)
  {
    var n := NumberOf(t.whole, Ten);
    if !IsPlain(t) then Some(Double(TokenText(t)))
    else if t.minus then (if n <= I64_LIMIT then Some(Int(0 - n)) else None)
    else if n < U64_LIMIT then Some(UInt(n))
    else None
  }

  lemma {:induction false} SpanIs(d: string, rest: string)
    requires AllDigits(d) && (rest == "" || !IsDigit(rest[0]))
    ensures DigitSpan(d + rest) == |d|
  {
    if d == "" {
      assert d + rest == rest;
    } else {
      assert (d + rest)[1..] == d[1..] + rest;
      SpanIs(d[1..], rest);
    }
  }

  lemma FractionReads(f: string, rest: string)
    requires f != "" ==> f[0] == '.' && SomeDigits(f[1..])
    requires rest != "" ==> (f != "" ==> !IsDigit(rest[0])) && (f == "" ==> rest[0] != '.')
    ensures ReadFraction(f + rest) == Ok(|f|)
  {
    hide DigitSpan;
    if f == "" {
      assert f + rest == rest;
    } else {
      assert (f + rest)[1..] == f[1..] + rest;
      SpanIs(f[1..], rest);
    }
  }

  lemma ExponentReads(e: string, rest: string)
    requires e != "" ==> (e[0] == 'e' || e[0] == 'E') && IsPower(e[1..])
    requires rest != "" ==> (e != "" ==> !IsDigit(rest[0])) && (e == "" ==> rest[0] != 'e' && rest[0] != 'E')
    ensures ReadExponent(e + rest) == Ok(|e|)
  {
    hide DigitSpan;
    if e == "" {
      assert e + rest == rest;
    } else if SomeDigits(e[1..]) {
      assert (e + rest)[1..] == e[1..] + rest;
      SpanIs(e[1..], rest);
    } else {
      assert (e + rest)[2..] == e[1..][1..] + rest;
      SpanIs(e[1..][1..], rest);
    }
  }

  lemma TailReads(t: Token, rest: string)
    requires IsToken(t) && EndsToken(t, rest)
    ensures ReadTail(t.fraction + t.exponent + rest) == Ok(|t.fraction + t.exponent|)
  {
    hide ReadFraction, ReadExponent;
    var f, e := t.fraction, t.exponent;
    FractionReads(f, e + rest);
    ExponentReads(e, rest);
    assert f + e + rest == f + (e + rest);
    assert (f + e + rest)[|f|..] == e + rest;
  }

  lemma WholeReads(t: Token, rest: string)
    requires IsToken(t) && EndsToken(t, rest)
    ensures var s := t.whole + (t.fraction + t.exponent + rest);
      s != "" && IsDigit(s[0]) && WholeDigits(s) == |t.whole|
  {
    if t.whole != "0" {
      SpanIs(t.whole, t.fraction + t.exponent + rest);
    }
  }

  /** The four cuts the grammar makes in a token and what follows it. */
  lemma TokenCuts(t: Token, rest: string)
    requires t.whole != ""
    ensures var s, k := TokenText(t) + rest, |Sign(t)|;
      && s[k..] == t.whole + (t.fraction + t.exponent + rest)
      && s[k + |t.whole|..] == t.fraction + t.exponent + rest
      && s[..|TokenText(t)|] == TokenText(t) && s[|TokenText(t)|..] == rest
      && TokenText(t)[k..] == t.whole + (t.fraction + t.exponent)
  {
    var s := TokenText(t) + rest;
    assert s == Sign(t) + (t.whole + (t.fraction + t.exponent + rest));
  }

  lemma TokenReads(t: Token, rest: string)
    requires IsToken(t) && EndsToken(t, rest) && TokenMeaning(t).Some?
    ensures ReadNumber(TokenText(t) + rest) == Ok((TokenMeaning(t).value, rest))
  {
    hide ReadTail, WholeDigits, EndsToken, ReadNumber, NumberOf;
    var s, k := TokenText(t) + rest, |Sign(t)|;
    TokenCuts(t, rest);
    WholeReads(t, rest);
    TailReads(t, rest);
    NumberPieces(s);
    assert SignOf(s) == k by {
      assert s[k] == t.whole[0];
      assert t.minus ==> s[0] == '-';
    }
    if IsPlain(t) {
      assert TokenText(t)[k..] == t.whole;
    }
  }

  lemma NumberIsToken(s: string) returns (t: Token)
    requires ReadNumber(s).Ok?
    ensures IsToken(t) && s == TokenText(t) + ReadNumber(s).value.1 && EndsToken(t, ReadNumber(s).value.1)
    ensures TokenMeaning(t) == Some(ReadNumber(s).value.0)
  {
    hide *;
    var sign, d, tail := NumberParts(s);
    var f, e := TailIsPieces(s[sign + d..]);
    t := Token(sign == 1, s[sign..][..d], f, e);
    var rest := s[sign + d + tail..];
    assert rest == s[sign + d..][tail..];
    WholeIsDigits(s[sign..]);
    assert s[sign..][d..] == s[sign + d..];
    PartsAreToken(t, rest);
    Reassembled(s, t, d, rest);
    assert sign == |Sign(t)| by { SignIs(t); }
    PlainTail(t);
    TokenValue(t, sign);
  }

  lemma SignIs(t: Token)
    ensures |Sign(t)| == if t.minus then 1 else 0
  {
  }

  lemma PlainTail(t: Token)
    ensures IsPlain(t) <==> |t.fraction + t.exponent| == 0
  {
  }

  lemma PartsAreToken(t: Token, rest: string)
    requires SomeDigits(t.whole) && (t.whole[0] == '0' ==> t.whole == "0")
    requires t.fraction != "" ==> t.fraction[0] == '.' && SomeDigits(t.fraction[1..])
    requires t.exponent != "" ==> (t.exponent[0] == 'e' || t.exponent[0] == 'E') && IsPower(t.exponent[1..])
    requires t.fraction + t.exponent + rest != "" && IsDigit((t.fraction + t.exponent + rest)[0]) ==> t.whole == "0"
    requires rest != "" ==>
               && (IsDigit(rest[0]) ==> t.fraction == "" && t.exponent == "")
               && (t.exponent == "" ==> rest[0] != 'e' && rest[0] != 'E')
               && (t.fraction == "" && t.exponent == "" ==> rest[0] != '.')
    ensures IsToken(t) && EndsToken(t, rest)
  {
    hide SomeDigits, IsPower, IsDigit;
    if IsPlain(t) {
      assert t.fraction + t.exponent + rest == rest;
    }
  }

  /** Where the grammar cuts a number: after the sign, the digits, and the fraction and exponent. */
  lemma NumberParts(s: string) returns (sign: nat, d: nat, tail: nat)
    requires ReadNumber(s).Ok?
    ensures sign == SignOf(s) <= 1 && sign + d + tail <= |s| && sign < |s| && IsDigit(s[sign])
    ensures d == WholeDigits(s[sign..]) && ReadTail(s[sign + d..]) == Ok(tail)
    ensures tail == 0 ==> AllDigits(s[..sign + d + tail][sign..])
    ensures NumberFrom(s[..sign + d + tail], sign, tail > 0) == Ok(ReadNumber(s).value.0)
    ensures ReadNumber(s).value.1 == s[sign + d + tail..]
  {
    hide ReadNumber, ReadTail, WholeDigits, NumberFrom;
    NumberPieces(s);
    sign := SignOf(s);
    d := WholeDigits(s[sign..]);
    tail := ReadTail(s[sign + d..]).value;
  }

  lemma Reassembled(s: string, t: Token, d: nat, rest: string)
    requires SignOf(s) + d <= |s| && t.minus == (SignOf(s) == 1) && t.whole == s[SignOf(s)..][..d]
    requires s[SignOf(s) + d..] == t.fraction + t.exponent + rest
    ensures s == TokenText(t) + rest && |TokenText(t)| == SignOf(s) + d + |t.fraction + t.exponent|
    ensures s[..SignOf(s) + d + |t.fraction + t.exponent|] == TokenText(t)
  {
    var k := SignOf(s);
    assert Sign(t) == s[..k];
    assert s == s[..k] + (s[k..][..d] + s[k + d..]);
  }

  lemma TokenValue(t: Token, sign: nat)
    requires IsToken(t) && sign == |Sign(t)|
    requires IsPlain(t) ==> AllDigits(TokenText(t)[sign..])
    ensures var r := NumberFrom(TokenText(t), sign, |t.fraction + t.exponent| > 0);
      TokenMeaning(t) == if r.Ok? then Some(r.value) else None
  {
    hide NumberOf;
    if IsPlain(t) {
      assert TokenText(t)[sign..] == t.whole;
    }
  }

  lemma WholeIsDigits(s: string)
    requires s != "" && IsDigit(s[0])
    ensures var w, rest := s[..WholeDigits(s)], s[WholeDigits(s)..];
      && SomeDigits(w) && (w[0] == '0' ==> w == "0")
      && (rest != "" && IsDigit(rest[0]) ==> w == "0")
  {
  }

  lemma TailIsPieces(s: string) returns (f: string, e: string)
    requires ReadTail(s).Ok?
    ensures |f + e| == ReadTail(s).value && s == f + e + s[|f + e|..]
    ensures f != "" ==> f[0] == '.' && SomeDigits(f[1..])
    ensures e != "" ==> (e[0] == 'e' || e[0] == 'E') && IsPower(e[1..])
    ensures var rest := s[|f + e|..];
      rest != "" ==>
        && (IsDigit(rest[0]) ==> f == "" && e == "")
        && (e == "" ==> rest[0] != 'e' && rest[0] != 'E')
        && (f == "" && e == "" ==> rest[0] != '.')
  {
    hide DigitSpan;
    var n := ReadFraction(s).value;
    var m := ReadExponent(s[n..]).value;
    f, e := s[..n], s[n..][..m];
    assert s[n..][m..] == s[n + m..];
    if n > 0 {
      assert f[1..] == s[1..][..n - 1];
      assert n < |s| ==> s[1..][n - 1] == s[n];
    }
    if m > 0 {
      ExponentIsPower(s[n..]);
    }
  }

  lemma ExponentIsPower(s: string)
    requires ReadExponent(s).Ok? && ReadExponent(s).value > 0
    ensures var m := ReadExponent(s).value;
      && (s[0] == 'e' || s[0] == 'E') && IsPower(s[..m][1..]) && (m < |s| ==> !IsDigit(s[m]))
  {
    hide DigitSpan;
    var m := ReadExponent(s).value;
    var sign := if |s| > 1 && (s[1] == '+' || s[1] == '-') then 1 else 0;
    var d := DigitSpan(s[1 + sign..]);
    assert m == 1 + sign + d;
    assert m < |s| ==> s[1 + sign..][d] == s[m];
    if sign == 0 {
      assert s[..m][1..] == s[1..][..d];
    } else {
      assert s[..m][1..][1..] == s[2..][..d];
      assert s[..m][1..][0] == s[1];
    }
  }

  /** A number is read, with this value and this rest, exactly when the text is a token of it that ends there. */
  lemma NumbersExactly(s: string, v: Value, rest: string)
    ensures ReadNumber(s) == Ok((v, rest)) <==>
            exists t :: IsToken(t) && TokenMeaning(t) == Some(v) && EndsToken(t, rest) && s == TokenText(t) + rest
  {
    hide ReadNumber, IsToken, EndsToken, TokenText, TokenMeaning;
    if ReadNumber(s) == Ok((v, rest)) {
      var t := NumberIsToken(s);
    }
    if t :| IsToken(t) && TokenMeaning(t) == Some(v) && EndsToken(t, rest) && s == TokenText(t) + rest {
      TokenReads(t, rest);
    }
  }
}
