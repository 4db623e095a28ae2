/** The bytes JSON is written in: escapes, decimal and hexadecimal digits, UTF-8, blanks. */
module JsonText {
  import opened Words
  import opened Wrappers

  // -------------------------------------------------------------------------
  // Digits
  // -------------------------------------------------------------------------

  predicate IsDigit(c: char) {
    '0' <= c <= '9'
  }

  function DigitChar(d: nat): (c: char)
    requires d < 16
    ensures IsHexDigit(c) && HexValue(c) == d && !('A' <= c <= 'F')
    ensures d < 10 ==> IsDigit(c)
    ensures c == '0' <==> d == 0
  {
    if d < 10 then '0' + d as char else 'a' + (d - 10) as char
  }

  predicate IsHexDigit(c: char) {
    '0' <= c <= '9' || 'a' <= c <= 'f' || 'A' <= c <= 'F'
  }

  function HexValue(c: char): (d: nat)
    requires IsHexDigit(c)
    ensures d < 16
    ensures IsDigit(c) ==> d == c as int - '0' as int
  {
    if '0' <= c <= '9' then c as int - '0' as int
    else if 'a' <= c <= 'f' then c as int - 'a' as int + 10
    else c as int - 'A' as int + 10
  }

  datatype Base = Ten | Sixteen

  function Times(n: nat, base: Base): (r: nat)
    ensures n == 0 ==> r == 0
  {
    if base == Ten then n * 10 else n * 16
  }

  function Over(n: nat, base: Base): (q: nat)
    ensures n > 0 ==> q < n
    ensures Times(q, base) + Rest(n, base) == n
    ensures q > 0 <==> n >= Times(1, base)
  {
    if base == Ten then n / 10 else n / 16
  }

  function Rest(n: nat, base: Base): (d: nat)
    ensures d < 16 && (base == Ten ==> d < 10)
    ensures n < Times(1, base) ==> d == n
  {
    if base == Ten then n % 10 else n % 16
  }

  predicate AllDigits(s: string) {
    forall k :: 0 <= k < |s| ==> IsDigit(s[k])
  }

  predicate AllHex(s: string) {
    forall k :: 0 <= k < |s| ==> IsHexDigit(s[k])
  }

  /** `n` in a base, most significant digit first, without leading zeros. */
  function Numeral(n: nat, base: Base): (s: string)
    ensures |s| > 0 && AllHex(s) && (base == Ten ==> AllDigits(s))
    ensures s[0] == '0' <==> n == 0
    ensures n == 0 ==> |s| == 1
  {
    if Over(n, base) == 0 then [DigitChar(Rest(n, base))]
    else Numeral(Over(n, base), base) + [DigitChar(Rest(n, base))]
  }

  /** The number a string of digits stands for. */
  function NumberOf(s: string, base: Base): nat
    requires AllHex(s)
  {
    if s == "" then 0 else Times(NumberOf(s[..|s| - 1], base), base) + HexValue(s[|s| - 1])
  }

  lemma {:induction false} NumeralRoundTrip(n: nat, base: Base)
    ensures NumberOf(Numeral(n, base), base) == n
    decreases n
  {
    hide DigitChar, HexValue, Times, Over, Rest;
    var s := Numeral(n, base);
    if Over(n, base) == 0 {
      assert s[..|s| - 1] == "";
    } else {
      NumeralRoundTrip(Over(n, base), base);
      assert s[..|s| - 1] == Numeral(Over(n, base), base);
    }
  }

  lemma NumberAppends(s: string, c: char, base: Base)
    requires AllHex(s) && IsHexDigit(c)
    ensures AllHex(s + [c]) && NumberOf(s + [c], base) == Times(NumberOf(s, base), base) + HexValue(c)
  {
    assert (s + [c])[..|s|] == s;
  }

  /** How many leading characters are decimal digits. */
  function DigitSpan(s: string): (k: nat)
    ensures k <= |s| && (forall j :: 0 <= j < k ==> IsDigit(s[j])) && (k < |s| ==> !IsDigit(s[k]))
  {
    if s == "" || !IsDigit(s[0]) then 0 else 1 + DigitSpan(s[1..])
  }

  // -------------------------------------------------------------------------
  // Blanks
  // -------------------------------------------------------------------------

  predicate IsWs(c: char) {
    c == ' ' || c == '\t' || c == '\n' || c == '\r'
  }

  predicate AllWs(s: string) {
    forall k :: 0 <= k < |s| ==> IsWs(s[k])
  }

  function SkipWs(s: string): (r: string)
    ensures |r| <= |s| && (r == "" || !IsWs(r[0]))
  {
    if s == "" || !IsWs(s[0]) then s else SkipWs(s[1..])
  }

  lemma {:induction false} SkipsBlanks(ws: string, s: string)
    requires AllWs(ws) && (s == "" || !IsWs(s[0]))
    ensures SkipWs(ws + s) == s
  {
    if ws == "" {
      assert ws + s == s;
    } else {
      assert (ws + s)[1..] == ws[1..] + s;
      SkipsBlanks(ws[1..], s);
    }
  }

  // -------------------------------------------------------------------------
  // Escapes
  // -------------------------------------------------------------------------

  /** The shortest legal escape; bytes from 0x20 up pass through. */
  function EscapeChar(c: char): (e: string)
    ensures e != ""
  {
    if c == '"' then "\\\""
    else if c == '\\' then "\\\\"
    else if c as int == 8 then "\\b"
    else if c as int == 12 then "\\f"
    else if c == '\n' then "\\n"
    else if c == '\r' then "\\r"
    else if c == '\t' then "\\t"
    else if c as int < 0x20 then "\\u00" + [DigitChar(c as int / 16), DigitChar(c as int % 16)]
    else [c]
  }

  function EscapeChars(s: string): string {
    if s == "" then "" else EscapeChar(s[0]) + EscapeChars(s[1..])
  }

  function Quote(s: string): string {
    "\"" + EscapeChars(s) + "\""
  }

  // -------------------------------------------------------------------------
  // UTF-8
  // -------------------------------------------------------------------------

  function Byte(n: int): char
    requires 0 <= n < 256
  {
    n as char
  }

  /** `encode_utf8`; the source's shifts and masks are divisions and remainders by powers of two. */
  function EncodeUtf8(cp: nat): string
    requires cp <= 0x10_FFFF
  {
    if cp <= 0x7F then [Byte(cp)]
    else if cp <= 0x7FF then [Byte(0xC0 + cp / 64), Byte(0x80 + cp % 64)]
    else if cp <= 0xFFFF then [Byte(0xE0 + cp / 4096), Byte(0x80 + cp / 64 % 64), Byte(0x80 + cp % 64)]
    else [Byte(0xF0 + cp / 262144), Byte(0x80 + cp / 4096 % 64), Byte(0x80 + cp / 64 % 64), Byte(0x80 + cp % 64)]
  }

  predicate IsContinuation(c: char) {
    0x80 <= c as int < 0xC0
  }

  /** The code point a well-formed UTF-8 sequence stands for: right length, no overlong form. */
  function DecodeUtf8(s: string): Option<nat> {
    if |s| == 1 && s[0] as int < 0x80 then Some(s[0] as int)
    else if |s| == 2 && 0xC2 <= s[0] as int < 0xE0 && IsContinuation(s[1]) then
      Some((s[0] as int - 0xC0) * 64 + (s[1] as int - 0x80))
    else if |s| == 3 && 0xE0 <= s[0] as int < 0xF0 && IsContinuation(s[1]) && IsContinuation(s[2])
            && (s[0] as int == 0xE0 ==> s[1] as int >= 0xA0) then
      Some((s[0] as int - 0xE0) * 4096 + (s[1] as int - 0x80) * 64 + (s[2] as int - 0x80))
    else if |s| == 4 && 0xF0 <= s[0] as int < 0xF5 && IsContinuation(s[1]) && IsContinuation(s[2])
        && IsContinuation(s[3])
            && (s[0] as int == 0xF0 ==> s[1] as int >= 0x90) then
      Some((s[0] as int - 0xF0) * 262144 + (s[1] as int - 0x80) * 4096 + (s[2] as int - 0x80) * 64 +
          (s[3] as int - 0x80))
    else None
  }

  lemma EncodedIsWellFormed(cp: nat)
    requires cp <= 0x10_FFFF
    ensures DecodeUtf8(EncodeUtf8(cp)) == Some(cp)
  {
    assert cp == cp / 64 * 64 + cp % 64;
    assert cp / 64 == cp / 4096 * 64 + cp / 64 % 64;
    assert cp / 4096 == cp / 262144 * 64 + cp / 4096 % 64;
  }

  /** A surrogate pair names a code point beyond the first plane. */
  function FromSurrogates(high: nat, low: nat): (cp: nat)
    requires 0xD800 <= high < 0xDC00 && 0xDC00 <= low < 0xE000
    ensures 0x1_0000 <= cp <= 0x10_FFFF
  {
    0x1_0000 + (high - 0xD800) * 1024 + (low - 0xDC00)
  }

  // -------------------------------------------------------------------------
  // Addresses as hexadecimal strings
  // -------------------------------------------------------------------------

  function ToHex(value: u64): string {
    "0x" + Numeral(value, Sixteen)
  }

  /** The text with the digit separators taken out. */
  function WithoutSeparators(s: string): string {
    if s == "" then "" else (if s[0] == '_' then "" else [s[0]]) + WithoutSeparators(s[1..])
  }

  /** What `from_hex` accepts and what it then returns. */
  function HexMeaning(text: string): Option<u64> {
    if |text| < 3 || text[0] != '0' || (text[1] != 'x' && text[1] != 'X') then None
    else
      var digits := WithoutSeparators(text[2..]);
      if AllHex(digits) && NumberOf(digits, Sixteen) < U64_LIMIT then Some(NumberOf(digits, Sixteen)) else None
  }

  lemma {:induction false} SeparatorsStepBack(s: string, k: nat)
    requires k < |s|
    ensures WithoutSeparators(s[..k + 1]) == WithoutSeparators(s[..k]) + if s[k] == '_' then "" else [s[k]]
    decreases k
  {
    if k == 0 {
      assert s[..1] == [s[0]] && s[..0] == "" && s[..1][1..] == "";
    } else {
      assert s[..k + 1][1..] == s[1..][..k] && s[..k][1..] == s[1..][..k - 1];
      SeparatorsStepBack(s[1..], k - 1);
    }
  }

  /** More digits make a number no smaller. */
  lemma {:induction false} NumberGrows(s: string, k: nat)
    requires k <= |s| && AllHex(s)
    ensures NumberOf(s[..k], Sixteen) <= NumberOf(s, Sixteen)
    decreases |s|
  {
    if k == |s| {
      assert s[..k] == s;
    } else {
      assert s[..|s| - 1][..k] == s[..k];
      NumberGrows(s[..|s| - 1], k);
    }
  }

  method FromHex(text: string) returns (r: Option<u64>)
    ensures r == HexMeaning(text)
  {
    if |text| < 3 {
      return None;
    }
    if text[0] != '0' || (text[1] != 'x' && text[1] != 'X') {
      return None;
    }
    hide NumberOf, WithoutSeparators, IsHexDigit, HexValue, AllHex;
    ghost var body := text[2..];
    assert AllHex(WithoutSeparators(body[..0])) && NumberOf(WithoutSeparators(body[..0]), Sixteen) == 0
        by { EmptyBody(body); }
    var value: u64 := 0;
    for i := 2 to |text|
      invariant AllHex(WithoutSeparators(body[..i - 2]))
      invariant value == NumberOf(WithoutSeparators(body[..i - 2]), Sixteen)
    {
      var c := text[i];
      HexPrefix(body, i - 2);
      if c == '_' {
        continue;
      }
      if !IsHexDigit(c) {
        return None;
      }
      var digit := HexValue(c);
      if value > (U64_LIMIT - 1 - digit) / 16 {
        return None;
      }
      value := value * 16 + digit;
    }
    assert body[..|body|] == body;
    return Some(value);
  }

  /** What one more character of the text does to the digits read so far. */
  lemma HexPrefix(body: string, k: nat)
    requires k < |body| && AllHex(WithoutSeparators(body[..k]))
    ensures body[k] == '_' ==> WithoutSeparators(body[..k + 1]) == WithoutSeparators(body[..k])
    ensures body[k] != '_' && IsHexDigit(body[k]) ==> ReadsDigit(body, k)
    ensures body[k] != '_' && !IsHexDigit(body[k]) ==> !AllHex(WithoutSeparators(body))
  {
    hide NumberOf, IsHexDigit, WithoutSeparators, AllHex;
    var before, after, all := WithoutSeparators(body[..k]), WithoutSeparators(body[..k + 1]), WithoutSeparators(body);
    SeparatorsStepBack(body, k);
    PrefixOfDigits(body, k + 1);
    if body[k] != '_' {
      assert after == before + [body[k]] && all[|before|] == after[|before|] == body[k];
      if IsHexDigit(body[k]) {
        NumberAppends(before, body[k], Sixteen);
        if AllHex(all) {
          NumberGrows(all, |after|);
          assert all[..|after|] == after;
        }
      } else {
        HexAt(all, |before|);
      }
    }
  }

  lemma HexAt(s: string, k: nat)
    requires k < |s|
    ensures AllHex(s) ==> IsHexDigit(s[k])
  {
  }

  /** One digit more: the number grows by it, and stays below that of the whole text. */
  ghost predicate ReadsDigit(body: string, k: nat)
    requires k < |body| && AllHex(WithoutSeparators(body[..k])) && IsHexDigit(body[k])
  {
    var before, after, all := WithoutSeparators(body[..k]), WithoutSeparators(body[..k + 1]), WithoutSeparators(body);
    && AllHex(after)
    && NumberOf(after, Sixteen) == NumberOf(before, Sixteen) * 16 + HexValue(body[k])
    && (AllHex(all) ==> NumberOf(after, Sixteen) <= NumberOf(all, Sixteen))
  }

  lemma EmptyBody(body: string)
    ensures AllHex(WithoutSeparators(body[..0])) && NumberOf(WithoutSeparators(body[..0]), Sixteen) == 0
  {
  }

  lemma {:induction false} PrefixOfDigits(body: string, k: nat)
    requires k <= |body|
    ensures WithoutSeparators(body[..k]) <= WithoutSeparators(body)
    decreases |body| - k
  {
    if k == |body| {
      assert body[..k] == body;
    } else {
      SeparatorsStepBack(body, k);
      PrefixOfDigits(body, k + 1);
    }
  }

  /** Every 64-bit address survives its textual form. */
  lemma HexRoundTrip(value: u64)
    ensures HexMeaning(ToHex(value)) == Some(value)
  {
    var digits := Numeral(value, Sixteen);
    assert ToHex(value)[2..] == digits;
    NoSeparators(digits);
    NumeralRoundTrip(value, Sixteen);
  }

  /** An address text is a prefix in either case and at least one digit or separator after it. */
  lemma HexTextsExactly(text: string, n: u64)
    ensures HexMeaning(text) == Some(n) <==>
            exists body :: (text == "0x" + body || text == "0X" + body) && body != ""
                           && AllHex(WithoutSeparators(body)) && NumberOf(WithoutSeparators(body), Sixteen) == n
  {
    hide NumberOf, AllHex, WithoutSeparators;
    if HexMeaning(text) == Some(n) {
      var body := text[2..];
      assert text == "0x" + body || text == "0X" + body;
    }
    if body :| (text == "0x" + body || text == "0X" + body) && body != ""
               && AllHex(WithoutSeparators(body)) && NumberOf(WithoutSeparators(body), Sixteen) == n {
      assert text[2..] == body;
    }
  }

  lemma {:induction false} NoSeparators(s: string)
    requires AllHex(s)
    ensures WithoutSeparators(s) == s
  {
    if s != "" {
      NoSeparators(s[1..]);
    }
  }
}
