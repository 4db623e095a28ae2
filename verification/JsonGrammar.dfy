/** What the parser accepts, as functions of the text that is left. */
module JsonGrammar {
  import opened Words
  import opened Wrappers
  import opened JsonValue
  import opened JsonText

  datatype ParseError =
    | TooDeep
    | UnexpectedEnd
    | Expected(c: char)
    | InvalidLiteral
    | DuplicateKey(key: string)
    | UnterminatedObject
    | UnterminatedArray
    | ExpectedCommaOrClose(close: char)
    | TruncatedEscape
    | InvalidHexDigit
    | UnterminatedString
    | UnescapedControl
    | UnterminatedEscape
    | InvalidLowSurrogate
    | UnpairedHighSurrogate
    | UnpairedLowSurrogate
    | InvalidEscape
    | InvalidNumber
    | DigitAfterPoint
    | DigitInExponent
    | OutOfRange
    | TrailingContent

  /** Something read, and the text after it. */
  type Reading<T> = Result<(T, string), ParseError>

  const MAX_DEPTH := 128

  // -------------------------------------------------------------------------
  // Strings
  // -------------------------------------------------------------------------

  function ReadHex4(s: string): (r: Reading<nat>)
    ensures r.Ok? ==> r.value.0 < 0x1_0000 && |r.value.1| < |s|
  {
    if |s| < 4 then Err(TruncatedEscape)
    else if !AllHex(s[..4]) then Err(InvalidHexDigit)
    else Ok((((HexValue(s[0]) * 16 + HexValue(s[1])) * 16 + HexValue(s[2])) * 16 + HexValue(s[3]), s[4..]))
  }

  /** After a backslash and a `u`: a code point, and never half of a surrogate pair. */
  function ReadCodePoint(s: string): (r: Reading<nat>)
    ensures r.Ok? ==> r.value.0 <= 0x10_FFFF && |r.value.1| < |s|
    ensures r.Ok? ==> !(0xD800 <= r.value.0 <= 0xDFFF)
  {
    match ReadHex4(s)
    case Err(e) => Err(e)
    case Ok((cp, rest)) =>
      if 0xD800 <= cp <= 0xDBFF then
        if |rest| >= 2 && rest[0] == '\\' && rest[1] == 'u' then
          match ReadHex4(rest[2..])
          case Err(e) => Err(e)
          case Ok((low, after)) =>
            if low < 0xDC00 || low > 0xDFFF then Err(InvalidLowSurrogate) else Ok((FromSurrogates(cp, low), after))
        else Err(UnpairedHighSurrogate)
      else if 0xDC00 <= cp <= 0xDFFF then Err(UnpairedLowSurrogate)
      else Ok((cp, rest))
  }

  /** After a backslash: the bytes the escape stands for. */
  function ReadEscape(s: string): (r: Reading<string>)
    ensures r.Ok? ==> |r.value.1| < |s|
  {
    if s == "" then Err(UnterminatedEscape)
    else
      var rest := s[1..];
      match s[0]
      case '\"' => Ok(("\"", rest))
      case '\\' => Ok(("\\", rest))
      case '/' => Ok(("/", rest))
      case 'b' => Ok(([8 as char], rest))
      case 'f' => Ok(([12 as char], rest))
      case 'n' => Ok(("\n", rest))
      case 'r' => Ok(("\r", rest))
      case 't' => Ok(("\t", rest))
      case 'u' =>
        (match ReadCodePoint(rest)
         case Err(e) => Err(e)
         case Ok((cp, after)) => Ok((EncodeUtf8(cp), after)))
      case _ => Err(InvalidEscape)
  }

  /** The inside of a string and its closing quote. */
  function ReadChars(s: string, out: string): (r: Reading<string>)
    ensures r.Ok? ==> |r.value.1| < |s|
    decreases |s|
  {
    if s == "" then Err(UnterminatedString)
    else if s[0] == '\"' then Ok((out, s[1..]))
    else if s[0] != '\\' then
      if s[0] as int < 0x20 then Err(UnescapedControl) else ReadChars(s[1..], out + [s[0]])
    else
      match ReadEscape(s[1..])
      case Err(e) => Err(e)
      case Ok((bytes, rest)) => ReadChars(rest, out + bytes)
  }

  function ReadString(s: string): (r: Reading<string>)
    ensures r.Ok? ==> |r.value.1| < |s|
  {
    if s == "" || s[0] != '\"' then Err(Expected('\"')) else ReadChars(s[1..], "")
  }

  // -------------------------------------------------------------------------
  // Numbers
  // -------------------------------------------------------------------------

  /** How many characters a fraction takes, point included; none when there is no point. */
  function ReadFraction(s: string): (r: Result<nat, ParseError>)
    ensures r.Ok? ==> r.value <= |s|
  {
    if s == "" || s[0] != '.' then Ok(0)
    else if DigitSpan(s[1..]) == 0 then Err(DigitAfterPoint)
    else Ok(1 + DigitSpan(s[1..]))
  }

  function ReadExponent(s: string): (r: Result<nat, ParseError>)
    ensures r.Ok? ==> r.value <= |s|
  {
    if s == "" || (s[0] != 'e' && s[0] != 'E') then Ok(0)
    else
      var sign := if |s| > 1 && (s[1] == '+' || s[1] == '-') then 1 else 0;
      if DigitSpan(s[1 + sign..]) == 0 then Err(DigitInExponent)
      else Ok(1 + sign + DigitSpan(s[1 + sign..]))
  }

  /** `strtoll` and `strtoull` on a token of digits, out of range included. */
  function IntegerOf(negative: bool, n: nat): Result<Value, ParseError> {
    if negative then if n <= I64_LIMIT then Ok(Int(0 - n)) else Err(OutOfRange)
    else if n < U64_LIMIT then Ok(UInt(n)) else Err(OutOfRange)
  }

  /** How many characters the fraction and the exponent take. */
  function ReadTail(s: string): (r: Result<nat, ParseError>)
    ensures r.Ok? ==> r.value <= |s|
  {
    match ReadFraction(s)
    case Err(e) => Err(e)
    case Ok(fraction) =>
      match ReadExponent(s[fraction..])
      case Err(e) => Err(e)
      case Ok(exponent) => Ok(fraction + exponent)
  }

  /** The digits before any fraction: a single zero, or as many as there are. */
  function WholeDigits(s: string): (k: nat)
    requires s != "" && IsDigit(s[0])
    ensures 0 < k <= |s| && AllDigits(s[..k])
  {
    if s[0] == '0' then 1 else DigitSpan(s)
  }

  /** The token that ends at `end`: an integer unless something follows its digits. */
  function NumberFrom(token: string, sign: nat, isDouble: bool): Result<Value, ParseError>
    requires sign <= |token| && (!isDouble ==> AllDigits(token[sign..]))
  {
    if isDouble then Ok(Double(token)) else IntegerOf(sign == 1, NumberOf(token[sign..], Ten))
  }

  /** One for a minus sign. */
  function SignOf(s: string): (k: nat)
    ensures k <= |s|
  {
    if s != "" && s[0] == '-' then 1 else 0
  }

  function ReadNumber(s: string): (r: Reading<Value>)
    ensures r.Ok? ==> |r.value.1| < |s|
  {
    var sign := SignOf(s);
    if sign == |s| || !IsDigit(s[sign]) then Err(InvalidNumber)
    else
      var whole := sign + WholeDigits(s[sign..]);
      match ReadTail(s[whole..])
      case Err(e) => Err(e)
      case Ok(tail) =>
        assert s[..whole][sign..] == s[sign..][..whole - sign];
        match NumberFrom(s[..whole + tail], sign, tail > 0)
        case Err(e) => Err(e)
        case Ok(v) => Ok((v, s[whole + tail..]))
  }

  /** A number token, piece by piece. */
  lemma NumberPieces(s: string)
    ensures SignOf(s) == |s| || !IsDigit(s[SignOf(s)]) ==> ReadNumber(s) == Err(InvalidNumber)
    ensures SignOf(s) < |s| && IsDigit(s[SignOf(s)]) ==>
              var sign, whole := SignOf(s), SignOf(s) + WholeDigits(s[SignOf(s)..]);
              && whole <= |s|
              && match ReadTail(s[whole..])
                 case Err(e) => ReadNumber(s) == Err(e)
                 case Ok(tail) =>
                   && (tail == 0 ==> AllDigits(s[..whole + tail][sign..]))
                   && ReadNumber(s) == match NumberFrom(s[..whole + tail], sign, tail > 0)
                                       case Err(e) => Err(e)
                                       case Ok(v) => Ok((v, s[whole + tail..]))
  {
    hide ReadTail, WholeDigits, NumberFrom;
    var sign := SignOf(s);
    if sign < |s| && IsDigit(s[sign]) {
      var whole := sign + WholeDigits(s[sign..]);
      assert s[..whole][sign..] == s[sign..][..whole - sign];
    }
  }

  // -------------------------------------------------------------------------
  // Values
  // -------------------------------------------------------------------------

  function ReadLiteral(s: string, lit: string, v: Value): (r: Reading<Value>)
    requires lit != ""
    ensures r.Ok? ==> |r.value.1| < |s|
  {
    if lit <= s then Ok((v, s[|lit|..])) else Err(InvalidLiteral)
  }

  predicate HasKey(members: seq<Member>, key: string) {
    exists i :: 0 <= i < |members| && members[i].key == key
  }

  /** `std::map::emplace` of a key that is not there. */
  function Insert(members: seq<Member>, m: Member): seq<Member> {
    if members == [] || Less(m.key, members[0].key) then [m] + members
    else [members[0]] + Insert(members[1..], m)
  }

  /** A value with room for `room` containers around any part of it. */
  function ReadValue(s: string, room: int): (r: Reading<Value>)
    ensures r.Ok? ==> |r.value.1| < |s|
    decreases |s|, 1
  {
    if room < 0 then Err(TooDeep)
    else if s == "" then Err(UnexpectedEnd)
    else
      match s[0]
      case '{' =>
        var t := SkipWs(s[1..]);
        if t != "" && t[0] == '}' then Ok((Object([]), t[1..])) else ReadMembers(t, room, [])
      case '[' =>
        var t := SkipWs(s[1..]);
        if t != "" && t[0] == ']' then Ok((Array([]), t[1..])) else ReadItems(t, room, [])
      case '\"' =>
        (match ReadString(s)
         case Err(e) => Err(e)
         case Ok((chars, rest)) => Ok((String(chars), rest)))
      case 't' => ReadLiteral(s, "true", Bool(true))
      case 'f' => ReadLiteral(s, "false", Bool(false))
      case 'n' => ReadLiteral(s, "null", Null)
      case _ => ReadNumber(s)
  }

  /** From an item on, the items before it already read. */
  function ReadItems(s: string, room: int, items: seq<Value>): (r: Reading<Value>)
    ensures r.Ok? ==> |r.value.1| < |s|
    decreases |s|, 2
  {
    match ReadValue(SkipWs(s), room - 1)
    case Err(e) => Err(e)
    case Ok((v, rest)) =>
      var t := SkipWs(rest);
      if t == "" then Err(UnterminatedArray)
      else if t[0] == ',' then ReadItems(t[1..], room, items + [v])
      else if t[0] == ']' then Ok((Array(items + [v]), t[1..]))
      else Err(ExpectedCommaOrClose(']'))
  }

  /** A key, a colon and a value. */
  function ReadMember(s: string, room: int): (r: Reading<Member>)
    ensures r.Ok? ==> |r.value.1| < |s|
    decreases |s|, 2
  {
    match ReadString(SkipWs(s))
    case Err(e) => Err(e)
    case Ok((key, rest)) =>
      var t := SkipWs(rest);
      if t == "" || t[0] != ':' then Err(Expected(':'))
      else
        match ReadValue(SkipWs(t[1..]), room - 1)
        case Err(e) => Err(e)
        case Ok((v, after)) => Ok((Member(key, v), after))
  }

  function ReadMembers(s: string, room: int, members: seq<Member>): (r: Reading<Value>)
    ensures r.Ok? ==> |r.value.1| < |s|
    decreases |s|, 3
  {
    match ReadMember(s, room)
    case Err(e) => Err(e)
    case Ok((m, rest)) =>
      if HasKey(members, m.key) then Err(DuplicateKey(m.key))
      else
        var all := Insert(members, m);
        var t := SkipWs(rest);
        if t == "" then Err(UnterminatedObject)
        else if t[0] == ',' then ReadMembers(t[1..], room, all)
        else if t[0] == '}' then Ok((Object(all), t[1..]))
        else Err(ExpectedCommaOrClose('}'))
  }

  function ParseWithin(text: string, room: int): Result<Value, ParseError> {
    match ReadValue(SkipWs(text), room)
    case Err(e) => Err(e)
    case Ok((v, rest)) => if SkipWs(rest) == "" then Ok(v) else Err(TrailingContent)
  }

  function Parse(text: string): Result<Value, ParseError> {
    ParseWithin(text, MAX_DEPTH)
  }
}
