/** The recursive-descent parser, advancing a position over the text. */
module JsonParser {
  import opened Wrappers
  import opened JsonValue
  import opened JsonText
  import opened JsonGrammar

  lemma Suffix(text: string, pos: nat, k: nat)
    requires pos + k <= |text|
    ensures text[pos + k..] == text[pos..][k..]
  {
  }

  class Parser {
    const text: string
    var pos: nat

    constructor (text: string)
      ensures this.text == text && pos == 0
    {
      this.text, pos := text, 0;
    }

    predicate Valid()
      reads this
    {
      pos <= |text|
    }

    function Left(): string
      requires Valid()
      reads this
    {
      text[pos..]
    }

    /** Success with the value read and the position after it, or the same first error. */
    ghost predicate Agrees<T(!new)>(r: Result<T, ParseError>, reading: Reading<T>)
      reads this
    {
      match reading
      case Ok((v, rest)) => r == Ok(v) && Valid() && Left() == rest
      case Err(e) => r == Err(e)
    }

    method SkipBlanks()
      requires Valid()
      modifies this
      ensures Valid() && Left() == SkipWs(old(Left()))
    {
      while pos < |text| && IsWs(text[pos])
        invariant Valid() && SkipWs(Left()) == SkipWs(old(Left()))
        decreases |text| - pos
      {
        Suffix(text, pos, 1);
        pos := pos + 1;
      }
    }

    method SkipDigits()
      requires Valid()
      modifies this
      ensures Valid() && pos == old(pos) + DigitSpan(old(Left()))
    {
      while pos < |text| && IsDigit(text[pos])
        invariant Valid() && pos + DigitSpan(Left()) == old(pos) + DigitSpan(old(Left()))
        decreases |text| - pos
      {
        Suffix(text, pos, 1);
        pos := pos + 1;
      }
    }

    method ParseHex4() returns (r: Result<nat, ParseError>)
      requires Valid()
      modifies this
      ensures Agrees(r, ReadHex4(old(Left())))
    {
      hide HexValue, IsHexDigit;
      if pos + 4 > |text| {
        return Err(TruncatedEscape);
      }
      ghost var s := Left();
      var v: nat := 0;
      for i := 0 to 4
        invariant pos == old(pos) + i && HexUpTo(s, i)
        invariant v == HexPrefixValue(s, i)
      {
        var c := text[pos];
        assert c == s[i];
        pos := pos + 1;
        if !IsHexDigit(c) {
          assert s[..4][i] == c;
          return Err(InvalidHexDigit);
        }
        v := v * 16 + HexValue(c);
      }
      Suffix(text, old(pos), 4);
      FourDigits(s);
      return Ok(v);
    }

    method ParseCodePoint() returns (r: Result<nat, ParseError>)
      requires Valid()
      modifies this
      ensures Agrees(r, ReadCodePoint(old(Left())))
    {
      hide ReadHex4;
      var high := ParseHex4();
      if high.Err? {
        return high;
      }
      var cp := high.value;
      if 0xD800 <= cp <= 0xDBFF {
        if pos + 1 < |text| && text[pos] == '\\' && text[pos + 1] == 'u' {
          Suffix(text, pos, 2);
          pos := pos + 2;
          var low := ParseHex4();
          if low.Err? {
            return low;
          }
          if low.value < 0xDC00 || low.value > 0xDFFF {
            return Err(InvalidLowSurrogate);
          }
          return Ok(FromSurrogates(cp, low.value));
        }
        return Err(UnpairedHighSurrogate);
      }
      if 0xDC00 <= cp <= 0xDFFF {
        return Err(UnpairedLowSurrogate);
      }
      return high;
    }

    /** After a backslash. */
    method ParseEscape() returns (r: Result<string, ParseError>)
      requires Valid()
      modifies this
      ensures Agrees(r, ReadEscape(old(Left())))
    {
      hide ReadCodePoint, EncodeUtf8;
      if pos == |text| {
        return Err(UnterminatedEscape);
      }
      var e := text[pos];
      Suffix(text, pos, 1);
      pos := pos + 1;
      match e
      case '\"' => return Ok("\"");
      case '\\' => return Ok("\\");
      case '/' => return Ok("/");
      case 'b' => return Ok([8 as char]);
      case 'f' => return Ok([12 as char]);
      case 'n' => return Ok("\n");
      case 'r' => return Ok("\r");
      case 't' => return Ok("\t");
      case 'u' =>
        var cp := ParseCodePoint();
        if cp.Err? {
          return Err(cp.error);
        }
        return Ok(EncodeUtf8(cp.value));
      case _ => return Err(InvalidEscape);
    }

    method ParseString() returns (r: Result<string, ParseError>)
      requires Valid()
      modifies this
      ensures Agrees(r, ReadString(old(Left())))
    {
      hide ReadEscape;
      if pos == |text| || text[pos] != '\"' {
        return Err(Expected('\"'));
      }
      Suffix(text, pos, 1);
      pos := pos + 1;
      var out := "";
      while true
        invariant Valid() && ReadChars(Left(), out) == ReadString(old(Left()))
        decreases |text| - pos
      {
        if pos == |text| {
          return Err(UnterminatedString);
        }
        var c := text[pos];
        Suffix(text, pos, 1);
        pos := pos + 1;
        if c == '\"' {
          return Ok(out);
        }
        if c != '\\' {
          if c as int < 0x20 {
            return Err(UnescapedControl);
          }
          out := out + [c];
          continue;
        }
        var bytes := ParseEscape();
        if bytes.Err? {
          return Err(bytes.error);
        }
        out := out + bytes.value;
      }
    }

    method ParseNumber() returns (r: Result<Value, ParseError>)
      requires Valid()
      modifies this
      ensures Agrees(r, ReadNumber(old(Left())))
    {
      hide ReadNumber, WholeDigits, ReadTail, NumberFrom, AllDigits, IsDigit;
      var start := pos;
      ghost var s := Left();
      NumberPieces(s);
      var sign := if pos < |text| && text[pos] == '-' then 1 else 0;
      pos := pos + sign;
      if pos == |text| || !IsDigit(text[pos]) {
        return Err(InvalidNumber);
      }
      Suffix(text, start, sign);
      ParseWhole();
      Suffix(text, start, pos - start);
      var isDouble := ParseTail();
      if isDouble.Err? {
        return Err(isDouble.error);
      }
      r := TokenValue(start, sign, isDouble.value);
    }

    /** The value of the token between `start` and the position. */
    method TokenValue(start: nat, sign: nat, isDouble: bool) returns (r: Result<Value, ParseError>)
      requires Valid() && start + sign <= pos
      requires !isDouble ==> AllDigits(text[start..][..pos - start][sign..])
      ensures r == NumberFrom(text[start..][..pos - start], sign, isDouble)
      ensures Left() == text[start..][pos - start..]
    {
      hide NumberFrom;
      Suffix(text, start, pos - start);
      assert text[start..pos] == text[start..][..pos - start];
      return NumberFrom(text[start..pos], sign, isDouble);
    }

    method ParseWhole()
      requires Valid() && pos < |text| && IsDigit(text[pos])
      modifies this
      ensures Valid() && pos == old(pos) + WholeDigits(old(Left()))
    {
      if text[pos] == '0' {
        pos := pos + 1;
      } else {
        SkipDigits();
      }
    }

    /** Whether a fraction or an exponent follows. */
    method ParseTail() returns (r: Result<bool, ParseError>)
      requires Valid()
      modifies this
      ensures Valid()
      ensures match ReadTail(old(Left()))
              case Ok(k) => r == Ok(k > 0) && pos == old(pos) + k
              case Err(e) => r == Err(e)
    {
      hide ReadFraction, ReadExponent;
      var start := pos;
      var fraction := ParseFraction();
      if fraction.Err? {
        return Err(fraction.error);
      }
      Suffix(text, start, pos - start);
      var exponent := ParseExponent();
      if exponent.Err? {
        return Err(exponent.error);
      }
      return Ok(fraction.value || exponent.value);
    }

    /** Whether there is a fraction. */
    method ParseFraction() returns (r: Result<bool, ParseError>)
      requires Valid()
      modifies this
      ensures Valid()
      ensures match ReadFraction(old(Left()))
              case Ok(k) => r == Ok(k > 0) && pos == old(pos) + k
              case Err(e) => r == Err(e)
    {
      hide DigitSpan;
      if pos == |text| || text[pos] != '.' {
        return Ok(false);
      }
      Suffix(text, pos, 1);
      pos := pos + 1;
      if pos == |text| || !IsDigit(text[pos]) {
        assert DigitSpan(Left()) == 0;
        return Err(DigitAfterPoint);
      }
      SkipDigits();
      return Ok(true);
    }

    /** Whether there is an exponent. */
    method ParseExponent() returns (r: Result<bool, ParseError>)
      requires Valid()
      modifies this
      ensures Valid()
      ensures match ReadExponent(old(Left()))
              case Ok(k) => r == Ok(k > 0) && pos == old(pos) + k
              case Err(e) => r == Err(e)
    {
      hide DigitSpan;
      var start := pos;
      if pos == |text| || (text[pos] != 'e' && text[pos] != 'E') {
        return Ok(false);
      }
      pos := pos + 1;
      if pos < |text| && (text[pos] == '+' || text[pos] == '-') {
        pos := pos + 1;
      }
      Suffix(text, start, pos - start);
      if pos == |text| || !IsDigit(text[pos]) {
        return Err(DigitInExponent);
      }
      SkipDigits();
      return Ok(true);
    }

    method Literal(lit: string, v: Value) returns (r: Result<Value, ParseError>)
      requires Valid() && lit != ""
      modifies this
      ensures Agrees(r, ReadLiteral(old(Left()), lit, v))
    {
      PrefixAt(text, pos, lit);
      if pos + |lit| > |text| || text[pos..pos + |lit|] != lit {
        return Err(InvalidLiteral);
      }
      Suffix(text, pos, |lit|);
      pos := pos + |lit|;
      return Ok(v);
    }

    /** `room` is how much deeper than this value the document may still go. */
    method ParseValue(room: int) returns (r: Result<Value, ParseError>)
      requires Valid()
      modifies this
      ensures Agrees(r, ReadValue(old(Left()), room))
      decreases |text| - pos, 1
    {
      hide ReadString, ReadNumber, ReadLiteral, ReadItems, ReadMembers, SkipWs;
      if room < 0 {
        return Err(TooDeep);
      }
      if pos == |text| {
        return Err(UnexpectedEnd);
      }
      match text[pos]
      case '{' => r := ParseObject(room);
      case '[' => r := ParseArray(room);
      case '\"' =>
        var chars := ParseString();
        if chars.Err? {
          return Err(chars.error);
        }
        return Ok(String(chars.value));
      case 't' => r := Literal("true", Bool(true));
      case 'f' => r := Literal("false", Bool(false));
      case 'n' => r := Literal("null", Null);
      case _ => r := ParseNumber();
    }

    method ParseArray(room: nat) returns (r: Result<Value, ParseError>)
      requires Valid() && pos < |text| && text[pos] == '['
      modifies this
      ensures Agrees(r, ReadValue(old(Left()), room))
      decreases |text| - pos, 0
    {
      hide ReadValue, ReadItems, SkipWs;
      ghost var reading := ReadValue(Left(), room);
      OpeningBracket(Left(), room);
      Suffix(text, pos, 1);
      pos := pos + 1;
      SkipBlanks();
      if pos < |text| && text[pos] == ']' {
        Suffix(text, pos, 1);
        pos := pos + 1;
        return Ok(Array([]));
      }
      var items := [];
      while true
        invariant Valid() && pos > old(pos) && ReadItems(Left(), room, items) == reading
        decreases |text| - pos
      {
        ItemStep(Left(), room, items);
        var item := ParseItem(room);
        if item.Err? {
          return Err(item.error);
        }
        items := items + [item.value];
        SkipBlanks();
        assert reading == ItemEnd(Left(), room, items);
        hide AfterItem;
        if pos == |text| {
          return Err(UnterminatedArray);
        }
        Suffix(text, pos, 1);
        if text[pos] == ',' {
          pos := pos + 1;
        } else if text[pos] == ']' {
          pos := pos + 1;
          return Ok(Array(items));
        } else {
          return Err(ExpectedCommaOrClose(']'));
        }
      }
    }

    method ParseItem(room: nat) returns (r: Result<Value, ParseError>)
      requires Valid()
      modifies this
      ensures Agrees(r, ReadValue(SkipWs(old(Left())), room - 1))
      decreases |text| - pos, 2
    {
      hide ReadValue, SkipWs;
      SkipBlanks();
      r := ParseValue(room - 1);
    }

    method ParseObject(room: nat) returns (r: Result<Value, ParseError>)
      requires Valid() && pos < |text| && text[pos] == '{'
      modifies this
      ensures Agrees(r, ReadValue(old(Left()), room))
      decreases |text| - pos, 0
    {
      hide ReadValue, ReadMember, ReadMembers, SkipWs, Insert, HasKey;
      ghost var reading := ReadValue(Left(), room);
      OpeningBrace(Left(), room);
      Suffix(text, pos, 1);
      pos := pos + 1;
      SkipBlanks();
      if pos < |text| && text[pos] == '}' {
        Suffix(text, pos, 1);
        pos := pos + 1;
        return Ok(Object([]));
      }
      var members := [];
      while true
        invariant Valid() && pos > old(pos) && ReadMembers(Left(), room, members) == reading
        decreases |text| - pos
      {
        MemberStep(Left(), room, members);
        var member := ParseMember(room);
        if member.Err? {
          return Err(member.error);
        }
        if HasKey(members, member.value.key) {
          return Err(DuplicateKey(member.value.key));
        }
        members := Insert(members, member.value);
        SkipBlanks();
        assert reading == MemberEnd(Left(), room, members);
        hide AfterMember;
        if pos == |text| {
          return Err(UnterminatedObject);
        }
        Suffix(text, pos, 1);
        if text[pos] == ',' {
          pos := pos + 1;
        } else if text[pos] == '}' {
          pos := pos + 1;
          return Ok(Object(members));
        } else {
          return Err(ExpectedCommaOrClose('}'));
        }
      }
    }

    method ParseMember(room: nat) returns (r: Result<Member, ParseError>)
      requires Valid()
      modifies this
      ensures Agrees(r, ReadMember(old(Left()), room))
      decreases |text| - pos, 2
    {
      hide ReadValue, ReadString, SkipWs;
      SkipBlanks();
      var key := ParseString();
      if key.Err? {
        return Err(key.error);
      }
      SkipBlanks();
      if pos == |text| || text[pos] != ':' {
        return Err(Expected(':'));
      }
      Suffix(text, pos, 1);
      pos := pos + 1;
      SkipBlanks();
      var v := ParseValue(room - 1);
      if v.Err? {
        return Err(v.error);
      }
      return Ok(Member(key.value, v.value));
    }

    method Run() returns (r: Result<Value, ParseError>)
      requires Valid() && pos == 0
      modifies this
      ensures r == Parse(text)
    {
      hide ReadValue, SkipWs;
      assert Left() == text;
      SkipBlanks();
      r := ParseValue(MAX_DEPTH);
      if r.Ok? {
        SkipBlanks();
        if pos != |text| {
          return Err(TrailingContent);
        }
      }
    }
  }

  lemma OpeningBracket(s: string, room: nat)
    requires s != "" && s[0] == '['
    ensures var t := SkipWs(s[1..]);
      ReadValue(s, room) == if t != "" && t[0] == ']' then Ok((Array([]), t[1..])) else ReadItems(t, room, [])
  {
    hide ReadItems, SkipWs;
  }

  /** How an array goes on after one more item. */
  ghost function AfterItem(item: Reading<Value>, room: int, items: seq<Value>): Reading<Value> {
    match item
    case Err(e) => Err(e)
    case Ok((v, rest)) => ItemEnd(SkipWs(rest), room, items + [v])
  }

  ghost function ItemEnd(t: string, room: int, items: seq<Value>): Reading<Value> {
    if t == "" then Err(UnterminatedArray)
    else if t[0] == ',' then ReadItems(t[1..], room, items)
    else if t[0] == ']' then Ok((Array(items), t[1..]))
    else Err(ExpectedCommaOrClose(']'))
  }

  lemma ItemStep(s: string, room: int, items: seq<Value>)
    ensures ReadItems(s, room, items) == AfterItem(ReadValue(SkipWs(s), room - 1), room, items)
  {
    hide ReadValue, SkipWs;
  }

  /** How an object goes on after one more member. */
  ghost function AfterMember(member: Reading<Member>, room: int, members: seq<Member>): Reading<Value> {
    match member
    case Err(e) => Err(e)
    case Ok((m, rest)) =>
      if HasKey(members, m.key) then Err(DuplicateKey(m.key))
      else
        MemberEnd(SkipWs(rest), room, Insert(members, m))
  }

  ghost function MemberEnd(t: string, room: int, members: seq<Member>): Reading<Value> {
    if t == "" then Err(UnterminatedObject)
    else if t[0] == ',' then ReadMembers(t[1..], room, members)
    else if t[0] == '}' then Ok((Object(members), t[1..]))
    else Err(ExpectedCommaOrClose('}'))
  }

  lemma MemberStep(s: string, room: int, members: seq<Member>)
    ensures ReadMembers(s, room, members) == AfterMember(ReadMember(s, room), room, members)
  {
    hide ReadMember, SkipWs, Insert, HasKey;
  }

  lemma OpeningBrace(s: string, room: nat)
    requires s != "" && s[0] == '{'
    ensures var t := SkipWs(s[1..]);
      ReadValue(s, room) == if t != "" && t[0] == '}' then Ok((Object([]), t[1..])) else ReadMembers(t, room, [])
  {
    hide ReadMembers, SkipWs;
  }

  lemma PrefixAt(text: string, pos: nat, lit: string)
    requires pos <= |text|
    ensures lit <= text[pos..] <==> pos + |lit| <= |text| && text[pos..pos + |lit|] == lit
  {
    if pos + |lit| <= |text| {
      assert text[pos..pos + |lit|] == text[pos..][..|lit|];
    }
  }

  ghost predicate HexUpTo(s: string, k: nat) {
    k <= |s| && forall i :: 0 <= i < k ==> IsHexDigit(s[i])
  }

  /** The number the first `k` hexadecimal digits make. */
  ghost function HexPrefixValue(s: string, k: nat): nat
    requires HexUpTo(s, k)
  {
    if k == 0 then 0 else HexPrefixValue(s, k - 1) * 16 + HexValue(s[k - 1])
  }

  lemma FourDigits(s: string)
    requires HexUpTo(s, 4)
    ensures AllHex(s[..4])
    ensures HexPrefixValue(s, 4) == ((HexValue(s[0]) * 16 + HexValue(s[1])) * 16 + HexValue(s[2])) * 16 + HexValue(s[3])
  {
    hide HexValue, IsHexDigit;
    assert HexPrefixValue(s, 0) == 0 && HexPrefixValue(s, 1) == HexValue(s[0]);
    assert HexPrefixValue(s, 2) == HexValue(s[0]) * 16 + HexValue(s[1]);
  }
}
