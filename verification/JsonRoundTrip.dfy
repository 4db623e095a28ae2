/** Reading back what was written gives the value, whatever the layout, as long as it is not too deep. */
module JsonRoundTrip {
  import opened Wrappers
  import opened JsonValue
  import opened JsonText
  import opened JsonWriter
  import opened JsonGrammar

  // -------------------------------------------------------------------------
  // Strings
  // -------------------------------------------------------------------------

  lemma ReadsPlain(c: char, rest: string, acc: string)
    requires c as int >= 0x20 && c != '\"' && c != '\\'
    ensures ReadChars([c] + rest, acc) == ReadChars(rest, acc + [c])
  {
    assert ([c] + rest)[1..] == rest;
  }

  lemma ReadsShort(e: char, c: char, rest: string, acc: string)
    requires |EscapeChar(c)| == 2 && EscapeChar(c)[0] == '\\' && EscapeChar(c)[1] == e
    requires ReadEscape([e] + rest) == Ok(([c], rest))
    ensures ReadChars(EscapeChar(c) + rest, acc) == ReadChars(rest, acc + [c])
  {
    hide ReadEscape, EscapeChar;
    assert (EscapeChar(c) + rest)[1..] == [e] + rest;
  }

  lemma ShortEscapes(rest: string)
    ensures ReadEscape("\"" + rest) == Ok(("\"", rest))
    ensures ReadEscape("\\" + rest) == Ok(("\\", rest))
    ensures ReadEscape("b" + rest) == Ok(([8 as char], rest))
    ensures ReadEscape("f" + rest) == Ok(([12 as char], rest))
    ensures ReadEscape("n" + rest) == Ok(("\n", rest))
    ensures ReadEscape("r" + rest) == Ok(("\r", rest))
    ensures ReadEscape("t" + rest) == Ok(("\t", rest))
  {
    hide ReadCodePoint;
  }

  lemma ControlEscape(c: char, rest: string)
    requires c as int < 0x20
    ensures ReadEscape("u00" + [DigitChar(c as int / 16), DigitChar(c as int % 16)] + rest) == Ok(([c], rest))
  {
    hide DigitChar, HexValue;
    var h, l := DigitChar(c as int / 16), DigitChar(c as int % 16);
    var s := "u00" + [h, l] + rest;
    var t := s[1..];
    assert t == "00" + [h, l] + rest;
    assert t[..4] == "00" + [h, l] && t[4..] == rest;
    assert HexValue('0') == 0 && IsHexDigit('0') by { ZeroDigit(); }
    assert AllHex(t[..4]);
    assert c as int == c as int / 16 * 16 + c as int % 16;
    assert ReadHex4(t) == Ok((c as int, rest));
    assert ReadCodePoint(t) == Ok((c as int, rest));
    assert EncodeUtf8(c as int) == [c];
  }

  lemma ZeroDigit()
    ensures HexValue('0') == 0 && IsHexDigit('0')
  {
  }

  /** An escaped byte reads as that byte. */
  lemma ReadsEscaped(c: char, rest: string, acc: string)
    ensures ReadChars(EscapeChar(c) + rest, acc) == ReadChars(rest, acc + [c])
  {
    hide ReadChars, ReadEscape;
    ShortEscapes(rest);
    if c == '\"' {
      ReadsShort('\"', c, rest, acc);
    } else if c == '\\' {
      ReadsShort('\\', c, rest, acc);
    } else if c as int == 8 {
      assert c == 8 as char;
      ReadsShort('b', c, rest, acc);
    } else if c as int == 12 {
      assert c == 12 as char;
      ReadsShort('f', c, rest, acc);
    } else if c == '\n' {
      ReadsShort('n', c, rest, acc);
    } else if c == '\r' {
      ReadsShort('r', c, rest, acc);
    } else if c == '\t' {
      ReadsShort('t', c, rest, acc);
    } else if c as int < 0x20 {
      ControlEscape(c, rest);
      ReadsControl(c, rest, acc);
    } else {
      ReadsPlain(c, rest, acc);
    }
  }

  lemma ReadsControl(c: char, rest: string, acc: string)
    requires c as int < 0x20
    requires ReadEscape("u00" + [DigitChar(c as int / 16), DigitChar(c as int % 16)] + rest) == Ok(([c], rest))
    ensures ReadChars("\\u00" + [DigitChar(c as int / 16), DigitChar(c as int % 16)] + rest, acc) ==
            ReadChars(rest, acc + [c])
  {
    hide DigitChar, ReadEscape;
    var s := "\\u00" + [DigitChar(c as int / 16), DigitChar(c as int % 16)] + rest;
    assert s[1..] == "u00" + [DigitChar(c as int / 16), DigitChar(c as int % 16)] + rest;
  }

  lemma {:induction false} ReadsEscapedChars(x: string, post: string, acc: string)
    ensures ReadChars(EscapeChars(x) + "\"" + post, acc) == Ok((acc + x, post))
    decreases |x|
  {
    hide EscapeChar;
    if x == "" {
      assert EscapeChars(x) + "\"" + post == "\"" + post && ("\"" + post)[1..] == post && acc + x == acc;
    } else {
      hide ReadChars;
      var rest := EscapeChars(x[1..]) + "\"" + post;
      assert EscapeChars(x) + "\"" + post == EscapeChar(x[0]) + rest;
      ReadsEscaped(x[0], rest, acc);
      ReadsEscapedChars(x[1..], post, acc + [x[0]]);
      assert acc + [x[0]] + x[1..] == acc + x;
    }
  }

  /** Every byte string survives quoting. */
  lemma StringRoundTrip(x: string, post: string)
    ensures ReadString(Quote(x) + post) == Ok((x, post))
  {
    hide EscapeChars, ReadChars;
    assert (Quote(x) + post)[1..] == EscapeChars(x) + "\"" + post;
    ReadsEscapedChars(x, post, "");
    assert "" + x == x;
  }

  // -------------------------------------------------------------------------
  // Integers
  // -------------------------------------------------------------------------

  /** What may follow a value: the end, a blank, or the punctuation of a container. */
  predicate Ends(post: string) {
    post == "" || IsWs(post[0]) || post[0] == ',' || post[0] == ']' || post[0] == '}'
  }

  lemma {:induction false} SpanOfDigits(digits: string, post: string)
    requires AllDigits(digits) && Ends(post)
    ensures DigitSpan(digits + post) == |digits|
  {
    if digits == "" {
      assert digits + post == post;
    } else {
      assert (digits + post)[1..] == digits[1..] + post;
      SpanOfDigits(digits[1..], post);
    }
  }

  lemma ReadsDigits(sign: string, n: nat, post: string)
    requires sign == "" || sign == "-"
    requires Ends(post)
    ensures ReadNumber(sign + Numeral(n, Ten) + post) ==
            match IntegerOf(sign == "-", n)
            case Err(e) => Err(e)
            case Ok(v) => Ok((v, post))
  {
    hide Numeral, NumberOf, DigitSpan, IntegerOf;
    var digits := Numeral(n, Ten);
    var s := sign + digits + post;
    SpanOfDigits(digits, post);
    NumeralRoundTrip(n, Ten);
    assert s[|sign|..] == digits + post;
    assert s[|sign| + |digits|..] == post;
    assert s[|sign|..|sign| + |digits|] == digits;
    assert s[|sign|] == digits[0];
    assert IsDigit(digits[0]);
    assert ReadFraction(post) == Ok(0) && ReadExponent(post) == Ok(0);
  }

  lemma IntegerRoundTrip(v: Value, post: string)
    requires (v.Int? || v.UInt?) && Ends(post)
    ensures ReadNumber(Write(v, Compact, 0) + post) == Ok((Norm(v), post))
  {
    hide Numeral, ReadNumber;
    var i: int := if v.Int? then v.i else v.u;
    if i < 0 {
      ReadsDigits("-", -i, post);
    } else {
      ReadsDigits("", i, post);
      assert "" + Numeral(i, Ten) == Numeral(i, Ten);
    }
  }

  // -------------------------------------------------------------------------
  // Values
  // -------------------------------------------------------------------------

  /** What reading a written value comes to: the value in unsigned form, or the one error there can be. */
  function Outcome(v: Value, room: int, post: string): Reading<Value> {
    if Fits(v, room) then Ok((Norm(v), post)) else Err(TooDeep)
  }

  /** A written value starts with a character that is neither blank nor punctuation. */
  lemma WriteStarts(v: Value, style: Style, depth: nat)
    requires DoubleFree(v)
    ensures var w := Write(v, style, depth);
      w != "" && !IsWs(w[0]) && w[0] != ']' && w[0] != '}' && w[0] != ','
  {
    hide EscapeChars, WriteItems, WriteMembers, Numeral;
    match v
    case Int(_) => IntegerStarts(v, style, depth);
    case UInt(_) => IntegerStarts(v, style, depth);
    case _ =>
  }

  lemma IntegerStarts(v: Value, style: Style, depth: nat)
    requires v.Int? || v.UInt?
    ensures var w := Write(v, style, depth);
      w != "" && w == Write(v, Compact, 0) && (w[0] == '-' || IsDigit(w[0]))
  {
    var i: int := if v.Int? then v.i else v.u;
    hide Numeral;
    assert AllDigits(Numeral(if i < 0 then -i else i, Ten));
  }

  /** Scalars: no container, so no question of depth. */
  lemma ScalarRoundTrip(v: Value, style: Style, depth: nat, post: string, room: nat)
    requires DoubleFree(v) && !v.Array? && !v.Object? && Ends(post)
    ensures ReadValue(Write(v, style, depth) + post, room) == Ok((Norm(v), post))
  {
    hide ReadNumber, ReadString, Quote, WriteInt, ReadItems, ReadMembers;
    match v
    case Null => LiteralRoundTrip("null", post);
    case Bool(b) => LiteralRoundTrip(if b then "true" else "false", post);
    case String(s) =>
      StringRoundTrip(s, post);
      assert Quote(s)[0] == '\"' by { QuoteStarts(s); }
    case _ =>
      IntegerStarts(v, style, depth);
      IntegerRoundTrip(v, post);
  }

  lemma QuoteStarts(s: string)
    ensures Quote(s) != "" && Quote(s)[0] == '\"'
  {
  }

  lemma LiteralRoundTrip(lit: string, post: string)
    ensures lit <= lit + post && (lit + post)[|lit|..] == post
  {
  }

  // -------------------------------------------------------------------------
  // Arrays
  // -------------------------------------------------------------------------

  lemma {:induction false} SkipWsTwice(s: string)
    ensures SkipWs(SkipWs(s)) == SkipWs(s)
  {
    if s != "" && IsWs(s[0]) {
      SkipWsTwice(s[1..]);
    }
  }

  lemma Concat(a: string, b: string, c: string, d: string)
    ensures a + b + c + d == a + (b + (c + d))
    ensures a + b + c == a + (b + c)
  {
  }

  /** What follows an item. */
  function AfterItem(items: seq<Value>, style: Style, depth: nat, post: string): string
    requires items != []
  {
    if |items| == 1 then Lead(style, depth) + ("]" + post) else "," + (WriteItems(items[1..], style, depth) + post)
  }

  lemma ItemsUnfold(items: seq<Value>, style: Style, depth: nat, post: string)
    requires items != []
    ensures WriteItems(items, style, depth) + post ==
            Lead(style, depth + 1) + (Write(items[0], style, depth + 1) + AfterItem(items, style, depth, post))
    ensures Ends(AfterItem(items, style, depth, post))
    ensures |items| == 1 ==> SkipWs(AfterItem(items, style, depth, post)) == "]" + post
    ensures |items| > 1 ==>
            SkipWs(AfterItem(items, style, depth, post)) == "," + (WriteItems(items[1..], style, depth) + post)
  {
    hide Write, Lead;
    var lead, w := Lead(style, depth + 1), Write(items[0], style, depth + 1);
    if |items| == 1 {
      Concat(lead, w, Lead(style, depth) + "]", post);
      Concat(Lead(style, depth), "]", post, "");
      SkipsBlanks(Lead(style, depth), "]" + post);
    } else {
      Concat(lead, w, "," + WriteItems(items[1..], style, depth), post);
      Concat(",", WriteItems(items[1..], style, depth), post, "");
    }
  }

  lemma {:induction false} ItemsRoundTrip(items: seq<Value>, style: Style, depth: nat, post: string, room: int,
      before: seq<Value>)
    requires items != []
    requires forall i :: 0 <= i < |items| ==> DoubleFree(items[i]) && Proper(items[i])
    ensures ReadItems(WriteItems(items, style, depth) + post, room, before) ==
            if forall i :: 0 <= i < |items| ==> Fits(items[i], room - 1)
            then Ok((Array(before + NormItems(items)), post))
            else Err(TooDeep)
    decreases items, 0
  {
    hide Write, WriteItems, Lead, ReadValue, SkipWs, Norm, Proper, DoubleFree, Fits;
    var tail := AfterItem(items, style, depth, post);
    ItemsUnfold(items, style, depth, post);
    ValueRoundTrip(items[0], style, depth + 1, tail, room - 1);
    WriteStarts(items[0], style, depth + 1);
    SkipsBlanks(Lead(style, depth + 1), Write(items[0], style, depth + 1) + tail);
    hide AfterItem;
    if Fits(items[0], room - 1) {
      var read := before + [Norm(items[0])];
      if |items| == 1 {
        assert ("]" + post)[1..] == post && NormItems(items[1..]) == [];
        assert read == before + NormItems(items);
      } else {
        assert ("," + (WriteItems(items[1..], style, depth) + post))[1..] ==
            WriteItems(items[1..], style, depth) + post;
        ItemsRoundTrip(items[1..], style, depth, post, room, read);
        assert read + NormItems(items[1..]) == before + NormItems(items);
        assert forall i :: 1 <= i < |items| ==> items[i] == items[1..][i - 1];
      }
    }
  }

  lemma {:induction false} ValueRoundTrip(v: Value, style: Style, depth: nat, post: string, room: int)
    requires DoubleFree(v) && Proper(v) && Ends(post)
    ensures ReadValue(Write(v, style, depth) + post, room) == Outcome(v, room, post)
    decreases v, 1
  {
    if room >= 0 {
      var levels: nat := room;
      match v
      case Array(items) => ArrayRoundTrip(items, style, depth, post, levels);
      case Object(members) => ObjectRoundTrip(members, style, depth, post, levels);
      case _ => ScalarRoundTrip(v, style, depth, post, levels);
    }
  }

  lemma {:induction false} ArrayRoundTrip(items: seq<Value>, style: Style, depth: nat, post: string, room: nat)
    requires DoubleFree(Array(items)) && Proper(Array(items))
    ensures ReadValue(Write(Array(items), style, depth) + post, room) == Outcome(Array(items), room, post)
    decreases items, 1
  {
    if items == [] {
      EmptyContainers(post, room);
    } else {
      assert forall i :: 0 <= i < |items| ==> DoubleFree(items[i]) && Proper(items[i]);
      assert Outcome(Array(items), room, post) ==
             if forall i :: 0 <= i < |items| ==> Fits(items[i], room - 1)
             then Ok((Array([] + NormItems(items)), post))
             else Err(TooDeep)
      by { assert [] + NormItems(items) == NormItems(items); }
      hide Outcome, Norm, Fits, DoubleFree, Proper, Lead, WriteItems, ReadItems, ReadValue, SkipWs;
      var t := WriteItems(items, style, depth) + post;
      ItemsRoundTrip(items, style, depth, post, room, []);
      ItemsStart(items, style, depth, post);
      OpensArray(t, room);
      Concat("[", WriteItems(items, style, depth), post, "");
    }
  }

  lemma ItemsStart(items: seq<Value>, style: Style, depth: nat, post: string)
    requires items != [] && DoubleFree(items[0])
    ensures var t := SkipWs(WriteItems(items, style, depth) + post); t != "" && t[0] != ']'
  {
    hide Write, Lead, WriteItems, SkipWs, AfterItem;
    ItemsUnfold(items, style, depth, post);
    WriteStarts(items[0], style, depth + 1);
    SkipsBlanks(Lead(style, depth + 1), Write(items[0], style, depth + 1) + AfterItem(items, style, depth, post));
  }

  lemma EmptyContainers(post: string, room: nat)
    ensures ReadValue("[]" + post, room) == Ok((Array([]), post))
    ensures ReadValue("{}" + post, room) == Ok((Object([]), post))
  {
    hide ReadItems, ReadMembers;
    assert ("[]" + post)[1..] == "]" + post && ("]" + post)[1..] == post;
    assert ("{}" + post)[1..] == "}" + post && ("}" + post)[1..] == post;
  }

  /** An opening bracket, then anything but a closing one. */
  lemma OpensArray(t: string, room: nat)
    requires SkipWs(t) != "" && SkipWs(t)[0] != ']'
    ensures ReadValue("[" + t, room) == ReadItems(t, room, [])
  {
    hide SkipWs, ReadItems;
    assert ("[" + t)[1..] == t;
    SkippedItems(t, room, []);
  }

  /** Blanks before an item make no difference. */
  lemma SkippedItems(t: string, room: int, before: seq<Value>)
    ensures ReadItems(SkipWs(t), room, before) == ReadItems(t, room, before)
  {
    SkipWsTwice(t);
  }

  // -------------------------------------------------------------------------
  // Objects
  // -------------------------------------------------------------------------

  /** What follows a member. */
  function AfterMember(members: seq<Member>, style: Style, depth: nat, post: string): string
    requires members != []
  {
    if |members| == 1 then Lead(style, depth) + ("}" + post)
        else "," + (WriteMembers(members[1..], style, depth) + post)
  }

  lemma MembersUnfold(members: seq<Member>, style: Style, depth: nat, post: string)
    requires members != []
    ensures WriteMembers(members, style, depth) + post ==
            Lead(style, depth + 1) +
                (WriteMember(members[0], style, depth + 1) + AfterMember(members, style, depth, post))
    ensures Ends(AfterMember(members, style, depth, post))
    ensures |members| == 1 ==> SkipWs(AfterMember(members, style, depth, post)) == "}" + post
    ensures |members| > 1 ==>
            SkipWs(AfterMember(members, style, depth, post)) == "," + (WriteMembers(members[1..], style, depth) + post)
  {
    hide WriteMember, Lead;
    var lead, w := Lead(style, depth + 1), WriteMember(members[0], style, depth + 1);
    if |members| == 1 {
      Concat(lead, w, Lead(style, depth) + "}", post);
      Concat(Lead(style, depth), "}", post, "");
      SkipsBlanks(Lead(style, depth), "}" + post);
    } else {
      Concat(lead, w, "," + WriteMembers(members[1..], style, depth), post);
      Concat(",", WriteMembers(members[1..], style, depth), post, "");
    }
  }

  lemma MemberUnfolds(m: Member, style: Style, depth: nat, tail: string)
    ensures WriteMember(m, style, depth) + tail ==
            Quote(m.key) + (":" + (AfterColon(style) + (Write(m.value, style, depth) + tail)))
  {
    hide Quote, AfterColon, Write;
    var q, c, w := Quote(m.key), AfterColon(style), Write(m.value, style, depth);
    Concat(q + ":", c, w, tail);
    Concat(q, ":", c + (w + tail), "");
  }

  lemma {:induction false} MemberRoundTrip(m: Member, style: Style, depth: nat, tail: string, room: int)
    requires DoubleFree(m.value) && Proper(m.value) && Ends(tail)
    ensures ReadMember(Lead(style, depth) + (WriteMember(m, style, depth) + tail), room) ==
            if Fits(m.value, room - 1) then Ok((Member(m.key, Norm(m.value)), tail)) else Err(TooDeep)
    decreases m, 0
  {
    hide Quote, Write, WriteMember, ReadString, ReadValue, SkipWs, Lead, AfterColon, Norm, Fits, Proper, DoubleFree;
    var body := Write(m.value, style, depth) + tail;
    var afterKey := ":" + (AfterColon(style) + body);
    MemberUnfolds(m, style, depth, tail);
    QuoteStarts(m.key);
    SkipsBlanks(Lead(style, depth), Quote(m.key) + afterKey);
    StringRoundTrip(m.key, afterKey);
    SkipsBlanks("", afterKey);
    assert "" + afterKey == afterKey && afterKey[1..] == AfterColon(style) + body;
    WriteStarts(m.value, style, depth);
    SkipsBlanks(AfterColon(style), body);
    ValueRoundTrip(m.value, style, depth, tail, room - 1);
  }

  /** A key after all the others is new, and goes to the end. */
  lemma {:induction false} InsertAtEnd(members: seq<Member>, m: Member)
    requires Before(members, m.key)
    ensures !HasKey(members, m.key) && Insert(members, m) == members + [m]
  {
    hide Less;
    if members != [] {
      LessIsStrict(members[0].key, m.key);
      InsertAtEnd(members[1..], m);
    }
  }

  /** Members a writer can meet: in order, and each with a value that can be read back. */
  predicate Writable(members: seq<Member>) {
    Sorted(members) && forall i :: 0 <= i < |members| ==> DoubleFree(members[i].value) && Proper(members[i].value)
  }

  predicate AllFit(members: seq<Member>, room: int) {
    forall i :: 0 <= i < |members| ==> Fits(members[i].value, room)
  }

  predicate AllAfter(before: seq<Member>, members: seq<Member>) {
    forall i :: 0 <= i < |members| ==> Before(before, members[i].key)
  }

  /** The members still to come stay in order, and after the ones already read. */
  lemma MembersToCome(members: seq<Member>, before: seq<Member>, m: Member, room: int)
    requires members != [] && Writable(members) && AllAfter(before, members) && m.key == members[0].key
    ensures DoubleFree(members[0].value) && Proper(members[0].value) && Before(before, m.key)
    ensures Writable(members[1..]) && AllAfter(before + [m], members[1..])
    ensures AllFit(members, room) <==> Fits(members[0].value, room) && AllFit(members[1..], room)
  {
    hide Less, Fits, DoubleFree, Proper;
    assert forall i :: 0 <= i < |members[1..]| ==> members[1..][i] == members[i + 1];
    if Fits(members[0].value, room) && AllFit(members[1..], room) {
      forall i | 0 <= i < |members| ensures Fits(members[i].value, room) {
        assert i > 0 ==> members[i] == members[1..][i - 1];
      }
    }
  }

  /** One turn of the member loop that reads its member and finds the key new. */
  lemma MembersTurn(s: string, room: int, before: seq<Member>, m: Member, t: string)
    requires ReadMember(s, room).Ok? && ReadMember(s, room).value.0 == m && t == SkipWs(ReadMember(s, room).value.1)
    requires Before(before, m.key)
    ensures t != "" && t[0] == ',' ==> ReadMembers(s, room, before) == ReadMembers(t[1..], room, before + [m])
    ensures t != "" && t[0] == '}' ==> ReadMembers(s, room, before) == Ok((Object(before + [m]), t[1..]))
  {
    hide ReadMember, SkipWs, HasKey, Insert;
    InsertAtEnd(before, m);
  }

  lemma {:induction false} MembersRoundTrip(members: seq<Member>, style: Style, depth: nat, post: string, room: int,
      before: seq<Member>)
    requires members != [] && Writable(members) && AllAfter(before, members)
    ensures ReadMembers(WriteMembers(members, style, depth) + post, room, before) ==
            if AllFit(members, room - 1) then Ok((Object(before + NormMembers(members)), post)) else Err(TooDeep)
    decreases members, 0
  {
    hide WriteMember, WriteMembers, Lead, ReadMember, ReadMembers, SkipWs, Norm, NormMembers, Proper;
    hide DoubleFree, Fits;
    hide Writable, AllFit, AllAfter, Before, AfterMember;
    var s, tail := WriteMembers(members, style, depth) + post, AfterMember(members, style, depth, post);
    var m := Member(members[0].key, Norm(members[0].value));
    MembersToCome(members, before, m, room - 1);
    MembersUnfold(members, style, depth, post);
    MemberRoundTrip(members[0], style, depth + 1, tail, room);
    NormMembersStep(before, members);
    if Fits(members[0].value, room - 1) {
      MembersTurn(s, room, before, m, SkipWs(tail));
      if |members| == 1 {
        assert ("}" + post)[1..] == post;
        NoneLeft(members[1..], room - 1);
      } else {
        assert ("," + (WriteMembers(members[1..], style, depth) + post))[1..] ==
            WriteMembers(members[1..], style, depth) + post;
        MembersRoundTrip(members[1..], style, depth, post, room, before + [m]);
      }
    } else {
      MembersTooDeep(s, room, before);
    }
  }

  lemma MembersTooDeep(s: string, room: int, before: seq<Member>)
    ensures ReadMember(s, room).Err? ==> ReadMembers(s, room, before) == Err(ReadMember(s, room).error)
  {
    hide ReadMember;
  }

  lemma NormMembersStep(before: seq<Member>, members: seq<Member>)
    requires members != []
    ensures before + NormMembers(members) ==
            before + [Member(members[0].key, Norm(members[0].value))] + NormMembers(members[1..])
    ensures |members| == 1 ==>
            before + NormMembers(members) == before + [Member(members[0].key, Norm(members[0].value))]
  {
    var first := Member(members[0].key, Norm(members[0].value));
    assert NormMembers(members) == [first] + NormMembers(members[1..]);
    hide Norm, NormMembers;
    PrependTwice(before, first, NormMembers(members[1..]));
  }

  lemma PrependTwice(before: seq<Member>, m: Member, rest: seq<Member>)
    ensures before + ([m] + rest) == before + [m] + rest
    ensures rest == [] ==> before + ([m] + rest) == before + [m]
  {
  }

  lemma NoneLeft(members: seq<Member>, room: int)
    requires members == []
    ensures AllFit(members, room)
  {
  }

  lemma MembersStart(members: seq<Member>, style: Style, depth: nat, post: string)
    requires members != []
    ensures var t := SkipWs(WriteMembers(members, style, depth) + post); t != "" && t[0] != '}'
  {
    hide Write, Lead, WriteMembers, SkipWs, AfterMember, Quote;
    var m, tail := members[0], AfterMember(members, style, depth, post);
    MembersUnfold(members, style, depth, post);
    QuoteStarts(m.key);
    SkipsBlanks(Lead(style, depth + 1), WriteMember(m, style, depth + 1) + tail);
  }

  lemma OpensObject(t: string, room: nat)
    requires SkipWs(t) != "" && SkipWs(t)[0] != '}'
    ensures ReadValue("{" + t, room) == ReadMembers(t, room, [])
  {
    hide SkipWs;
    assert ("{" + t)[1..] == t;
    SkipWsTwice(t);
    assert ReadMember(SkipWs(t), room) == ReadMember(t, room);
  }

  lemma {:induction false} ObjectRoundTrip(members: seq<Member>, style: Style, depth: nat, post: string, room: nat)
    requires DoubleFree(Object(members)) && Proper(Object(members))
    ensures ReadValue(Write(Object(members), style, depth) + post, room) == Outcome(Object(members), room, post)
    decreases members, 1
  {
    if members == [] {
      EmptyContainers(post, room);
    } else {
      ObjectOutcome(members, room, post);
      hide Outcome, Norm, Fits, DoubleFree, Proper, Lead, WriteMembers, ReadMembers, ReadValue, SkipWs, AllFit;
      hide Writable, AllAfter;
      MembersRoundTrip(members, style, depth, post, room, []);
      MembersStart(members, style, depth, post);
      OpensObject(WriteMembers(members, style, depth) + post, room);
      Concat("{", WriteMembers(members, style, depth), post, "");
    }
  }

  lemma ObjectOutcome(members: seq<Member>, room: nat, post: string)
    requires DoubleFree(Object(members)) && Proper(Object(members))
    ensures Writable(members) && AllAfter([], members)
    ensures Outcome(Object(members), room, post) ==
            if AllFit(members, room - 1) then Ok((Object([] + NormMembers(members)), post)) else Err(TooDeep)
  {
    assert [] + NormMembers(members) == NormMembers(members);
  }
}
