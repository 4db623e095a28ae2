/** What JSON documents guarantee: exact round trips, canonical bytes, well-formed results. */
module JsonClaims {
  import opened Wrappers
  import opened JsonValue
  import opened JsonText
  import opened JsonWriter
  import opened JsonGrammar
  import opened JsonRoundTrip

  // -------------------------------------------------------------------------
  // Round trips
  // -------------------------------------------------------------------------

  lemma WrittenParses(v: Value, style: Style, end: string, room: int)
    requires DoubleFree(v) && Proper(v) && AllWs(end)
    ensures ParseWithin(Write(v, style, 0) + end, room) == if Fits(v, room) then Ok(Norm(v)) else Err(TooDeep)
  {
    hide Write, ReadValue, SkipWs, Fits, Norm, DoubleFree, Proper;
    ValueRoundTrip(v, style, 0, end, room);
    WriteStarts(v, style, 0);
    SkipsBlanks("", Write(v, style, 0) + end);
    assert "" + (Write(v, style, 0) + end) == Write(v, style, 0) + end;
    SkipsBlanks(end, "");
    assert end + "" == end;
  }

  /**
   * Canonical and pretty text both parse, at any size and with any bytes in
   * their strings, exactly when nothing is more than 128 containers deep; the
   * result is then equal to the value written.
   */
  lemma TextRoundTrip(v: Value, indent: nat)
    requires DoubleFree(v) && Proper(v)
    ensures Parse(Canonical(v)).Ok? <==> Fits(v, MAX_DEPTH)
    ensures Parse(SerializePretty(v, indent)).Ok? <==> Fits(v, MAX_DEPTH)
    ensures Fits(v, MAX_DEPTH) ==>
              && Parse(Canonical(v)) == Parse(SerializePretty(v, indent)) == Ok(Norm(v))
              && Eq(Parse(Canonical(v)).value, v)
  {
    hide ParseWithin, Write, Fits, Norm, Eq;
    WrittenParses(v, Compact, "", MAX_DEPTH);
    assert Canonical(v) + "" == Canonical(v);
    WrittenParses(v, Pretty(indent), "\n", MAX_DEPTH);
    NormIsEq(v);
  }

  // -------------------------------------------------------------------------
  // Canonical bytes decide equality
  // -------------------------------------------------------------------------

  lemma {:induction false} WriteNorm(v: Value, style: Style, depth: nat)
    ensures Write(Norm(v), style, depth) == Write(v, style, depth)
    decreases v, 1
  {
    hide Lead, Quote, Numeral;
    match v
    case Array(items) =>
      if items != [] {
        WriteNormItems(items, style, depth);
      }
    case Object(members) =>
      if members != [] {
        WriteNormMembers(members, style, depth);
      }
    case _ =>
  }

  lemma {:induction false} WriteNormItems(items: seq<Value>, style: Style, depth: nat)
    requires items != []
    ensures WriteItems(NormItems(items), style, depth) == WriteItems(items, style, depth)
    decreases items, 0
  {
    hide Lead, Norm, Write;
    WriteNorm(items[0], style, depth + 1);
    assert NormItems(items)[1..] == NormItems(items[1..]);
    if |items| > 1 {
      WriteNormItems(items[1..], style, depth);
    }
  }

  lemma {:induction false} WriteNormMembers(members: seq<Member>, style: Style, depth: nat)
    requires members != []
    ensures WriteMembers(NormMembers(members), style, depth) == WriteMembers(members, style, depth)
    decreases members, 0
  {
    hide Lead, Norm, Write, Quote;
    WriteNorm(members[0].value, style, depth + 1);
    assert NormMembers(members)[1..] == NormMembers(members[1..]);
    if |members| > 1 {
      WriteNormMembers(members[1..], style, depth);
    }
  }

  lemma {:induction false} FitsWider(v: Value, room: int, wider: int)
    requires Fits(v, room) && room <= wider
    ensures Fits(v, wider)
  {
    match v
    case Array(items) =>
      forall i | 0 <= i < |items| ensures Fits(items[i], wider - 1) {
        FitsWider(items[i], room - 1, wider - 1);
      }
    case Object(members) =>
      forall i | 0 <= i < |members| ensures Fits(members[i].value, wider - 1) {
        FitsWider(members[i].value, room - 1, wider - 1);
      }
    case _ =>
  }

  /** Every value fits somewhere. */
  lemma {:induction false} SomeRoom(v: Value) returns (room: nat)
    ensures Fits(v, room)
    decreases v
  {
    room := 0;
    match v
    case Array(items) =>
      for i := 0 to |items|
        invariant forall k :: 0 <= k < i ==> Fits(items[k], room)
      {
        var r := SomeRoom(items[i]);
        room := Widest(items[..i], items[i], room, r);
        assert forall k :: 0 <= k < i ==> items[k] == items[..i][k];
      }
      room := room + 1;
    case Object(members) =>
      for i := 0 to |members|
        invariant forall k :: 0 <= k < i ==> Fits(members[k].value, room)
      {
        var r := SomeRoom(members[i].value);
        var values := seq(i, k requires 0 <= k < i => members[k].value);
        room := Widest(values, members[i].value, room, r);
        assert forall k :: 0 <= k < i ==> members[k].value == values[k];
      }
      room := room + 1;
    case _ =>
  }

  lemma Widest(values: seq<Value>, v: Value, a: nat, b: nat) returns (room: nat)
    requires Fits(v, b) && forall k :: 0 <= k < |values| ==> Fits(values[k], a)
    ensures Fits(v, room) && forall k :: 0 <= k < |values| ==> Fits(values[k], room)
  {
    room := if a < b then b else a;
    FitsWider(v, b, room);
    forall k | 0 <= k < |values| ensures Fits(values[k], room) {
      FitsWider(values[k], a, room);
    }
  }

  /** Two documents have the same canonical bytes exactly when `operator==` holds, at any depth. */
  lemma CanonicalBytesDecideEquality(a: Value, b: Value)
    requires DoubleFree(a) && Proper(a) && DoubleFree(b) && Proper(b)
    ensures Canonical(a) == Canonical(b) <==> Eq(a, b)
  {
    hide Write, Norm, Eq, ParseWithin, Fits, DoubleFree, Proper;
    EqIsSameNorm(a, b);
    WriteNorm(a, Compact, 0);
    WriteNorm(b, Compact, 0);
    if Canonical(a) == Canonical(b) {
      var x := SomeRoom(a);
      var y := SomeRoom(b);
      FitsWider(a, x, x + y);
      FitsWider(b, y, x + y);
      WrittenParses(a, Compact, "", x + y);
      WrittenParses(b, Compact, "", x + y);
    }
  }

  // -------------------------------------------------------------------------
  // What the parser returns
  // -------------------------------------------------------------------------

  lemma {:induction false} InsertKeepsOrder(members: seq<Member>, m: Member)
    requires Sorted(members) && !HasKey(members, m.key)
    ensures Sorted(Insert(members, m))
    ensures forall x :: x in Insert(members, m) <==> x == m || x in members
  {
    hide Less;
    if members == [] {
    } else if Less(m.key, members[0].key) {
      forall i | 0 <= i < |members| ensures Less(m.key, members[i].key) {
        if i > 0 {
          LessIsTransitive(m.key, members[0].key, members[i].key);
        }
      }
    } else {
      LessIsStrict(m.key, members[0].key);
      assert !HasKey(members[1..], m.key);
      InsertKeepsOrder(members[1..], m);
      FirstStaysFirst(members, m);
    }
  }

  lemma FirstStaysFirst(members: seq<Member>, m: Member)
    requires members != [] && Sorted(members) && Less(members[0].key, m.key)
    requires Sorted(Insert(members[1..], m))
    requires forall x :: x in Insert(members[1..], m) <==> x == m || x in members[1..]
    ensures Sorted([members[0]] + Insert(members[1..], m))
    ensures forall x :: x in [members[0]] + Insert(members[1..], m) <==> x == m || x in members
  {
    hide Less, Insert;
    var rest := Insert(members[1..], m);
    forall i | 0 <= i < |rest| ensures Less(members[0].key, rest[i].key) {
      assert rest[i] in rest;
    }
  }

  /** A value as a parser leaves it: keys in order, and no deeper than it was allowed. */
  predicate Sound(v: Value, room: int) {
    Proper(v) && Fits(v, room)
  }

  lemma {:induction false} ReadValueIsSound(s: string, room: int)
    requires ReadValue(s, room).Ok?
    ensures Sound(ReadValue(s, room).value.0, room)
    decreases |s|, 1
  {
    hide ReadString, ReadNumber, ReadItems, ReadMembers, SkipWs, Less;
    if s[0] == '{' {
      var t := SkipWs(s[1..]);
      if !(t != "" && t[0] == '}') {
        ReadMembersIsSound(t, room, []);
      }
    } else if s[0] == '[' {
      var t := SkipWs(s[1..]);
      if !(t != "" && t[0] == ']') {
        ReadItemsIsSound(t, room, []);
      }
    } else {
      NumberIsScalar(s);
    }
  }

  lemma NumberIsScalar(s: string)
    ensures ReadNumber(s).Ok? ==> var v := ReadNumber(s).value.0; v.Int? || v.UInt? || v.Double?
  {
    hide ReadFraction, ReadExponent, NumberOf, DigitSpan;
  }

  lemma {:induction false} ReadItemsIsSound(s: string, room: int, items: seq<Value>)
    requires ReadItems(s, room, items).Ok? && room >= 0
    requires forall i :: 0 <= i < |items| ==> Sound(items[i], room - 1)
    ensures Sound(ReadItems(s, room, items).value.0, room)
    decreases |s|, 2
  {
    hide ReadValue, SkipWs, Less;
    ReadValueIsSound(SkipWs(s), room - 1);
    var (v, rest) := ReadValue(SkipWs(s), room - 1).value;
    var t := SkipWs(rest);
    if t[0] == ',' {
      ReadItemsIsSound(t[1..], room, items + [v]);
    }
  }

  lemma {:induction false} ReadMembersIsSound(s: string, room: int, members: seq<Member>)
    requires ReadMembers(s, room, members).Ok? && room >= 0 && Sorted(members)
    requires forall m :: m in members ==> Sound(m.value, room - 1)
    ensures Sound(ReadMembers(s, room, members).value.0, room)
    decreases |s|, 2
  {
    hide ReadValue, ReadString, SkipWs, Sorted, HasKey, Insert;
    var afterKey := SkipWs(ReadString(SkipWs(s)).value.1);
    ReadValueIsSound(SkipWs(afterKey[1..]), room - 1);
    var (m, rest) := ReadMember(s, room).value;
    InsertKeepsOrder(members, m);
    var all := Insert(members, m);
    var t := SkipWs(rest);
    hide ReadMember;
    if t[0] == ',' {
      ReadMembersIsSound(t[1..], room, all);
    } else {
      assert forall i :: 0 <= i < |all| ==> all[i] in all;
    }
  }

  /** Whatever text is accepted, the result has its keys in strict order and is at most 128 containers deep. */
  lemma ParsedIsSound(text: string)
    ensures Parse(text).Ok? ==> Proper(Parse(text).value) && Fits(Parse(text).value, MAX_DEPTH)
  {
    hide ReadValue, SkipWs, Proper, Fits;
    if Parse(text).Ok? {
      ReadValueIsSound(SkipWs(text), MAX_DEPTH);
    }
  }

  /** Rewriting an accepted document, in either layout, and reading it again changes nothing. */
  lemma RewritingIsStable(text: string, indent: nat)
    requires Parse(text).Ok? && DoubleFree(Parse(text).value)
    ensures var v := Parse(text).value;
      && Parse(Canonical(v)).Ok? && Eq(Parse(Canonical(v)).value, v)
      && Parse(SerializePretty(v, indent)).Ok? && Canonical(Parse(SerializePretty(v, indent)).value) == Canonical(v)
  {
    hide Parse, Write, Eq, Norm, SerializePretty, Proper, Fits, DoubleFree;
    var v := Parse(text).value;
    ParsedIsSound(text);
    TextRoundTrip(v, indent);
    WriteNorm(v, Compact, 0);
  }
}
