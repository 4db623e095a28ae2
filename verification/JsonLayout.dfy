/** What the two layouts are: the canonical text is the shortest one, the pretty text is indented blocks. */
module JsonLayout {
  import opened Wrappers
  import opened JsonValue
  import opened JsonText
  import opened JsonGrammar
  import opened JsonWriter
  import opened JsonSyntax
  import opened JsonTrees

  // -------------------------------------------------------------------------
  // No spelling of a string is shorter than its escaped form
  // -------------------------------------------------------------------------

  lemma {:induction false} EscapesJoin(a: string, b: string)
    ensures EscapeChars(a + b) == EscapeChars(a) + EscapeChars(b)
  {
    hide EscapeChar;
    if a == "" {
      assert a + b == b;
    } else {
      assert (a + b)[1..] == a[1..] + b;
      EscapesJoin(a[1..], b);
    }
  }

  lemma OneEscape(c: char)
    ensures EscapeChars([c]) == EscapeChar(c)
    ensures |EscapeChar(c)| <= 6
    ensures c as int >= 0x20 && c != '"' && c != '\\' ==> |EscapeChar(c)| == 1
  {
    assert [c][1..] == "";
  }

  lemma {:induction false} HighBytesAreBare(s: string)
    requires forall i :: 0 <= i < |s| ==> s[i] as int >= 0x80
    ensures |EscapeChars(s)| == |s|
  {
    hide EscapeChar;
    if s != "" {
      OneEscape(s[0]);
      HighBytesAreBare(s[1..]);
    }
  }

  lemma EscapedPoint(cp: nat)
    requires cp <= 0x10_FFFF
    ensures |EscapeChars(EncodeUtf8(cp))| <= 6
  {
    hide EscapeChar;
    if cp <= 0x7F {
      OneEscape(Byte(cp));
    } else {
      HighBytesAreBare(EncodeUtf8(cp));
    }
  }

  lemma EscapedPieceIsShort(p: Piece)
    requires Legal(p)
    ensures |EscapeChars(Meaning(p))| <= |Spelling(p)|
  {
    hide EscapeChars, EncodeUtf8;
    match p
    case Plain(c) => OneEscape(c);
    case Short(letter) =>
      var c := ShortMeaning(letter).value;
      OneEscape(c);
      assert |EscapeChar(c)| <= 2;
    case _ => EscapedPoint(PointOf(p));
  }

  lemma {:induction false} EscapedTextIsShort(ps: seq<Piece>)
    requires AllLegal(ps)
    ensures |EscapeChars(MeanAll(ps))| <= |SpellAll(ps)|
  {
    hide EscapeChars, Meaning, Spelling;
    if ps == [] {
      assert EscapeChars("") == "" by { NothingToEscape(); }
    } else {
      EscapesJoin(Meaning(ps[0]), MeanAll(ps[1..]));
      EscapedPieceIsShort(ps[0]);
      EscapedTextIsShort(ps[1..]);
    }
  }

  lemma NothingToEscape()
    ensures EscapeChars("") == ""
  {
  }

  // -------------------------------------------------------------------------
  // Nor one of a number
  // -------------------------------------------------------------------------

  lemma {:induction false} NumeralIsShort(d: string)
    requires SomeDigits(d)
    ensures |Numeral(NumberOf(d, Ten), Ten)| <= |d|
  {
    var front, n := d[..|d| - 1], NumberOf(d, Ten);
    assert HexValue(d[|d| - 1]) < 10 by { DigitsAreSmall(d[|d| - 1]); }
    assert n == NumberOf(front, Ten) * 10 + HexValue(d[|d| - 1]);
    assert Over(n, Ten) == NumberOf(front, Ten);
    if front != "" {
      NumeralIsShort(front);
    }
  }

  lemma DigitsAreSmall(c: char)
    requires IsDigit(c)
    ensures HexValue(c) < 10
  {
  }

  lemma TokenIsLonger(t: Token)
    requires IsToken(t) && TokenMeaning(t).Some?
    ensures |Canonical(TokenMeaning(t).value)| <= |TokenText(t)|
  {
    hide NumberOf, Numeral;
    NumeralIsShort(t.whole);
  }

  // -------------------------------------------------------------------------
  // Nor one of a document
  // -------------------------------------------------------------------------

  /** What a member adds to the text of its object, with the comma or brace after it. */
  function Cost(m: Member): nat {
    |Quote(m.key)| + 2 + |Canonical(m.value)|
  }

  function CostOfAll(members: seq<Member>): nat {
    if members == [] then 0 else Cost(members[0]) + CostOfAll(members[1..])
  }

  lemma {:induction false} MembersCost(members: seq<Member>)
    requires members != []
    ensures |WriteMembers(members, Compact, 0)| == CostOfAll(members)
  {
    hide Write, Quote;
    CompactMember(members[0]);
    CompactAtAnyDepth(members[0].value, 1);
    if |members| > 1 {
      MembersCost(members[1..]);
    } else {
      assert CostOfAll(members[1..]) == 0;
    }
  }

  lemma {:induction false} InsertCosts(members: seq<Member>, m: Member)
    ensures CostOfAll(Insert(members, m)) == CostOfAll(members) + Cost(m)
  {
    hide Cost, Less;
    if members == [] || Less(m.key, members[0].key) {
      assert ([m] + members)[1..] == members;
    } else {
      InsertCosts(members[1..], m);
      assert ([members[0]] + Insert(members[1..], m))[1..] == Insert(members[1..], m);
    }
  }

  /** The text of a tree, before `post`, is at least as long as the canonical text of what it denotes. */
  lemma {:induction false} TreeIsLonger(t: Tree, room: int, post: string)
    requires WellFormed(t, room)
    ensures |Canonical(Denoted(t, room))| + |post| <= |Spell(t, post)|
    decreases t, 0
  {
    hide TokenMeaning, TokenText, EscapeChars, MeanAll, AllLegal, SpellItems, SpellFields, WriteItems, WriteMembers;
    match t
    case Nothing =>
    case Truth(_) =>
    case Number(token) =>
      hide Denoted, Spell;
      NumberLength(t, room, post);
    case Text(pieces) =>
      EscapedTextIsShort(pieces);
    case List(blank, items) =>
      if items != [] {
        ItemsAreLonger(items, room - 1, "]" + post);
      }
    case Record(blank, fields) =>
      if fields != [] {
        FieldsAreLonger([], fields, room - 1, "}" + post);
        RecordLength(t, room, post);
      }
  }

  lemma NumberLength(t: Tree, room: int, post: string)
    requires t.Number? && WellFormed(t, room)
    ensures |Canonical(Denoted(t, room))| + |post| <= |Spell(t, post)|
  {
    hide TokenMeaning, TokenText, Write;
    TokenIsLonger(t.token);
  }

  lemma {:induction false} ItemsAreLonger(items: seq<Item>, room: int, post: string)
    requires items != [] && FormedItems(items, room)
    ensures |WriteItems(DenotedItems(items, room), Compact, 0)| - 1 + |post| <= |SpellItems(items, post)|
    decreases items, 1
  {
    var rest := if |items| == 1 then post else "," + SpellItems(items[1..], post);
    var vs := DenotedItems(items, room);
    assert vs[1..] == DenotedItems(items[1..], room);
    ItemIsLonger(items[0], room, rest);
    CompactAtAnyDepth(vs[0], 1);
    hide Write, Spell, FormedItem;
    if |items| > 1 {
      ItemsAreLonger(items[1..], room, post);
    }
  }

  lemma {:induction false} ItemIsLonger(item: Item, room: int, rest: string)
    requires FormedItem(item, room)
    ensures |Canonical(DenotedItem(item, room))| + |rest| <= |SpellItem(item, rest)|
    decreases item, 1
  {
    hide Write, Spell, Denoted, WellFormed;
    TreeIsLonger(item.tree, room, item.after + rest);
  }

  lemma {:induction false} FieldIsLonger(f: Field, room: int, rest: string)
    requires FormedField(f, room)
    ensures Cost(MemberOf(f, room)) - 1 + |rest| <= |SpellField(f, rest)|
    decreases f, 1
  {
    hide Write, SpellItem, DenotedItem, FormedItem, EscapeChars, MeanAll;
    EscapedTextIsShort(f.key);
    ItemIsLonger(f.item, room, rest);
  }

  lemma {:induction false} FieldsAreLonger(members: seq<Member>, fields: seq<Field>, room: int, post: string)
    requires fields != [] && FormedFields(fields, room)
    ensures CostOfAll(InsertAll(members, fields, room)) - 1 + |post| <= CostOfAll(members) + |SpellFields(fields, post)|
    decreases fields, 1
  {
    hide Cost, CostOfAll, FormedField, SpellField, MemberOf, Insert;
    var m := MemberOf(fields[0], room);
    var rest := if |fields| == 1 then post else "," + SpellFields(fields[1..], post);
    FieldIsLonger(fields[0], room, rest);
    InsertCosts(members, m);
    if |fields| > 1 {
      FieldsAreLonger(Insert(members, m), fields[1..], room, post);
    } else {
      assert fields[1..] == [];
    }
  }

  lemma {:induction false} InsertedAreSome(members: seq<Member>, fields: seq<Field>, room: int)
    requires FormedFields(fields, room) && (members != [] || fields != [])
    ensures InsertAll(members, fields, room) != []
    decreases |fields|
  {
    hide FormedField, MemberOf;
    if fields != [] {
      InsertedAreSome(Insert(members, MemberOf(fields[0], room)), fields[1..], room);
    }
  }

  lemma RecordLength(t: Tree, room: int, post: string)
    requires t.Record? && t.fields != [] && WellFormed(t, room)
    requires CostOfAll(InsertAll([], t.fields, room - 1)) + |post| <= |SpellFields(t.fields, "}" + post)|
    ensures |Canonical(Denoted(t, room))| + |post| <= |Spell(t, post)|
  {
    hide InsertAll, SpellFields, WriteMembers, CostOfAll;
    InsertedAreSome([], t.fields, room - 1);
    MembersCost(InsertAll([], t.fields, room - 1));
  }

  /** No text of a value is shorter than its canonical one. */
  lemma CanonicalIsShortest(text: string, v: Value)
    requires Parse(text) == Ok(v)
    ensures |Canonical(v)| <= |text|
  {
    hide Write, Spell, Denoted, WellFormed, Parse;
    ParsesExactly(text, v);
    var t :| Derives(text, v, t);
    var lead, tail :| AllWs(lead) && AllWs(tail) && text == lead + Spell(t, tail);
    TreeIsLonger(t, MAX_DEPTH, tail);
  }

  // -------------------------------------------------------------------------
  // Indented blocks
  // -------------------------------------------------------------------------

  /** `n` blanks after every line break. */
  function Shift(s: string, n: nat): string {
    if s == "" then ""
    else [s[0]] + (if s[0] == '\n' then Spaces(n) else "") + Shift(s[1..], n)
  }

  /** A non-empty container is its brackets around its lines, one a part, as a block; all else is on one line. */
  function Block(v: Value, indent: nat): string
    decreases v, 1
  {
    match v
    case Array(items) => if items == [] then "[]" else "[" + Shift(ItemLines(items, indent), indent) + "\n]"
    case Object(members) =>
      if members == [] then "{}" else "{" + Shift(MemberLines(members, indent), indent) + "\n}"
    case _ => Canonical(v)
  }

  function ItemLines(items: seq<Value>, indent: nat): string
    requires items != []
    decreases items, 0
  {
    "\n" + Block(items[0], indent) + if |items| == 1 then "" else "," + ItemLines(items[1..], indent)
  }

  function MemberLines(members: seq<Member>, indent: nat): string
    requires members != []
    decreases members, 0
  {
    "\n" + MemberBlock(members[0], indent) + if |members| == 1 then "" else "," + MemberLines(members[1..], indent)
  }

  function MemberBlock(m: Member, indent: nat): string
    decreases m, 0
  {
    Quote(m.key) + ": " + Block(m.value, indent)
  }

  predicate OneLine(s: string) {
    forall i :: 0 <= i < |s| ==> s[i] != '\n'
  }

  /** The texts of doubles have no line breaks. */
  predicate PlainDoubles(v: Value) {
    match v
    case Double(token) => OneLine(token)
    case Array(items) => forall i :: 0 <= i < |items| ==> PlainDoubles(items[i])
    case Object(members) => forall i :: 0 <= i < |members| ==> PlainDoubles(members[i].value)
    case _ => true
  }

  lemma {:induction false} ShiftJoins(a: string, b: string, n: nat)
    ensures Shift(a + b, n) == Shift(a, n) + Shift(b, n)
  {
    hide Spaces;
    if a == "" {
      assert a + b == b;
    } else {
      assert (a + b)[1..] == a[1..] + b;
      ShiftJoins(a[1..], b, n);
    }
  }

  lemma {:induction false} OneLineStays(s: string, n: nat)
    requires OneLine(s)
    ensures Shift(s, n) == s
  {
    hide Spaces;
    if s != "" {
      OneLineStays(s[1..], n);
    }
  }

  lemma {:induction false} SpacesJoin(m: nat, n: nat)
    ensures Spaces(m + n) == Spaces(m) + Spaces(n)
  {
    if m > 0 {
      SpacesJoin(m - 1, n);
    }
  }

  lemma {:induction false} SpacesAreOneLine(n: nat)
    ensures OneLine(Spaces(n))
  {
    if n > 0 {
      SpacesAreOneLine(n - 1);
    }
  }

  lemma {:induction false} ShiftTwice(s: string, m: nat, n: nat)
    ensures Shift(Shift(s, m), n) == Shift(s, m + n)
  {
    hide Spaces;
    if s != "" {
      var c, t := [s[0]], s[1..];
      assert s == c + t;
      ShiftTwice(t, m, n);
      ShiftOneTwice(s[0], m, n);
      hide Shift;
      ShiftJoins(c, t, m);
      ShiftJoins(c, t, m + n);
      ShiftJoins(Shift(c, m), Shift(t, m), n);
    }
  }

  lemma ShiftOneTwice(c: char, m: nat, n: nat)
    ensures Shift(Shift([c], m), n) == Shift([c], m + n)
  {
    hide Shift, Spaces, OneLine;
    ShiftOne(c, m);
    ShiftOne(c, n);
    ShiftOne(c, m + n);
    if c == '\n' {
      BreakTwice(m, n);
    } else {
      assert [c] + "" == [c];
    }
  }

  lemma BreakTwice(m: nat, n: nat)
    ensures Shift("\n" + Spaces(m), n) == "\n" + Spaces(m + n)
  {
    hide Shift, Spaces, OneLine;
    ShiftJoins("\n", Spaces(m), n);
    SpacesAreOneLine(m);
    OneLineStays(Spaces(m), n);
    ShiftOne('\n', n);
    SpacesJoin(n, m);
  }

  lemma ShiftOne(c: char, n: nat)
    ensures Shift([c], n) == [c] + if c == '\n' then Spaces(n) else ""
  {
    assert [c][1..] == "";
    assert Shift("", n) == "";
  }

  lemma {:induction false} EscapesAreOneLine(s: string)
    ensures OneLine(EscapeChars(s))
  {
    if s != "" {
      EscapesAreOneLine(s[1..]);
    }
  }

  lemma IntIsOneLine(i: int)
    ensures OneLine(WriteInt(i))
  {
    hide Numeral;
  }

  /** A value without parts is one line. */
  lemma LeafIsOneLine(v: Value)
    requires !v.Array? && !v.Object? && PlainDoubles(v)
    ensures OneLine(Canonical(v))
  {
    hide EscapeChars, WriteInt;
    match v
    case String(s) => EscapesAreOneLine(s);
    case Int(i) => IntIsOneLine(i);
    case UInt(u) => IntIsOneLine(u);
    case _ =>
  }

  /** A line break and its indentation, one level in. */
  lemma LeadShifts(indent: nat, depth: nat)
    ensures Lead(Pretty(indent), depth) == Shift("\n", indent * depth)
    ensures indent * (depth + 1) == indent + indent * depth
  {
    ShiftOne('\n', indent * depth);
  }

  /** The pretty text at a depth is the block, shifted as far as the depth says. */
  lemma {:induction false} PrettyIsBlock(v: Value, indent: nat, depth: nat)
    requires PlainDoubles(v)
    ensures Write(v, Pretty(indent), depth) == Shift(Block(v, indent), indent * depth)
    decreases v, 1
  {
    hide Shift, Spaces, Quote, WriteInt, WriteItems, WriteMembers, ItemLines, MemberLines, Lead;
    var n := indent * depth;
    match v
    case Array(items) =>
      if items != [] {
        ItemsAreLines(items, indent, depth);
        Bracketed("[", Shift(ItemLines(items, indent), indent), "]", n);
      } else {
        OneLineStays("[]", n);
      }
    case Object(members) =>
      if members != [] {
        MembersAreLines(members, indent, depth);
        Bracketed("{", Shift(MemberLines(members, indent), indent), "}", n);
      } else {
        OneLineStays("{}", n);
      }
    case _ =>
      LeafIsOneLine(v);
      OneLineStays(Canonical(v), n);
  }

  lemma Bracketed(open: string, lines: string, close: string, n: nat)
    requires OneLine(open) && OneLine(close)
    ensures Shift(open + lines + ("\n" + close), n) == open + (Shift(lines, n) + Shift("\n", n) + close)
    ensures "\n" + "]" == "\n]" && "\n" + "}" == "\n}"
  {
    hide Shift;
    ShiftJoins(open + lines, "\n" + close, n);
    ShiftJoins(open, lines, n);
    ShiftJoins("\n", close, n);
    OneLineStays(open, n);
    OneLineStays(close, n);
  }

  /** The items and the closing bracket. */
  lemma {:induction false} ItemsAreLines(items: seq<Value>, indent: nat, depth: nat)
    requires items != [] && forall i :: 0 <= i < |items| ==> PlainDoubles(items[i])
    ensures var n := indent * depth;
      WriteItems(items, Pretty(indent), depth) ==
      Shift(Shift(ItemLines(items, indent), indent), n) + Shift("\n", n) + "]"
    decreases items, 0
  {
    hide Shift, Spaces, Write, Block, Lead, PlainDoubles;
    var n, block := indent * depth, Block(items[0], indent);
    LeadShifts(indent, depth);
    LeadShifts(indent, depth + 1);
    PrettyIsBlock(items[0], indent, depth + 1);
    var rest := if |items| == 1 then "" else "," + ItemLines(items[1..], indent);
    ShiftTwice(ItemLines(items, indent), indent, n);
    ShiftJoins("\n" + block, rest, indent + n);
    ShiftJoins("\n", block, indent + n);
    if |items| > 1 {
      ItemsAreLines(items[1..], indent, depth);
      ShiftTwice(ItemLines(items[1..], indent), indent, n);
      ShiftJoins(",", ItemLines(items[1..], indent), indent + n);
      OneLineStays(",", indent + n);
    } else {
      OneLineStays("", indent + n);
    }
  }

  lemma {:induction false} MembersAreLines(members: seq<Member>, indent: nat, depth: nat)
    requires members != [] && forall i :: 0 <= i < |members| ==> PlainDoubles(members[i].value)
    ensures var n := indent * depth;
      WriteMembers(members, Pretty(indent), depth) ==
      Shift(Shift(MemberLines(members, indent), indent), n) + Shift("\n", n) + "}"
    decreases members, 0
  {
    hide Shift, Spaces, Write, Block, Lead, PlainDoubles, MemberBlock, WriteMember;
    var n, block := indent * depth, MemberBlock(members[0], indent);
    LeadShifts(indent, depth);
    LeadShifts(indent, depth + 1);
    MemberIsBlock(members[0], indent, depth + 1);
    var rest := if |members| == 1 then "" else "," + MemberLines(members[1..], indent);
    ShiftTwice(MemberLines(members, indent), indent, n);
    ShiftJoins("\n" + block, rest, indent + n);
    ShiftJoins("\n", block, indent + n);
    if |members| > 1 {
      MembersAreLines(members[1..], indent, depth);
      ShiftTwice(MemberLines(members[1..], indent), indent, n);
      ShiftJoins(",", MemberLines(members[1..], indent), indent + n);
      OneLineStays(",", indent + n);
    } else {
      OneLineStays("", indent + n);
    }
  }

  lemma {:induction false} MemberIsBlock(m: Member, indent: nat, depth: nat)
    requires PlainDoubles(m.value)
    ensures WriteMember(m, Pretty(indent), depth) == Shift(MemberBlock(m, indent), indent * depth)
    decreases m, 0
  {
    var n := indent * depth;
    PrettyIsBlock(m.value, indent, depth);
    PrettyMember(m, indent, depth);
    QuoteIsOneLine(m.key);
    hide Shift, Write, Block, Quote, WriteMember;
    ShiftJoins(Quote(m.key) + ": ", Block(m.value, indent), n);
    ShiftJoins(Quote(m.key), ": ", n);
    OneLineStays(Quote(m.key), n);
    OneLineStays(": ", n);
  }

  lemma QuoteIsOneLine(s: string)
    ensures OneLine(Quote(s))
  {
    hide EscapeChars;
    EscapesAreOneLine(s);
  }

  /** The pretty text of a document is its block and a line break. */
  lemma PrettyIsBlocks(v: Value, indent: nat)
    requires PlainDoubles(v)
    ensures SerializePretty(v, indent) == Block(v, indent) + "\n"
  {
    hide Shift, Block, Write;
    PrettyIsBlock(v, indent, 0);
    ShiftByNothing(Block(v, indent));
  }

  lemma {:induction false} ShiftByNothing(s: string)
    ensures Shift(s, 0) == s
  {
    if s != "" {
      ShiftByNothing(s[1..]);
    }
  }
}
