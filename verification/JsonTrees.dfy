/**
 * Whole documents as RFC 8259 spells them: syntax trees, the text of a tree,
 * the value it denotes, and the proof that the parser accepts exactly the
 * texts of well-formed trees and returns what they denote.
 */
module JsonTrees {
  import opened Wrappers
  import opened JsonValue
  import opened JsonText
  import opened JsonGrammar
  import opened JsonSyntax
  import JsonClaims

  // -------------------------------------------------------------------------
  // Trees
  // -------------------------------------------------------------------------

  datatype Tree =
    | Nothing
    | Truth(bit: bool)
    | Number(token: Token)
    | Text(pieces: seq<Piece>)
    | List(blank: string, items: seq<Item>)
    | Record(blank: string, fields: seq<Field>)

  /** An array element, with the blanks around it. */
  datatype Item = Item(before: string, tree: Tree, after: string)

  /** An object member: blanks, a quoted key, blanks and a colon, a value between blanks. */
  datatype Field = Field(before: string, key: seq<Piece>, mid: string, item: Item)

  /** Legal at a place with room for `room` containers around any part of it; the keys of an object differ. */
  predicate WellFormed(t: Tree, room: int)
    decreases t
  {
    && room >= 0
    && match t
       case Nothing => true
       case Truth(_) => true
       case Number(token) => IsToken(token) && TokenMeaning(token).Some?
       case Text(pieces) => AllLegal(pieces)
       case List(blank, items) => AllWs(blank) && forall i :: 0 <= i < |items| ==> FormedItem(items[i], room - 1)
       case Record(blank, fields) =>
         && AllWs(blank)
         && (forall i :: 0 <= i < |fields| ==> FormedField(fields[i], room - 1))
         && (forall i, j :: 0 <= i < j < |fields| ==> MeanAll(fields[i].key) != MeanAll(fields[j].key))
  }

  predicate FormedItem(item: Item, room: int)
    decreases item
  {
    AllWs(item.before) && AllWs(item.after) && WellFormed(item.tree, room)
  }

  predicate FormedField(f: Field, room: int)
    ensures FormedField(f, room) ==> AllLegal(f.key)
    decreases f
  {
    AllWs(f.before) && AllLegal(f.key) && AllWs(f.mid) && FormedItem(f.item, room)
  }

  /** The text of the tree, followed by `post`. */
  function Spell(t: Tree, post: string): (s: string)
    decreases t
  {
    match t
    case Nothing => "null" + post
    case Truth(bit) => (if bit then "true" else "false") + post
    case Number(token) => TokenText(token) + post
    case Text(pieces) => SpellText(pieces, post)
    case List(blank, items) => "[" + if items == [] then blank + ("]" + post) else SpellItems(items, "]" + post)
    case Record(blank, fields) => "{" + if fields == [] then blank + ("}" + post) else SpellFields(fields, "}" + post)
  }

  function SpellText(pieces: seq<Piece>, post: string): string {
    "\"" + SpellAll(pieces) + "\"" + post
  }

  function SpellItem(item: Item, post: string): string
    decreases item
  {
    item.before + Spell(item.tree, item.after + post)
  }

  function SpellItems(items: seq<Item>, post: string): string
    requires items != []
    decreases items
  {
    SpellItem(items[0], if |items| == 1 then post else "," + SpellItems(items[1..], post))
  }

  function SpellField(f: Field, post: string): string
    decreases f
  {
    f.before + SpellText(f.key, f.mid + (":" + SpellItem(f.item, post)))
  }

  function SpellFields(fields: seq<Field>, post: string): string
    requires fields != []
    decreases fields
  {
    SpellField(fields[0], if |fields| == 1 then post else "," + SpellFields(fields[1..], post))
  }

  /** The value: members are kept in the order of their keys. */
  function Denoted(t: Tree, room: int): Value
    requires WellFormed(t, room)
    decreases t
  {
    match t
    case Nothing => Null
    case Truth(bit) => Bool(bit)
    case Number(token) => TokenMeaning(token).value
    case Text(pieces) => String(MeanAll(pieces))
    case List(_, items) => Array(DenotedItems(items, room - 1))
    case Record(_, fields) => Object(InsertAll([], fields, room - 1))
  }

  predicate FormedItems(items: seq<Item>, room: int)
    decreases items
  {
    forall i :: 0 <= i < |items| ==> FormedItem(items[i], room)
  }

  predicate FormedFields(fields: seq<Field>, room: int)
    decreases fields
  {
    forall i :: 0 <= i < |fields| ==> FormedField(fields[i], room)
  }

  function DenotedItems(items: seq<Item>, room: int): (vs: seq<Value>)
    requires FormedItems(items, room)
    ensures |vs| == |items|
    decreases items
  {
    if items == [] then [] else [DenotedItem(items[0], room)] + DenotedItems(items[1..], room)
  }

  function DenotedItem(item: Item, room: int): Value
    requires FormedItem(item, room)
    decreases item
  {
    Denoted(item.tree, room)
  }

  function MemberOf(f: Field, room: int): Member
    requires FormedField(f, room)
    decreases f
  {
    Member(MeanAll(f.key), DenotedItem(f.item, room))
  }

  function InsertAll(members: seq<Member>, fields: seq<Field>, room: int): seq<Member>
    requires FormedFields(fields, room)
    decreases fields
  {
    if fields == [] then members else InsertAll(Insert(members, MemberOf(fields[0], room)), fields[1..], room)
  }

  /** The members of an object are in strict key order and are exactly those of its fields. */
  lemma {:induction false} InsertAllIsSorted(members: seq<Member>, fields: seq<Field>, room: int)
    requires FormedFields(fields, room) && Sorted(members)
    requires forall i :: 0 <= i < |fields| ==> !HasKey(members, MeanAll(fields[i].key))
    requires forall i, j :: 0 <= i < j < |fields| ==> MeanAll(fields[i].key) != MeanAll(fields[j].key)
    ensures Sorted(InsertAll(members, fields, room))
    ensures forall x :: x in InsertAll(members, fields, room) <==>
              x in members || exists i :: 0 <= i < |fields| && x == MemberOf(fields[i], room)
    decreases |fields|
  {
    hide Sorted, HasKey, Insert, FormedField, MemberOf, MeanAll;
    if fields != [] {
      var m := MemberOf(fields[0], room);
      assert m.key == MeanAll(fields[0].key) by { KeyOfMember(fields[0], room); }
      JsonClaims.InsertKeepsOrder(members, m);
      forall i | 0 <= i < |fields[1..]| ensures !HasKey(Insert(members, m), MeanAll(fields[1..][i].key)) {
        KeyAfterInsert(members, m, MeanAll(fields[1 + i].key));
      }
      InsertAllIsSorted(Insert(members, m), fields[1..], room);
      forall x | exists i :: 0 <= i < |fields| && x == MemberOf(fields[i], room)
        ensures x in InsertAll(members, fields, room)
      {
        var i :| 0 <= i < |fields| && x == MemberOf(fields[i], room);
        if i > 0 {
          assert fields[1..][i - 1] == fields[i];
        }
      }
    }
  }

  lemma KeyOfMember(f: Field, room: int)
    requires FormedField(f, room)
    ensures MemberOf(f, room).key == MeanAll(f.key)
  {
  }

  lemma KeyAfterInsert(members: seq<Member>, m: Member, key: string)
    requires Sorted(members) && !HasKey(members, m.key)
    ensures HasKey(Insert(members, m), key) <==> HasKey(members, key) || key == m.key
  {
    hide Sorted, Insert;
    JsonClaims.InsertKeepsOrder(members, m);
    var all := Insert(members, m);
    assert m in all;
    if HasKey(members, key) {
      var i :| 0 <= i < |members| && members[i].key == key;
      assert members[i] in all;
    }
    if HasKey(all, key) {
      var i :| 0 <= i < |all| && all[i].key == key;
      assert all[i] in members || all[i] == m;
    }
  }

  // -------------------------------------------------------------------------
  // Every well-formed tree is read
  // -------------------------------------------------------------------------

  /** What may follow a value. */
  predicate Stops(post: string) {
    post == "" || IsWs(post[0]) || post[0] == ',' || post[0] == ']' || post[0] == '}'
  }

  predicate StartsDark(s: string) {
    s != "" && !IsWs(s[0])
  }

  lemma SpellStarts(t: Tree, room: int, post: string)
    requires WellFormed(t, room)
    ensures StartsDark(Spell(t, post))
    ensures Spell(t, post)[0] != ']' && Spell(t, post)[0] != '}'
  {
    hide SpellItems, SpellFields, SpellAll, FormedItem, FormedField, AllLegal;
    if t.Number? {
      hide IsPower;
      assert TokenText(t.token)[0] == if t.token.minus then '-' else t.token.whole[0];
    }
  }

  lemma BlankStops(blank: string, post: string)
    requires AllWs(blank) && Stops(post)
    ensures Stops(blank + post)
  {
    if blank == "" {
      assert blank + post == post;
    }
  }

  lemma StringReads(pieces: seq<Piece>, post: string)
    requires AllLegal(pieces)
    ensures ReadString(SpellText(pieces, post)) == Ok((MeanAll(pieces), post))
    ensures StartsDark(SpellText(pieces, post)) && SpellText(pieces, post)[0] == '"'
  {
    hide AllLegal, SpellAll, MeanAll, ReadString;
    StringsExactly(SpellText(pieces, post), MeanAll(pieces), post);
  }

  lemma WordReads(t: Tree, room: int, post: string)
    requires WellFormed(t, room) && (t.Nothing? || t.Truth? || t.Text?)
    ensures ReadValue(Spell(t, post), room) == Ok((Denoted(t, room), post))
  {
    hide ReadString, ReadNumber, ReadItems, ReadMembers, SkipWs, AllLegal, SpellText, MeanAll;
    if t.Text? {
      StringReads(t.pieces, post);
    } else {
      assert Spell(t, post)[4..] == post || Spell(t, post)[5..] == post;
    }
  }

  lemma NumberReads(t: Tree, room: int, post: string)
    requires WellFormed(t, room) && t.Number? && Stops(post)
    ensures ReadValue(Spell(t, post), room) == Ok((Denoted(t, room), post))
  {
    hide ReadNumber, ReadItems, ReadMembers, ReadString, ReadLiteral, SkipWs, IsPower, NumberOf, TokenMeaning;
    TokenReads(t.token, post);
    TokenStarts(t.token);
    assert Spell(t, post)[0] == TokenText(t.token)[0];
  }

  lemma TokenStarts(t: Token)
    requires IsToken(t)
    ensures TokenText(t) != "" && (TokenText(t)[0] == '-' || IsDigit(TokenText(t)[0]))
  {
    hide IsPower;
  }

  lemma EmptyReads(t: Tree, room: int, post: string)
    requires WellFormed(t, room) && ((t.List? && t.items == []) || (t.Record? && t.fields == []))
    ensures ReadValue(Spell(t, post), room) == Ok((Denoted(t, room), post))
  {
    hide ReadItems, ReadMembers, SkipWs, AllWs;
    if t.List? {
      SkipsBlanks(t.blank, "]" + post);
      assert Spell(t, post)[1..] == t.blank + ("]" + post);
    } else {
      SkipsBlanks(t.blank, "}" + post);
      assert Spell(t, post)[1..] == t.blank + ("}" + post);
    }
  }

  /** Any well-formed tree followed by something a value may stop at is read as the value it denotes. */
  lemma {:induction false} TreeReads(t: Tree, room: int, post: string)
    requires WellFormed(t, room) && Stops(post)
    ensures ReadValue(Spell(t, post), room) == Ok((Denoted(t, room), post))
    decreases t
  {
    hide *;
    match t
    case Number(_) => NumberReads(t, room, post);
    case List(blank, items) =>
      if items == [] {
        EmptyReads(t, room, post);
      } else {
        ListReads(t, room, post);
      }
    case Record(blank, fields) =>
      if fields == [] {
        EmptyReads(t, room, post);
      } else {
        RecordReads(t, room, post);
      }
    case _ => WordReads(t, room, post);
  }

  // --- items ---

  /** One turn of the grammar: an item, and what ends it. */
  lemma ItemStep(s: string, room: int, before: seq<Value>, v: Value, tail: string, t: string)
    requires ReadValue(SkipWs(s), room - 1) == Ok((v, tail)) && SkipWs(tail) == t && t != ""
    ensures t[0] == ',' ==> ReadItems(s, room, before) == ReadItems(t[1..], room, before + [v])
    ensures t[0] == ']' ==> ReadItems(s, room, before) == Ok((Array(before + [v]), t[1..]))
  {
    hide ReadValue, SkipWs;
  }

  lemma ItemParts(items: seq<Item>, room: int, post: string)
    requires items != [] && FormedItems(items, room) && StartsDark(post) && Stops(post)
    ensures var item := items[0];
      var rest := AfterFirst(items, post);
      && AllWs(item.before) && AllWs(item.after) && WellFormed(item.tree, room)
      && SpellItems(items, post) == item.before + Spell(item.tree, item.after + rest)
      && Stops(item.after + rest) && StartsDark(rest)
      && SkipWs(item.after + rest) == rest
      && DenotedItems(items, room) == [Denoted(item.tree, room)] + DenotedItems(items[1..], room)
      && FormedItems(items[1..], room)
  {
    hide Spell, SkipWs, Denoted, AllWs;
    var item := items[0];
    assert FormedItem(item, room);
    var rest := AfterFirst(items, post);
    BlankStops(item.after, rest);
    SkipsBlanks(item.after, rest);
  }

  /** What follows the first item of an array. */
  function AfterFirst(items: seq<Item>, close: string): string
    requires items != []
  {
    if |items| == 1 then close else "," + SpellItems(items[1..], close)
  }

  lemma AfterFirstIs(items: seq<Item>, post: string)
    requires items != []
    ensures var rest := AfterFirst(items, "]" + post);
      && rest != ""
      && (|items| == 1 ==> rest[0] == ']' && rest[1..] == post && items[1..] == [])
      && (|items| > 1 ==> rest[0] == ',' && rest[1..] == SpellItems(items[1..], "]" + post))
      && Stops("]" + post) && StartsDark("]" + post)
  {
    hide SpellItems;
  }

  lemma {:induction false} ItemsRead(items: seq<Item>, room: int, post: string, before: seq<Value>)
    requires items != [] && FormedItems(items, room - 1)
    ensures ReadItems(SpellItems(items, "]" + post), room, before) ==
            Ok((Array(before + DenotedItems(items, room - 1)), post))
    decreases items, 1
  {
    hide *;
    var close, item := "]" + post, items[0];
    var rest := AfterFirst(items, close);
    AfterFirstIs(items, post);
    ItemParts(items, room - 1, close);
    SpellStarts(item.tree, room - 1, item.after + rest);
    SkipsBlanksBefore(item.before, Spell(item.tree, item.after + rest));
    TreeReads(item.tree, room - 1, item.after + rest);
    var v := Denoted(item.tree, room - 1);
    ItemStep(SpellItems(items, close), room, before, v, item.after + rest, rest);
    Regroup(before, v, DenotedItems(items[1..], room - 1));
    if |items| > 1 {
      ItemsRead(items[1..], room, post, before + [v]);
    } else {
      NoItems(items[1..], room - 1);
    }
  }

  lemma NoItems(items: seq<Item>, room: int)
    requires items == []
    ensures FormedItems(items, room) && DenotedItems(items, room) == []
  {
  }

  lemma StartsDarkIsText(s: string)
    requires StartsDark(s)
    ensures s != ""
  {
  }

  lemma SkipsBlanksBefore(blank: string, s: string)
    requires AllWs(blank) && StartsDark(s)
    ensures SkipWs(blank + s) == s
  {
    hide SkipWs, AllWs;
    SkipsBlanks(blank, s);
  }

  lemma Regroup<T>(a: seq<T>, x: T, b: seq<T>)
    ensures a + [x] + b == a + ([x] + b) && a + [x] + [] == a + [x]
  {
  }

  lemma SkipTwice(s: string)
    ensures SkipWs(SkipWs(s)) == SkipWs(s)
  {
  }

  lemma OpeningList(s: string, room: int)
    requires room >= 0 && s != "" && s[0] == '[' && SkipWs(s[1..]) != "" && SkipWs(s[1..])[0] != ']'
    ensures ReadValue(s, room) == ReadItems(s[1..], room, [])
  {
    hide SkipWs;
    SkipTwice(s[1..]);
  }

  /** Where an array's text begins. */
  lemma ListSpelling(t: Tree, room: int, post: string)
    requires t.List? && t.items != [] && WellFormed(t, room)
    ensures room >= 0 && Spell(t, post) != "" && Spell(t, post)[0] == '['
    ensures Spell(t, post)[1..] == SpellItems(t.items, "]" + post)
    ensures Stops("]" + post) && StartsDark("]" + post)
  {
    hide SpellItems, FormedItem;
  }

  lemma {:induction false} ListReads(t: Tree, room: int, post: string)
    requires t.List? && t.items != [] && WellFormed(t, room)
    ensures ReadValue(Spell(t, post), room) == Ok((Denoted(t, room), post))
    decreases t, 0
  {
    hide *;
    var close, item := "]" + post, t.items[0];
    ListSpelling(t, room, post);
    ListParts(t, room);
    ItemParts(t.items, room - 1, close);
    var rest := AfterFirst(t.items, close);
    SpellStarts(item.tree, room - 1, item.after + rest);
    SkipsBlanksBefore(item.before, Spell(item.tree, item.after + rest));
    StartsDarkIsText(Spell(item.tree, item.after + rest));
    OpeningList(Spell(t, post), room);
    ItemsRead(t.items, room, post, []);
  }

  lemma ListParts(t: Tree, room: int)
    requires t.List? && t.items != [] && WellFormed(t, room)
    ensures FormedItems(t.items, room - 1)
    ensures Denoted(t, room) == Array([] + DenotedItems(t.items, room - 1))
  {
    hide DenotedItems, FormedItem;
    assert [] + DenotedItems(t.items, room - 1) == DenotedItems(t.items, room - 1);
  }

  // --- members ---

  lemma MemberRead(s: string, room: int, key: string, rest: string, t: string, v: Value, after: string)
    requires ReadString(SkipWs(s)) == Ok((key, rest)) && SkipWs(rest) == t && t != "" && t[0] == ':'
    requires ReadValue(SkipWs(t[1..]), room - 1) == Ok((v, after))
    ensures ReadMember(s, room) == Ok((Member(key, v), after))
  {
    hide ReadString, ReadValue, SkipWs;
  }

  lemma MemberStep(s: string, room: int, before: seq<Member>, m: Member, tail: string, t: string)
    requires ReadMember(s, room) == Ok((m, tail)) && SkipWs(tail) == t && t != "" && !HasKey(before, m.key)
    ensures t[0] == ',' ==> ReadMembers(s, room, before) == ReadMembers(t[1..], room, Insert(before, m))
    ensures t[0] == '}' ==> ReadMembers(s, room, before) == Ok((Object(Insert(before, m)), t[1..]))
  {
    hide ReadMember, SkipWs, HasKey, Insert;
  }

  lemma FieldParts(f: Field, room: int, rest: string)
    requires FormedField(f, room) && StartsDark(rest) && Stops(rest)
    ensures var item := f.item;
      var colon := ":" + (item.before + Spell(item.tree, item.after + rest));
      && AllWs(f.before) && AllWs(f.mid) && AllLegal(f.key)
      && AllWs(item.before) && AllWs(item.after) && WellFormed(item.tree, room)
      && SpellField(f, rest) == f.before + SpellText(f.key, f.mid + colon)
      && Stops(item.after + rest) && SkipWs(item.after + rest) == rest
      && SkipWs(f.mid + colon) == colon
      && MemberOf(f, room) == Member(MeanAll(f.key), Denoted(item.tree, room))
  {
    hide Spell, SkipWs, Denoted, AllWs, SpellText, AllLegal, MeanAll;
    var item := f.item;
    assert FormedItem(item, room);
    BlankStops(item.after, rest);
    SkipsBlanks(item.after, rest);
    SkipsBlanks(f.mid, ":" + (item.before + Spell(item.tree, item.after + rest)));
  }

  /** One member, with its blanks, is read as its key and value. */
  lemma {:induction false} FieldReads(f: Field, room: int, rest: string)
    requires FormedField(f, room - 1) && StartsDark(rest) && Stops(rest)
    ensures ReadMember(SpellField(f, rest), room) == Ok((MemberOf(f, room - 1), f.item.after + rest))
    ensures SkipWs(f.item.after + rest) == rest
    decreases f
  {
    hide *;
    var item := f.item;
    FieldParts(f, room - 1, rest);
    var value := Spell(item.tree, item.after + rest);
    var colon := ":" + (item.before + value);
    StringReads(f.key, f.mid + colon);
    SkipsBlanksBefore(f.before, SpellText(f.key, f.mid + colon));
    SpellStarts(item.tree, room - 1, item.after + rest);
    SkipsBlanksBefore(item.before, value);
    TreeReads(item.tree, room - 1, item.after + rest);
    assert colon[1..] == item.before + value;
    MemberRead(SpellField(f, rest), room, MeanAll(f.key), f.mid + colon, colon,
        Denoted(item.tree, room - 1), item.after + rest);
  }

  ghost predicate NewKeys(members: seq<Member>, fields: seq<Field>, room: int) {
    && FormedFields(fields, room) && Sorted(members)
    && (forall i :: 0 <= i < |fields| ==> !HasKey(members, MeanAll(fields[i].key)))
    && (forall i, j :: 0 <= i < j < |fields| ==> MeanAll(fields[i].key) != MeanAll(fields[j].key))
  }

  lemma NewKeysStep(members: seq<Member>, fields: seq<Field>, room: int)
    requires fields != [] && NewKeys(members, fields, room)
    ensures FormedField(fields[0], room) && !HasKey(members, MemberOf(fields[0], room).key)
    ensures NewKeys(Insert(members, MemberOf(fields[0], room)), fields[1..], room)
    ensures InsertAll(members, fields, room) ==
            InsertAll(Insert(members, MemberOf(fields[0], room)), fields[1..], room)
    ensures |fields| == 1 ==>
              InsertAll(members, fields, room) == Insert(members, MemberOf(fields[0], room))
  {
    hide Sorted, HasKey, Insert, FormedField, MemberOf, MeanAll;
    var m := MemberOf(fields[0], room);
    KeyOfMember(fields[0], room);
    JsonClaims.InsertKeepsOrder(members, m);
    forall i | 0 <= i < |fields[1..]| ensures !HasKey(Insert(members, m), MeanAll(fields[1..][i].key)) {
      KeyAfterInsert(members, m, MeanAll(fields[1 + i].key));
    }
    if |fields| == 1 {
      assert fields[1..] == [];
    }
  }

  lemma {:induction false} FieldsRead(fields: seq<Field>, room: int, post: string, before: seq<Member>)
    requires fields != [] && NewKeys(before, fields, room - 1)
    ensures ReadMembers(SpellFields(fields, "}" + post), room, before) ==
            Ok((Object(InsertAll(before, fields, room - 1)), post))
    decreases fields, 1
  {
    var close := "}" + post;
    assert Stops(close) && StartsDark(close) && close[1..] == post && close[0] == '}';
    var rest := if |fields| == 1 then close else "," + SpellFields(fields[1..], close);
    assert |fields| > 1 ==> rest[1..] == SpellFields(fields[1..], close) && rest[0] == ',';
    assert Stops(rest) && StartsDark(rest);
    assert SpellFields(fields, close) == SpellField(fields[0], rest);
    hide *;
    NewKeysStep(before, fields, room - 1);
    var m := MemberOf(fields[0], room - 1);
    FieldReads(fields[0], room, rest);
    StartsDarkIsText(rest);
    MemberStep(SpellFields(fields, close), room, before, m, fields[0].item.after + rest, rest);
    if |fields| > 1 {
      FieldsRead(fields[1..], room, post, Insert(before, m));
    }
  }

  lemma OpeningRecord(s: string, room: int)
    requires room >= 0 && s != "" && s[0] == '{' && SkipWs(s[1..]) != "" && SkipWs(s[1..])[0] != '}'
    ensures ReadValue(s, room) == ReadMembers(s[1..], room, [])
  {
    hide SkipWs, ReadString, HasKey, Insert;
    SkipTwice(s[1..]);
    assert ReadMember(SkipWs(s[1..]), room) == ReadMember(s[1..], room);
  }

  lemma RecordParts(t: Tree, room: int)
    requires t.Record? && t.fields != [] && WellFormed(t, room)
    ensures NewKeys([], t.fields, room - 1)
    ensures Denoted(t, room) == Object(InsertAll([], t.fields, room - 1))
  {
    hide InsertAll, FormedField, MeanAll;
  }

  /** Where an object's text begins, and what comes after its first member. */
  lemma RecordSpelling(t: Tree, room: int, post: string) returns (rest: string)
    requires t.Record? && t.fields != [] && WellFormed(t, room)
    ensures room >= 0 && Spell(t, post) != "" && Spell(t, post)[0] == '{'
    ensures Spell(t, post)[1..] == SpellFields(t.fields, "}" + post) == SpellField(t.fields[0], rest)
    ensures Stops(rest) && StartsDark(rest)
  {
    hide SpellField, FormedField, MeanAll;
    var close := "}" + post;
    rest := if |t.fields| == 1 then close else "," + SpellFields(t.fields[1..], close);
  }

  lemma {:induction false} RecordReads(t: Tree, room: int, post: string)
    requires t.Record? && t.fields != [] && WellFormed(t, room)
    ensures ReadValue(Spell(t, post), room) == Ok((Denoted(t, room), post))
    decreases t, 0
  {
    hide *;
    var f := t.fields[0];
    var rest := RecordSpelling(t, room, post);
    RecordParts(t, room);
    NewKeysStep([], t.fields, room - 1);
    FieldParts(f, room - 1, rest);
    var colon := ":" + (f.item.before + Spell(f.item.tree, f.item.after + rest));
    StringReads(f.key, f.mid + colon);
    SkipsBlanksBefore(f.before, SpellText(f.key, f.mid + colon));
    StartsDarkIsText(SpellText(f.key, f.mid + colon));
    OpeningRecord(Spell(t, post), room);
    FieldsRead(t.fields, room, post, []);
  }

  // -------------------------------------------------------------------------
  // Everything that is read is a well-formed tree
  // -------------------------------------------------------------------------

  lemma {:induction false} BlankBefore(s: string) returns (blank: string)
    ensures AllWs(blank) && s == blank + SkipWs(s)
  {
    hide AllWs;
    if s == "" || !IsWs(s[0]) {
      blank := "";
      NoBlank();
      assert s == "" + s;
    } else {
      var rest := BlankBefore(s[1..]);
      blank := [s[0]] + rest;
      BlankGrows(s, rest);
    }
  }

  lemma NoBlank()
    ensures AllWs("")
  {
  }

  lemma BlankGrows(s: string, rest: string)
    requires s != "" && IsWs(s[0]) && AllWs(rest) && s[1..] == rest + SkipWs(s[1..])
    ensures AllWs([s[0]] + rest) && s == [s[0]] + rest + SkipWs(s)
  {
    assert SkipWs(s) == SkipWs(s[1..]);
    hide SkipWs, IsWs;
    FirstOf(s, rest, SkipWs(s));
  }

  lemma FirstOf(s: string, a: string, b: string)
    requires s != "" && s[1..] == a + b
    ensures s == [s[0]] + a + b
  {
    assert s == [s[0]] + s[1..];
  }

  lemma StringIsText(s: string) returns (pieces: seq<Piece>)
    requires ReadString(s).Ok?
    ensures AllLegal(pieces) && ReadString(s).value.0 == MeanAll(pieces)
    ensures s == SpellText(pieces, ReadString(s).value.1)
  {
    hide ReadString, AllLegal, MeanAll, SpellAll;
    var bytes, rest := ReadString(s).value.0, ReadString(s).value.1;
    StringsExactly(s, bytes, rest);
    pieces :| AllLegal(pieces) && bytes == MeanAll(pieces) && s == "\"" + SpellAll(pieces) + "\"" + rest;
  }

  lemma WordIsTree(s: string, room: int) returns (t: Tree)
    requires ReadValue(s, room).Ok? && s != "" && s[0] != '[' && s[0] != '{'
    ensures WellFormed(t, room) && s == Spell(t, ReadValue(s, room).value.1)
    ensures Denoted(t, room) == ReadValue(s, room).value.0
  {
    hide ReadString, ReadNumber, IsToken, TokenMeaning, TokenText, AllLegal, MeanAll, SpellText;
    var v, rest := ReadValue(s, room).value.0, ReadValue(s, room).value.1;
    if s[0] == '"' {
      var pieces := StringIsText(s);
      t := Text(pieces);
    } else if s[0] == 't' || s[0] == 'f' || s[0] == 'n' {
      t := if s[0] == 'n' then Nothing else Truth(s[0] == 't');
      WordText(s, rest);
    } else {
      var token := NumberIsToken(s);
      t := Number(token);
    }
  }

  lemma WordText(s: string, rest: string)
    ensures "null" <= s && rest == s[4..] ==> s == "null" + rest
    ensures "true" <= s && rest == s[4..] ==> s == "true" + rest
    ensures "false" <= s && rest == s[5..] ==> s == "false" + rest
  {
  }

  /** What the grammar does with the text of an array. */
  lemma ListCases(s: string, room: int)
    requires ReadValue(s, room).Ok? && s != "" && s[0] == '['
    ensures room >= 0 && SkipWs(s[1..]) != ""
    ensures SkipWs(s[1..])[0] == ']' ==> ReadValue(s, room).value == (Array([]), SkipWs(s[1..])[1..])
    ensures SkipWs(s[1..])[0] != ']' ==>
              ReadItems(s[1..], room, []).Ok? && ReadValue(s, room).value == ReadItems(s[1..], room, []).value
  {
    hide SkipWs, ReadItems;
    if SkipWs(s[1..]) == "" {
      NothingLeft(room);
    } else if SkipWs(s[1..])[0] != ']' {
      OpeningList(s, room);
    }
  }

  lemma NothingLeft(room: int)
    ensures ReadItems("", room, []).Err? && ReadMembers("", room, []).Err?
  {
    assert SkipWs("") == "";
  }

  lemma RecordCases(s: string, room: int)
    requires ReadValue(s, room).Ok? && s != "" && s[0] == '{'
    ensures room >= 0 && SkipWs(s[1..]) != ""
    ensures SkipWs(s[1..])[0] == '}' ==> ReadValue(s, room).value == (Object([]), SkipWs(s[1..])[1..])
    ensures SkipWs(s[1..])[0] != '}' ==>
              ReadMembers(s[1..], room, []).Ok? && ReadValue(s, room).value == ReadMembers(s[1..], room, []).value
  {
    hide SkipWs, ReadMembers;
    if SkipWs(s[1..]) == "" {
      NothingLeft(room);
    } else if SkipWs(s[1..])[0] != '}' {
      OpeningRecord(s, room);
    }
  }

  lemma EmptyTree(s: string, close: char, blank: string)
    requires s != "" && AllWs(blank) && SkipWs(s[1..]) != "" && SkipWs(s[1..])[0] == close
    requires s[1..] == blank + SkipWs(s[1..])
    ensures s == [s[0]] + (blank + ([close] + SkipWs(s[1..])[1..]))
  {
    hide SkipWs;
    var t := SkipWs(s[1..]);
    assert t == [t[0]] + t[1..];
    assert s == [s[0]] + s[1..];
  }

  lemma EmptyIsTree(s: string, room: int) returns (t: Tree)
    requires ReadValue(s, room).Ok? && s != "" && SkipWs(s[1..]) != ""
    requires (s[0] == '[' && SkipWs(s[1..])[0] == ']') || (s[0] == '{' && SkipWs(s[1..])[0] == '}')
    ensures WellFormed(t, room) && s == Spell(t, ReadValue(s, room).value.1)
    ensures Denoted(t, room) == ReadValue(s, room).value.0
  {
    hide SkipWs, AllWs, ReadItems, ReadMembers;
    var blank := BlankBefore(s[1..]);
    EmptyTree(s, SkipWs(s[1..])[0], blank);
    t := if s[0] == '[' then List(blank, []) else Record(blank, []);
  }

  /** Whatever the grammar takes for a value is the text of a tree that denotes it. */
  lemma {:induction false} ValueIsTree(s: string, room: int) returns (t: Tree)
    requires ReadValue(s, room).Ok?
    ensures WellFormed(t, room) && s == Spell(t, ReadValue(s, room).value.1)
    ensures Denoted(t, room) == ReadValue(s, room).value.0
    decreases |s|, 1
  {
    assert s != "" by { NoValue(s, room); }
    hide *;
    if s[0] == '[' {
      ListCases(s, room);
      if SkipWs(s[1..])[0] == ']' {
        t := EmptyIsTree(s, room);
      } else {
        var items := ItemsAreTrees(s[1..], room, []);
        t := List("", items);
        ListMeans(t, room, s, ReadItems(s[1..], room, []).value.1);
      }
    } else if s[0] == '{' {
      RecordCases(s, room);
      if SkipWs(s[1..])[0] == '}' {
        t := EmptyIsTree(s, room);
      } else {
        NoMembersYet();
        var fields := MembersAreFields(s[1..], room, []);
        t := Record("", fields);
        RecordMeans(t, room, s, ReadMembers(s[1..], room, []).value.1);
      }
    } else {
      t := WordIsTree(s, room);
    }
  }

  lemma NoMembersYet()
    ensures Sorted([])
  {
  }

  lemma NoValue(s: string, room: int)
    requires ReadValue(s, room).Ok?
    ensures s != "" && room >= 0
  {
    hide ReadItems, ReadMembers, ReadString, ReadNumber, ReadLiteral, SkipWs;
  }

  lemma ListMeans(t: Tree, room: int, s: string, rest: string)
    requires t.List? && t.blank == "" && t.items != [] && FormedItems(t.items, room - 1) && room >= 0
    requires s != "" && s[0] == '[' && s[1..] == SpellItems(t.items, "]" + rest)
    ensures WellFormed(t, room) && s == Spell(t, rest)
    ensures Denoted(t, room) == Array(DenotedItems(t.items, room - 1))
  {
    hide SpellItems, FormedItem, DenotedItems;
    assert s == [s[0]] + s[1..];
  }

  lemma RecordMeans(t: Tree, room: int, s: string, rest: string)
    requires t.Record? && t.blank == "" && t.fields != [] && NewKeys([], t.fields, room - 1) && room >= 0
    requires s != "" && s[0] == '{' && s[1..] == SpellFields(t.fields, "}" + rest)
    ensures WellFormed(t, room) && s == Spell(t, rest)
    ensures Denoted(t, room) == Object(InsertAll([], t.fields, room - 1))
  {
    hide SpellFields, FormedField, InsertAll, MeanAll;
    assert s == [s[0]] + s[1..];
  }

  /** One turn of the grammar over an array, turned round. */
  lemma ItemsCases(s: string, room: int, before: seq<Value>)
    requires ReadItems(s, room, before).Ok?
    ensures ReadValue(SkipWs(s), room - 1).Ok?
    ensures var v, tail := ReadValue(SkipWs(s), room - 1).value.0, ReadValue(SkipWs(s), room - 1).value.1;
      var t := SkipWs(tail);
      && t != "" && (t[0] == ',' || t[0] == ']')
      && (t[0] == ',' ==>
            ReadItems(t[1..], room, before + [v]).Ok?
            && ReadItems(s, room, before).value == ReadItems(t[1..], room, before + [v]).value)
      && (t[0] == ']' ==> ReadItems(s, room, before).value == (Array(before + [v]), t[1..]))
      && |tail| < |SkipWs(s)| && |t[1..]| < |s|
  {
    hide ReadValue, SkipWs;
  }

  lemma ItemFromText(s: string, room: int, tree: Tree, tail: string) returns (item: Item)
    requires WellFormed(tree, room) && SkipWs(s) == Spell(tree, tail)
    ensures item.tree == tree && FormedItem(item, room) && s == SpellItem(item, SkipWs(tail))
  {
    hide WellFormed, Spell, SkipWs, AllWs;
    var before := BlankBefore(s);
    var after := BlankBefore(tail);
    item := Item(before, tree, after);
  }

  lemma ItemsGrow(item: Item, items: seq<Item>, room: int, rest: string)
    requires FormedItem(item, room) && FormedItems(items, room)
    ensures FormedItems([item] + items, room)
    ensures DenotedItems([item] + items, room) == [Denoted(item.tree, room)] + DenotedItems(items, room)
    ensures items == [] ==> SpellItems([item] + items, rest) == SpellItem(item, rest)
    ensures items != [] ==> SpellItems([item] + items, rest) == SpellItem(item, "," + SpellItems(items, rest))
  {
    hide FormedItem, Denoted, SpellItem;
    assert ([item] + items)[1..] == items;
  }

  lemma FirstAndRest(t: string, c: char)
    requires t != "" && t[0] == c
    ensures t == [c] + t[1..]
  {
  }

  lemma {:induction false} ItemsAreTrees(s: string, room: int, before: seq<Value>) returns (items: seq<Item>)
    requires ReadItems(s, room, before).Ok?
    ensures items != [] && FormedItems(items, room - 1)
    ensures s == SpellItems(items, "]" + ReadItems(s, room, before).value.1)
    ensures ReadItems(s, room, before).value.0 == Array(before + DenotedItems(items, room - 1))
    decreases |s|, 2
  {
    hide *;
    ItemsCases(s, room, before);
    SkipIsShorter(s);
    var tree := ValueIsTree(SkipWs(s), room - 1);
    var v, tail := ReadValue(SkipWs(s), room - 1).value.0, ReadValue(SkipWs(s), room - 1).value.1;
    var t := SkipWs(tail);
    var item := ItemFromText(s, room - 1, tree, tail);
    FirstAndRest(t, t[0]);
    var rest := "]" + ReadItems(s, room, before).value.1;
    if t[0] == ']' {
      NoItems([], room - 1);
      ItemsGrow(item, [], room - 1, rest);
      items := [item] + [];
      Regroup(before, v, []);
    } else {
      var more := ItemsAreTrees(t[1..], room, before + [v]);
      ItemsGrow(item, more, room - 1, rest);
      items := [item] + more;
      Regroup(before, v, DenotedItems(more, room - 1));
    }
  }

  lemma SkipIsShorter(s: string)
    ensures |SkipWs(s)| <= |s|
  {
  }

  lemma MemberCases(s: string, room: int)
    requires ReadMember(s, room).Ok?
    ensures ReadString(SkipWs(s)).Ok?
    ensures var key, rest := ReadString(SkipWs(s)).value.0, ReadString(SkipWs(s)).value.1;
      var t := SkipWs(rest);
      && t != "" && t[0] == ':' && ReadValue(SkipWs(t[1..]), room - 1).Ok?
      && ReadMember(s, room).value == (Member(key, ReadValue(SkipWs(t[1..]), room - 1).value.0),
                                       ReadValue(SkipWs(t[1..]), room - 1).value.1)
      && |SkipWs(t[1..])| < |s|
  {
    hide ReadString, ReadValue, SkipWs;
  }

  lemma MembersCases(s: string, room: int, before: seq<Member>)
    requires ReadMembers(s, room, before).Ok?
    ensures ReadMember(s, room).Ok?
    ensures var m, tail := ReadMember(s, room).value.0, ReadMember(s, room).value.1;
      var t, all := SkipWs(tail), Insert(before, m);
      && !HasKey(before, m.key) && t != "" && (t[0] == ',' || t[0] == '}')
      && (t[0] == ',' ==>
            ReadMembers(t[1..], room, all).Ok?
            && ReadMembers(s, room, before).value == ReadMembers(t[1..], room, all).value)
      && (t[0] == '}' ==> ReadMembers(s, room, before).value == (Object(all), t[1..]))
      && |t[1..]| < |s|
  {
    hide ReadMember, SkipWs, HasKey, Insert;
  }

  lemma FieldText(s: string, pieces: seq<Piece>, rest: string, t: string, item: Item, post: string) returns (f: Field)
    requires SkipWs(s) == SpellText(pieces, rest) && SkipWs(rest) == t && t != "" && t[0] == ':'
    requires t[1..] == SpellItem(item, post)
    ensures f.key == pieces && f.item == item && AllWs(f.before) && AllWs(f.mid)
    ensures s == SpellField(f, post)
  {
    hide SpellText, SpellItem, SkipWs, AllWs;
    var before := BlankBefore(s);
    var mid := BlankBefore(rest);
    f := Field(before, pieces, mid, item);
    FirstAndRest(t, ':');
  }

  lemma FormedWith(f: Field, room: int)
    requires AllWs(f.before) && AllLegal(f.key) && AllWs(f.mid) && FormedItem(f.item, room)
    ensures FormedField(f, room) && MemberOf(f, room) == Member(MeanAll(f.key), Denoted(f.item.tree, room))
  {
    hide AllWs, AllLegal, MeanAll, Denoted, WellFormed;
  }

  /** A member read is the text of a field, up to the blanks after its value. */
  lemma {:induction false} MemberIsField(s: string, room: int) returns (f: Field)
    requires ReadMember(s, room).Ok?
    ensures FormedField(f, room - 1) && MemberOf(f, room - 1) == ReadMember(s, room).value.0
    ensures s == SpellField(f, SkipWs(ReadMember(s, room).value.1))
    decreases |s|, 2
  {
    hide *;
    MemberCases(s, room);
    var rest := ReadString(SkipWs(s)).value.1;
    var t := SkipWs(rest);
    var pieces := StringIsText(SkipWs(s));
    var tree := ValueIsTree(SkipWs(t[1..]), room - 1);
    var tail := ReadValue(SkipWs(t[1..]), room - 1).value.1;
    var item := ItemFromText(t[1..], room - 1, tree, tail);
    f := FieldText(s, pieces, rest, t, item, SkipWs(tail));
    FormedWith(f, room - 1);
  }

  lemma FieldsGrow(f: Field, fields: seq<Field>, room: int, before: seq<Member>, rest: string)
    requires FormedField(f, room) && Sorted(before) && !HasKey(before, MemberOf(f, room).key)
    requires NewKeys(Insert(before, MemberOf(f, room)), fields, room)
    ensures NewKeys(before, [f] + fields, room)
    ensures InsertAll(before, [f] + fields, room) == InsertAll(Insert(before, MemberOf(f, room)), fields, room)
    ensures fields == [] ==> SpellFields([f] + fields, rest) == SpellField(f, rest)
    ensures fields != [] ==> SpellFields([f] + fields, rest) == SpellField(f, "," + SpellFields(fields, rest))
  {
    hide FormedField, Sorted, HasKey, Insert, MemberOf, MeanAll, SpellField;
    KeyOfMember(f, room);
    assert ([f] + fields)[1..] == fields;
    forall i | 0 <= i < |fields|
      ensures !HasKey(before, MeanAll(fields[i].key)) && MeanAll(fields[i].key) != MeanAll(f.key)
    {
      KeyAfterInsert(before, MemberOf(f, room), MeanAll(fields[i].key));
    }
  }

  lemma NoFields(members: seq<Member>, room: int)
    requires Sorted(members)
    ensures NewKeys(members, [], room) && InsertAll(members, [], room) == members
  {
  }

  lemma {:induction false} MembersAreFields(s: string, room: int, before: seq<Member>) returns (fields: seq<Field>)
    requires ReadMembers(s, room, before).Ok? && Sorted(before)
    ensures fields != [] && NewKeys(before, fields, room - 1)
    ensures s == SpellFields(fields, "}" + ReadMembers(s, room, before).value.1)
    ensures ReadMembers(s, room, before).value.0 == Object(InsertAll(before, fields, room - 1))
    decreases |s|, 3
  {
    hide *;
    MembersCases(s, room, before);
    var f := MemberIsField(s, room);
    var m, t := ReadMember(s, room).value.0, SkipWs(ReadMember(s, room).value.1);
    JsonClaims.InsertKeepsOrder(before, m);
    FirstAndRest(t, t[0]);
    var rest := "}" + ReadMembers(s, room, before).value.1;
    if t[0] == '}' {
      NoFields(Insert(before, m), room - 1);
      FieldsGrow(f, [], room - 1, before, rest);
      fields := [f] + [];
    } else {
      var more := MembersAreFields(t[1..], room, Insert(before, m));
      FieldsGrow(f, more, room - 1, before, rest);
      fields := [f] + more;
    }
  }

  // -------------------------------------------------------------------------
  // The whole text
  // -------------------------------------------------------------------------

  /** The text is the tree between blanks, and the tree denotes the value. */
  ghost predicate Derives(text: string, v: Value, t: Tree) {
    && WellFormed(t, MAX_DEPTH) && Denoted(t, MAX_DEPTH) == v
    && exists lead, tail :: AllWs(lead) && AllWs(tail) && text == lead + Spell(t, tail)
  }

  lemma BlankIsSkipped(s: string)
    ensures AllWs(s) <==> SkipWs(s) == ""
    ensures AllWs(s) ==> Stops(s)
  {
    if AllWs(s) {
      assert s + "" == s;
      SkipsBlanks(s, "");
    } else {
      var blank := BlankBefore(s);
    }
  }

  /** The parser accepts a text, with this value, exactly when it is the text of a well-formed tree that denotes it. */
  lemma ParsesExactly(text: string, v: Value)
    ensures Parse(text) == Ok(v) <==> exists t :: Derives(text, v, t)
  {
    hide ReadValue, SkipWs, WellFormed, Spell, Denoted, AllWs;
    if Parse(text) == Ok(v) {
      var lead := BlankBefore(text);
      var t := ValueIsTree(SkipWs(text), MAX_DEPTH);
      var tail := ReadValue(SkipWs(text), MAX_DEPTH).value.1;
      BlankIsSkipped(tail);
      assert Derives(text, v, t);
    }
    if t :| Derives(text, v, t) {
      var lead, tail :| AllWs(lead) && AllWs(tail) && text == lead + Spell(t, tail);
      BlankIsSkipped(tail);
      SpellStarts(t, MAX_DEPTH, tail);
      SkipsBlanksBefore(lead, Spell(t, tail));
      TreeReads(t, MAX_DEPTH, tail);
    }
  }
}
