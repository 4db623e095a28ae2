/** The canonical writer and the pretty writer. */
module JsonWriter {
  import opened JsonValue
  import opened JsonText

  /** The two layouts differ in blanks only. */
  datatype Style = Compact | Pretty(indent: nat)

  function Spaces(n: nat): (s: string)
    ensures AllWs(s) && |s| == n
  {
    if n == 0 then "" else " " + Spaces(n - 1)
  }

  /** What precedes an item, or a closing bracket, at a depth. */
  function Lead(style: Style, depth: nat): (s: string)
    ensures AllWs(s)
  {
    match style
    case Compact => ""
    case Pretty(indent) => "\n" + Spaces(indent * depth)
  }

  function AfterColon(style: Style): (s: string)
    ensures AllWs(s)
  {
    if style.Compact? then "" else " "
  }

  function WriteInt(i: int): string {
    if i < 0 then "-" + Numeral(-i, Ten) else Numeral(i, Ten)
  }

  /** The text of a value; a double is written as the text it is known by. */
  function Write(v: Value, style: Style, depth: nat): string
    decreases v, 1
  {
    match v
    case Null => "null"
    case Bool(b) => if b then "true" else "false"
    case Int(i) => WriteInt(i)
    case UInt(u) => WriteInt(u)
    case Double(token) => token
    case String(s) => Quote(s)
    case Array(items) => if items == [] then "[]" else "[" + WriteItems(items, style, depth)
    case Object(members) => if members == [] then "{}" else "{" + WriteMembers(members, style, depth)
  }

  /** The items and the closing bracket. */
  function WriteItems(items: seq<Value>, style: Style, depth: nat): string
    requires items != []
    decreases items, 0
  {
    Lead(style, depth + 1) + Write(items[0], style, depth + 1)
    + if |items| == 1 then Lead(style, depth) + "]" else "," + WriteItems(items[1..], style, depth)
  }

  function WriteMember(m: Member, style: Style, depth: nat): string
    decreases m, 0
  {
    Quote(m.key) + ":" + AfterColon(style) + Write(m.value, style, depth)
  }

  function WriteMembers(members: seq<Member>, style: Style, depth: nat): string
    requires members != []
    decreases members, 0
  {
    Lead(style, depth + 1) + WriteMember(members[0], style, depth + 1)
    + if |members| == 1 then Lead(style, depth) + "}" else "," + WriteMembers(members[1..], style, depth)
  }

  function Canonical(v: Value): string {
    Write(v, Compact, 0)
  }

  function SerializePretty(v: Value, indent: nat): string {
    Write(v, Pretty(indent), 0) + "\n"
  }

  // -------------------------------------------------------------------------
  // The writers, appending to a buffer
  // -------------------------------------------------------------------------

  method AppendEscaped(s: string, before: string) returns (out: string)
    ensures out == before + Quote(s)
  {
    hide EscapeChar;
    out := before + "\"";
    for i := 0 to |s|
      invariant out + EscapeChars(s[i..]) == before + "\"" + EscapeChars(s)
    {
      assert s[i..][1..] == s[i + 1..];
      assert out + (EscapeChar(s[i]) + EscapeChars(s[i + 1..])) == out + EscapeChar(s[i]) + EscapeChars(s[i + 1..]);
      out := out + EscapeChar(s[i]);
    }
    assert out == before + "\"" + EscapeChars(s);
    out := out + "\"";
    assert out == before + ("\"" + EscapeChars(s) + "\"");
  }

  /** Fails, leaving a useless buffer, exactly when a double occurs. */
  method WriteCanonical(v: Value, before: string) returns (ok: bool, out: string)
    ensures ok <==> DoubleFree(v)
    ensures ok ==> out == before + Canonical(v)
    decreases v, 1
  {
    hide Quote, WriteInt, WriteItems, WriteMembers;
    out := before;
    match v
    case Null => return true, out + "null";
    case Bool(b) => return true, out + if b then "true" else "false";
    case Int(i) => return true, out + WriteInt(i);
    case UInt(u) => return true, out + WriteInt(u);
    case Double(_) => return false, out;
    case String(s) =>
      out := AppendEscaped(s, out);
      return true, out;
    case Array(items) =>
      ok, out := WriteCanonicalItems(items, out + "[");
      assert before + "[" + ItemsLeft(items, 0) == before + ("[" + ItemsLeft(items, 0));
    case Object(members) =>
      ok, out := WriteCanonicalMembers(members, out + "{");
      assert before + "{" + MembersLeft(members, 0) == before + ("{" + MembersLeft(members, 0));
  }

  method WriteCanonicalItems(items: seq<Value>, before: string) returns (ok: bool, out: string)
    ensures ok <==> forall k :: 0 <= k < |items| ==> DoubleFree(items[k])
    ensures ok ==> out == before + ItemsLeft(items, 0)
    decreases items, 0
  {
    hide Write, ItemsLeft, DoubleFree;
    out := before;
    var first := true;
    for i := 0 to |items|
      invariant first <==> i == 0
      invariant forall k :: 0 <= k < i ==> DoubleFree(items[k])
      invariant out + ItemsLeft(items, i) == before + ItemsLeft(items, 0)
    {
      ghost var start := out;
      if !first {
        out := out + ",";
      }
      first := false;
      ok, out := WriteCanonical(items[i], out);
      if !ok {
        return;
      }
      CompactAtAnyDepth(items[i], 1);
      CompactItemsStep(items, i, start);
    }
    assert ItemsLeft(items, |items|) == "]" by { NothingLeft(items, []); }
    return true, out + "]";
  }

  method WriteCanonicalMembers(members: seq<Member>, before: string) returns (ok: bool, out: string)
    ensures ok <==> forall k :: 0 <= k < |members| ==> DoubleFree(members[k].value)
    ensures ok ==> out == before + MembersLeft(members, 0)
    decreases members, 0
  {
    hide Write, MembersLeft, DoubleFree, Quote;
    out := before;
    var first := true;
    for i := 0 to |members|
      invariant first <==> i == 0
      invariant forall k :: 0 <= k < i ==> DoubleFree(members[k].value)
      invariant out + MembersLeft(members, i) == before + MembersLeft(members, 0)
    {
      ghost var start := out;
      if !first {
        out := out + ",";
      }
      first := false;
      out := AppendEscaped(members[i].key, out);
      out := out + ":";
      ok, out := WriteCanonical(members[i].value, out);
      if !ok {
        return;
      }
      CompactAtAnyDepth(members[i].value, 1);
      CompactMembersStep(members, i, start);
    }
    assert MembersLeft(members, |members|) == "}" by { NothingLeft([], members); }
    return true, out + "}";
  }

  lemma NothingLeft(items: seq<Value>, members: seq<Member>)
    ensures ItemsLeft(items, |items|) == "]" && MembersLeft(members, |members|) == "}"
  {
  }

  /** What the compact writer still has to append after the first `i` items. */
  ghost function ItemsLeft(items: seq<Value>, i: nat): string
    requires i <= |items|
  {
    if i == |items| then "]" else (if i == 0 then "" else ",") + WriteItems(items[i..], Compact, 0)
  }

  ghost function MembersLeft(members: seq<Member>, i: nat): string
    requires i <= |members|
  {
    if i == |members| then "}" else (if i == 0 then "" else ",") + WriteMembers(members[i..], Compact, 0)
  }

  lemma CompactItemsStep(items: seq<Value>, i: nat, out: string)
    requires i < |items|
    ensures out + ItemsLeft(items, i) ==
            out + (if i == 0 then "" else ",") + Write(items[i], Compact, 1) + ItemsLeft(items, i + 1)
  {
    hide Write;
    var comma, item, rest := if i == 0 then "" else ",", Write(items[i], Compact, 1), ItemsLeft(items, i + 1);
    assert WriteItems(items[i..], Compact, 0) == item + rest by {
      assert items[i..][1..] == items[i + 1..];
      Regroup("", "", item, "", if i + 1 == |items| then "" else ",", "");
    }
    hide ItemsLeft, WriteItems;
    Regroup(out, comma, item, "", "", rest);
  }

  /** Concatenation is associative; empty pieces do not show. */
  lemma Regroup(a: string, b: string, c: string, d: string, e: string, f: string)
    ensures a + (b + (c + d + e + f)) == a + b + c + d + e + f
    ensures a + (b + (c + f)) == a + b + c + f
    ensures "" + a == a && a + "" == a
  {
  }

  lemma CompactMembersStep(members: seq<Member>, i: nat, out: string)
    requires i < |members|
    ensures out + MembersLeft(members, i) ==
            out + (if i == 0 then "" else ",") + Quote(members[i].key) + ":" + Write(members[i].value, Compact, 1)
            + MembersLeft(members, i + 1)
  {
    hide Write, Quote;
    var comma, key, item := if i == 0 then "" else ",", Quote(members[i].key), Write(members[i].value, Compact, 1);
    var rest := MembersLeft(members, i + 1);
    assert WriteMembers(members[i..], Compact, 0) == key + ":" + item + rest by {
      assert members[i..][1..] == members[i + 1..];
      CompactMember(members[i]);
    }
    hide MembersLeft, WriteMembers;
    Regroup(out, comma, key, ":", item, rest);
  }

  lemma CompactMember(m: Member)
    ensures "" + WriteMember(m, Compact, 1) == Quote(m.key) + ":" + Write(m.value, Compact, 1)
  {
    hide Write, Quote;
    Regroup(Quote(m.key) + ":", "", "", "", "", "");
  }

  /** Without blanks the depth does not show. */
  lemma {:induction false} CompactAtAnyDepth(v: Value, depth: nat)
    ensures Write(v, Compact, depth) == Canonical(v)
    decreases v, 1
  {
    match v
    case Array(items) =>
      if items != [] {
        CompactItems(items, depth);
      }
    case Object(members) =>
      if members != [] {
        CompactMembers(members, depth);
      }
    case _ =>
  }

  lemma {:induction false} CompactItems(items: seq<Value>, depth: nat)
    requires items != []
    ensures WriteItems(items, Compact, depth) == WriteItems(items, Compact, 0)
    decreases items, 0
  {
    CompactAtAnyDepth(items[0], depth + 1);
    CompactAtAnyDepth(items[0], 1);
    if |items| > 1 {
      CompactItems(items[1..], depth);
    }
  }

  lemma {:induction false} CompactMembers(members: seq<Member>, depth: nat)
    requires members != []
    ensures WriteMembers(members, Compact, depth) == WriteMembers(members, Compact, 0)
    decreases members, 0
  {
    CompactAtAnyDepth(members[0].value, depth + 1);
    CompactAtAnyDepth(members[0].value, 1);
    if |members| > 1 {
      CompactMembers(members[1..], depth);
    }
  }

  // -------------------------------------------------------------------------
  // The pretty writer
  // -------------------------------------------------------------------------

  method WritePretty(v: Value, before: string, indent: nat, depth: nat) returns (out: string)
    ensures out == before + Write(v, Pretty(indent), depth)
    decreases v, 1
  {
    hide Quote, WriteInt, WriteItems, WriteMembers, PrettyItemsLeft, PrettyMembersLeft;
    match v
    case Double(token) => return before + token;
    case Array(items) =>
      if items == [] {
        return before + "[]";
      }
      out := WritePrettyItems(items, before + "[\n", indent, depth);
      PrettyItemsAreItems(items, 0, indent, depth);
      assert items[0..] == items;
      Join(before, "[", "\n", PrettyItemsLeft(items, 0, indent, depth));
    case Object(members) =>
      if members == [] {
        return before + "{}";
      }
      out := WritePrettyMembers(members, before + "{\n", indent, depth);
      PrettyMembersAreMembers(members, 0, indent, depth);
      assert members[0..] == members;
      Join(before, "{", "\n", PrettyMembersLeft(members, 0, indent, depth));
    case _ =>
      var ok;
      ok, out := WriteCanonical(v, before);
  }

  lemma Join(a: string, b: string, c: string, d: string)
    ensures a + (b + c) + d == a + (b + (c + d))
    ensures "[" + "\n" == "[\n" && "{" + "\n" == "{\n"
  {
  }

  method WritePrettyItems(items: seq<Value>, before: string, indent: nat, depth: nat) returns (out: string)
    ensures out == before + PrettyItemsLeft(items, 0, indent, depth)
    decreases items, 0
  {
    hide Write, PrettyItemsLeft;
    out := before;
    for i := 0 to |items|
      invariant out + PrettyItemsLeft(items, i, indent, depth) == before + PrettyItemsLeft(items, 0, indent, depth)
    {
      PrettyItemsStep(items, i, indent, depth, out);
      out := out + Spaces(indent * (depth + 1));
      out := WritePretty(items[i], out, indent, depth + 1);
      out := out + if i + 1 < |items| then "," else "";
      out := out + "\n";
    }
    PrettyItemsEnd(items, indent, depth, out);
    out := out + Spaces(indent * depth);
    out := out + "]";
  }

  method WritePrettyMembers(members: seq<Member>, before: string, indent: nat, depth: nat) returns (out: string)
    ensures out == before + PrettyMembersLeft(members, 0, indent, depth)
    decreases members, 0
  {
    hide Write, PrettyMembersLeft, Quote;
    out := before;
    for i := 0 to |members|
      invariant out + PrettyMembersLeft(members, i, indent, depth) ==
                before + PrettyMembersLeft(members, 0, indent, depth)
    {
      PrettyMembersStep(members, i, indent, depth, out);
      out := out + Spaces(indent * (depth + 1));
      out := AppendEscaped(members[i].key, out);
      out := out + ": ";
      out := WritePretty(members[i].value, out, indent, depth + 1);
      out := out + if i + 1 < |members| then "," else "";
      out := out + "\n";
    }
    PrettyMembersEnd(members, indent, depth, out);
    out := out + Spaces(indent * depth);
    out := out + "}";
  }

  /** What the pretty writer still has to append after the first `i` items and their line breaks. */
  ghost function PrettyItemsLeft(items: seq<Value>, i: nat, indent: nat, depth: nat): string
    requires i <= |items|
    decreases |items| - i
  {
    if i == |items| then Spaces(indent * depth) + "]"
    else
      Spaces(indent * (depth + 1))
      + (Write(items[i], Pretty(indent), depth + 1)
         + ((if i + 1 < |items| then "," else "") + ("\n" + PrettyItemsLeft(items, i + 1, indent, depth))))
  }

  ghost function PrettyMembersLeft(members: seq<Member>, i: nat, indent: nat, depth: nat): string
    requires i <= |members|
    decreases |members| - i
  {
    if i == |members| then Spaces(indent * depth) + "}"
    else
      Spaces(indent * (depth + 1))
      + (Quote(members[i].key) + (": " + (Write(members[i].value, Pretty(indent), depth + 1)
         + ((if i + 1 < |members| then "," else "") + ("\n" + PrettyMembersLeft(members, i + 1, indent, depth))))))
  }

  lemma PrettyItemsStep(items: seq<Value>, i: nat, indent: nat, depth: nat, out: string)
    requires i < |items|
    ensures out + PrettyItemsLeft(items, i, indent, depth) ==
            out + Spaces(indent * (depth + 1)) + Write(items[i], Pretty(indent), depth + 1)
            + (if i + 1 < |items| then "," else "") + "\n" + PrettyItemsLeft(items, i + 1, indent, depth)
  {
    hide Write, Spaces;
    Pieces(out, Spaces(indent * (depth + 1)), Write(items[i], Pretty(indent), depth + 1),
           if i + 1 < |items| then "," else "", "\n", PrettyItemsLeft(items, i + 1, indent, depth));
  }

  lemma PrettyMembersStep(members: seq<Member>, i: nat, indent: nat, depth: nat, out: string)
    requires i < |members|
    ensures out + PrettyMembersLeft(members, i, indent, depth) ==
            out + Spaces(indent * (depth + 1)) + Quote(members[i].key) + ": " +
                Write(members[i].value, Pretty(indent), depth + 1)
            + (if i + 1 < |members| then "," else "") + "\n" + PrettyMembersLeft(members, i + 1, indent, depth)
  {
    hide Write, Spaces, Quote;
    var pad, key, item := Spaces(indent * (depth + 1)), Quote(members[i].key),
        Write(members[i].value, Pretty(indent), depth + 1);
    var comma, rest := if i + 1 < |members| then "," else "", PrettyMembersLeft(members, i + 1, indent, depth);
    Pieces(out, pad, key, ": ", item, comma + ("\n" + rest));
    Pieces("", out + pad + key + ": " + item, comma, "\n", rest, "");
  }

  lemma Pieces(a: string, b: string, c: string, d: string, e: string, f: string)
    ensures a + (b + (c + (d + (e + f)))) == a + b + c + d + e + f
    ensures b + (c + (d + e)) == b + c + d + e
  {
  }

  lemma PrettyItemsEnd(items: seq<Value>, indent: nat, depth: nat, out: string)
    ensures out + PrettyItemsLeft(items, |items|, indent, depth) == out + Spaces(indent * depth) + "]"
  {
    hide Spaces;
    Pieces("", out, Spaces(indent * depth), "]", "", "");
  }

  lemma PrettyMembersEnd(members: seq<Member>, indent: nat, depth: nat, out: string)
    ensures out + PrettyMembersLeft(members, |members|, indent, depth) == out + Spaces(indent * depth) + "}"
  {
    hide Spaces;
    Pieces("", out, Spaces(indent * depth), "}", "", "");
  }

  /** Line break first or line break last, the bytes are the same. */
  lemma {:induction false} PrettyItemsAreItems(items: seq<Value>, i: nat, indent: nat, depth: nat)
    requires i < |items|
    ensures "\n" + PrettyItemsLeft(items, i, indent, depth) == WriteItems(items[i..], Pretty(indent), depth)
    decreases |items| - i
  {
    hide Write, Spaces;
    var lead, item := Spaces(indent * (depth + 1)), Write(items[i], Pretty(indent), depth + 1);
    var rest := PrettyItemsLeft(items, i + 1, indent, depth);
    assert items[i..][1..] == items[i + 1..];
    var left := if i + 1 < |items| then "," + ("\n" + rest) else "\n" + rest;
    assert (if i + 1 < |items| then "," else "") + ("\n" + rest) == left;
    Pieces("", "\n", lead, item, left, "");
    if i + 1 < |items| {
      PrettyItemsAreItems(items, i + 1, indent, depth);
    } else {
      assert "\n" + rest == "\n" + Spaces(indent * depth) + "]";
    }
  }

  lemma {:induction false} PrettyMembersAreMembers(members: seq<Member>, i: nat, indent: nat, depth: nat)
    requires i < |members|
    ensures "\n" + PrettyMembersLeft(members, i, indent, depth) == WriteMembers(members[i..], Pretty(indent), depth)
    decreases |members| - i
  {
    hide Write, Spaces, Quote;
    var lead, key, item := Spaces(indent * (depth + 1)), Quote(members[i].key),
        Write(members[i].value, Pretty(indent), depth + 1);
    var rest := PrettyMembersLeft(members, i + 1, indent, depth);
    assert members[i..][1..] == members[i + 1..];
    PrettyMember(members[i], indent, depth + 1);
    var left := if i + 1 < |members| then "," + ("\n" + rest) else "\n" + rest;
    assert (if i + 1 < |members| then "," else "") + ("\n" + rest) == left;
    Pieces(lead, key, ": ", item, left, "");
    Pieces("", "\n", lead, WriteMember(members[i], Pretty(indent), depth + 1), left, "");
    if i + 1 < |members| {
      PrettyMembersAreMembers(members, i + 1, indent, depth);
    } else {
      assert "\n" + rest == "\n" + Spaces(indent * depth) + "}";
    }
  }

  lemma PrettyMember(m: Member, indent: nat, depth: nat)
    ensures WriteMember(m, Pretty(indent), depth) == Quote(m.key) + ": " + Write(m.value, Pretty(indent), depth)
  {
    hide Write, Quote;
    assert ":" + " " == ": ";
    Pieces("", Quote(m.key), ":", " ", Write(m.value, Pretty(indent), depth), "");
  }
}
