/** Writing a trace, and what writing and reading agree on. */
module TraceFiles {
  import opened Words
  import opened Wrappers
  import opened JsonValue
  import opened JsonText
  import opened JsonWriter
  import opened JsonGrammar
  import opened JsonRoundTrip
  import opened JsonClaims
  import opened TraceModel
  import opened TraceRecords
  import opened TraceReader
  import Sha256
  import opened Sha256Stream

  // -------------------------------------------------------------------------
  // Lines
  // -------------------------------------------------------------------------

  /** Each line followed by a newline. */
  function FileText(lines: seq<string>): string {
    if lines == [] then "" else FileText(lines[..|lines| - 1]) + (lines[|lines| - 1] + "\n")
  }

  predicate OneLine(s: string) {
    forall i :: 0 <= i < |s| ==> s[i] != '\n'
  }

  lemma {:induction false} FileTextFromFront(lines: seq<string>)
    requires lines != []
    ensures FileText(lines) == lines[0] + "\n" + FileText(lines[1..])
  {
    var last := lines[|lines| - 1];
    if |lines| == 1 {
      assert FileText(lines[..0]) == "" && FileText(lines[1..]) == "";
    } else {
      var middle := FileText(lines[1..][..|lines| - 2]);
      FileTextFromFront(lines[..|lines| - 1]);
      assert lines[..|lines| - 1][1..] == lines[1..][..|lines| - 2];
      assert lines[0] + "\n" + middle + (last + "\n") == lines[0] + "\n" + (middle + (last + "\n"));
    }
  }

  lemma {:induction false} FirstNewline(line: string, rest: string)
    requires OneLine(line) && Terminated(rest)
    ensures Terminated(line + "\n" + rest)
    ensures FirstLine(line + "\n" + rest) == line && AfterFirstLine(line + "\n" + rest) == rest
    decreases |line|
  {
    var s := line + "\n" + rest;
    if line == "" {
      assert s == "\n" + rest;
    } else {
      assert s[1..] == line[1..] + "\n" + rest;
      FirstNewline(line[1..], rest);
    }
  }

  lemma {:induction false} FilesAreTerminated(lines: seq<string>)
    ensures Terminated(FileText(lines))
  {
  }

  /** Canonical text has no line break in it: even those inside strings are escaped. */
  lemma {:induction false} CanonicalIsOneLine(v: Value, depth: nat)
    requires DoubleFree(v)
    ensures OneLine(Write(v, Compact, depth))
    decreases v, 1
  {
    hide Numeral, Quote;
    match v
    case Int(i) => NumeralIsOneLine(if i < 0 then 0 - i else i);
    case UInt(u) => NumeralIsOneLine(u);
    case String(s) => QuoteIsOneLine(s);
    case Array(items) =>
      if items != [] {
        ItemsAreOneLine(items, depth);
      }
    case Object(members) =>
      if members != [] {
        MembersAreOneLine(members, depth);
      }
    case _ =>
  }

  lemma NumeralIsOneLine(n: nat)
    ensures OneLine(Numeral(n, Ten)) && OneLine("-" + Numeral(n, Ten))
  {
    assert AllDigits(Numeral(n, Ten));
  }

  lemma {:induction false} EscapesAreOneLine(s: string)
    ensures OneLine(EscapeChars(s))
  {
    hide DigitChar;
    if s != "" {
      EscapesAreOneLine(s[1..]);
    }
  }

  lemma QuoteIsOneLine(s: string)
    ensures OneLine(Quote(s))
  {
    hide EscapeChars;
    EscapesAreOneLine(s);
  }

  lemma {:induction false} ItemsAreOneLine(items: seq<Value>, depth: nat)
    requires items != [] && forall i :: 0 <= i < |items| ==> DoubleFree(items[i])
    ensures OneLine(WriteItems(items, Compact, depth))
    decreases items, 0
  {
    hide Write, DoubleFree;
    CanonicalIsOneLine(items[0], depth + 1);
    if |items| > 1 {
      ItemsAreOneLine(items[1..], depth);
    }
  }

  lemma {:induction false} MembersAreOneLine(members: seq<Member>, depth: nat)
    requires members != [] && forall i :: 0 <= i < |members| ==> DoubleFree(members[i].value)
    ensures OneLine(WriteMembers(members, Compact, depth))
    decreases members, 0
  {
    hide Write, DoubleFree, Quote;
    CanonicalIsOneLine(members[0].value, depth + 1);
    QuoteIsOneLine(members[0].key);
    if |members| > 1 {
      MembersAreOneLine(members[1..], depth);
    }
  }

  // -------------------------------------------------------------------------
  // Records as lines
  // -------------------------------------------------------------------------

  /** A document the writer produces: an object of scalars, or lists of scalars, with its keys in order. */
  predicate Flat(doc: Value) {
    doc.Object? && DoubleFree(doc) && Proper(doc) && Fits(doc, 2)
  }

  lemma FlatLine(doc: Value, lineBytes: nat)
    requires Flat(doc) && ValidRecord(Norm(doc)) && |Canonical(doc)| <= lineBytes
    ensures DocumentOn(Canonical(doc), lineBytes) == Ok(Norm(doc))
    ensures OneLine(Canonical(doc)) && Canonical(doc) != ""
  {
    hide Write, ValidRecord, Norm, DoubleFree, Proper, Fits, Parse, OneLine;
    FitsWider(doc, 2, MAX_DEPTH);
    TextRoundTrip(doc, 0);
    NormIsDoubleFree(doc);
    WriteNorm(doc, Compact, 0);
    WriteStarts(doc, Compact, 0);
    CanonicalIsOneLine(doc, 0);
  }

  lemma {:induction false} NormIsDoubleFree(v: Value)
    requires DoubleFree(v)
    ensures DoubleFree(Norm(v)) && (v.Object? ==> Norm(v).Object?)
  {
    match v
    case Array(items) =>
      forall i | 0 <= i < |items| ensures DoubleFree(Norm(items[i])) {
        NormIsDoubleFree(items[i]);
      }
    case Object(members) =>
      forall i | 0 <= i < |members| ensures DoubleFree(Norm(members[i].value)) {
        NormIsDoubleFree(members[i].value);
      }
    case _ =>
  }

  predicate Scalar(v: Value) {
    !v.Double? && !v.Array? && !v.Object?
  }

  predicate Shallow(v: Value) {
    Scalar(v) || (v.Array? && forall k :: 0 <= k < |v.items| ==> Scalar(v.items[k]))
  }

  lemma ShallowIsPlain(v: Value)
    requires Shallow(v)
    ensures DoubleFree(v) && Proper(v) && Fits(v, 1)
  {
  }

  lemma RecordIsFlat(keys: seq<string>, values: seq<Value>)
    requires Ascending(keys) && |keys| == |values|
    requires forall i :: 0 <= i < |values| ==> Shallow(values[i])
    ensures Flat(Record(keys, values))
  {
    hide Less, Shallow;
    var doc := Record(keys, values);
    forall i | 0 <= i < |doc.members|
      ensures DoubleFree(doc.members[i].value) && Proper(doc.members[i].value) && Fits(doc.members[i].value, 1)
    {
      assert doc.members[i].value == values[i];
      ShallowIsPlain(values[i]);
    }
  }

  lemma HeaderIsFlat(h: Header)
    ensures Flat(HeaderJson(h))
  {
    hide Ascending, Flat, Record, HeaderKeys, Texts;
    HeaderKeysAscend();
    RecordIsFlat(HeaderKeys(), HeaderFields(h));
  }

  lemma EventIsFlat(e: Event)
    ensures Flat(EventJson(e))
  {
    hide Ascending, Flat, Record, EventKeys, ToHex, OperationName, PlatformName, DomainName, ViolationName;
    EventKeysAscend();
    RecordIsFlat(EventKeys(), EventFields(e));
  }

  lemma FooterIsFlat(f: Footer)
    ensures Flat(FooterJson(f))
  {
    hide Ascending, Flat, Record, FooterKeys;
    FooterKeysAscend();
    RecordIsFlat(FooterKeys(), FooterFields(f));
  }

  // -------------------------------------------------------------------------
  // The writer
  // -------------------------------------------------------------------------

  function EventLines(events: seq<Event>): (lines: seq<string>)
    ensures |lines| == |events|
    ensures forall i :: 0 <= i < |events| ==> lines[i] == Canonical(EventJson(events[i]))
  {
    seq(|events|, i requires 0 <= i < |events| => Canonical(EventJson(events[i])))
  }

  /** Everything the digest covers. */
  function Body(h: Header, events: seq<Event>): string {
    FileText([Canonical(HeaderJson(h))] + EventLines(events))
  }

  /** What the statistics report to a flush. */
  datatype Counters = Counters(dropped: u64, reentrant: u64, complete: bool)

  /** The footer a flush writes: counters as they stood, and the digest of the body. */
  function FlushedFooter(h: Header, events: seq<Event>, c: Counters): Footer
    requires |events| < U64_LIMIT
  {
    Footer(|events|, c.dropped, c.reentrant, c.complete, DigestOf(Body(h, events)))
  }

  function Flushed(h: Header, events: seq<Event>, c: Counters): string
    requires |events| < U64_LIMIT
  {
    Body(h, events) + (Canonical(FooterJson(FlushedFooter(h, events, c))) + "\n")
  }

  method SerializeLine(doc: Value) returns (ok: bool, line: string)
    ensures ok <==> DoubleFree(doc)
    ensures ok ==> line == Canonical(doc)
  {
    hide Canonical, DoubleFree;
    ok, line := WriteCanonical(doc, "");
    assert ok ==> line == Canonical(doc);
  }

  /** `rs_runtime_flush_trace_v1`, from the snapshot on; the hash runs along with the output. */
  method Flush(h: Header, events: seq<Event>, c: Counters) returns (ok: bool, output: string)
    requires |events| < U64_LIMIT
    ensures ok && output == Flushed(h, events, c)
  {
    hide Canonical, TextBytes, Sha256.Digest, HexOf, FooterJson, Body, DoubleFree;
    var hasher := new Hasher();
    NoBytes();
    output := WriteBody(h, events, hasher);
    var hex := hasher.HexDigest();
    var footer := Footer(|events|, c.dropped, c.reentrant, c.complete, "sha256:" + hex);
    var line;
    FooterIsDoubleFree(footer);
    ok, line := SerializeLine(FooterJson(footer));
    output := output + (line + "\n");
  }

  method WriteBody(h: Header, events: seq<Event>, hasher: Hasher) returns (output: string)
    requires hasher.Valid() && !hasher.finalized && hasher.message == TextBytes("")
    modifies hasher, hasher.state, hasher.buffer
    ensures output == Body(h, events)
    ensures hasher.Valid() && hasher.message == TextBytes(output)
  {
    hide Canonical, TextBytes, Sha256.HashBlocks, HeaderJson, EventJson, Body, DoubleFree;
    HeaderIsDoubleFree(h);
    var ok, line := SerializeLine(HeaderJson(h));
    BodyStart(h);
    Hash(hasher, "", line);
    output := line + "\n";
    assert events[..0] == [];
    for i := 0 to |events|
      invariant output == Body(h, events[..i])
      invariant hasher.Valid() && !hasher.finalized && hasher.message == TextBytes(output)
    {
      EventIsDoubleFree(events[i]);
      ok, line := SerializeLine(EventJson(events[i]));
      BodyStep(h, events, i);
      Hash(hasher, output, line);
      output := output + (line + "\n");
    }
    assert events[..|events|] == events;
  }

  method Hash(hasher: Hasher, ghost before: string, line: string)
    requires hasher.Valid() && !hasher.finalized && hasher.message == TextBytes(before)
    modifies hasher, hasher.state, hasher.buffer
    ensures hasher.Valid() && !hasher.finalized && hasher.message == TextBytes(before + (line + "\n"))
  {
    hide TextBytes, Sha256.HashBlocks;
    BytesOfLine(before, line);
    hasher.Update(TextBytes(line));
    hasher.Update([10]);
  }

  lemma NoBytes()
    ensures TextBytes("") == []
  {
  }

  lemma HeaderIsDoubleFree(h: Header)
    ensures DoubleFree(HeaderJson(h))
  {
    hide HeaderJson, DoubleFree;
    HeaderIsFlat(h);
  }

  lemma EventIsDoubleFree(e: Event)
    ensures DoubleFree(EventJson(e))
  {
    hide EventJson, DoubleFree;
    EventIsFlat(e);
  }

  lemma FooterIsDoubleFree(f: Footer)
    ensures DoubleFree(FooterJson(f))
  {
    hide FooterJson, DoubleFree;
    FooterIsFlat(f);
  }

  lemma BodyStart(h: Header)
    ensures Body(h, []) == "" + (Canonical(HeaderJson(h)) + "\n") == Canonical(HeaderJson(h)) + "\n"
  {
    hide Canonical, HeaderJson;
    var head := [Canonical(HeaderJson(h))];
    assert head + EventLines([]) == head && head[..0] == [];
    assert FileText(head) == FileText([]) + (head[0] + "\n");
  }

  lemma BodyStep(h: Header, events: seq<Event>, i: nat)
    requires i < |events|
    ensures Body(h, events[..i + 1]) == Body(h, events[..i]) + (Canonical(EventJson(events[i])) + "\n")
  {
    hide Canonical, HeaderJson, EventJson;
    var lines := [Canonical(HeaderJson(h))] + EventLines(events[..i + 1]);
    assert lines[..|lines| - 1] == [Canonical(HeaderJson(h))] + EventLines(events[..i]);
  }
}
