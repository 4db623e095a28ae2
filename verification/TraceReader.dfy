/** Reading a runtime trace: one header, numbered events, one footer whose digest covers all the lines before it. */
module TraceReader {
  import opened Wrappers
  import opened JsonValue
  import opened JsonWriter
  import opened JsonGrammar
  import opened JsonParser
  import opened TraceModel
  import opened TraceRecords
  import Sha256
  import opened Sha256Stream

  datatype ReadError =
    | ZeroLimits
    | FileTooLarge
    | Unterminated
    | BadLineLength
    | NotAnObject
    | SchemaViolation
    | NotCanonical
    | MisplacedHeader
    | IncompleteApis
    | BeyondBound
    | BadAddress
    | BadEvent(violated: ContractError)
    | SequenceGap
    | MisplacedFooter
    | FooterNotLast
    | MissingRecord
    | CountMismatch
    | IncompleteTrace
    | DigestMismatch

  datatype Limits = Limits(fileBytes: nat, lineBytes: nat, events: nat)

  /** What has been read so far, and the text the digest must cover. */
  datatype Progress = Progress(header: Option<Header>, events: seq<Event>, footer: Option<Footer>, covered: string)

  const NOTHING_READ := Progress(None, [], None, "")

  // -------------------------------------------------------------------------
  // One line
  // -------------------------------------------------------------------------

  /** The document on a line, if the line is a canonical, schema-valid record. */
  function DocumentOn(line: string, lineBytes: nat): Result<Value, ReadError> {
    if |line| == 0 || |line| > lineBytes then Err(BadLineLength)
    else
      match Parse(line)
      case Err(_) => Err(NotAnObject)
      case Ok(doc) =>
        if !doc.Object? then Err(NotAnObject)
        else if !ValidRecord(doc) then Err(SchemaViolation)
        else if !DoubleFree(doc) || Canonical(doc) != line then Err(NotCanonical)
        else Ok(doc)
  }

  function TakeHeader(p: Progress, doc: Value, line: string, first: bool): Result<Progress, ReadError> {
    if p.header.Some? || !first then Err(MisplacedHeader)
    else if !HeaderContract(ParseHeader(doc)) then Err(IncompleteApis)
    else Ok(p.(header := Some(ParseHeader(doc)), covered := p.covered + (line + "\n")))
  }

  function TakeEvent(p: Progress, doc: Value, line: string, maxEvents: nat): Result<Progress, ReadError> {
    if p.header.None? || p.footer.Some? || |p.events| >= maxEvents || |p.events| >= p.header.value.bufferCapacity then
        Err(BeyondBound)
    else
      match ParseEvent(doc)
      case Err(_) => Err(BadAddress)
      case Ok(e) =>
        if CheckContract(e, p.header.value).Some? then Err(BadEvent(CheckContract(e, p.header.value).value))
        else if e.sequence != |p.events| + 1 then Err(SequenceGap)
        else Ok(p.(events := p.events + [e], covered := p.covered + (line + "\n")))
  }

  function TakeFooter(p: Progress, doc: Value, last: bool): Result<Progress, ReadError> {
    if p.header.None? || p.footer.Some? then Err(MisplacedFooter)
    else if !last then Err(FooterNotLast)
    else Ok(p.(footer := Some(ParseFooter(doc))))
  }

  function TakeLine(p: Progress, line: string, first: bool, last: bool, limits: Limits): Result<Progress, ReadError> {
    match DocumentOn(line, limits.lineBytes)
    case Err(e) => Err(e)
    case Ok(doc) =>
      if RecordType(doc) == "header" then TakeHeader(p, doc, line, first)
      else if RecordType(doc) == "event" then TakeEvent(p, doc, line, limits.events)
      else TakeFooter(p, doc, last)
  }

  // -------------------------------------------------------------------------
  // The whole file
  // -------------------------------------------------------------------------

  /** Where the first line ends. */
  function NewlineAt(s: string): (k: nat)
    requires s != "" && s[|s| - 1] == '\n'
    ensures k < |s| && s[k] == '\n' && forall i :: 0 <= i < k ==> s[i] != '\n'
  {
    if s[0] == '\n' then 0 else 1 + NewlineAt(s[1..])
  }

  predicate Terminated(s: string) {
    s == "" || s[|s| - 1] == '\n'
  }

  function FirstLine(s: string): string
    requires s != "" && Terminated(s)
  {
    s[..NewlineAt(s)]
  }

  function AfterFirstLine(s: string): (r: string)
    requires s != "" && Terminated(s)
    ensures Terminated(r) && |r| < |s|
  {
    s[NewlineAt(s) + 1..]
  }

  function TakeLines(rest: string, p: Progress, first: bool, limits: Limits): Result<Progress, ReadError>
    requires Terminated(rest)
    decreases |rest|
  {
    if rest == "" then Ok(p)
    else
      match TakeLine(p, FirstLine(rest), first, AfterFirstLine(rest) == "", limits)
      case Err(e) => Err(e)
      case Ok(next) => TakeLines(AfterFirstLine(rest), next, false, limits)
  }

  function TextBytes(s: string): (b: seq<Sha256.byte>)
    ensures |b| == |s|
  {
    seq(|s|, i requires 0 <= i < |s| => s[i] as int % 256)
  }

  function DigestOf(text: string): string {
    "sha256:" + HexOf(Sha256.Digest(TextBytes(text)))
  }

  /** The checks after the last line. */
  function Conclude(p: Progress, digest: string): Result<Trace, ReadError> {
    if p.header.None? || p.footer.None? then Err(MissingRecord)
    else
      var h, f := p.header.value, p.footer.value;
      if f.eventCount != |p.events| || f.eventCount > h.bufferCapacity then Err(CountMismatch)
      else if !f.complete || f.droppedEvents != 0 || f.reentrantEvents != 0 then Err(IncompleteTrace)
      else if f.digest != digest then Err(DigestMismatch)
      else Ok(Trace(h, p.events, f))
  }

  function Read(bytes: string, limits: Limits): Result<Trace, ReadError> {
    if limits.fileBytes == 0 || limits.lineBytes == 0 || limits.events == 0 then Err(ZeroLimits)
    else if |bytes| > limits.fileBytes then Err(FileTooLarge)
    else if bytes == "" || bytes[|bytes| - 1] != '\n' then Err(Unterminated)
    else
      match TakeLines(bytes, NOTHING_READ, true, limits)
      case Err(e) => Err(e)
      case Ok(p) => Conclude(p, DigestOf(p.covered))
  }

  // -------------------------------------------------------------------------
  // The loop, hashing as it goes
  // -------------------------------------------------------------------------

  lemma BytesOfLine(covered: string, line: string)
    ensures TextBytes(covered + (line + "\n")) == TextBytes(covered) + TextBytes(line) + [10]
  {
  }

  /** The document on a line, through the parser and the canonical writer. */
  method ReadDocument(line: string, lineBytes: nat) returns (r: Result<Value, ReadError>)
    ensures r == DocumentOn(line, lineBytes)
  {
    hide Parse, ValidRecord, Canonical, DoubleFree;
    if |line| == 0 || |line| > lineBytes {
      return Err(BadLineLength);
    }
    var parser := new Parser(line);
    var parsed := parser.Run();
    if parsed.Err? || !parsed.value.Object? {
      return Err(NotAnObject);
    }
    if !ValidRecord(parsed.value) {
      return Err(SchemaViolation);
    }
    var ok, text := WriteCanonical(parsed.value, "");
    assert ok ==> text == Canonical(parsed.value);
    if !ok || text != line {
      return Err(NotCanonical);
    }
    return Ok(parsed.value);
  }

  method ReadFile(bytes: string, limits: Limits) returns (r: Result<Trace, ReadError>)
    ensures r == Read(bytes, limits)
  {
    hide TakeLines, Conclude, Sha256.Digest, HexOf, TextBytes;
    if limits.fileBytes == 0 || limits.lineBytes == 0 || limits.events == 0 {
      return Err(ZeroLimits);
    }
    if |bytes| > limits.fileBytes {
      return Err(FileTooLarge);
    }
    if bytes == "" || bytes[|bytes| - 1] != '\n' {
      return Err(Unterminated);
    }
    var hasher := new Hasher();
    assert TextBytes("") == [];
    var p := ReadLines(bytes, limits, hasher);
    if p.Err? {
      return Err(p.error);
    }
    var hex := hasher.HexDigest();
    return Conclude(p.value, "sha256:" + hex);
  }

  method ReadLines(bytes: string, limits: Limits, hasher: Hasher) returns (r: Result<Progress, ReadError>)
    requires Terminated(bytes)
    requires hasher.Valid() && !hasher.finalized && hasher.message == TextBytes("")
    modifies hasher, hasher.state, hasher.buffer
    ensures r == TakeLines(bytes, NOTHING_READ, true, limits)
    ensures r.Ok? ==> hasher.Valid() && hasher.message == TextBytes(r.value.covered)
  {
    hide TakeLine, TakeLines, NewlineAt, TextBytes, Sha256.HashBlocks;
    var p, offset := NOTHING_READ, 0;
    assert bytes[0..] == bytes;
    while offset < |bytes|
      invariant 0 <= offset <= |bytes| && Terminated(bytes[offset..])
      invariant hasher.Valid() && !hasher.finalized && hasher.message == TextBytes(p.covered)
      invariant TakeLines(bytes[offset..], p, offset == 0, limits) == TakeLines(bytes, NOTHING_READ, true, limits)
      decreases |bytes| - offset
    {
      var newline := FindNewline(bytes, offset);
      LineOf(bytes, offset, newline);
      TakeLinesStep(bytes[offset..], p, offset == 0, limits);
      var next := TakeOne(p, bytes[offset..newline], offset == 0, newline + 1 == |bytes|, limits, hasher);
      if next.Err? {
        return Err(next.error);
      }
      p := next.value;
      offset := newline + 1;
    }
    assert bytes[offset..] == "";
    TakeLinesStep("", p, false, limits);
    TakeLinesStep("", p, true, limits);
    return Ok(p);
  }

  lemma TakeLinesStep(rest: string, p: Progress, first: bool, limits: Limits)
    requires Terminated(rest)
    ensures rest == "" ==> TakeLines(rest, p, first, limits) == Ok(p)
    ensures rest != "" ==>
              TakeLines(rest, p, first, limits) ==
              match TakeLine(p, FirstLine(rest), first, AfterFirstLine(rest) == "", limits)
              case Err(e) => Err(e)
              case Ok(next) => TakeLines(AfterFirstLine(rest), next, false, limits)
  {
    hide TakeLine, FirstLine, AfterFirstLine;
  }

  /** `bytes.find('\n', offset)`. */
  method FindNewline(bytes: string, offset: nat) returns (newline: nat)
    requires offset < |bytes| && Terminated(bytes[offset..])
    ensures offset <= newline < |bytes| && newline == offset + NewlineAt(bytes[offset..])
  {
    newline := offset;
    while bytes[newline] != '\n'
      invariant offset <= newline < |bytes| && Terminated(bytes[newline..])
      invariant newline + NewlineAt(bytes[newline..]) == offset + NewlineAt(bytes[offset..])
      decreases |bytes| - newline
    {
      assert bytes[newline..][1..] == bytes[newline + 1..];
      newline := newline + 1;
    }
  }

  lemma LineOf(bytes: string, offset: nat, newline: nat)
    requires offset <= newline < |bytes|
    ensures bytes[offset..][..newline - offset] == bytes[offset..newline]
    ensures bytes[offset..][newline - offset + 1..] == bytes[newline + 1..]
  {
  }

  /** One line: the header and the events are hashed, the footer is not. */
  method TakeOne(p: Progress, line: string, first: bool, last: bool, limits: Limits, hasher: Hasher)
    returns (r: Result<Progress, ReadError>)
    requires hasher.Valid() && !hasher.finalized && hasher.message == TextBytes(p.covered)
    modifies hasher, hasher.state, hasher.buffer
    ensures r == TakeLine(p, line, first, last, limits)
    ensures r.Ok? ==> hasher.Valid() && !hasher.finalized && hasher.message == TextBytes(r.value.covered)
  {
    hide DocumentOn, ParseHeader, HeaderContract, ParseEvent, ParseFooter, CheckContract, RecordType, TextBytes;
    hide Sha256.HashBlocks;
    var doc := ReadDocument(line, limits.lineBytes);
    if doc.Err? {
      return Err(doc.error);
    }
    if RecordType(doc.value) == "header" {
      r := TakeHeader(p, doc.value, line, first);
    } else if RecordType(doc.value) == "event" {
      r := TakeEvent(p, doc.value, line, limits.events);
    } else {
      return TakeFooter(p, doc.value, last);
    }
    if r.Ok? {
      BytesOfLine(p.covered, line);
      hasher.Update(TextBytes(line));
      hasher.Update([10]);
    }
  }
}
