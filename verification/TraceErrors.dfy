/** What a trace file is refused for: the first thing wrong with the first line that is refused, or with the end. */
module TraceErrors {
  import opened Wrappers
  import opened JsonValue
  import opened JsonWriter
  import opened JsonGrammar
  import opened TraceModel
  import opened TraceRecords
  import opened TraceReader

  // -------------------------------------------------------------------------
  // One line
  // -------------------------------------------------------------------------

  /** The document on a line, null when there is none. */
  function DocOf(line: string): Value {
    if Parse(line).Ok? then Parse(line).value else Null
  }

  predicate IsKind(line: string, kind: string) {
    TextOf(Get(DocOf(line), "record_type")) == kind
  }

  function EventOn(line: string): Result<Event, AddressError> {
    ParseEvent(DocOf(line))
  }

  /** No room for another event: no header yet, a footer already, or as many as the reader or the recorder holds. */
  predicate IsFull(p: Progress, limits: Limits) {
    p.header.None? || p.footer.Some? || |p.events| >= limits.events || |p.events| >= p.header.value.bufferCapacity
  }

  /** What an error says of a line that is read after `p`. */
  predicate Breaks(p: Progress, line: string, first: bool, last: bool, limits: Limits, error: ReadError) {
    match error
    case BadLineLength => line == "" || |line| > limits.lineBytes
    case NotAnObject => !DocOf(line).Object?
    case SchemaViolation => !ValidRecord(DocOf(line))
    case NotCanonical => !DoubleFree(DocOf(line)) || Canonical(DocOf(line)) != line
    case MisplacedHeader => IsKind(line, "header") && !(first && p.header.None?)
    case IncompleteApis =>
      var h := ParseHeader(DocOf(line));
      IsKind(line, "header") && h.instrumentedApis != if h.platform == "windows" then WindowsApis() else PosixApis()
    case BeyondBound => IsKind(line, "event") && IsFull(p, limits)
    case BadAddress => IsKind(line, "event") && EventOn(line).Err?
    case BadEvent(violated) =>
      && IsKind(line, "event") && p.header.Some? && EventOn(line).Ok?
      && CheckContract(EventOn(line).value, p.header.value) == Some(violated)
    case SequenceGap => IsKind(line, "event") && EventOn(line).Ok? && EventOn(line).value.sequence != |p.events| + 1
    case MisplacedFooter => IsKind(line, "footer") && (p.header.None? || p.footer.Some?)
    case FooterNotLast => IsKind(line, "footer") && !last
    case _ => false
  }

  /** The order in which a line is examined. */
  function Turn(error: ReadError): nat {
    match error
    case BadLineLength => 0
    case NotAnObject => 1
    case SchemaViolation => 2
    case NotCanonical => 3
    case MisplacedHeader => 4
    case IncompleteApis => 5
    case BeyondBound => 6
    case BadAddress => 7
    case BadEvent(_) => 8
    case SequenceGap => 9
    case MisplacedFooter => 10
    case FooterNotLast => 11
    case _ => 12
  }

  /** A line is refused exactly when it breaks something, and the error is about the first thing it breaks. */
  lemma LinesAreRefusedFor(p: Progress, line: string, first: bool, last: bool, limits: Limits, error: ReadError)
    ensures TakeLine(p, line, first, last, limits) == Err(error) <==>
            && Breaks(p, line, first, last, limits, error)
            && forall earlier :: Turn(earlier) < Turn(error) ==> !Breaks(p, line, first, last, limits, earlier)
  {
    hide TakeLine, Breaks, Turn;
    var taken := TakeLine(p, line, first, last, limits);
    forall x ensures taken.Err? && Turn(x) < Turn(taken.error) ==> !Breaks(p, line, first, last, limits, x)
             ensures taken.Ok? ==> !Breaks(p, line, first, last, limits, x)
    {
      NothingEarlier(p, line, first, last, limits, x);
    }
    if taken.Err? {
      RefusedForIt(p, line, first, last, limits);
      if Breaks(p, line, first, last, limits, error) && Turn(error) == Turn(taken.error) {
        OneEach(p, line, first, last, limits, error, taken.error);
      }
    }
  }

  lemma OneEach(p: Progress, line: string, first: bool, last: bool, limits: Limits, x: ReadError, y: ReadError)
    requires Breaks(p, line, first, last, limits, x) && Breaks(p, line, first, last, limits, y) && Turn(x) == Turn(y)
    ensures x == y
  {
    hide IsKind, ValidRecord, DocOf, IsFull, Canonical, DoubleFree, PosixApis, WindowsApis, ParseHeader, EventOn;
    hide CheckContract;
  }

  lemma RefusedForIt(p: Progress, line: string, first: bool, last: bool, limits: Limits)
    requires TakeLine(p, line, first, last, limits).Err?
    ensures Breaks(p, line, first, last, limits, TakeLine(p, line, first, last, limits).error)
  {
    hide Parse, ValidRecord, Canonical, DoubleFree, ParseHeader, ParseEvent, CheckContract, PosixApis, WindowsApis;
    DocumentIs(line, limits.lineBytes);
    KindsDiffer(DocOf(line));
    hide DocumentOn, DocOf, TextOf, Get;
  }

  lemma NothingEarlier(p: Progress, line: string, first: bool, last: bool, limits: Limits, x: ReadError)
    ensures var taken := TakeLine(p, line, first, last, limits);
      (taken.Err? ==> Turn(x) < Turn(taken.error) ==> !Breaks(p, line, first, last, limits, x))
      && (taken.Ok? ==> !Breaks(p, line, first, last, limits, x))
  {
    hide Parse, ValidRecord, Canonical, DoubleFree, ParseHeader, ParseEvent, CheckContract, PosixApis, WindowsApis;
    DocumentIs(line, limits.lineBytes);
    KindsDiffer(DocOf(line));
    hide DocumentOn, DocOf, TextOf, Get;
  }

  lemma DocumentIs(line: string, lineBytes: nat)
    ensures DocumentOn(line, lineBytes) ==
            if line == "" || |line| > lineBytes then Err(BadLineLength)
            else if !DocOf(line).Object? then Err(NotAnObject)
            else if !ValidRecord(DocOf(line)) then Err(SchemaViolation)
            else if !DoubleFree(DocOf(line)) || Canonical(DocOf(line)) != line then Err(NotCanonical)
            else Ok(DocOf(line))
  {
    hide Parse, ValidRecord, Canonical, DoubleFree;
  }

  lemma KindsDiffer(doc: Value)
    ensures ValidRecord(doc) ==>
              RecordType(doc) == "header" || RecordType(doc) == "event" || RecordType(doc) == "footer"
    ensures "header" != "event" && "event" != "footer" && "footer" != "header"
  {
    hide ValidHeader, ValidEvent, ValidFooter, RecordType;
    RecordTypes(doc);
    assert "header"[0] == 'h' && "event"[0] == 'e' && "footer"[0] == 'f';
  }

  // -------------------------------------------------------------------------
  // The end, and the whole
  // -------------------------------------------------------------------------

  /** What an error says of a file all of whose lines were taken. */
  predicate EndBreaks(p: Progress, error: ReadError) {
    match error
    case MissingRecord => p.header.None? || p.footer.None?
    case CountMismatch =>
      && p.header.Some? && p.footer.Some?
      && (p.footer.value.eventCount != |p.events| || p.footer.value.eventCount > p.header.value.bufferCapacity)
    case IncompleteTrace =>
      && p.footer.Some?
      && !(p.footer.value.complete && p.footer.value.droppedEvents == p.footer.value.reentrantEvents == 0)
    case DigestMismatch => p.footer.Some? && p.footer.value.digest != DigestOf(p.covered)
    case _ => false
  }

  function EndTurn(error: ReadError): nat {
    match error
    case MissingRecord => 0
    case CountMismatch => 1
    case IncompleteTrace => 2
    case DigestMismatch => 3
    case _ => 4
  }

  lemma EndsAreRefusedFor(p: Progress, error: ReadError)
    ensures Conclude(p, DigestOf(p.covered)) == Err(error) <==>
            EndBreaks(p, error) && forall earlier :: EndTurn(earlier) < EndTurn(error) ==> !EndBreaks(p, earlier)
  {
    hide DigestOf;
    var end := Conclude(p, DigestOf(p.covered));
    if end == Err(error) {
      forall earlier | EndTurn(earlier) < EndTurn(error) ensures !EndBreaks(p, earlier) {
      }
    } else if end.Err? {
      assert EndBreaks(p, end.error);
    }
  }

  /** What is left of a text after `n` of its lines have been taken, and how far the reader has come. */
  function After(rest: string, p: Progress, first: bool, limits: Limits, n: nat): Option<(string, Progress)>
    requires Terminated(rest)
    decreases n
  {
    if n == 0 then Some((rest, p))
    else if rest == "" then None
    else
      match TakeLine(p, FirstLine(rest), first, AfterFirstLine(rest) == "", limits)
      case Err(_) => None
      case Ok(next) => After(AfterFirstLine(rest), next, false, limits, n - 1)
  }

  lemma {:induction false} LinesStop(rest: string, p: Progress, first: bool, limits: Limits) returns (n: nat)
    requires Terminated(rest)
    ensures var at, r := After(rest, p, first, limits, n), TakeLines(rest, p, first, limits);
      && at.Some? && Terminated(at.value.0)
      && (r.Ok? ==> at.value == ("", r.value))
      && (r.Err? ==>
            && at.value.0 != ""
            && TakeLine(at.value.1, FirstLine(at.value.0), first && n == 0, AfterFirstLine(at.value.0) == "", limits)
               == Err(r.error))
    decreases |rest|
  {
    hide TakeLine, FirstLine, AfterFirstLine;
    if rest == "" {
      n := 0;
    } else {
      var taken := TakeLine(p, FirstLine(rest), first, AfterFirstLine(rest) == "", limits);
      if taken.Err? {
        n := 0;
      } else {
        var m := LinesStop(AfterFirstLine(rest), taken.value, false, limits);
        n := m + 1;
      }
    }
  }

  /**
   * A file is refused for its size or for lacking its last line break, or else for the first line that is
   * refused after the lines before it were taken, or else for its end.
   */
  lemma FilesAreRefusedFor(bytes: string, limits: Limits) returns (n: nat)
    ensures limits.fileBytes == 0 || limits.lineBytes == 0 || limits.events == 0 ==>
              Read(bytes, limits) == Err(ZeroLimits)
    ensures limits.fileBytes > 0 && limits.lineBytes > 0 && limits.events > 0 ==>
              if |bytes| > limits.fileBytes then Read(bytes, limits) == Err(FileTooLarge)
              else if bytes == "" || bytes[|bytes| - 1] != '\n' then Read(bytes, limits) == Err(Unterminated)
              else
                var at := After(bytes, NOTHING_READ, true, limits, n);
                && at.Some? && Terminated(at.value.0)
                && if at.value.0 == "" then Read(bytes, limits) == Conclude(at.value.1, DigestOf(at.value.1.covered))
                   else
                     var line := TakeLine(at.value.1, FirstLine(at.value.0), n == 0, AfterFirstLine(at.value.0) == "",
                                          limits);
                     line.Err? && Read(bytes, limits) == Err(line.error)
  {
    hide TakeLine, FirstLine, AfterFirstLine, TakeLines, After, Conclude, DigestOf;
    n := 0;
    if bytes != "" && bytes[|bytes| - 1] == '\n' {
      n := LinesStop(bytes, NOTHING_READ, true, limits);
    }
  }
}
