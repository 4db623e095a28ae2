/** Writer and reader agree, and what any accepted trace file looks like. */
module TraceAgreement {
  import opened Words
  import opened Wrappers
  import opened JsonValue
  import opened JsonWriter
  import opened JsonGrammar
  import opened JsonClaims
  import opened TraceModel
  import opened TraceRecords
  import opened TraceReader
  import opened TraceFiles
  import Sha256
  import opened Sha256Stream

  // -------------------------------------------------------------------------
  // A complete flush is accepted
  // -------------------------------------------------------------------------

  /** An event that a recorder of this platform can have stored as number `i + 1`. */
  predicate Recordable(h: Header, e: Event, i: nat) {
    Encodable(e) && e.sequence == i + 1 && CheckContract(e, h).None?
  }

  /** A recording, small enough for the reader. */
  ghost predicate Readable(h: Header, events: seq<Event>, c: Counters, limits: Limits) {
    && WritableHeader(h) && |events| <= h.bufferCapacity && |events| <= limits.events && limits.events > 0
    && |Canonical(HeaderJson(h))| <= limits.lineBytes
    && (forall i :: 0 <= i < |events| ==>
       Recordable(h, events[i], i) && |Canonical(EventJson(events[i]))| <= limits.lineBytes)
    && |Canonical(FooterJson(FlushedFooter(h, events, c)))| <= limits.lineBytes
    && |Flushed(h, events, c)| <= limits.fileBytes
  }

  function After(h: Header, events: seq<Event>, i: nat): Progress
    requires i <= |events|
  {
    Progress(Some(h), events[..i], None, Body(h, events[..i]))
  }

  lemma TakesHeader(h: Header, limits: Limits)
    requires WritableHeader(h) && |Canonical(HeaderJson(h))| <= limits.lineBytes
    ensures TakeLine(NOTHING_READ, Canonical(HeaderJson(h)), true, false, limits) ==
            Ok(Progress(Some(h), [], None, Body(h, [])))
    ensures OneLine(Canonical(HeaderJson(h))) && Canonical(HeaderJson(h)) != ""
  {
    hide Canonical, HeaderJson, ValidHeader, ValidEvent, ValidFooter, ParseHeader, Norm, Body, DocumentOn;
    hide RecordType, Flat;
    HeaderIsFlat(h);
    HeaderRoundTrip(h);
    RecordTypes(Norm(HeaderJson(h)));
    FlatLine(HeaderJson(h), limits.lineBytes);
    BodyStart(h);
  }

  lemma TakesEvent(h: Header, events: seq<Event>, i: nat, limits: Limits)
    requires i < |events| && |events| <= h.bufferCapacity && |events| <= limits.events
    requires Recordable(h, events[i], i) && |Canonical(EventJson(events[i]))| <= limits.lineBytes
    ensures TakeLine(After(h, events, i), Canonical(EventJson(events[i])), false, false, limits) ==
            Ok(After(h, events, i + 1))
    ensures OneLine(Canonical(EventJson(events[i])))
  {
    hide Canonical, EventJson, ValidHeader, ValidEvent, ValidFooter, ParseEvent, Norm, Body, DocumentOn;
    hide RecordType, Flat;
    hide CheckContract, Encodable;
    EventIsFlat(events[i]);
    EventRoundTrip(events[i]);
    RecordTypes(Norm(EventJson(events[i])));
    FlatLine(EventJson(events[i]), limits.lineBytes);
    BodyStep(h, events, i);
    assert events[..i + 1] == events[..i] + [events[i]];
  }

  lemma TakesFooter(h: Header, events: seq<Event>, f: Footer, limits: Limits)
    requires IsDigest(f.digest) && |Canonical(FooterJson(f))| <= limits.lineBytes
    ensures var p := After(h, events, |events|);
      TakeLine(p, Canonical(FooterJson(f)), false, true, limits) == Ok(p.(footer := Some(f)))
    ensures OneLine(Canonical(FooterJson(f)))
  {
    hide Canonical, FooterJson, ValidHeader, ValidEvent, ValidFooter, ParseFooter, Norm, Body, DocumentOn;
    hide RecordType, Flat, IsDigest;
    FooterIsFlat(f);
    FooterRoundTrip(f);
    RecordTypes(Norm(FooterJson(f)));
    FlatLine(FooterJson(f), limits.lineBytes);
  }

  lemma {:induction false} HexIsLower(bytes: seq<Sha256.byte>)
    ensures forall i :: 0 <= i < |HexOf(bytes)| ==> IsLowerHex(HexOf(bytes)[i])
  {
    if bytes != [] {
      HexIsLower(bytes[..|bytes| - 1]);
    }
  }

  lemma DigestsAreDigests(text: string)
    ensures IsDigest(DigestOf(text))
  {
    hide Sha256.Digest, TextBytes, HexOf;
    var hex := HexOf(Sha256.Digest(TextBytes(text)));
    HexIsLower(Sha256.Digest(TextBytes(text)));
    assert DigestOf(text)[..7] == "sha256:";
  }

  /** The lines a flush writes after line `k`. */
  function Rest(h: Header, events: seq<Event>, f: Footer, i: nat): string
    requires i <= |events|
  {
    FileText(EventLines(events[i..]) + [Canonical(FooterJson(f))])
  }

  lemma RestUnfolds(h: Header, events: seq<Event>, f: Footer, i: nat)
    requires i <= |events|
    ensures Terminated(Rest(h, events, f, i)) && Rest(h, events, f, i) != ""
    ensures i < |events| ==> Rest(h, events, f, i) == Canonical(EventJson(events[i])) + "\n" + Rest(h, events, f, i + 1)
    ensures i == |events| ==> Rest(h, events, f, i) == Canonical(FooterJson(f)) + "\n" + ""
  {
    hide Canonical, EventJson, FooterJson;
    var lines := EventLines(events[i..]) + [Canonical(FooterJson(f))];
    FilesAreTerminated(lines);
    FileTextFromFront(lines);
    if i < |events| {
      assert lines[1..] == EventLines(events[i + 1..]) + [Canonical(FooterJson(f))];
    } else {
      assert lines[1..] == [] && lines[0] == Canonical(FooterJson(f));
    }
  }

  lemma {:induction false} TakesTheRest(h: Header, events: seq<Event>, c: Counters, i: nat, limits: Limits)
    requires Readable(h, events, c, limits) && i <= |events|
    ensures var f := FlushedFooter(h, events, c);
      && Terminated(Rest(h, events, f, i))
      && TakeLines(Rest(h, events, f, i), After(h, events, i), false, limits) ==
         Ok(After(h, events, |events|).(footer := Some(f)))
    decreases |events| - i
  {
    hide Canonical, EventJson, FooterJson, Rest, After, TakeLine, TakeLines, OneLine, FlushedFooter, FirstLine;
    hide AfterFirstLine, Recordable;
    var f := FlushedFooter(h, events, c);
    RestUnfolds(h, events, f, i);
    TakeLinesStep(Rest(h, events, f, i), After(h, events, i), false, limits);
    if i < |events| {
      RestUnfolds(h, events, f, i + 1);
      TakesEvent(h, events, i, limits);
      FirstNewline(Canonical(EventJson(events[i])), Rest(h, events, f, i + 1));
      TakesTheRest(h, events, c, i + 1, limits);
    } else {
      assert IsDigest(f.digest) by { FlushedDigest(h, events, c); }
      TakesFooter(h, events, f, limits);
      FirstNewline(Canonical(FooterJson(f)), "");
      TakeLinesStep("", After(h, events, i).(footer := Some(f)), false, limits);
    }
  }

  lemma FlushedDigest(h: Header, events: seq<Event>, c: Counters)
    requires |events| < U64_LIMIT
    ensures IsDigest(FlushedFooter(h, events, c).digest)
  {
    hide IsDigest, DigestOf, Body;
    DigestsAreDigests(Body(h, events));
  }

  lemma FlushedUnfolds(h: Header, events: seq<Event>, c: Counters)
    requires |events| < U64_LIMIT
    ensures var f := FlushedFooter(h, events, c);
      Flushed(h, events, c) == Canonical(HeaderJson(h)) + "\n" + Rest(h, events, f, 0)
  {
    hide Canonical, HeaderJson, EventJson, FooterJson, DigestOf;
    var f := FlushedFooter(h, events, c);
    var lines := [Canonical(HeaderJson(h))] + EventLines(events) + [Canonical(FooterJson(f))];
    assert lines[..|lines| - 1] == [Canonical(HeaderJson(h))] + EventLines(events);
    assert events[0..] == events;
    assert lines[1..] == EventLines(events) + [Canonical(FooterJson(f))];
    FileTextFromFront(lines);
  }

  /** What the reader makes of a flush: nothing was lost, or the trace is refused as incomplete. */
  function Judged(h: Header, events: seq<Event>, c: Counters): Result<Trace, ReadError>
    requires |events| < U64_LIMIT
  {
    if c.complete && c.dropped == 0 && c.reentrant == 0 then Ok(Trace(h, events, FlushedFooter(h, events, c)))
    else Err(IncompleteTrace)
  }

  /**
   * A flush within the reader's limits comes back as it was, or is refused exactly because its
   * counters admit a loss.
   */
  lemma FlushIsAccepted(h: Header, events: seq<Event>, c: Counters, limits: Limits)
    requires Readable(h, events, c, limits)
    ensures Read(Flushed(h, events, c), limits) == Judged(h, events, c)
  {
    hide Canonical, HeaderJson, Rest, After, TakeLine, TakeLines, OneLine, FirstLine, AfterFirstLine;
    hide Recordable, Body, DigestOf, Flushed;
    hide Conclude, FlushedFooter;
    var f := FlushedFooter(h, events, c);
    FlushedUnfolds(h, events, c);
    RestUnfolds(h, events, f, 0);
    TakesHeader(h, limits);
    FirstNewline(Canonical(HeaderJson(h)), Rest(h, events, f, 0));
    TakeLinesStep(Flushed(h, events, c), NOTHING_READ, true, limits);
    StartsAtHeader(h, events);
    TakesTheRest(h, events, c, 0, limits);
    ConcludesFlush(h, events, c);
  }

  lemma StartsAtHeader(h: Header, events: seq<Event>)
    ensures After(h, events, 0) == Progress(Some(h), [], None, Body(h, []))
  {
    hide Body;
    assert events[..0] == [];
  }

  lemma ConcludesFlush(h: Header, events: seq<Event>, c: Counters)
    requires |events| <= h.bufferCapacity
    ensures var f := FlushedFooter(h, events, c);
      var p := After(h, events, |events|).(footer := Some(f));
      Conclude(p, DigestOf(p.covered)) == Judged(h, events, c)
  {
    hide Body, DigestOf;
    assert events[..|events|] == events;
  }

  // -------------------------------------------------------------------------
  // What an accepted file looks like
  // -------------------------------------------------------------------------

  /** The line is the canonical text of a header record for `h`, with the whole API set. */
  predicate IsHeaderLine(line: string, h: Header, lineBytes: nat) {
    && DocumentOn(line, lineBytes).Ok? && RecordType(DocumentOn(line, lineBytes).value) == "header"
    && ParseHeader(DocumentOn(line, lineBytes).value) == h && HeaderContract(h)
  }

  /** The line is the canonical text of event number `i + 1`, and the event keeps its contract. */
  predicate IsEventLine(line: string, e: Event, h: Header, i: nat, lineBytes: nat) {
    && DocumentOn(line, lineBytes).Ok? && RecordType(DocumentOn(line, lineBytes).value) == "event"
    && ParseEvent(DocumentOn(line, lineBytes).value) == Ok(e)
    && e.sequence == i + 1 && CheckContract(e, h).None?
  }

  predicate IsFooterLine(line: string, f: Footer, lineBytes: nat) {
    && DocumentOn(line, lineBytes).Ok? && RecordType(DocumentOn(line, lineBytes).value) == "footer"
    && ParseFooter(DocumentOn(line, lineBytes).value) == f
  }

  /** The lines read so far are a header, the events in order, and at most one footer, which is not covered. */
  ghost predicate Accounts(lines: seq<string>, p: Progress, limits: Limits) {
    && (p.header.None? ==> lines == [] && p == NOTHING_READ)
    && (p.header.Some? ==>
          && |lines| == 1 + |p.events| + (if p.footer.Some? then 1 else 0)
          && IsHeaderLine(lines[0], p.header.value, limits.lineBytes)
          && |p.events| <= limits.events && |p.events| <= p.header.value.bufferCapacity
          && (forall i :: 0 <= i < |p.events| ==>
             IsEventLine(lines[1 + i], p.events[i], p.header.value, i, limits.lineBytes))
          && (p.footer.Some? ==> IsFooterLine(lines[1 + |p.events|], p.footer.value, limits.lineBytes))
          && p.covered == FileText(lines[..1 + |p.events|]))
  }

  lemma DocumentsAreRecords(line: string, lineBytes: nat)
    ensures DocumentOn(line, lineBytes).Ok? ==>
            RecordType(DocumentOn(line, lineBytes).value) in ["header", "event", "footer"]
  {
    hide ValidHeader, ValidEvent, ValidFooter, RecordType;
    if DocumentOn(line, lineBytes).Ok? {
      RecordTypes(DocumentOn(line, lineBytes).value);
    }
  }

  lemma TakeLineAccounts(lines: seq<string>, p: Progress, line: string, first: bool, last: bool, limits: Limits)
    requires Accounts(lines, p, limits) && p.footer.None? && (first <==> lines == [])
    requires TakeLine(p, line, first, last, limits).Ok?
    ensures Accounts(lines + [line], TakeLine(p, line, first, last, limits).value, limits)
    ensures TakeLine(p, line, first, last, limits).value.footer.Some? ==> last
  {
    hide DocumentOn, RecordType, ParseHeader, HeaderContract, ParseEvent, CheckContract, ParseFooter, FileText;
    DocumentsAreRecords(line, limits.lineBytes);
    CoveredGrows(lines, line);
    var all := lines + [line];
    assert all[..|lines|] == lines && all[..|lines| + 1] == all && lines[..|lines|] == lines;
    var next := TakeLine(p, line, first, last, limits).value;
    var doc := DocumentOn(line, limits.lineBytes).value;
    if RecordType(doc) == "header" {
      assert p == NOTHING_READ && lines == [];
    } else if RecordType(doc) == "event" {
      forall i | 0 <= i < |next.events|
          ensures IsEventLine(all[1 + i], next.events[i], p.header.value, i, limits.lineBytes) {
        if i < |p.events| {
          assert all[1 + i] == lines[1 + i] && next.events[i] == p.events[i];
        }
      }
    }
  }

  lemma CoveredGrows(lines: seq<string>, line: string)
    ensures FileText(lines + [line]) == FileText(lines) + (line + "\n") && FileText([]) == ""
  {
    assert (lines + [line])[..|lines|] == lines;
  }

  lemma {:induction false} TakeLinesAccounts(lines: seq<string>, rest: string, p: Progress, limits: Limits)
      returns (all: seq<string>)
    requires Terminated(rest) && Accounts(lines, p, limits) && p.footer.None?
    requires TakeLines(rest, p, lines == [], limits).Ok?
    ensures Accounts(all, TakeLines(rest, p, lines == [], limits).value, limits)
    ensures FileText(lines) + rest == FileText(all)
    decreases |rest|
  {
    hide Accounts, TakeLine, FirstLine, AfterFirstLine;
    TakeLinesStep(rest, p, lines == [], limits);
    if rest == "" {
      all := lines;
      assert FileText(lines) + rest == FileText(lines);
    } else {
      hide TakeLines, FileText;
      var line, left := FirstLine(rest), AfterFirstLine(rest);
      var next := TakeLine(p, line, lines == [], left == "", limits).value;
      TakeLineAccounts(lines, p, line, lines == [], left == "", limits);
      SplitFirst(rest);
      CoveredGrows(lines, line);
      Rejoin(FileText(lines), line, left);
      if next.footer.Some? {
        all := lines + [line];
        TakeLinesStep(left, next, false, limits);
        assert FileText(all) + left == FileText(all);
      } else {
        all := TakeLinesAccounts(lines + [line], left, next, limits);
      }
    }
  }

  lemma Rejoin(before: string, line: string, left: string)
    ensures before + (line + "\n" + left) == before + (line + "\n") + left
  {
  }

  lemma SplitFirst(rest: string)
    requires rest != "" && Terminated(rest)
    ensures rest == FirstLine(rest) + "\n" + AfterFirstLine(rest)
  {
  }

  /**
   * Any accepted file is one header, the events numbered from one without a
   * gap and no more of them than the declared capacity, and a final footer
   * that says the recording is complete and whose digest is that of every
   * earlier line.
   */
  lemma AcceptedShape(bytes: string, limits: Limits) returns (lines: seq<string>)
    requires Read(bytes, limits).Ok?
    ensures var t := Read(bytes, limits).value;
      var n := |t.events|;
      && bytes == FileText(lines) && |lines| == n + 2
      && IsHeaderLine(lines[0], t.header, limits.lineBytes)
      && (forall i :: 0 <= i < n ==> IsEventLine(lines[1 + i], t.events[i], t.header, i, limits.lineBytes))
      && IsFooterLine(lines[n + 1], t.footer, limits.lineBytes)
      && n == t.footer.eventCount && n <= t.header.bufferCapacity && n <= limits.events
      && t.footer.complete && t.footer.droppedEvents == 0 && t.footer.reentrantEvents == 0
      && t.footer.digest == DigestOf(FileText(lines[..n + 1]))
  {
    hide TakeLines, IsHeaderLine, IsEventLine, IsFooterLine, DigestOf, FileText;
    assert Accounts([], NOTHING_READ, limits);
    lines := TakeLinesAccounts([], bytes, NOTHING_READ, limits);
    CoveredGrows([], "");
    assert "" + bytes == bytes;
  }

  // -------------------------------------------------------------------------
  // Which recordings come back at all
  // -------------------------------------------------------------------------

  lemma {:induction false} LinesAreDetermined(a: seq<string>, b: seq<string>)
    requires FileText(a) == FileText(b)
    requires forall i :: 0 <= i < |a| ==> OneLine(a[i])
    requires forall i :: 0 <= i < |b| ==> OneLine(b[i])
    ensures a == b
    decreases |a|
  {
    hide OneLine, FirstLine, AfterFirstLine, FileText;
    LinesBegin(a);
    LinesBegin(b);
    if a != [] && b != [] {
      LinesAreDetermined(a[1..], b[1..]);
      assert a == [a[0]] + a[1..] && b == [b[0]] + b[1..];
    }
  }

  lemma LinesBegin(lines: seq<string>)
    requires forall i :: 0 <= i < |lines| ==> OneLine(lines[i])
    ensures Terminated(FileText(lines)) && (FileText(lines) == "" <==> lines == [])
    ensures lines != [] ==>
              FirstLine(FileText(lines)) == lines[0] && AfterFirstLine(FileText(lines)) == FileText(lines[1..])
  {
    hide OneLine, FirstLine, AfterFirstLine;
    FilesAreTerminated(lines);
    if lines != [] {
      FileTextFromFront(lines);
      FilesAreTerminated(lines[1..]);
      FirstNewline(lines[0], FileText(lines[1..]));
    }
  }

  lemma DocumentLineIsOneLine(line: string, lineBytes: nat)
    requires DocumentOn(line, lineBytes).Ok?
    ensures OneLine(line)
  {
    hide ValidRecord, OneLine, Write;
    CanonicalIsOneLine(DocumentOn(line, lineBytes).value, 0);
  }

  /** A document on the line of an event is the event's own, so the event can be encoded. */
  lemma EventLineIsRecordable(h: Header, e: Event, i: nat, lineBytes: nat)
    requires IsEventLine(Canonical(EventJson(e)), e, h, i, lineBytes)
    ensures Recordable(h, e, i)
  {
    hide EventJson, ValidHeader, ValidEvent, ValidFooter, ParseEvent, Norm, Encodable, CheckContract, RecordType;
    hide Flat, Canonical;
    EventIsFlat(e);
    ParsesBack(EventJson(e), lineBytes);
    var doc := Norm(EventJson(e));
    RecordTypes(doc);
    EventRoundTrip(e);
  }

  lemma ParsesBack(doc: Value, lineBytes: nat)
    requires Flat(doc) && DocumentOn(Canonical(doc), lineBytes).Ok?
    ensures DocumentOn(Canonical(doc), lineBytes).value == Norm(doc) && ValidRecord(Norm(doc))
  {
    hide Write, ValidRecord, Norm, DoubleFree, Proper, Fits, Parse;
    FitsWider(doc, 2, MAX_DEPTH);
    TextRoundTrip(doc, 0);
  }

  lemma FlatIsOneLine(doc: Value)
    requires Flat(doc)
    ensures OneLine(Canonical(doc))
  {
    hide OneLine, Write, Proper, Fits;
    CanonicalIsOneLine(doc, 0);
  }

  function FlushedLines(h: Header, events: seq<Event>, f: Footer): (lines: seq<string>)
    ensures |lines| == |events| + 2
    ensures forall i :: 0 <= i < |events| ==> lines[1 + i] == Canonical(EventJson(events[i]))
  {
    [Canonical(HeaderJson(h))] + EventLines(events) + [Canonical(FooterJson(f))]
  }

  lemma FlushedIsLines(h: Header, events: seq<Event>, c: Counters)
    requires |events| < U64_LIMIT
    ensures var lines := FlushedLines(h, events, FlushedFooter(h, events, c));
      Flushed(h, events, c) == FileText(lines) && forall i :: 0 <= i < |lines| ==> OneLine(lines[i])
  {
    hide Canonical, HeaderJson, EventJson, FooterJson, DigestOf, Flat, OneLine;
    var f := FlushedFooter(h, events, c);
    var lines := FlushedLines(h, events, f);
    assert lines[..|lines| - 1] == [Canonical(HeaderJson(h))] + EventLines(events);
    HeaderIsFlat(h);
    FlatIsOneLine(HeaderJson(h));
    FooterIsFlat(f);
    FlatIsOneLine(FooterJson(f));
    forall i | 0 <= i < |lines| ensures OneLine(lines[i]) {
      if 1 <= i <= |events| {
        EventIsFlat(events[i - 1]);
        FlatIsOneLine(EventJson(events[i - 1]));
        assert lines[i] == Canonical(EventJson(events[i - 1]));
      }
    }
  }

  /** Under some limits the reader gives back exactly what was written. */
  ghost predicate ComesBack(h: Header, events: seq<Event>, c: Counters)
    requires |events| < U64_LIMIT
  {
    exists limits: Limits :: Read(Flushed(h, events, c), limits) == Ok(Trace(h, events, FlushedFooter(h, events, c)))
  }

  /** Only a recording without a loss, and of events that keep their contract, can be read back as it was. */
  lemma OnlyRecordableComesBack(h: Header, events: seq<Event>, c: Counters)
    requires |events| < U64_LIMIT && ComesBack(h, events, c)
    ensures c.complete && c.dropped == 0 && c.reentrant == 0 && |events| <= h.bufferCapacity
    ensures forall i :: 0 <= i < |events| ==> Recordable(h, events[i], i)
  {
    hide Read, Flushed, FlushedLines, IsHeaderLine, IsEventLine, IsFooterLine, Canonical, EventJson, FileText, OneLine;
    hide Recordable, DigestOf, Body;
    var f := FlushedFooter(h, events, c);
    var limits :| Read(Flushed(h, events, c), limits) == Ok(Trace(h, events, f));
    var lines := AcceptedShape(Flushed(h, events, c), limits);
    FlushedIsLines(h, events, c);
    forall i | 0 <= i < |lines| ensures OneLine(lines[i]) {
      LineIsOneLine(lines, h, events, f, limits, i);
    }
    LinesAreDetermined(lines, FlushedLines(h, events, f));
    forall i | 0 <= i < |events| ensures Recordable(h, events[i], i) {
      assert lines[1 + i] == Canonical(EventJson(events[i]));
      EventLineIsRecordable(h, events[i], i, limits.lineBytes);
    }
  }

  lemma LineIsOneLine(lines: seq<string>, h: Header, events: seq<Event>, f: Footer, limits: Limits, i: nat)
    requires |lines| == |events| + 2 && i < |lines|
    requires IsHeaderLine(lines[0], h, limits.lineBytes) && IsFooterLine(lines[|events| + 1], f, limits.lineBytes)
    requires forall k :: 0 <= k < |events| ==> IsEventLine(lines[1 + k], events[k], h, k, limits.lineBytes)
    ensures OneLine(lines[i])
  {
    hide OneLine, DocumentOn, ParseEvent, ParseHeader, ParseFooter, CheckContract, HeaderContract, RecordType;
    if 1 <= i <= |events| {
      assert IsEventLine(lines[1 + (i - 1)], events[i - 1], h, i - 1, limits.lineBytes);
    }
    DocumentLineIsOneLine(lines[i], limits.lineBytes);
  }
}
