/** From the recorder's memory to a file and back. */
module RecordingRoundTrip {
  import opened Words
  import opened Wrappers
  import opened JsonWriter
  import opened TraceModel
  import opened TraceRecords
  import TraceReader
  import opened TraceFiles
  import opened TraceAgreement
  import opened Recorder
  import opened RecorderSafety
  import RecorderClaims

  // -------------------------------------------------------------------------
  // The fields of an event in memory
  // -------------------------------------------------------------------------

  function Low(word: nat): u32 {
    word % U32_LIMIT
  }

  function High(word: nat): u32 {
    word / U32_LIMIT % U32_LIMIT
  }

  function Wide(word: nat): u64 {
    word % U64_LIMIT
  }

  /** Two's complement. */
  function Signed(word: nat): i64 {
    if Wide(word) < I64_LIMIT then Wide(word) else Wide(word) - U64_LIMIT
  }

  /** `rs_vm_event_v1`, little-endian; version, size and reserved words are left aside. */
  function EventOf(w: Payload): Event {
    Event(
      sequence := Wide(w[1]),
      platform := Low(w[2]),
      operation := High(w[2]),
      success := Low(w[3]),
      errorDomain := High(w[3]),
      errorCode := Signed(w[4]),
      requestedAddress := Wide(w[5]),
      returnedAddress := Wide(w[6]),
      expectedAddress := Wide(w[7]),
      size := Wide(w[8]),
      offset := Signed(w[9]),
      nativeFlags := Low(w[10]),
      semanticFlags := High(w[10]),
      requestedProtection := Low(w[11]),
      previousProtection := High(w[11]),
      exactRequired := Low(w[12]),
      violation := High(w[12]),
      effectiveAddress := Wide(w[15]),
      effectiveSize := Wide(w[16]))
  }

  /** The recorder fills in the sequence number and changes nothing else, and acts on the violation it carries. */
  lemma StampNumbersTheEvent(w: Payload, index: nat)
    requires index + 1 < U64_LIMIT
    ensures EventOf(Stamp(w, index)) == EventOf(w).(sequence := index + 1)
    ensures w[VIOLATION_WORD] < U64_LIMIT ==> (HasViolation(w) <==> EventOf(w).violation != 0)
  {
    hide Low, Signed;
    if w[VIOLATION_WORD] < U64_LIMIT {
      assert w[12] / U32_LIMIT < U32_LIMIT;
    }
    hide High;
  }

  function EventsOf(out: seq<Payload>): (events: seq<Event>)
    ensures |events| == |out| && forall i :: 0 <= i < |out| ==> events[i] == EventOf(out[i])
  {
    seq(|out|, i requires 0 <= i < |out| => EventOf(out[i]))
  }

  // -------------------------------------------------------------------------
  // Limits
  // -------------------------------------------------------------------------

  function LongestLine(events: seq<Event>): (n: nat)
    ensures forall i :: 0 <= i < |events| ==> |Canonical(EventJson(events[i]))| <= n
  {
    if events == [] then 0
    else
      var rest, last := LongestLine(events[..|events| - 1]), |Canonical(EventJson(events[|events| - 1]))|;
      assert forall i :: 0 <= i < |events| - 1 ==> events[..|events| - 1][i] == events[i];
      if rest < last then last else rest
  }

  /** Some limits admit any given recording. */
  lemma LimitsExist(h: Header, events: seq<Event>, c: Counters) returns (limits: TraceReader.Limits)
    requires WritableHeader(h) && |events| <= h.bufferCapacity
    requires forall i :: 0 <= i < |events| ==> Recordable(h, events[i], i)
    ensures Readable(h, events, c, limits)
  {
    hide Canonical, HeaderJson, EventJson, FooterJson, Recordable, WritableHeader, Flushed, FlushedFooter;
    assert |events| < U64_LIMIT;
    var header, footer := |Canonical(HeaderJson(h))|, |Canonical(FooterJson(FlushedFooter(h, events, c)))|;
    limits := TraceReader.Limits(|Flushed(h, events, c)|, header + footer + LongestLine(events), |events| + 1);
  }

  /** A recording can be read back exactly when nothing was lost and every event keeps its contract. */
  lemma ComesBackExactly(h: Header, events: seq<Event>, c: Counters)
    requires WritableHeader(h) && |events| <= h.bufferCapacity
    ensures ComesBack(h, events, c) <==>
            && c.complete && c.dropped == 0 && c.reentrant == 0
            && forall i :: 0 <= i < |events| ==> Recordable(h, events[i], i)
  {
    hide Recordable, WritableHeader, Flushed, FlushedFooter, Readable, TraceReader.Read;
    assert h.bufferCapacity < U32_LIMIT by { CapacityFits(h); }
    if ComesBack(h, events, c) {
      OnlyRecordableComesBack(h, events, c);
    } else if forall i :: 0 <= i < |events| ==> Recordable(h, events[i], i) {
      var limits := LimitsExist(h, events, c);
      FlushIsAccepted(h, events, c, limits);
    }
  }

  lemma CapacityFits(h: Header)
    ensures h.bufferCapacity < U32_LIMIT
  {
  }

  // -------------------------------------------------------------------------
  // The whole way
  // -------------------------------------------------------------------------

  /** A call whose event, under any number, can be written and keeps its contract. */
  predicate KeepsContract(h: Header, w: Payload) {
    Recordable(h, EventOf(w).(sequence := 1), 0)
  }

  lemma NumberIsFree(h: Header, e: Event, i: nat)
    requires i + 1 < U64_LIMIT
    ensures Recordable(h, e.(sequence := 1), 0) <==> Recordable(h, e.(sequence := i + 1), i)
  {
    assert CheckContract(e.(sequence := i + 1), h) == CheckContract(e.(sequence := 1), h) by {
      assert CheckSemanticFlags(e.(sequence := i + 1)) == CheckSemanticFlags(e.(sequence := 1));
    }
  }

  /** The counters as the footer records them. */
  function CountersOf(stats: Stats): Counters {
    Counters(Wide(stats.dropped), Wide(stats.reentrant), stats.complete)
  }

  /** The events of a successful snapshot are those of the first calls to claim an index, numbered from one. */
  ghost predicate FirstClaims(s: State, events: seq<Event>) {
    && |events| <= |s.claims| && |events| < U64_LIMIT
    && forall j :: 0 <= j < |events| ==>
         s.claims[j].id < |s.calls| && events[j] == EventOf(s.calls[s.claims[j].id]).(sequence := j + 1)
  }

  /** The first `n` calls to claim an index keep their contract. */
  ghost predicate FirstCallsKeep(s: State, n: nat, h: Header) {
    forall j :: 0 <= j < n && j < |s.claims| && s.claims[j].id < |s.calls| ==> KeepsContract(h, s.calls[s.claims[j].id])
  }

  /** The reader gives back what was written, or says that the trace is incomplete. */
  predicate GivesBackIf(whole: bool, h: Header, events: seq<Event>, c: Counters, limits: TraceReader.Limits)
    requires |events| < U64_LIMIT
  {
    TraceReader.Read(Flushed(h, events, c), limits) ==
    if whole then Ok(Trace(h, events, FlushedFooter(h, events, c))) else Err(TraceReader.IncompleteTrace)
  }

  /** An event of a snapshot can be recorded exactly when the call behind it keeps its contract. */
  lemma SnapshotHoldsFirstClaims(s: State, t: nat, h: Header)
    requires Inv(s) && t < |s.threads| && s.threads[t].phase.SnapDone?
    requires s.threads[t].phase.room.buffer && s.threads[t].phase.status == Success
    requires |s.threads[t].phase.out| < U64_LIMIT
    ensures var events := EventsOf(s.threads[t].phase.out);
      && FirstClaims(s, events)
      && ((forall j :: 0 <= j < |events| ==> Recordable(h, events[j], j)) <==> FirstCallsKeep(s, |events|, h))
  {
    hide Inv, Stamp, EventOf, Recordable, KeepsContract;
    RecorderClaims.SnapshotIsExact(s, t);
    var events := EventsOf(s.threads[t].phase.out);
    assert |s.claims| == s.claimed by { ClaimsAreCounted(s); }
    forall j | 0 <= j < |events|
      ensures s.claims[j].id < |s.calls| && events[j] == EventOf(s.calls[s.claims[j].id]).(sequence := j + 1)
      ensures Recordable(h, events[j], j) <==> KeepsContract(h, s.calls[s.claims[j].id])
    {
      var call := s.calls[s.claims[j].id];
      StampNumbersTheEvent(call, j);
      ContractMeans(h, call);
      NumberIsFree(h, EventOf(call), j);
    }
  }

  /**
   * In any interleaving: the file written from a successful snapshot, and from
   * statistics read in any later state, gives back exactly the calls the
   * snapshot holds, in claim order and numbered from one, if and only if the
   * statistics say `complete` and these calls keep their contract. When they
   * keep it and calls were lost, the reader says that the trace is incomplete.
   */
  lemma RecordedCallsComeBack(s: State, t: nat, m: seq<(nat, Action)>, u: nat, h: Header)
    returns (limits: TraceReader.Limits)
    requires Inv(s) && t < |s.threads| && s.threads[t].phase.SnapDone?
    requires s.threads[t].phase.room.buffer && s.threads[t].phase.status == Success
    requires u < |Run(s, m).threads| && Run(s, m).threads[u].phase.StatsDone?
    requires WritableHeader(h) && |s.threads[t].phase.out| <= h.bufferCapacity
    ensures var events, stats := EventsOf(s.threads[t].phase.out), Run(s, m).threads[u].phase.stats;
      && FirstClaims(s, events)
      && (ComesBack(h, events, CountersOf(stats)) <==> stats.complete && FirstCallsKeep(s, |events|, h))
      && (FirstCallsKeep(s, |events|, h) ==>
            GivesBackIf(stats.complete, h, events, CountersOf(stats), limits))
  {
    hide Inv, Run, EventOf, Recordable, WritableHeader, FirstCallsKeep, Flushed, FlushedFooter, ComesBack;
    hide TraceReader.Read, Readable;
    var events, stats := EventsOf(s.threads[t].phase.out), Run(s, m).threads[u].phase.stats;
    CapacityFits(h);
    SnapshotHoldsFirstClaims(s, t, h);
    StatsAreConsistent(Run(s, m), u);
    ComesBackExactly(h, events, CountersOf(stats));
    limits := TraceReader.Limits(0, 0, 0);
    if FirstCallsKeep(s, |events|, h) {
      limits := LimitsExist(h, events, CountersOf(stats));
      FlushIsAccepted(h, events, CountersOf(stats), limits);
    }
  }

  lemma StatsAreConsistent(s: State, u: nat)
    requires Inv(s) && u < |s.threads| && s.threads[u].phase.StatsDone?
    ensures var stats := s.threads[u].phase.stats;
      stats.complete <==> stats.dropped == 0 && stats.reentrant == 0
  {
    hide ClaimsOk, FatesOk, SlotsOk;
    ThreadIsOk(s, u);
  }

  lemma ClaimsAreCounted(s: State)
    requires Inv(s)
    ensures |s.claims| == s.claimed
  {
  }

  lemma ContractMeans(h: Header, w: Payload)
    ensures KeepsContract(h, w) <==> Recordable(h, EventOf(w).(sequence := 1), 0)
  {
  }

  // -------------------------------------------------------------------------
  // A flush nobody disturbs
  // -------------------------------------------------------------------------

  /** The call is the one behind some event of a list of `n`. */
  ghost predicate IsHeld(s: State, n: nat, id: nat) {
    exists j: nat :: j < n && j < |s.claims| && s.claims[j].id == id
  }

  ghost predicate HoldsEveryCall(s: State, n: nat) {
    forall id: nat :: id < |s.calls| ==> IsHeld(s, n, id)
  }

  lemma BufferedCallsAreHeld(s: State)
    requires Inv(s) && RecorderClaims.AllInBuffer(s)
    ensures HoldsEveryCall(s, Min(s.claimed, s.capacity))
  {
    hide ThreadsOk, ClaimsOk, SlotsOk, Stamp;
    forall id: nat | id < |s.calls| ensures IsHeld(s, Min(s.claimed, s.capacity), id) {
      assert RecorderClaims.InBuffer(s, id) && FateOk(s, id);
      assert s.claims[s.fates[id].index].id == id;
    }
  }

  /** The moves `m` leave thread `t` with a snapshot; its next moves are then the statistics. */
  ghost predicate TakesSnapshotThenStats(s: State, t: nat, m: seq<(nat, Action)>, out: seq<Payload>, report: Stats) {
    && Inv(s) && t < |s.threads|
    && exists done: Phase :: done.SnapDone? && done.out == out && Run(s, m) == To(s, t, done)
         && Run(Run(s, m), [(t, Proceed)] + RecorderClaims.ReadStats(t)) == To(s, t, StatsDone(report))
  }

  /**
   * A flush by a thread that nobody disturbs, while no call is in flight: the
   * snapshot `m`, then the statistics, then the file. That file gives back
   * exactly the calls in the buffer, in claim order, if and only if these keep
   * their contract and are all the calls made while recording was enabled.
   */
  lemma QuietFlushComesBack(s: State, t: nat, h: Header)
    returns (m: seq<(nat, Action)>, out: seq<Payload>, limits: TraceReader.Limits)
    requires Inv(s) && RecorderClaims.Conserved(s) && RecorderClaims.ReentriesCounted(s)
    requires RecorderClaims.Quiescent(s) && !s.aborted && t < |s.threads| && s.threads[t].phase.Idle?
    requires WritableHeader(h) && h.bufferCapacity == s.capacity
    ensures |out| == Min(s.claimed, s.capacity) && FirstClaims(s, EventsOf(out))
    ensures var report := StatsReport(s, s.claimed, s.dropped);
      && TakesSnapshotThenStats(s, t, m, out, report)
      && (ComesBack(h, EventsOf(out), CountersOf(report)) <==>
            RecorderClaims.AllInBuffer(s) && FirstCallsKeep(s, |out|, h))
      && (RecorderClaims.AllInBuffer(s) ==> HoldsEveryCall(s, |out|))
      && (FirstCallsKeep(s, |out|, h) ==>
            GivesBackIf(RecorderClaims.AllInBuffer(s), h, EventsOf(out), CountersOf(report), limits))
  {
    hide Inv, Run, EventOf, WritableHeader, KeepsContract, GivesBackIf, ComesBack;
    hide RecorderClaims.Conserved, RecorderClaims.ReentriesCounted, RecorderClaims.AllInBuffer, HoldsEveryCall;
    hide FirstClaims, FirstCallsKeep, CountersOf;
    var done;
    m, done := RecorderClaims.QuietSnapshot(s, t);
    out := done.out;
    var later := [(t, Proceed)] + RecorderClaims.ReadStats(t);
    var after := To(s, t, done);
    assert Run(s, m) == after;
    RunKeeps(s, m);
    StatsFollow(s, t, done);
    RecorderClaims.CompleteIsTruthful(s, t);
    assert |out| <= h.bufferCapacity;
    limits := RecordedCallsComeBack(after, t, later, t, h);
    SameClaims(s, after, EventsOf(out), h);
    if RecorderClaims.AllInBuffer(s) {
      BufferedCallsAreHeld(s);
    }
  }

  lemma RunKeeps(s: State, m: seq<(nat, Action)>)
    requires Inv(s)
    ensures Inv(Run(s, m))
  {
  }

  lemma SameClaims(s: State, n: State, events: seq<Event>, h: Header)
    requires n.claims == s.claims && n.calls == s.calls
    ensures FirstClaims(s, events) <==> FirstClaims(n, events)
    ensures FirstCallsKeep(s, |events|, h) <==> FirstCallsKeep(n, |events|, h)
  {
    hide EventOf, KeepsContract;
  }

  /** After its snapshot the thread is idle again, and reads the statistics. */
  lemma StatsFollow(s: State, t: nat, done: Phase)
    requires Inv(s) && RecorderClaims.Quiescent(s) && !s.aborted && t < |s.threads| && s.threads[t].phase.Idle?
    requires done.SnapDone? && Inv(To(s, t, done))
    ensures Run(To(s, t, done), [(t, Proceed)] + RecorderClaims.ReadStats(t)) ==
            To(s, t, StatsDone(StatsReport(s, s.claimed, s.dropped)))
  {
    hide Inv, Run, PhaseFits;
    var m := [(t, Proceed)] + RecorderClaims.ReadStats(t);
    assert m[0..] == m && m[1..] == RecorderClaims.ReadStats(t);
    var idle := RecorderClaims.Unroll(To(s, t, done), m, 0);
    assert idle == s by {
      assert s.threads[t := s.threads[t]] == s.threads;
    }
    RecorderClaims.StatsAlone(s, t);
  }
}
