# RuntimeSkeptic in Dafny

RuntimeSkeptic decides whether a program's virtual-memory requirements hold on
a host. This project models the logic behind its answers and proves what its
documentation and comments promise of it:

- **Trace replay.** A recorded trace of memory calls is replayed over a sorted
  list of segments. Replaying refines a plain map from address to cell, the map
  says of each byte what the last event about it said, and reservations stay
  intact until they are released. (`TraceModel`, `Segments`, `Replay`,
  `ReplayHistory`)
- **The recorder and its files.** Threads record events without locks; the
  state machine here takes one shared-memory access at a time and copies
  events word by word. Flushing and reading back is the identity, and an
  accepted file has one shape. (`Recorder`, `RecorderSafety`, `RecorderClaims`,
  `RecorderReads`, `TraceRecords`, `TraceSchema`, `TraceReader`, `TraceErrors`,
  `TraceFiles`, `TraceAgreement`, `RecordingRoundTrip`)
- **Canonical JSON and SHA-256.** The parser accepts exactly the texts of
  syntax trees, parser and writers round-trip, canonical text is the shortest
  and decides equality, and the streaming hash is the function of FIPS 180-4,
  down to its constants and published digests. (`JsonValue`, `JsonText`,
  `JsonWriter`, `JsonGrammar`, `JsonParser`, `JsonSyntax`, `JsonTrees`,
  `JsonRoundTrip`, `JsonClaims`, `JsonLayout`, `Sha256`, `Sha256Stream`,
  `Sha256Constants`, `Sha256Known`, `ValueDiff`, `DiffPaths`)
- **Arena walks.** When the adaptive walk equals a page-by-page walk, when the
  grid walk's loop ends and its ranges claim only what was asked, and why
  neither then depends on the prober's own layout. (`AdaptiveWalk`,
  `AdaptiveWalker`, `GridWalk`, `GridEnds`, `GridOrbits`, `GridClaims`,
  `GridLayout`, `WalkCounts`, `ArenaBounds`, `WindowsRegions`, `Bisection`)
- **Ranges and verdicts.** Range queries are well behaved, unchanged by
  collapsing and exact after a walk; each level of a verdict and each finding
  has its exact condition, and no finding is more confident than its evidence.
  (`Ranges`, `RangeStore`, `WalkQuery`, `Evidence`, `VerdictRules`,
  `VerdictEngine`, `VerdictClaims`, `VerdictLevels`, `VerdictGrounds`)

Code that changes things step by step is a class or a method with loops,
proved against a function of its inputs or of its old state; the lemmas are
about those functions. A byte of text is one `char`. `dafny verify
dfyconfig.toml` checks everything.

Seven promises turn out to need a condition, which is proved, with a concrete
input on which the promise fails without it:

- the grid walk passes over a base that is not a whole number of pages without
  closing the run, so in an arena whose ceiling leaves room for a window below
  2^64 its ranges are justified for every platform whose answers do not wrap the
  loop exactly when the page divides the window or at most one window is asked
  for
  (`GridClaims.ClaimsHoldExactly`; `GridClaims.PassedOverWindowIsClaimed` has a
  window claimed and never asked for);
- the same passing over lets the loop variable wrap. With a window of whole
  pages the loop ends exactly when the additions can reach the far side of the
  ceiling or a page boundary (`GridOrbits.EndsExactly`,
  `GridOrbits.OddBottomNeverEnds`); with any window it ends for every platform
  exactly when it ends for the one that holds all addresses in one region
  (`GridOrbits.OneRegionIsWorst`), and room above the ceiling is not enough
  (`GridOrbits.FarJumpNeverEnds`);
- a jump past the last whole window makes the run reach the ceiling, which a
  walk that places that window does not claim. In an arena of whole pages any
  two platforms that refuse the same windows, and jump over none of them, leave
  the same record exactly when the arena is a whole number of windows or a
  further window would not end below 2^64 (`GridLayout.LayoutIndependentExactly`,
  `GridLayout.TailIsClaimed`); in any other, as long as no jump passes the
  ceiling (`GridClaims.LayoutIndependence`);
- the adaptive walk equals the page-by-page walk exactly when no granted
  placement spans a page that is refused on its own
  (`AdaptiveWalk.AdaptiveEqualsPaged`), as on every platform that grants no
  stretch without granting or holding its pages
  (`AdaptiveWalk.HonestGrantsSuffice`, `AdaptiveWalk.PairIsOverclaimed`);
- `complete` is the truth when the statistics are read while no call is in
  flight (`RecorderClaims.CompleteIsTruthful`, and the concrete interleaving in
  `RecorderClaims.CompleteNeedsQuiescence`);
- not reporting unknowns changes nothing but a required, unknown page size
  (`VerdictClaims.ReportingUnknowns`), the one rule that then says nothing
  where its siblings join UNKNOWN (`VerdictClaims.SilenceChangesTheVerdict`);
- a finding is no stronger than the weakest fact it depends on, for all findings
  but five: the size rules do not name the lowest address, the end of the space
  or the plain reservation, the pointer rule does not name the end of the space,
  the tight-bound rule does not name the range it saw, and the retry rule inherits
  all this. Those hold without weaker facts exactly under stated conditions
  (`VerdictGrounds.WeakerFactsDoNotMatter`, `VerdictGrounds.GuessIsCalledProven`).

## Model

| member | source | states |
|---|---|---|
| Segments.RepresentedMapIsUnique | src/runtime/trace.cpp:220-226 | An ordered segment list stands for at most one map from address to (committed, protection, reservation base), so the map says all the list says |
| Segments.InsertByStart | src/runtime/trace.cpp:236-241 | Placing a segment among sorted, disjoint ones keeps them sorted and has exactly the same members |
| Segments.SortSegments | src/runtime/trace.cpp:236-241 | Sorting a list of pairwise disjoint segments gives an ordered list with the same members |
| Segments.SegmentTable.Overlaps | src/runtime/trace.cpp:243-249 | True exactly when some byte of the range is mapped in the represented map |
| Segments.SegmentTable.Covered | src/runtime/trace.cpp:275-286 | True exactly when every byte of the range is mapped, and committed when that is asked for |
| Segments.SegmentTable.EraseRange | src/runtime/trace.cpp:251-273 | The list stays sorted, non-empty and disjoint, and the represented map loses exactly the bytes of the range; at most one segment more |
| Segments.SegmentTable.SplitAt | src/runtime/trace.cpp:288-300 | Cutting at a point changes no byte of the represented map and leaves no segment across the point |
| Segments.SegmentTable.SetRange | src/runtime/trace.cpp:302-312 | Exactly the mapped bytes of the range take the new commitment and protection; reservation bases and all other bytes are unchanged |
| Segments.SegmentTable.ReleaseWindows | src/runtime/trace.cpp:314-328 | Finds the base exactly when some byte carries it, and then removes exactly the bytes that carry it |
| Segments.SegmentTable.Push | src/runtime/trace.cpp:529-531 | Adding a segment over unmapped bytes and sorting maps exactly those bytes |
| Segments.SegmentTable.Replace | src/runtime/trace.cpp:522-531 | Erasing then mapping a range is mapping the range over whatever was there |
| Segments.RemaindersErase | src/runtime/trace.cpp:251-273 | What is left of every segment after taking a range out represents the map without that range |
| Segments.SplitKeepsMeaning | src/runtime/trace.cpp:288-300 | The list with one segment cut in two represents the same map |
| Segments.RepaintRestates | src/runtime/trace.cpp:302-312 | Once both ends are cut, repainting the segments inside the range restates exactly the bytes of the range |
| Segments.BaseInUseOfSegments | src/runtime/trace.cpp:314-320 | A base is carried by some segment exactly when it is carried by some byte |
| Replay.Replayer.ApplyMmap | src/runtime/trace.cpp:517-532 | A successful mmap is refused exactly when the byte-level rule refuses it, and otherwise maps exactly its effective range |
| Replay.Replayer.ApplyReserve | src/runtime/trace.cpp:552-565 | A successful reserve needs an unmapped, non-wrapping range, and gives it its own base |
| Replay.Replayer.ApplyCovered | src/runtime/trace.cpp:533-583 | Protect, commit, decommit and reset need mapped or committed bytes, and restate exactly those |
| Replay.Replayer.Apply | src/runtime/trace.cpp:514-604 | One successful event does to the segment list what the byte-level step does to the map, with the same rejection |
| Replay.Replayer.Consume | src/runtime/trace.cpp:485-512 | One event is admitted exactly when its number, its contract and its recorded violation are right; the segment list grows by at most two |
| Replay.Replayer.Replay | src/runtime/trace.cpp:480-612 | The whole replay accepts and rejects exactly as the byte-level run does, with the same violations, over an always sorted, disjoint list of at most two segments an event |
| Replay.RejectionIsFinal | src/runtime/trace.cpp:485-612 | Once a run has rejected, no later event changes the verdict |
| Replay.StepKeepsTiling | src/runtime/trace.cpp:552-590 | Every accepted Windows step keeps the bytes carrying a base equal to the interval reserved there |
| Replay.ReservationsStayTiled | src/runtime/trace.cpp:552-590 | At every point of every accepted Windows trace, the bytes of each live reservation are exactly its reserved interval |
| Replay.SegmentsTileReservations | src/runtime/trace.cpp:288-328 | Read off the list: segments carrying a base lie in its interval and cover all of it |
| Replay.LiveReservationsAreDisjoint | src/runtime/trace.cpp:552-565 | Two live reservations share no byte and no base |
| Replay.ReleaseFreesItsReservation | src/runtime/trace.cpp:585-590 | A release is accepted exactly at the base of a live reservation and frees exactly its interval, whatever split it |
| Replay.PosixCellsAreCommitted | src/runtime/trace.cpp:517-550 | A POSIX trace never holds anything but committed memory outside reservations |
| ReplayHistory.BytesTellTheirHistory | src/runtime/trace.cpp:480-604 | At every point of every accepted trace a byte is live, committed and protected as the last successful event that decides it says: an mmap, commit, protect or committing reserve over it, and no unmap, decommit or release since; on Windows it carries the base of the last reserve over it |
| ReplayHistory.BasesAreLive | src/runtime/trace.cpp:552-590 | A base is on some byte exactly when a reservation made there has not been released since |
| ReplayHistory.StepAccepts | src/runtime/trace.cpp:485-604 | After an accepted trace an event is accepted exactly when it is in order and, if it succeeded, what it needs of its bytes is what the earlier events left: committed for protect, decommit and reset, live and uncommitted bytes allowed for commit, no live byte for reserve, a live base for release |
| ReplayHistory.ReplaysExactly | src/runtime/trace.cpp:480-612 | A trace is reproduced exactly when each of its events passes that test after the events before it |
| ReplayHistory.RefusedAs | src/runtime/trace.cpp:480-612 | A refused trace is refused at its first unacceptable event, under the name of the first test that the event fails |
| ReplayHistory.DecommittedStays | src/runtime/trace.cpp:575-583 | A decommitted byte stays uncommitted until a later event commits it |
| ReplayHistory.DecommittedIsRefused | src/runtime/trace.cpp:533-583 | Until then every protect, decommit or reset over the byte is refused |
| ReplayHistory.ViolationsAreRecorded | src/runtime/trace.cpp:485-512 | The violations of a reproduced trace are, in order, those its events record, and they follow from the recorded calls |
| ReplayHistory.ReplayTrace | src/runtime/trace.cpp:480-612 | The replay of any trace answers as the history of its events decides |
| TraceModel.FlagsAreListed | src/runtime/trace.cpp:135-175 | The flag check passes exactly for the flag words listed for the operation |
| TraceModel.ContractSpelledOut | src/runtime/trace.cpp:177-218 | An event keeps its contract exactly when every one of the listed conditions holds, whichever is checked first |
| TraceModel.FirstBreachIsNamed | src/runtime/trace.cpp:135-218 | The contract error reported is that of the first clause, in a fixed order, that the event breaks |
| RecorderSafety.InitialInv | src/runtime/runtime.cpp:28-38 | The invariant of the recorder holds before any call |
| RecorderSafety.StepKeeps | src/runtime/runtime.cpp:205-240 | Every atomic step of every thread keeps the invariant: recording, re-entrant calls, enabling, snapshots and statistics |
| RecorderSafety.Run | src/runtime/runtime.cpp:205-346 | In every interleaving of any number of threads the invariant holds at the end |
| RecorderClaims.IndicesAreDistinct | src/runtime/runtime.cpp:213-214 | No two threads ever work on one index, and no two indices belong to one call |
| RecorderClaims.StepGrows | src/runtime/runtime.cpp:205-240 | A step changes no thread but its own, and a slot only when its thread claimed it and has not published it |
| RecorderClaims.PublishedSlotsAreFinal | src/runtime/runtime.cpp:224-226 | A published slot is never written again in any continuation of any run |
| RecorderClaims.PublishedSlotsAreWhole | src/runtime/runtime.cpp:221-226 | A published slot i holds the whole event of the call that claimed it, under sequence i + 1 |
| RecorderClaims.CallbacksSeeWholeEvents | src/runtime/runtime.cpp:228-233 | The report callback is shown a whole, published event |
| RecorderClaims.SnapshotIsExact | src/runtime/runtime.cpp:324-346 | A snapshot that succeeds into a buffer holds exactly sequences 1 to count, none of them torn |
| RecorderClaims.StartsConserved | src/runtime/runtime.cpp:28-38 | The accounts balance before any call |
| RecorderClaims.StartsWithNoReentry | src/runtime/runtime.cpp:28-38 | No re-entrant call is counted before any call |
| RecorderClaims.IndicesAreConserved | src/runtime/runtime.cpp:205-240 | In every interleaving, indices handed out = published + dropped + in flight |
| RecorderClaims.ReentriesAreCounted | src/runtime/runtime.cpp:205-212 | In every interleaving, the re-entrant counter is the number of calls made while their thread was recording another |
| RecorderClaims.CountersAreTruthful | src/runtime/runtime.cpp:301-322 | With both counters at zero the buffer holds every enabled call exactly when no call is in flight |
| RecorderClaims.LossesAreCounted | src/runtime/runtime.cpp:205-240 | When every enabled call is in the buffer both counters are zero |
| RecorderClaims.CompleteIsTruthful | src/runtime/runtime.cpp:301-322 | Statistics read while no call is in flight report `complete` exactly when the buffer holds every call made while recording was enabled |
| RecorderClaims.CompleteNeedsQuiescence | src/runtime/runtime.cpp:301-322 | A concrete interleaving in which the statistics report a complete recording while an enabled call is being dropped |
| RecorderClaims.QuiescentSlotsArePublished | src/runtime/runtime.cpp:338-343 | With no call in flight no slot below the count is unpublished, so a snapshot meets no busy slot |
| RecorderClaims.SnapshotAlone | src/runtime/runtime.cpp:324-346 | A snapshot left to itself over published slots ends in success with every event |
| RecorderClaims.QuietSnapshot | src/runtime/runtime.cpp:324-346 | A snapshot by a thread nobody disturbs, with no call in flight, succeeds with min(claimed, capacity) events |
| RecorderReads.SnapshotOutcome | src/runtime/runtime.cpp:324-346 | Under any interleaving a snapshot reports the number of events handed out when it started, as far as the capacity goes; it is refused exactly when its buffer has less room than that, or is missing with a size; it succeeds with exactly that many events, and is busy only at a slot not yet published |
| RecorderReads.StatsOutcome | src/runtime/runtime.cpp:301-322 | Under any interleaving statistics report the events and the next sequence number of the moment they started, with losses counted between then and their end |
| RecorderReads.StopsExactly | src/runtime/runtime.cpp:235-239 | The process is stopped exactly by the end of a call in assert mode whose own event is a violation |
| RecorderReads.CallbackExactly | src/runtime/runtime.cpp:228-233 | A published call is shown to the callback exactly in report mode with a callback set |
| JsonValue.LessIsStrict | include/runtimeskeptic/core/json.hpp:15-16 | The byte order of object keys is a strict total order |
| JsonValue.LessIsTransitive | include/runtimeskeptic/core/json.hpp:15-16 | The byte order of object keys is transitive |
| JsonValue.EqIsSameNorm | src/core/json.cpp:609-632 | Two values are equal exactly when their unsigned-normalized forms are identical |
| JsonValue.EqIsEquivalence | src/core/json.cpp:609-632 | On values without doubles, equality is reflexive, symmetric and transitive, across signed and unsigned integers |
| JsonText.NumeralRoundTrip | src/core/json.cpp:409-424 | Printed digits read back as the number, in base ten and sixteen, without leading zeros |
| JsonText.EncodedIsWellFormed | src/core/json.cpp:48-65 | The bytes written for a code point decode to that code point, in the right length and without overlong forms |
| JsonSyntax.EscapedPointReads | src/core/json.cpp:311-334 | Four hexadecimal digits of either case outside the surrogates, or a high and a low unit, are read as the code point that UTF-16 spells so |
| JsonSyntax.SurrogatesInvert | src/core/json.cpp:319-327 | Splitting a code point into its two units and putting them together are inverse, both ways |
| JsonSyntax.PairInString | src/core/json.cpp:311-334 | A quoted pair of escapes for a code point above the first plane is a string that decodes to that code point |
| JsonSyntax.StringsExactly | src/core/json.cpp:277-340 | A string is read, with these bytes and this rest, exactly when the text is a sequence of legal pieces with that meaning, every escape included |
| JsonSyntax.NumbersExactly | src/core/json.cpp:342-403 | A number is read, with this value and this rest, exactly when the text is a token of that value that ends there |
| JsonTrees.InsertAllIsSorted | src/core/json.cpp:176-217 | The members of a read object are in strict key order and exactly those of its fields |
| JsonTrees.ParsesExactly | src/core/json.cpp:70-251 | A text parses to a value exactly when it is the text of a well-formed syntax tree, between blanks, that denotes the value |
| JsonSyntax.HexDigitsExactly | src/core/json.cpp:253-275 | A digit is worth what its place among the digits of either case says, and is written in lower case |
| JsonLayout.CanonicalIsShortest | include/runtimeskeptic/core/json.hpp:15-22 | No text that parses to a value is shorter than the canonical text of that value: no blanks, shortest escapes |
| JsonLayout.PrettyIsBlocks | src/core/json.cpp:457-513 | The pretty text is the block of the value and a line break, where the block of a container is its brackets around its parts, one a line, indented as a whole |
| JsonText.FromHex | src/core/json.cpp:670-691 | The loop accepts exactly the prefixed hexadecimal strings whose value fits 64 bits, separators ignored, and returns that value |
| JsonText.HexTextsExactly | src/core/json.cpp:670-691 | An accepted address text is a prefix in either case and then digits of either case, with separators anywhere; the number is that of the digits |
| JsonText.HexRoundTrip | src/core/json.cpp:663-691 | Reading a written address gives the address, for every 64-bit value |
| JsonWriter.AppendEscaped | src/core/json.cpp:21-46 | Appends the quoted, shortest-escape form |
| JsonWriter.WriteCanonical | src/core/json.cpp:406-455 | Fails exactly when a double occurs; otherwise appends the canonical text |
| JsonWriter.WritePretty | src/core/json.cpp:457-513 | Appends the indented text, which differs from the canonical text in blanks only |
| JsonWriter.CompactAtAnyDepth | src/core/json.cpp:406-455 | Canonical text does not depend on where a value stands |
| JsonWriter.PrettyItemsAreItems | src/core/json.cpp:476-490 | Writing the line break after each item or before each item gives the same bytes |
| JsonParser.Parser.ParseString | src/core/json.cpp:277-340 | The parser reads a string, its escapes and surrogate pairs exactly as the grammar function says, with the same first error |
| JsonParser.Parser.ParseNumber | src/core/json.cpp:342-403 | The parser reads a number exactly as the grammar function says, ranges included |
| JsonParser.Parser.ParseObject | src/core/json.cpp:176-217 | The member loop reads an object exactly as the grammar function says, duplicate keys included |
| JsonParser.Parser.ParseArray | src/core/json.cpp:219-251 | The item loop reads an array exactly as the grammar function says |
| JsonParser.Parser.ParseValue | src/core/json.cpp:142-174 | A value is read exactly as the grammar function says, depth limit included |
| JsonParser.Parser.Run | src/core/json.cpp:70-83 | The whole text is parsed exactly as the grammar function says, trailing content refused |
| JsonRoundTrip.StringRoundTrip | src/core/json.cpp:277-340 | Every byte string survives quoting and parsing |
| JsonRoundTrip.IntegerRoundTrip | src/core/json.cpp:342-403 | Every signed and unsigned 64-bit integer survives printing and parsing |
| JsonRoundTrip.ValueRoundTrip | src/core/json.cpp:142-251 | Parsing a written value in either layout, whatever follows it, gives the value and what follows, or the depth error exactly when it is too deep |
| JsonClaims.TextRoundTrip | src/core/json.cpp:648-661 | Canonical and pretty text of a double-free value parse exactly when nothing is more than 128 containers deep, to a value equal to the one written |
| JsonClaims.CanonicalBytesDecideEquality | src/core/json.cpp:609-653 | Two double-free values have the same canonical bytes exactly when they are equal, at any depth |
| JsonClaims.ParsedIsSound | src/core/json.cpp:142-251 | Whatever is accepted has its keys in strict order and is at most 128 containers deep |
| JsonClaims.RewritingIsStable | include/runtimeskeptic/core/json.hpp:156-158 | Reading, rewriting in either layout and reading again changes neither the value nor its canonical bytes |
| Sha256.BigEndianRoundTrip | src/core/sha256.cpp:110-114 | The length field read back is the number written |
| Sha256.ZeroCountIsSmallest | src/core/sha256.cpp:107-109 | No smaller number of zero bytes would leave room for the length (section 5.1.1 of FIPS 180-4) |
| Sha256.PaddingEndsInLength | src/core/sha256.cpp:104-121 | A padded message of less than 2^61 bytes starts with the message and ends in its bit length |
| Sha256Constants.NextPrimeIsNext | src/core/sha256.cpp:9-21 | The search gives the next prime, up to 311 |
| Sha256Constants.RoundConstantsAreRoots | src/core/sha256.cpp:9-21 | Constant t is the first 32 bits of the fraction of the cube root of the t-th prime (section 4.2.2) |
| Sha256Constants.InitialHashIsRoots | src/core/sha256.cpp:29-38 | The initial hash is those of the square roots of the first eight primes (section 5.3.3) |
| Sha256Constants.RotrRotates | src/core/sha256.cpp:23-25 | For every count that is used, the shifts and the or are the rotation of the word |
| Sha256Constants.ChChooses | src/core/sha256.cpp:61 | On any bits where the first word is all ones the choice is the second word, where it is all zeros the third |
| Sha256Constants.MajIsMajority | src/core/sha256.cpp:64 | On any bits where the first two words agree the majority is what they have there |
| Sha256Constants.MajIgnoresOrder | src/core/sha256.cpp:64 | The majority does not depend on the order of the words |
| Sha256Known.DigestOfAbc | src/core/sha256.cpp:40-133 | The digest of "abc" is the published one |
| Sha256Known.DigestOfTwoBlocks | src/core/sha256.cpp:40-133 | The digest of the two-block example is the published one |
| Sha256Stream.Hasher.Transform | src/core/sha256.cpp:40-85 | The block loops compute the compression of section 6.2.2 of FIPS 180-4 |
| Sha256Stream.Hasher.ExpandMessage | src/core/sha256.cpp:41-54 | The schedule loop computes the message schedule |
| Sha256Stream.FillsBlock | src/core/sha256.cpp:91-101 | Filling the buffer and compressing it is hashing one block more of the message |
| Sha256Stream.Hasher.Update | src/core/sha256.cpp:87-102 | Whatever is appended, whole blocks are in the state, the rest in the buffer, and the length is counted modulo 2^64; after the digest nothing changes |
| Sha256Stream.Hasher.AppendMarker | src/core/sha256.cpp:107-109 | The padding loop ends, having appended the marker and the fewest zeros |
| Sha256Stream.Hasher.Finalize | src/core/sha256.cpp:104-121 | The state becomes the hash of the padded message |
| Sha256Stream.Hasher.Digest | src/core/sha256.cpp:104-133 | The digest is that of all bytes given before it, however often it is asked for |
| Sha256Stream.Hasher.HexDigest | src/core/sha256.cpp:135-145 | The hexadecimal digest is the lower-case form of the digest |
| Sha256Stream.HexOfSpells | src/core/sha256.cpp:135-145 | The two digits at each place of the hexadecimal form say the value of that byte |
| Sha256Stream.DigestOfPieces | src/core/sha256.cpp:87-133 | For any division into updates the digest is that of the joined message, and further updates and digests change nothing |
| TraceRecords.EventRoundTrip | src/runtime/trace.cpp:73-105 | An event comes back from a schema-valid document as it was exactly when all its fields can be encoded |
| TraceRecords.OperationNameRoundTrip | src/runtime/trace.cpp:17-34 | Operation names read back as their numbers; unknown operations as zero |
| TraceRecords.SmallNamesRoundTrip | src/runtime/trace.cpp:36-55 | Platform, error-domain and violation names read back exactly for the numbers they are written for |
| TraceRecords.EventKeysAscend | src/runtime/runtime.cpp:129-154 | The keys of an event record are in canonical order |
| TraceRecords.HeaderRoundTrip | src/runtime/runtime.cpp:108-127 | A header comes back as it was, and is accepted exactly when a configured recorder could have written it |
| TraceRecords.FooterRoundTrip | src/runtime/runtime.cpp:156-169 | A footer comes back as it was, and is schema-valid exactly when its digest is one |
| TraceRecords.RecordTypes | schemas/runtime-trace-record.v1.json:6-70 | A schema-valid record of each kind carries that kind in its type field |
| TraceSchema.AddressesExactly | schemas/runtime-trace-record.v1.json:70 | The address pattern describes exactly the hexadecimal texts of numbers |
| TraceSchema.AddressesRead | src/runtime/trace.cpp:57-72 | An address that matches the pattern is read exactly when it is the text of a 64-bit address |
| TraceSchema.ValidEventsAreWritten | schemas/runtime-trace-record.v1.json:26-52 | A schema-valid event document that is read is the document of the event read from it exactly when its error code and offset fit 64 bits with a sign |
| TraceSchema.ValidHeadersAreWritten | schemas/runtime-trace-record.v1.json:8-25 | A schema-valid header document is that of its header, which a configured recorder could have written exactly when its interfaces are the whole set of its platform |
| TraceSchema.ValidFootersAreWritten | schemas/runtime-trace-record.v1.json:53-66 | A schema-valid footer document is that of its footer |
| TraceSchema.AddressesByName | src/runtime/runtime.cpp:129-154 | Each address, each size, the sequence number and the exactness stand under their own names |
| TraceSchema.NumbersByName | src/runtime/runtime.cpp:129-154 | So do the error code, the offset, the flag words and the protections |
| TraceSchema.MarksByName | src/runtime/runtime.cpp:129-154 | So do the record type and the schema name |
| TraceSchema.NamesByName | schemas/runtime-trace-record.v1.json:34-51 | Each enumeration of an encodable event is written as the name the schema lists at its number |
| TraceSchema.HeadersByName | src/runtime/runtime.cpp:108-127 | Each field of a header stands under its own name |
| TraceSchema.FootersByName | src/runtime/runtime.cpp:156-169 | Each field of a footer stands under its own name |
| TraceReader.ReadDocument | src/runtime/trace.cpp:377-397 | A line is taken exactly when it is a non-oversized, schema-valid, canonical object |
| TraceReader.FindNewline | src/runtime/trace.cpp:371-373 | Finds the end of the line that starts at the offset |
| TraceReader.TakeOne | src/runtime/trace.cpp:398-456 | One line moves the reader as the line function says, and the hash absorbs header and event lines only |
| TraceReader.ReadLines | src/runtime/trace.cpp:371-458 | The loop reads all lines as the file function says, the hash covering exactly the covered text |
| TraceReader.ReadFile | src/runtime/trace.cpp:332-478 | The reader returns the trace or the first error of the file function |
| TraceErrors.LinesAreRefusedFor | src/runtime/trace.cpp:366-456 | A line is refused exactly when it breaks something, and the error is about the first thing it breaks |
| TraceErrors.EndsAreRefusedFor | src/runtime/trace.cpp:458-476 | So is the end of a file all of whose lines were taken |
| TraceErrors.FilesAreRefusedFor | src/runtime/trace.cpp:330-478 | A file is refused for its size or its missing last line break, or else for the first line refused after those before it were taken, or else for its end |
| TraceFiles.CanonicalIsOneLine | src/core/json.cpp:406-455 | Canonical text contains no line break |
| TraceFiles.FlatLine | src/runtime/trace.cpp:383-397 | The canonical line of a schema-valid record reads back as that record |
| TraceFiles.WriteBody | src/runtime/runtime.cpp:361-382 | Header and event lines are written in order while the hash absorbs exactly what is written |
| TraceFiles.Flush | src/runtime/runtime.cpp:348-397 | The file is the header, the events and a footer whose digest is that of every earlier line |
| TraceAgreement.TakesEvent | src/runtime/trace.cpp:417-437 | The reader takes the line written for a recordable event and appends that event |
| TraceAgreement.FlushIsAccepted | src/runtime/trace.cpp:332-478 | The file of contract-keeping events within the limits comes back as it was when its counters admit no loss, and is refused as incomplete otherwise |
| TraceAgreement.LinesAreDetermined | src/runtime/trace.cpp:357-400 | A file of one-line records stands for exactly one list of lines |
| TraceAgreement.OnlyRecordableComesBack | src/runtime/trace.cpp:415-478 | Whatever the limits, a file that is read back as it was written admits no loss and holds only encodable events that keep their contract, within the capacity |
| TraceAgreement.AcceptedShape | src/runtime/trace.cpp:362-477 | Any accepted file is one header, events numbered from one and no more than the capacity, and a final complete footer whose digest covers every earlier line |
| RecordingRoundTrip.StampNumbersTheEvent | src/runtime/runtime.cpp:218-221 | Filling in version, size and sequence number changes no other field of the event |
| RecordingRoundTrip.LimitsExist | src/runtime/trace.cpp:332-338 | For any recording of contract-keeping events and any counters some read limits admit its file |
| RecordingRoundTrip.ComesBackExactly | src/runtime/trace.cpp:332-478 | Some read limits give back a written recording, as it was, exactly when its counters admit no loss and every event can be encoded, is in sequence and keeps its contract |
| RecordingRoundTrip.RecordedCallsComeBack | src/runtime/runtime.cpp:324-397 | In any interleaving, the file written from a successful snapshot and statistics read in any later state gives back exactly the calls held, in claim order and numbered from one, if and only if the statistics say `complete` and these calls keep their contract; kept but incomplete, it is refused as incomplete |
| RecordingRoundTrip.QuietFlushComesBack | src/runtime/runtime.cpp:348-397 | A flush with no call in flight writes a file that gives back the buffered calls if and only if they are all the enabled calls and keep their contract; kept but with a call lost, it is refused as incomplete |
| AdaptiveWalk.AppendInTwoSteps | src/probe/arena_walk.cpp:239-253 | Appending two touching stretches under one note is appending their union |
| AdaptiveWalk.RefusedNoteQuotes | src/probe/arena_walk.cpp:285-303 | The note of a refused page ends in the platform's own words, or says that it gave none |
| AdaptiveWalk.FullCost | src/probe/arena_walk.cpp:255-304 | Subdividing a tile of n pages costs twice its leaves less one attempt, at most 2n - 1 |
| AdaptiveWalk.TilesCost | src/probe/arena_walk.cpp:306-313 | All attempts are twice the leaves less the number of top-level tiles, at most two a page |
| AdaptiveWalk.FullIsPaged | src/probe/arena_walk.cpp:255-304 | Subdividing a tile none of whose granted placements spans a refused page records what its pages one by one record |
| AdaptiveWalk.PagedDescribes | src/probe/arena_walk.cpp:239-304 | The page-by-page lists hold every address of the arena in exactly one list, under its own page's note, in maximal runs |
| AdaptiveWalk.CleanWalkDescribes | src/probe/arena_walk.cpp:239-313 | So do the lists of an adaptive walk with clean grants |
| AdaptiveWalk.AdaptiveEqualsPaged | src/probe/arena_walk.cpp:215-320 | The adaptive walk records what the page-by-page walk records exactly when no granted placement spans a refused page |
| AdaptiveWalk.HonestGrantsSuffice | src/probe/arena_walk.cpp:215-320 | Where no granted stretch spans a page refused on its own, the two walks agree for every tile size |
| AdaptiveWalk.PairIsOverclaimed | src/probe/arena_walk.cpp:239-313 | Two pages granted as a pair, the second refused on its own: the adaptive walk records both as available, the page-by-page walk only the first |
| AdaptiveWalk.PairOnlyExists | src/probe/arena_walk.cpp:255-304 | Some platform callbacks answer that way |
| AdaptiveWalk.LayoutIndependence | src/probe/arena_walk.cpp:255-303 | Two walks of one arena that agree on the refused pages record the same ranges, however their other answers and their tile sizes differ |
| AdaptiveWalker.Walker.Visit | src/probe/arena_walk.cpp:256-304 | With enough budget a tile is the full subdivision; otherwise the budget is spent to the last attempt and marked exhausted |
| AdaptiveWalker.Walker.VisitTiles | src/probe/arena_walk.cpp:306-313 | The same for the tile loop over the arena |
| AdaptiveWalker.WalkArenaAdaptive | src/probe/arena_walk.cpp:215-322 | Refused arguments give an empty result; otherwise exhaustion is reported exactly when the full subdivision needs more than the budget, exhausted walks return no range, and others the full subdivision |
| WalkCounts.AdaptiveCountersCount | src/probe/arena_walk.cpp:255-313 | The counters of an unexhausted walk: pages held by the probe, held without access, and refused are the pages that the subdivision tries alone and that answer so; placed is what is left of the leaves |
| GridWalk.GridWalker.CloseRun | src/probe/arena_walk.cpp:87-105 | Closing the run records it up to its end and never past the ceiling |
| GridWalk.JumpLands | src/probe/arena_walk.cpp:155-175 | The wrapping additions of a jump reach the intended window: neither wraps |
| GridWalk.GridWalker.HoldEntry | src/probe/arena_walk.cpp:140-178 | A covered refusal extends the run and resumes after the rest of the described region |
| GridWalk.GridWalker.Turn | src/probe/arena_walk.cpp:109-210 | One turn on a page boundary, in 64-bit arithmetic, is one turn in exact arithmetic |
| GridWalk.WalkArena | src/probe/arena_walk.cpp:76-213 | For every input on which the loop ends, passed-over bases and wrapping included, the walk reports the state of the loop; degenerate arguments give an empty result |
| GridWalk.DegenerateTakesNoTurn | src/probe/arena_walk.cpp:76-108 | Where nothing wraps, the arguments refused up front are exactly those on which the loop would take no turn |
| GridWalk.FinishIgnoresBound | src/probe/arena_walk.cpp:107-212 | The reported state does not depend on the bound put on the number of turns |
| WalkCounts.GridCountersCount | src/probe/arena_walk.cpp:107-212 | The counters of a walk in windows are its turns by their answer, and the windows that its jumps pass over |
| GridEnds.UnwrappedEnds | src/probe/arena_walk.cpp:107-110 | A loop whose variable never wraps ends |
| GridEnds.AlignedNeverWraps | src/probe/arena_walk.cpp:107-112 | With bottom and window whole pages every base lies on a page boundary and nothing wraps |
| GridEnds.RoomAboveNeverWraps | src/probe/arena_walk.cpp:107-177 | With any page and window nothing wraps when the ceiling and the ends of the described regions leave room for a window below 2^64 |
| GridEnds.EndsUnlessItRepeats | src/probe/arena_walk.cpp:107-110 | The loop ends exactly when it never stands at one base twice |
| GridOrbits.EndsExactly | src/probe/arena_walk.cpp:107-110 | With a window of whole pages the loop ends, whatever the platform answers, exactly when bottom plus a multiple of the largest power of two in the window is past the ceiling or on a page boundary |
| GridOrbits.OddBottomNeverEnds | src/probe/arena_walk.cpp:107-109 | A concrete input off the pages on which the loop never ends |
| GridOrbits.OneRegionIsWorst | src/probe/arena_walk.cpp:107-177 | For any page and window the loop ends for every platform exactly when it ends for the one that refuses everything and holds all addresses in one region |
| GridOrbits.FarJumpNeverEnds | src/probe/arena_walk.cpp:155-177 | A concrete input with room above the ceiling on which a jump sends the loop round for ever |
| GridClaims.WalkNeverOverclaims | src/probe/arena_walk.cpp:83-212 | When nothing wraps and no base is passed over between two asked windows: available ranges increase with gaps, stay inside the arena and are justified byte by byte by windows that were asked for; unavailable ones are single asked and refused windows; none meet |
| GridClaims.AllPlacedIsSoundExactly | src/probe/arena_walk.cpp:107-130 | With every window placed the recorded ranges are so justified exactly when no base is passed over between two asked windows |
| GridClaims.ClaimsHoldExactly | src/probe/arena_walk.cpp:107-130 | With a window of room above the ceiling, the recorded ranges are justified for every platform whose answers do not wrap the loop exactly when the page divides the window or at most one window is asked for |
| GridClaims.PassedOverWindowIsClaimed | src/probe/arena_walk.cpp:107-130 | Two-byte pages, windows of three: the walk records [0, 9) as available although the window at 3 was never asked for |
| GridClaims.JumpedBytesAreDescribed | src/probe/arena_walk.cpp:155-175 | A claimed byte past its answered window lies inside the region described there |
| GridClaims.WalkIsWindows | src/probe/arena_walk.cpp:107-212 | On whole pages, when no jump passes the ceiling (or there are only whole windows) and no refused window lies in the stretch a covered refusal jumps over, the jumping, run-merging loop records what the window-by-window walk records |
| GridClaims.LayoutIndependence | src/probe/arena_walk.cpp:78-213 | Two such walks that meet the same structural refusals record the same ranges, whatever else they answer and jump over |
| GridLayout.LayoutIndependentExactly | src/probe/arena_walk.cpp:131-173 | For an arena of whole pages, any two platforms that refuse the same windows and jump over none of them leave the same record exactly when the window divides the arena or the last whole window ends less than a window below 2^64 |
| GridLayout.TailIsClaimed | src/probe/arena_walk.cpp:155-173 | Windows of four in an arena of ten: [0, 8) with both placed, [0, 10) with the second held under a region that ends at 20, no refusal in either run |
| ArenaBounds.CeilingHoldsTheWindow | src/probe/arena_walk.cpp:15-30 | The rounded ceiling never cuts into the window, overshoots by less than a bucket and stays a 64-bit address |
| ArenaBounds.FloorIsTopBucket | src/probe/arena_walk.cpp:32-40 | A non-zero floor is a bucket boundary below the top by at most one bucket, and is non-zero exactly when two spans fit |
| ArenaBounds.EmptySpaceHasNoFloor | src/probe/arena_walk.cpp:32-40 | For an empty space the floor is zero except for the one span at which both steps wrap |
| RangeStore.QueryRange | src/vm/profile.cpp:655-716 | The scan with early returns computes the first justified answer |
| RangeStore.VerdictIsJustified | src/vm/profile.cpp:655-716 | The answer has the level the recorded facts give it, and rests on the first that justifies it: the bound that is crossed, the first recorded range that conflicts or that holds it, or nothing |
| RangeStore.LevelsFollowContainment | src/vm/profile.cpp:655-716 | SUPPORTED passes to every subrange and UNSUPPORTED to every superrange |
| RangeStore.SortRanges | src/vm/address_range.cpp:11-18 | Sorting puts wider ranges first at equal starts and keeps every range as often as it was given |
| RangeStore.CollapseContainedRanges | src/vm/address_range.cpp:10-31 | The kept ranges are a containment antichain drawn from the input, in order, that subsumes it |
| RangeStore.CollapseChangesNoAnswer | src/vm/profile.cpp:655-716 | Replacing either list by its collapse changes the level of no query |
| RangeStore.CollapseKeepsUnion | src/vm/address_range.cpp:10-31 | A collapse covers exactly the same addresses |
| RangeStore.CollapseIsDetermined | src/vm/address_range.cpp:10-31 | Two collapses of lists that subsume each other hold the same ranges |
| RangeStore.CollapseIsIdempotent | src/vm/address_range.cpp:10-31 | Collapsing a collapse keeps exactly the same ranges in the same order |
| WalkQuery.WalkThenQueryIsExact | src/vm/profile.cpp:655-716 | With a walk's lists and compatible bounds, a range inside the arena is UNSUPPORTED exactly when it touches a refused page, SUPPORTED exactly when it touches none, never UNKNOWN |
| WalkQuery.AdaptiveWalkThenQuery | src/probe/arena_walk.cpp:239-312 | The same for the lists an unexhausted adaptive walk with clean grants leaves |
| WindowsRegions.FollowRun | src/probe/windows_regions.cpp:46-55 | On a tiled map the inner loop ends at the end of the run of non-free regions, at most its cap ahead |
| WindowsRegions.ClassifyWindow | src/probe/windows_regions.cpp:23-78 | Whatever the query answers, a covering entry starts with a non-free region it reported at an address of the window and reaches past that address; on a tiled map it is the first non-free region within the cap and runs to the end of its run; zero-width and wrapping windows describe nothing |
| WindowsRegions.ClassificationIsExact | src/probe/windows_regions.cpp:37-78 | Below the cap, covered holds exactly when a non-free region meets the window, and the extent is that region and every non-free one after it without a gap |
| Bisection.FindMaxUserAddress | src/probe/vm_probe_linux.cpp:249-282 | For any predicate and page size the result is zero when no power of two maps or the next one does, and else one page past an edge, less than two pages wide, between the highest such power and its double; when the page divides 2^20 it is itself the first page that does not map |
| Bisection.ResultIsExactEnd | src/probe/vm_probe_linux.cpp:249-282 | For a downward-closed predicate the result is the exact end, and zero exactly when the first megabyte does not map or bit 63 does |
| Bisection.HighestPowerIsHighest | src/probe/vm_probe_linux.cpp:257-261 | The remembered power of two is the highest that maps |
| ValueDiff.DiffValues | src/server/mcp_server.cpp:491-535 | The comparison appends exactly the entries of the recursive definition, and ends |
| ValueDiff.MergeMembers | src/server/mcp_server.cpp:493-511 | The two-iterator merge computes the recursive merge, and ends |
| ValueDiff.CompareItems | src/server/mcp_server.cpp:513-525 | The three index loops compute the recursive comparison |
| ValueDiff.EmptyDiffIsEquality | src/server/mcp_server.cpp:491-535 | There is no entry exactly when the two values are equal |
| ValueDiff.SwapMirrors | src/server/mcp_server.cpp:491-535 | Swapping the documents keeps number and order of entries and swaps the sides of each |
| DiffPaths.DiffListsDifferences | src/server/mcp_server.cpp:491-535 | The entries are, one for one and in ascending order of their ways, all the places where two documents differ; each has the path of its way and shows the two texts found at its end |
| Evidence.CombineIsJoin | src/core/evidence.cpp:128-132 | Combining support levels is associative, commutative and idempotent, with SUPPORTED as unit |
| Evidence.WeakestClass | src/core/evidence.cpp:152-157 | The loop computes the weakest class of a chain, unknown for an empty one |
| Evidence.WeakestIsExtreme | src/core/evidence.cpp:152-157 | The weakest class is one of the chain's own and no step is weaker |
| Evidence.ClampNeverOverclaims | src/core/evidence.cpp:105-126 | A clamped confidence is the strongest that exceeds neither what was asked for nor the ceiling of any step |
| Evidence.CeilingIsMonotone | src/core/evidence.cpp:105-121 | Weaker evidence never raises the ceiling |
| Evidence.CeilingExactly | src/core/evidence.cpp:105-121 | Which confidence each class of evidence allows at most |
| Evidence.OrdersAreStrict | include/runtimeskeptic/core/evidence.hpp:31-74 | Evidence classes, confidences and support levels stand in the declared orders, without ties |
| VerdictRules.RoundUpIsLeast | src/vm/address_range.cpp:149-168 | A rounded size is the least multiple of the granularity that holds the request |
| VerdictEngine.Analysis.Emit | src/vm/analyzer.cpp:100-115 | A finding joins its impact and is recorded with its confidence clamped to its weakest evidence |
| VerdictEngine.Analysis.ProvenUnsupportedEvidence | src/vm/analyzer.cpp:155-166 | The loop computes the weakest class behind any finding that proved impossibility, unknown when there is none |
| VerdictEngine.Analysis.EstablishedImpossibility | src/vm/analyzer.cpp:137-143 | True exactly when some finding is structural |
| VerdictEngine.Analysis.AlreadyEmitted | src/vm/analyzer.cpp:145-149 | True exactly when a finding with the id is recorded |
| VerdictEngine.Analysis.Run | src/vm/analyzer.cpp:1845-1917 | The engine, rule after rule, reaches the report of the fold |
| VerdictEngine.AssessIsFold | src/vm/analyzer.cpp:1890-1912 | The report is the fold of twenty-one outcomes, the two that look at other findings included |
| VerdictEngine.OverallIsJoin | src/vm/analyzer.cpp:100-115 | The verdict is an upper bound of every level said or joined in silence, and one of them |
| VerdictClaims.FindingsNeverOverclaim | src/vm/analyzer.cpp:111-114 | No finding is more confident than any step of its evidence allows, none outranks the verdict, and one that proves impossibility makes it UNSUPPORTED |
| VerdictClaims.SupportedExactly | src/vm/analyzer.cpp:196-1842 | SUPPORTED exactly when the requirement is consistent, its size, placement and bounds are met by known facts, and nothing known forbids its use |
| VerdictClaims.SizeLevels | src/vm/analyzer.cpp:316-515 | The size, granularity and page-size rules are all content exactly when the size conditions hold |
| VerdictClaims.PlacementLevels | src/vm/analyzer.cpp:883-1346 | The mapping and placement rules are all content exactly when mapping is known to work and the very range is SUPPORTED where the address matters |
| VerdictClaims.BoundLevels | src/vm/analyzer.cpp:540-688 | The bound rule is content exactly when the address is inside its bounds and some observed range meets them comfortably |
| VerdictClaims.UseLevels | src/vm/analyzer.cpp:1395-1802 | The execution, commit, pointer and file rules are all content exactly when nothing known forbids the use |
| VerdictClaims.AggregateLevels | src/vm/analyzer.cpp:1354-1387 | When every other rule is content, the rules about other findings add exactly that identity without exactness needs translation |
| VerdictLevels.LevelsExactly | src/vm/analyzer.cpp:196-1842 | UNSUPPORTED, UNKNOWN and CONDITIONALLY_SUPPORTED, each exactly: something known makes the requirement impossible or refuses it; nothing does and something that decides is not known; neither, and something depends on what the program does |
| VerdictLevels.ImpossibleExactly | src/vm/analyzer.cpp:136-142 | Some finding proves impossibility exactly when something known makes the requirement impossible |
| VerdictLevels.FindingsExactly | src/vm/analyzer.cpp:196-1842 | A finding of a given name, level and claim of impossibility is in the report exactly when the listed condition on requirement and host holds |
| VerdictLevels.PlaceDecides | src/vm/analyzer.cpp:1056-1233 | Where the address matters, an UNSUPPORTED range gives UNSUPPORTED and a finding that proves it, named after the obstacle; an UNKNOWN range gives at least UNKNOWN and makes nothing impossible |
| VerdictLevels.PowersExactly | src/vm/address_range.cpp:142-147 | The accepted alignments are exactly the powers of two |
| VerdictGrounds.FindingsNameTheirGrounds | src/vm/analyzer.cpp:196-1842 | A finding names the claim and the evidence of the facts it is about, no more and no less, and is as confident as these allow, up to what its rule asks for |
| VerdictGrounds.WeakerFactsDoNotMatter | include/runtimeskeptic/core/evidence.hpp:13-17 | With every fact weaker than its evidence forgotten a finding would still be reported: for all findings but five, and for those exactly under the conditions given |
| VerdictGrounds.GuessIsCalledProven | src/vm/analyzer.cpp:316-372 | A concrete requirement and host: a size called impossible, PROVEN, that is SUPPORTED once a guessed lowest address is forgotten |
| VerdictClaims.ReportingUnknowns | src/vm/analyzer.cpp:809-833 | Reporting unknowns changes the verdict only by counting an unknown page size as UNKNOWN when one is required |
| VerdictClaims.SilenceChangesTheVerdict | src/vm/analyzer.cpp:809-833 | A concrete requirement and host judged SUPPORTED without reporting unknowns and UNKNOWN with it |
| VerdictClaims.RetryInheritsItsEvidence | src/vm/analyzer.cpp:1816-1843 | Retrying is called permanent exactly when another rule proved impossibility, no more confidently than that finding's evidence allows |

## Left out

- System calls, platform probing, file opening, clocks and command-line
  handling: the probes' callbacks, the region query, the mapping predicate, the
  file's bytes and the snapshot are parameters.
- Texts of errors, findings and notes, except where equality of notes decides
  whether ranges merge; long notes are shortened to the parts that vary.
- JsonValue.Eq: a double is known by its text, so equality of two doubles is
  equality of text here and of values in the source; `strtod`, `%.17g` and
  error positions are not modelled.
- JsonParser.Parser.ParseNumber: a number with a fraction or an exponent keeps
  its text; the value `strtod` gives it is not modelled.
- JsonWriter.WritePretty: a double is written as the text it is known by.
- Segments.SortSegments: `std::sort` is modelled as insertion, on the pairwise
  disjoint lists it is given.
- RangeStore.SortRanges: `std::sort` is modelled as insertion, so ranges that
  compare equal keep one particular order.
- GridWalk.WalkArena: is stated for the inputs on which the loop ends, and says
  nothing where it does not. Whole pages are not enforced by the callers: the
  macOS scan takes its window from the option `max_test_mapping_bytes`
  unchecked (src/probe/vm_probe_macos.cpp, lines 1025 and 1781-1783).
- GridClaims.ClaimsHoldExactly: ceilings less than a window below 2^64, and
  platforms whose answers wrap the loop variable,
  are outside it; the ranges of such a walk are not described.
- Bisection.FindMaxUserAddress: the predicate does not change between calls, and
  a page of zero bytes, which the source divides by, is excluded; the guard
  against a power beyond bit 62 is dead and has no branch here.
- AdaptiveWalker.WalkArenaAdaptive: an unset callback is one flag for both, and
  callbacks are total functions of their arguments.
- RecorderSafety.Run: steps are sequentially consistent and the claim counter
  does not wrap; reset, initialization, shutdown and fork handlers do not run
  beside recording, and a signal handler does not run between testing and
  setting the re-entrancy guard.
- TraceRecords.EventRoundTrip: the version, size and reserved words of an event
  are constants and not part of the record.
- TraceReader.ReadDocument: applies the schema of the three records as
  predicates, in place of the general schema engine.
- TraceReader.ReadFile: the schema engine is replaced by the schema it would
  apply to these records, written out as predicates.
- TraceFiles.Flush: takes the snapshot and the statistics as given; events
  recorded between reading the two are in neither.
- ValueDiff.DiffValues: entries are values with a path and two sides rather
  than lines of text.
- VerdictRules: severities, satisfied checks, remediations, limitations and the
  final ordering of findings are not modelled; powers of two are recognized by
  division rather than by bits.
- WindowsRegions.ClassifyWindow: regions end below 2^64 where the memory map is
  assumed to be tiled; `region_at_is_occupied` has no counterpart.
- The schema registry, document readers, name tables, bundles, reports, the
  server loop, benchmarks and campaign scripts.
