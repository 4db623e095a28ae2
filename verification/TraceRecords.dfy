/**
 * The three kinds of trace record, as JSON documents: how they are written, what the schema asks,
 * how they are read.
 */
module TraceRecords {
  import opened Words
  import opened Wrappers
  import opened JsonValue
  import opened JsonText
  import opened TraceModel

  const SCHEMA_VERSION := "runtime-skeptic.runtime-trace-record.v1"

  // -------------------------------------------------------------------------
  // Documents
  // -------------------------------------------------------------------------

  /** An object with these keys, which must already be in order. */
  function Record(keys: seq<string>, values: seq<Value>): (doc: Value)
    requires |keys| == |values|
    ensures doc.Object? && |doc.members| == |keys|
    ensures forall i :: 0 <= i < |keys| ==> doc.members[i] == Member(keys[i], values[i])
  {
    Object(seq(|keys|, i requires 0 <= i < |keys| => Member(keys[i], values[i])))
  }

  /** `Value::find`. */
  function Find(doc: Value, key: string): Option<Value> {
    if doc.Object? then FindIn(doc.members, key) else None
  }

  function FindIn(members: seq<Member>, key: string): Option<Value> {
    if members == [] then None
    else if members[0].key == key then Some(members[0].value)
    else FindIn(members[1..], key)
  }

  /** A field the schema has promised; null when there is none. */
  function Get(doc: Value, key: string): Value {
    match Find(doc, key)
    case Some(v) => v
    case None => Null
  }

  lemma {:induction false} FindInAt(members: seq<Member>, i: nat)
    requires i < |members| && Sorted(members)
    ensures FindIn(members, members[i].key) == Some(members[i].value)
  {
    hide Less;
    if i > 0 {
      LessIsStrict(members[0].key, members[i].key);
      FindInAt(members[1..], i - 1);
    }
  }

  function TextOf(v: Value): string {
    if v.String? then v.s else ""
  }

  function UIntOf(v: Value): u64 {
    if v.Int? || v.UInt? then AsUInt(v) else 0
  }

  function IntOf(v: Value): i64 {
    if v.Int? || v.UInt? then AsInt(v) else 0
  }

  function U32Of(v: Value): u32 {
    UIntOf(v) % U32_LIMIT
  }

  function FlagOf(v: Value): u32 {
    if v == Bool(true) then 1 else 0
  }

  // -------------------------------------------------------------------------
  // Names
  // -------------------------------------------------------------------------

  function OperationName(operation: u32): string {
    if operation == POSIX_MMAP then "posix_mmap"
    else if operation == POSIX_MPROTECT then "posix_mprotect"
    else if operation == POSIX_MUNMAP then "posix_munmap"
    else if operation == WINDOWS_RESERVE then "windows_reserve"
    else if operation == WINDOWS_COMMIT then "windows_commit"
    else if operation == WINDOWS_PROTECT then "windows_protect"
    else if operation == WINDOWS_DECOMMIT then "windows_decommit"
    else if operation == WINDOWS_RELEASE then "windows_release"
    else if operation == WINDOWS_RESET then "windows_reset"
    else if operation == WINDOWS_RESET_UNDO then "windows_reset_undo"
    else if operation == WINDOWS_ALLOCATE_OTHER then "windows_virtual_alloc_other"
    else "unknown"
  }

  function OperationId(name: string): (operation: u32)
    ensures operation <= WINDOWS_ALLOCATE_OTHER
  {
    if name == "posix_mmap" then POSIX_MMAP
    else if name == "posix_mprotect" then POSIX_MPROTECT
    else if name == "posix_munmap" then POSIX_MUNMAP
    else if name == "windows_reserve" then WINDOWS_RESERVE
    else if name == "windows_commit" then WINDOWS_COMMIT
    else if name == "windows_protect" then WINDOWS_PROTECT
    else if name == "windows_decommit" then WINDOWS_DECOMMIT
    else if name == "windows_release" then WINDOWS_RELEASE
    else if name == "windows_reset" then WINDOWS_RESET
    else if name == "windows_reset_undo" then WINDOWS_RESET_UNDO
    else if name == "windows_virtual_alloc_other" then WINDOWS_ALLOCATE_OTHER
    else 0
  }

  predicate KnownOperation(operation: u32) {
    POSIX_MMAP <= operation <= WINDOWS_ALLOCATE_OTHER
  }

  lemma OperationNameRoundTrip(operation: u32)
    ensures OperationId(OperationName(operation)) == if KnownOperation(operation) then operation else 0
  {
    var name := OperationName(operation);
    var lengths := [7, 10, 14, 12, 15, 14, 15, 16, 15, 13, 18, 27];
    assert |name| == lengths[if KnownOperation(operation) then operation else 0];
    if |name| == 14 {
      assert name[0] == if operation == POSIX_MPROTECT then 'p' else 'w';
    } else if |name| == 15 {
      assert name[8] == (if operation == WINDOWS_PROTECT then 'p' else 'r');
      assert name[10] == if operation == WINDOWS_RESERVE then 's' else if operation == WINDOWS_PROTECT then 'o'
          else 'l';
    }
  }

  function PlatformName(platform: u32): string {
    if platform == PLATFORM_WINDOWS then "windows" else "posix"
  }

  function DomainName(domain: u32): string {
    if domain == ERROR_ERRNO then "errno" else if domain == ERROR_WIN32 then "win32" else "none"
  }

  function DomainId(name: string): u32 {
    if name == "errno" then ERROR_ERRNO else if name == "win32" then ERROR_WIN32 else ERROR_NONE
  }

  function ViolationName(violation: u32): string {
    if violation == VIOLATION_RELOCATED then "exact_address_relocated"
    else if violation == VIOLATION_INVALID_EXPECTATION then "invalid_expectation"
    else "none"
  }

  function ViolationId(name: string): u32 {
    if name == "exact_address_relocated" then VIOLATION_RELOCATED
    else if name == "invalid_expectation" then VIOLATION_INVALID_EXPECTATION
    else VIOLATION_NONE
  }

  lemma SmallNamesRoundTrip(platform: u32, domain: u32, violation: u32)
    ensures PlatformId(PlatformName(platform)) == platform <==>
            platform == PLATFORM_POSIX || platform == PLATFORM_WINDOWS
    ensures DomainId(DomainName(domain)) == domain <==> domain <= ERROR_WIN32
    ensures ViolationId(ViolationName(violation)) == violation <==> violation <= VIOLATION_INVALID_EXPECTATION
  {
    assert "errno"[0] == 'e' && "win32"[0] == 'w' && "none"[0] == 'n';
  }

  // -------------------------------------------------------------------------
  // Keys, in byte order
  // -------------------------------------------------------------------------

  predicate Ascending(keys: seq<string>) {
    forall i, j :: 0 <= i < j < |keys| ==> Less(keys[i], keys[j])
  }

  lemma {:induction false} DifferAt(a: string, b: string, k: nat)
    requires k < |b| && k <= |a| && a[..k] == b[..k] && (k == |a| || a[k] < b[k])
    ensures Less(a, b)
    decreases k
  {
    if k > 0 {
      assert a[0] == a[..k][0] && b[0] == b[..k][0];
      assert a[1..][..k - 1] == a[..k][1..] && b[1..][..k - 1] == b[..k][1..];
      DifferAt(a[1..], b[1..], k - 1);
    }
  }

  lemma NeighboursSuffice(keys: seq<string>)
    requires forall i :: 0 <= i < |keys| - 1 ==> Less(keys[i], keys[i + 1])
    ensures Ascending(keys)
  {
    hide Less;
    forall i, j | 0 <= i < j < |keys| ensures Less(keys[i], keys[j]) {
      Chain(keys, i, j);
    }
  }

  lemma {:induction false} Chain(keys: seq<string>, i: nat, j: nat)
    requires forall k :: 0 <= k < |keys| - 1 ==> Less(keys[k], keys[k + 1])
    requires i < j < |keys|
    ensures Less(keys[i], keys[j])
    decreases j - i
  {
    hide Less;
    if i + 1 < j {
      Chain(keys, i, j - 1);
      LessIsTransitive(keys[i], keys[j - 1], keys[j]);
    }
  }

  /** Reading back a field of a record, as written or as a parser returns it. */
  lemma RecordGet(keys: seq<string>, values: seq<Value>, i: nat)
    requires Ascending(keys) && |keys| == |values| && i < |keys|
    ensures Get(Record(keys, values), keys[i]) == values[i]
    ensures Get(Norm(Record(keys, values)), keys[i]) == Norm(values[i])
  {
    hide Less, FindIn;
    var doc := Record(keys, values);
    FindInAt(doc.members, i);
    FindInAt(Norm(doc).members, i);
  }

  // -------------------------------------------------------------------------
  // Events
  // -------------------------------------------------------------------------

  function EventKeys(): (keys: seq<string>)
    ensures |keys| == 21
  {
    ["effective_address", "effective_size", "exact_address_required", "expected_address",
     "native_error_code", "native_error_domain", "native_flags", "offset",
     "operation", "platform", "previous_protection", "record_type",
     "requested_address", "requested_protection", "returned_address", "schema",
     "semantic_flags", "sequence", "size", "status",
     "violation"]
  }

  lemma EventKeysAscend()
    ensures Ascending(EventKeys())
  {
    EventPairs1();
    EventPairs2();
    EventPairs3();
    EventPairs4();
    EventPairs5();
    EventPairs6();
    hide Less;
    NeighboursSuffice(EventKeys());
  }

  lemma EventPairs1()
    ensures Less("effective_address", "effective_size")
    ensures Less("effective_size", "exact_address_required")
    ensures Less("exact_address_required", "expected_address")
  {
    hide Less;
    DifferAt("effective_address", "effective_size", 10);
    DifferAt("effective_size", "exact_address_required", 1);
    DifferAt("exact_address_required", "expected_address", 2);
  }

  lemma EventPairs2()
    ensures Less("expected_address", "native_error_code")
    ensures Less("native_error_code", "native_error_domain")
  {
    hide Less;
    DifferAt("expected_address", "native_error_code", 0);
    DifferAt("native_error_code", "native_error_domain", 13);
  }

  lemma EventPairs3()
    ensures Less("native_error_domain", "native_flags")
    ensures Less("native_flags", "offset")
    ensures Less("offset", "operation")
    ensures Less("operation", "platform")
  {
    hide Less;
    DifferAt("native_error_domain", "native_flags", 7);
    DifferAt("native_flags", "offset", 0);
    DifferAt("offset", "operation", 1);
    DifferAt("operation", "platform", 0);
  }

  lemma EventPairs4()
    ensures Less("platform", "previous_protection")
    ensures Less("previous_protection", "record_type")
    ensures Less("record_type", "requested_address")
    ensures Less("requested_address", "requested_protection")
  {
    hide Less;
    DifferAt("platform", "previous_protection", 1);
    DifferAt("previous_protection", "record_type", 0);
    DifferAt("record_type", "requested_address", 2);
    DifferAt("requested_address", "requested_protection", 10);
  }

  lemma EventPairs5()
    ensures Less("requested_protection", "returned_address")
    ensures Less("returned_address", "schema")
    ensures Less("schema", "semantic_flags")
    ensures Less("semantic_flags", "sequence")
  {
    hide Less;
    DifferAt("requested_protection", "returned_address", 2);
    DifferAt("returned_address", "schema", 0);
    DifferAt("schema", "semantic_flags", 1);
    DifferAt("semantic_flags", "sequence", 2);
  }

  lemma EventPairs6()
    ensures Less("sequence", "size")
    ensures Less("size", "status")
    ensures Less("status", "violation")
  {
    hide Less;
    DifferAt("sequence", "size", 1);
    DifferAt("size", "status", 1);
    DifferAt("status", "violation", 0);
  }

  function EventFields(e: Event): (fields: seq<Value>)
    ensures |fields| == 21
  {
    [String(ToHex(e.effectiveAddress)), UInt(e.effectiveSize), Bool(e.exactRequired != 0),
        String(ToHex(e.expectedAddress)),
     Int(e.errorCode), String(DomainName(e.errorDomain)), UInt(e.nativeFlags), Int(e.offset),
     String(OperationName(e.operation)), String(PlatformName(e.platform)), UInt(e.previousProtection), String("event"),
     String(ToHex(e.requestedAddress)), UInt(e.requestedProtection), String(ToHex(e.returnedAddress)),
         String(SCHEMA_VERSION),
     UInt(e.semanticFlags), UInt(e.sequence), UInt(e.size), String(if e.success != 0 then "success" else "failure"),
     String(ViolationName(e.violation))]
  }

  function EventJson(e: Event): Value {
    Record(EventKeys(), EventFields(e))
  }

  // -------------------------------------------------------------------------
  // The schema
  // -------------------------------------------------------------------------

  /** All of these keys and no other. */
  predicate HasExactly(doc: Value, keys: seq<string>) {
    && doc.Object?
    && (forall i :: 0 <= i < |keys| ==> Find(doc, keys[i]).Some?)
    && (forall i :: 0 <= i < |doc.members| ==> doc.members[i].key in keys)
  }

  predicate IntegerIn(v: Value, low: int, high: int) {
    (v.Int? && low <= v.i <= high) || (v.UInt? && low <= v.u <= high)
  }

  predicate OneOf(v: Value, names: seq<string>) {
    v.String? && v.s in names
  }

  predicate IsLowerHex(c: char) {
    '0' <= c <= '9' || 'a' <= c <= 'f'
  }

  /** `^0x(0|[1-9a-f][0-9a-f]*)$` */
  predicate IsAddress(v: Value) {
    && v.String? && |v.s| >= 3 && v.s[0] == '0' && v.s[1] == 'x'
    && (forall i :: 2 <= i < |v.s| ==> IsLowerHex(v.s[i]))
    && (v.s[2] == '0' ==> |v.s| == 3)
  }

  predicate IsNatural(v: Value) {
    IntegerIn(v, 0, U64_LIMIT - 1)
  }

  predicate IsInteger(v: Value) {
    v.Int? || v.UInt?
  }

  function Operations(): seq<string> {
    ["posix_mmap", "posix_mprotect", "posix_munmap", "windows_reserve", "windows_commit", "windows_protect",
     "windows_decommit", "windows_release", "windows_reset", "windows_reset_undo", "windows_virtual_alloc_other"]
  }

  // What the schema asks of the fields of an event, in key order.

  predicate EventTextsOk(f: seq<Value>)
    requires |f| == 21
  {
    && IsAddress(f[0]) && IsAddress(f[3]) && IsAddress(f[12]) && IsAddress(f[14])
    && f[11] == String("event") && f[15] == String(SCHEMA_VERSION) && OneOf(f[19], ["success", "failure"])
  }

  predicate EventNamesOk(f: seq<Value>)
    requires |f| == 21
  {
    && OneOf(f[5], ["none", "errno", "win32"])
    && OneOf(f[8], Operations())
    && OneOf(f[9], ["posix", "windows"])
    && OneOf(f[20], ["none", "exact_address_relocated", "invalid_expectation"])
  }

  predicate EventNumbersOk(f: seq<Value>)
    requires |f| == 21
  {
    && IsNatural(f[1]) && f[2].Bool? && IsInteger(f[4]) && IntegerIn(f[6], 0, U32_LIMIT - 1) && IsInteger(f[7])
    && IntegerIn(f[10], 0, U32_LIMIT - 1) && IntegerIn(f[13], 0, U32_LIMIT - 1) && IntegerIn(f[16], 0, 31)
    && IntegerIn(f[17], 1, U64_LIMIT - 1) && IsNatural(f[18])
  }

  predicate EventFieldsOk(f: seq<Value>)
    requires |f| == 21
  {
    EventTextsOk(f) && EventNamesOk(f) && EventNumbersOk(f)
  }

  /** The values of a document under a list of keys. */
  function FieldsOf(doc: Value, keys: seq<string>): (f: seq<Value>)
    ensures |f| == |keys| && forall i :: 0 <= i < |keys| ==> f[i] == Get(doc, keys[i])
  {
    seq(|keys|, i requires 0 <= i < |keys| => Get(doc, keys[i]))
  }

  predicate ValidEvent(doc: Value) {
    HasExactly(doc, EventKeys()) && EventFieldsOk(FieldsOf(doc, EventKeys()))
  }

  // -------------------------------------------------------------------------
  // Reading an event
  // -------------------------------------------------------------------------

  datatype AddressError = InvalidAddress

  function AddressOf(v: Value): Result<u64, AddressError> {
    if !v.String? then Err(InvalidAddress)
    else
      match HexMeaning(v.s)
      case Some(a) => Ok(a)
      case None => Err(InvalidAddress)
  }

  /** `parse_event` on the fields of a document, in key order. */
  function EventOfFields(f: seq<Value>): Result<Event, AddressError>
    requires |f| == 21
  {
    if AddressOf(f[12]).Err? || AddressOf(f[14]).Err? || AddressOf(f[0]).Err? || AddressOf(f[3]).Err? then
        Err(InvalidAddress)
    else Ok(Event(
      sequence := UIntOf(f[17]),
      platform := PlatformId(TextOf(f[9])),
      operation := OperationId(TextOf(f[8])),
      success := if TextOf(f[19]) == "success" then 1 else 0,
      errorDomain := DomainId(TextOf(f[5])),
      errorCode := IntOf(f[4]),
      requestedAddress := AddressOf(f[12]).value,
      returnedAddress := AddressOf(f[14]).value,
      expectedAddress := AddressOf(f[3]).value,
      size := UIntOf(f[18]),
      offset := IntOf(f[7]),
      nativeFlags := U32Of(f[6]),
      semanticFlags := U32Of(f[16]),
      requestedProtection := U32Of(f[13]),
      previousProtection := U32Of(f[10]),
      exactRequired := FlagOf(f[2]),
      violation := ViolationId(TextOf(f[20])),
      effectiveAddress := AddressOf(f[0]).value,
      effectiveSize := UIntOf(f[1])))
  }

  function ParseEvent(doc: Value): Result<Event, AddressError> {
    EventOfFields(FieldsOf(doc, EventKeys()))
  }

  // -------------------------------------------------------------------------
  // Writing and reading an event
  // -------------------------------------------------------------------------

  /** Events whose every field survives: enumerations in range, booleans zero or one, known flags. */
  predicate Encodable(e: Event) {
    && e.sequence >= 1 && KnownOperation(e.operation) && e.semanticFlags <= 31
    && (e.platform == PLATFORM_POSIX || e.platform == PLATFORM_WINDOWS)
    && e.errorDomain <= ERROR_WIN32 && e.violation <= VIOLATION_INVALID_EXPECTATION
    && e.success <= 1 && e.exactRequired <= 1
  }

  lemma FieldOfRecord(keys: seq<string>, values: seq<Value>, i: nat)
    requires Ascending(keys) && |keys| == |values| && i < |keys|
    ensures var doc := Norm(Record(keys, values));
      && doc.Object? && |doc.members| == |keys| && doc.members[i].key == keys[i]
      && Find(doc, keys[i]).Some? && Get(doc, keys[i]) == NormItems(values)[i]
  {
    hide Less, FindIn;
    RecordGet(keys, values, i);
    FindInAt(Norm(Record(keys, values)).members, i);
  }

  lemma FieldsOfRecord(keys: seq<string>, values: seq<Value>)
    requires Ascending(keys) && |keys| == |values|
    ensures FieldsOf(Norm(Record(keys, values)), keys) == NormItems(values)
    ensures HasExactly(Norm(Record(keys, values)), keys)
  {
    hide Ascending, Get, Norm, NormItems, Record;
    var doc := Norm(Record(keys, values));
    KeysOfRecord(keys, values);
    hide Find, HasExactly;
    var fields := FieldsOf(doc, keys);
    forall i | 0 <= i < |keys| ensures fields[i] == NormItems(values)[i] {
      FieldOfRecord(keys, values, i);
    }
  }

  lemma KeysOfRecord(keys: seq<string>, values: seq<Value>)
    requires Ascending(keys) && |keys| == |values|
    ensures HasExactly(Norm(Record(keys, values)), keys)
  {
    hide Ascending, Find, Get;
    var doc := Norm(Record(keys, values));
    forall i | 0 <= i < |keys| ensures Find(doc, keys[i]).Some? && doc.members[i].key in keys {
      FieldOfRecord(keys, values, i);
    }
  }

  lemma SignedSurvives(i: i64)
    ensures IntOf(Norm(Int(i))) == i && IsInteger(Norm(Int(i)))
  {
  }

  lemma AddressSurvives(a: u64)
    ensures IsAddress(String(ToHex(a))) && AddressOf(String(ToHex(a))) == Ok(a)
  {
    hide HexMeaning, Numeral;
    HexRoundTrip(a);
    NumeralIsLower(a);
  }

  lemma {:induction false} NumeralIsLower(n: nat)
    ensures forall i :: 0 <= i < |Numeral(n, Sixteen)| ==> IsLowerHex(Numeral(n, Sixteen)[i])
  {
    hide Rest, Over;
    if Over(n, Sixteen) != 0 {
      NumeralIsLower(Over(n, Sixteen));
    }
  }

  lemma NamesAreListed(e: Event)
    ensures OperationName(e.operation) in Operations() <==> KnownOperation(e.operation)
    ensures KnownOperation(e.operation) ==> OperationName(e.operation) == Operations()[e.operation - 1]
    ensures PlatformName(e.platform) in ["posix", "windows"]
    ensures DomainName(e.errorDomain) in ["none", "errno", "win32"]
    ensures ViolationName(e.violation) in ["none", "exact_address_relocated", "invalid_expectation"]
  {
    OperationIsListed(e.operation);
  }

  lemma OperationIsListed(operation: u32)
    ensures OperationName(operation) in Operations() <==> KnownOperation(operation)
    ensures KnownOperation(operation) ==> OperationName(operation) == Operations()[operation - 1]
  {
    if KnownOperation(operation) {
      assert Operations()[operation - 1] == OperationName(operation);
    } else {
      forall i | 0 <= i < |Operations()| ensures Operations()[i] != "unknown" {
        assert Operations()[i][0] != 'u';
      }
    }
  }

  /** The fields of an event as a parser returns them. */
  function ReadFields(e: Event): (fields: seq<Value>)
    ensures |fields| == 21
  {
    EventFields(e)[4 := Norm(Int(e.errorCode))][7 := Norm(Int(e.offset))]
  }

  lemma NormedFields(e: Event)
    ensures NormItems(EventFields(e)) == ReadFields(e)
  {
    hide NormItems, ToHex, OperationName, PlatformName, DomainName, ViolationName;
    forall i | 0 <= i < 21 ensures NormItems(EventFields(e))[i] == ReadFields(e)[i] {
    }
  }

  lemma WrittenTextsAreOk(e: Event)
    ensures EventTextsOk(ReadFields(e))
  {
    hide Norm, ToHex, OperationName, PlatformName, DomainName, ViolationName, IsAddress, AddressOf;
    AddressSurvives(e.effectiveAddress);
    AddressSurvives(e.expectedAddress);
    AddressSurvives(e.requestedAddress);
    AddressSurvives(e.returnedAddress);
  }

  lemma WrittenNamesAreOk(e: Event)
    ensures EventNamesOk(ReadFields(e)) <==> KnownOperation(e.operation)
  {
    hide Norm, ToHex, OperationName, PlatformName, DomainName, ViolationName, Operations;
    NamesAreListed(e);
  }

  lemma WrittenNumbersAreOk(e: Event)
    ensures EventNumbersOk(ReadFields(e)) <==> e.semanticFlags <= 31 && e.sequence >= 1
  {
    hide Norm, ToHex, OperationName, PlatformName, DomainName, ViolationName;
    SignedSurvives(e.errorCode);
    SignedSurvives(e.offset);
  }

  lemma WrittenFieldsRead(e: Event)
    ensures var r := EventOfFields(ReadFields(e));
      && r.Ok?
      && r.value == e.(
           platform := PlatformId(PlatformName(e.platform)),
           operation := OperationId(OperationName(e.operation)),
           success := if e.success != 0 then 1 else 0,
           errorDomain := DomainId(DomainName(e.errorDomain)),
           exactRequired := if e.exactRequired != 0 then 1 else 0,
           violation := ViolationId(ViolationName(e.violation)))
  {
    hide Norm, ToHex, OperationName, PlatformName, DomainName, ViolationName, PlatformId, OperationId, DomainId;
    hide ViolationId, AddressOf;
    hide IntOf;
    AddressSurvives(e.effectiveAddress);
    AddressSurvives(e.expectedAddress);
    AddressSurvives(e.requestedAddress);
    AddressSurvives(e.returnedAddress);
    SignedSurvives(e.errorCode);
    SignedSurvives(e.offset);
  }

  /** An event comes back, as it was, from a schema-valid document exactly when all its fields can be encoded. */
  lemma EventRoundTrip(e: Event)
    ensures var doc := Norm(EventJson(e));
      ValidEvent(doc) && ParseEvent(doc) == Ok(e) <==> Encodable(e)
  {
    hide EventTextsOk, EventNamesOk, EventNumbersOk, EventOfFields, EventFields, HasExactly, Norm, NormItems;
    hide OperationName, PlatformName, DomainName, ViolationName, PlatformId, OperationId, DomainId, ViolationId;
    EventKeysAscend();
    FieldsOfRecord(EventKeys(), EventFields(e));
    hide EventKeys, ReadFields;
    NormedFields(e);
    WrittenTextsAreOk(e);
    WrittenNamesAreOk(e);
    WrittenNumbersAreOk(e);
    WrittenFieldsRead(e);
    OperationNameRoundTrip(e.operation);
    SmallNamesRoundTrip(e.platform, e.errorDomain, e.violation);
  }

  // -------------------------------------------------------------------------
  // Headers
  // -------------------------------------------------------------------------

  function HeaderKeys(): (keys: seq<string>)
    ensures |keys| == 7
  {
    ["abi_version", "buffer_capacity", "instrumented_apis", "monitor_mode", "platform", "record_type", "schema"]
  }

  lemma HeaderKeysAscend()
    ensures Ascending(HeaderKeys())
  {
    DifferAt("abi_version", "buffer_capacity", 0);
    DifferAt("buffer_capacity", "instrumented_apis", 0);
    DifferAt("instrumented_apis", "monitor_mode", 0);
    DifferAt("monitor_mode", "platform", 0);
    DifferAt("platform", "record_type", 0);
    DifferAt("record_type", "schema", 0);
    hide Less;
    NeighboursSuffice(HeaderKeys());
  }

  function Texts(items: seq<string>): (v: seq<Value>)
    ensures |v| == |items| && forall i :: 0 <= i < |items| ==> v[i] == String(items[i])
  {
    seq(|items|, i requires 0 <= i < |items| => String(items[i]))
  }

  function TextsOf(v: Value): seq<string> {
    if v.Array? then seq(|v.items|, i requires 0 <= i < |v.items| => TextOf(v.items[i])) else []
  }

  function HeaderFields(h: Header): (fields: seq<Value>)
    ensures |fields| == 7
  {
    [UInt(h.abiVersion), UInt(h.bufferCapacity), Array(Texts(h.instrumentedApis)), String(h.monitorMode),
        String(h.platform),
     String("header"), String(SCHEMA_VERSION)]
  }

  function HeaderJson(h: Header): Value {
    Record(HeaderKeys(), HeaderFields(h))
  }

  function PosixApis(): seq<string> {
    ["mmap", "mprotect", "munmap"]
  }

  function WindowsApis(): seq<string> {
    ["VirtualAlloc", "VirtualProtect", "VirtualFree"]
  }

  predicate IsApiList(v: Value) {
    && v.Array? && |v.items| >= 1
    && (forall i :: 0 <= i < |v.items| ==> OneOf(v.items[i], PosixApis() + WindowsApis()))
    && (forall i, j :: 0 <= i < j < |v.items| ==> v.items[i] != v.items[j])
  }

  predicate HeaderFieldsOk(f: seq<Value>)
    requires |f| == 7
  {
    && IntegerIn(f[0], 1, 1) && IntegerIn(f[1], 1, 4096) && IsApiList(f[2])
       && OneOf(f[3], ["record", "report", "assert"])
    && OneOf(f[4], ["posix", "windows"]) && f[5] == String("header") && f[6] == String(SCHEMA_VERSION)
  }

  predicate ValidHeader(doc: Value) {
    HasExactly(doc, HeaderKeys()) && HeaderFieldsOk(FieldsOf(doc, HeaderKeys()))
  }

  function HeaderOfFields(f: seq<Value>): Header
    requires |f| == 7
  {
    Header(U32Of(f[0]), U32Of(f[1]), TextOf(f[4]), TextOf(f[3]), TextsOf(f[2]))
  }

  function ParseHeader(doc: Value): Header {
    HeaderOfFields(FieldsOf(doc, HeaderKeys()))
  }

  /** `validate_header_contract`: the whole API set of the platform, in order. */
  predicate HeaderContract(h: Header) {
    h.instrumentedApis == if h.platform == "windows" then WindowsApis() else PosixApis()
  }

  /** What a configured recorder can write. */
  predicate WritableHeader(h: Header) {
    && h.abiVersion == 1 && 1 <= h.bufferCapacity <= 4096
    && h.platform in ["posix", "windows"] && h.monitorMode in ["record", "report", "assert"]
    && HeaderContract(h)
  }

  lemma ApiListsAreApiLists()
    ensures IsApiList(Array(Texts(PosixApis()))) && IsApiList(Array(Texts(WindowsApis())))
  {
    assert |"mmap"| == 4 && |"mprotect"| == 8 && |"munmap"| == 6;
    assert |"VirtualAlloc"| == 12 && |"VirtualProtect"| == 14 && |"VirtualFree"| == 11;
  }

  lemma NormOfTexts(items: seq<string>)
    ensures NormItems(Texts(items)) == Texts(items) && Norm(Array(Texts(items))) == Array(Texts(items))
    ensures TextsOf(Array(Texts(items))) == items
  {
  }

  lemma HeaderFieldsAreStable(h: Header)
    ensures NormItems(HeaderFields(h)) == HeaderFields(h)
  {
    hide Norm, Texts;
    NormOfTexts(h.instrumentedApis);
    NormOfScalars(HeaderFields(h));
  }

  lemma HeaderFieldsRead(h: Header)
    ensures HeaderOfFields(HeaderFields(h)) == h
  {
    hide Texts, TextsOf;
    NormOfTexts(h.instrumentedApis);
  }

  lemma ApisAreListed(apis: seq<string>)
    requires apis == PosixApis() || apis == WindowsApis()
    ensures IsApiList(Array(Texts(apis)))
  {
    hide IsApiList, Texts, PosixApis, WindowsApis;
    ApiListsAreApiLists();
  }

  lemma HeaderFieldsWritten(h: Header)
    requires IsApiList(Array(Texts(h.instrumentedApis)))
    ensures HeaderFieldsOk(HeaderFields(h)) <==>
            && h.abiVersion == 1 && 1 <= h.bufferCapacity <= 4096
            && h.monitorMode in ["record", "report", "assert"] && h.platform in ["posix", "windows"]
  {
    hide IsApiList, Texts;
  }

  /** A header comes back as it was; it is accepted exactly when a configured recorder could have written it. */
  lemma HeaderRoundTrip(h: Header)
    requires h.instrumentedApis == PosixApis() || h.instrumentedApis == WindowsApis()
    ensures var doc := Norm(HeaderJson(h));
      ValidHeader(doc) && HeaderContract(ParseHeader(doc)) <==> WritableHeader(h)
    ensures ParseHeader(Norm(HeaderJson(h))) == h
  {
    hide Norm, HasExactly, HeaderFieldsOk, HeaderFields, HeaderOfFields, PosixApis, WindowsApis, WritableHeader;
    hide HeaderContract;
    HeaderKeysAscend();
    FieldsOfRecord(HeaderKeys(), HeaderFields(h));
    hide HeaderKeys;
    HeaderFieldsAreStable(h);
    HeaderFieldsRead(h);
    ApisAreListed(h.instrumentedApis);
    HeaderFieldsWritten(h);
    assert WritableHeader(h) <==> HeaderFieldsOk(HeaderFields(h)) && HeaderContract(h) by { WritableMeans(h); }
  }

  lemma WritableMeans(h: Header)
    ensures WritableHeader(h) <==>
            && h.abiVersion == 1 && 1 <= h.bufferCapacity <= 4096
            && h.monitorMode in ["record", "report", "assert"] && h.platform in ["posix", "windows"]
            && HeaderContract(h)
  {
    hide HeaderContract;
  }

  lemma NormOfScalars(fields: seq<Value>)
    requires forall i :: 0 <= i < |fields| ==> Norm(fields[i]) == fields[i]
    ensures NormItems(fields) == fields
  {
    hide Norm;
  }

  // -------------------------------------------------------------------------
  // Footers
  // -------------------------------------------------------------------------

  function FooterKeys(): (keys: seq<string>)
    ensures |keys| == 7
  {
    ["complete", "digest", "dropped_events", "event_count", "record_type", "reentrant_events", "schema"]
  }

  lemma FooterKeysAscend()
    ensures Ascending(FooterKeys())
  {
    DifferAt("complete", "digest", 0);
    DifferAt("digest", "dropped_events", 1);
    DifferAt("dropped_events", "event_count", 0);
    DifferAt("event_count", "record_type", 0);
    DifferAt("record_type", "reentrant_events", 2);
    DifferAt("reentrant_events", "schema", 0);
    hide Less;
    NeighboursSuffice(FooterKeys());
  }

  function FooterFields(f: Footer): (fields: seq<Value>)
    ensures |fields| == 7
  {
    [Bool(f.complete), String(f.digest), UInt(f.droppedEvents), UInt(f.eventCount), String("footer"),
        UInt(f.reentrantEvents),
     String(SCHEMA_VERSION)]
  }

  function FooterJson(f: Footer): Value {
    Record(FooterKeys(), FooterFields(f))
  }

  /** `^sha256:[0-9a-f]{64}$` */
  predicate IsDigest(s: string) {
    |s| == 71 && s[..7] == "sha256:" && forall i :: 7 <= i < 71 ==> IsLowerHex(s[i])
  }

  predicate FooterFieldsOk(f: seq<Value>)
    requires |f| == 7
  {
    && f[0].Bool? && f[1].String? && IsDigest(f[1].s) && IsNatural(f[2]) && IsNatural(f[3])
    && f[4] == String("footer") && IsNatural(f[5]) && f[6] == String(SCHEMA_VERSION)
  }

  predicate ValidFooter(doc: Value) {
    HasExactly(doc, FooterKeys()) && FooterFieldsOk(FieldsOf(doc, FooterKeys()))
  }

  function ParseFooter(doc: Value): Footer {
    var f := FieldsOf(doc, FooterKeys());
    Footer(UIntOf(f[3]), UIntOf(f[2]), UIntOf(f[5]), f[0] == Bool(true), TextOf(f[1]))
  }

  lemma FooterRoundTrip(f: Footer)
    ensures ValidFooter(Norm(FooterJson(f))) <==> IsDigest(f.digest)
    ensures ParseFooter(Norm(FooterJson(f))) == f
  {
    hide Norm, HasExactly, IsDigest;
    FooterKeysAscend();
    FieldsOfRecord(FooterKeys(), FooterFields(f));
    hide FooterKeys;
    FooterFieldsAreStable(f);
  }

  lemma FooterFieldsAreStable(f: Footer)
    ensures NormItems(FooterFields(f)) == FooterFields(f)
  {
    hide Norm;
    NormOfScalars(FooterFields(f));
  }

  // -------------------------------------------------------------------------
  // Telling records apart
  // -------------------------------------------------------------------------

  predicate ValidRecord(doc: Value) {
    ValidHeader(doc) || ValidEvent(doc) || ValidFooter(doc)
  }

  function RecordType(doc: Value): string {
    TextOf(Get(doc, "record_type"))
  }

  lemma RecordTypes(doc: Value)
    ensures ValidHeader(doc) ==> RecordType(doc) == "header"
    ensures ValidEvent(doc) ==> RecordType(doc) == "event"
    ensures ValidFooter(doc) ==> RecordType(doc) == "footer"
  {
    hide HasExactly, IsAddress, IsDigest, IsApiList, EventNamesOk, EventNumbersOk;
    assert HeaderKeys()[5] == "record_type" && EventKeys()[11] == "record_type" && FooterKeys()[4] == "record_type";
  }
}
