/** The schema admits what a recorder can write, and nothing else that a reader would understand differently. */
module TraceSchema {
  import opened Words
  import opened Wrappers
  import opened JsonValue
  import opened JsonText
  import opened TraceModel
  import opened TraceRecords

  // -------------------------------------------------------------------------
  // Addresses
  // -------------------------------------------------------------------------

  /** Lower-case hexadecimal digits without a leading zero. */
  predicate IsNumeral(d: string) {
    d != "" && (forall i :: 0 <= i < |d| ==> IsLowerHex(d[i])) && (d[0] == '0' ==> |d| == 1)
  }

  lemma LowerDigits(d: string)
    requires forall i :: 0 <= i < |d| ==> IsLowerHex(d[i])
    ensures AllHex(d)
  {
  }

  lemma LowerDigit(c: char)
    requires IsLowerHex(c)
    ensures IsHexDigit(c) && DigitChar(HexValue(c)) == c && (HexValue(c) == 0 <==> c == '0')
  {
  }

  /** Such digits are the numeral of the number they stand for. */
  lemma {:induction false} DigitsAreNumeral(d: string)
    requires IsNumeral(d)
    ensures AllHex(d) && Numeral(NumberOf(d, Sixteen), Sixteen) == d
    ensures NumberOf(d, Sixteen) == 0 <==> d == "0"
  {
    hide DigitChar, HexValue;
    LowerDigits(d);
    var front, last := d[..|d| - 1], d[|d| - 1];
    LowerDigit(last);
    var n := NumberOf(d, Sixteen);
    assert n == NumberOf(front, Sixteen) * 16 + HexValue(last);
    assert Over(n, Sixteen) == NumberOf(front, Sixteen) && Rest(n, Sixteen) == HexValue(last);
    assert d == front + [last];
    if front == "" {
      assert NumberOf("", Sixteen) == 0;
    } else {
      assert front[0] == d[0];
      DigitsAreNumeral(front);
    }
  }

  /** The pattern of an address describes exactly the texts of numbers. */
  lemma AddressesExactly(v: Value)
    ensures IsAddress(v) <==> exists n: nat :: v == String("0x" + Numeral(n, Sixteen))
  {
    if IsAddress(v) {
      var d := v.s[2..];
      assert IsNumeral(d);
      DigitsAreNumeral(d);
      assert v == String("0x" + Numeral(NumberOf(d, Sixteen), Sixteen));
    }
    if n: nat :| v == String("0x" + Numeral(n, Sixteen)) {
      hide Numeral;
      NumeralIsLower(n);
    }
  }

  // -------------------------------------------------------------------------
  // Names
  // -------------------------------------------------------------------------

  lemma OperationsInvert(name: string)
    requires name in Operations()
    ensures OperationName(OperationId(name)) == name
  {
  }

  lemma SmallNamesInvert(platform: string, domain: string, violation: string)
    ensures platform in ["posix", "windows"] ==> PlatformName(PlatformId(platform)) == platform
    ensures domain in ["none", "errno", "win32"] ==> DomainName(DomainId(domain)) == domain
    ensures violation in ["none", "exact_address_relocated", "invalid_expectation"] ==>
              ViolationName(ViolationId(violation)) == violation
  {
  }

  // -------------------------------------------------------------------------
  // Documents
  // -------------------------------------------------------------------------

  lemma {:induction false} SameOrder(a: seq<string>, b: seq<string>)
    requires Ascending(a) && Ascending(b) && forall k :: k in a <==> k in b
    ensures a == b
  {
    hide Less;
    assert (a != [] ==> a[0] in a) && (b != [] ==> b[0] in b);
    if a != [] {
      FirstIsLeast(a, b[0]);
      FirstIsLeast(b, a[0]);
      LessIsStrict(a[0], b[0]);
      TailKeys(a);
      TailKeys(b);
      SameOrder(a[1..], b[1..]);
    }
  }

  lemma FirstIsLeast(a: seq<string>, k: string)
    requires Ascending(a) && k in a
    ensures k == a[0] || Less(a[0], k)
  {
    hide Less;
  }

  lemma TailKeys(a: seq<string>)
    requires a != [] && Ascending(a)
    ensures Ascending(a[1..]) && forall k :: k in a[1..] <==> k in a && k != a[0]
  {
    hide Less;
    forall k | k in a[1..] ensures k != a[0] && k in a {
      var i :| 0 <= i < |a[1..]| && a[1..][i] == k;
      LessIsStrict(a[0], a[i + 1]);
    }
  }

  function KeysOf(members: seq<Member>): (keys: seq<string>)
    ensures |keys| == |members| && forall i :: 0 <= i < |members| ==> keys[i] == members[i].key
  {
    seq(|members|, i requires 0 <= i < |members| => members[i].key)
  }

  lemma {:induction false} FoundIsThere(members: seq<Member>, key: string)
    requires FindIn(members, key).Some?
    ensures key in KeysOf(members)
  {
    if members[0].key == key {
      assert KeysOf(members)[0] == key;
    } else {
      FoundIsThere(members[1..], key);
      var i :| 0 <= i < |members[1..]| && KeysOf(members[1..])[i] == key;
      assert KeysOf(members)[i + 1] == key;
    }
  }

  /** A document with exactly these keys, in order, is their record. */
  lemma DocumentIsRecord(doc: Value, keys: seq<string>)
    requires HasExactly(doc, keys) && Sorted(doc.members) && Ascending(keys)
    ensures doc == Record(keys, FieldsOf(doc, keys))
  {
    hide Less, Ascending, Sorted, FindIn;
    var own := KeysOf(doc.members);
    assert Ascending(own) by { KeysAscend(doc.members); }
    forall k ensures k in own <==> k in keys {
      if k in keys {
        FoundIsThere(doc.members, k);
      }
    }
    SameOrder(own, keys);
    forall i | 0 <= i < |keys| ensures doc.members[i] == Member(keys[i], FieldsOf(doc, keys)[i]) {
      FindInAt(doc.members, i);
    }
  }

  lemma KeysAscend(members: seq<Member>)
    requires Sorted(members)
    ensures Ascending(KeysOf(members))
  {
    hide Less;
  }

  // -------------------------------------------------------------------------
  // Events
  // -------------------------------------------------------------------------

  /** A number that fits 64 bits with a sign. */
  predicate FitsSigned(v: Value) {
    v.Int? || (v.UInt? && v.u < I64_LIMIT)
  }

  /** A signed number is read as it is exactly when it fits. */
  lemma SignedExactly(v: Value)
    requires IsInteger(v)
    ensures Norm(Int(IntOf(v))) == Norm(v) <==> FitsSigned(v)
  {
  }

  lemma UnsignedExactly(v: Value, high: int)
    requires IntegerIn(v, 0, high) && high < U64_LIMIT
    ensures Norm(UInt(UIntOf(v))) == Norm(v)
    ensures high < U32_LIMIT ==> U32Of(v) == UIntOf(v)
  {
  }

  lemma AddressExactly(v: Value)
    requires IsAddress(v) && AddressOf(v).Ok?
    ensures String(ToHex(AddressOf(v).value)) == v
  {
    hide IsAddress, HexMeaning, Numeral;
    AddressesExactly(v);
    var n: nat :| v == String("0x" + Numeral(n, Sixteen));
    AddressMeans(n);
  }

  lemma AddressMeans(n: nat)
    ensures AddressOf(String("0x" + Numeral(n, Sixteen))) == if n < U64_LIMIT then Ok(n) else Err(InvalidAddress)
  {
    var digits := Numeral(n, Sixteen);
    assert ("0x" + digits)[2..] == digits;
    NoSeparators(digits);
    NumeralRoundTrip(n, Sixteen);
  }

  /** One field, written again. */
  predicate Same(e: Event, f: seq<Value>, i: nat)
    requires |f| == 21 && i < 21
  {
    Norm(EventFields(e)[i]) == Norm(f[i])
  }

  lemma AllSame(e: Event, f: seq<Value>)
    requires |f| == 21
    requires Same(e, f, 0) && Same(e, f, 1) && Same(e, f, 2) && Same(e, f, 3) && Same(e, f, 4) && Same(e, f, 5)
    requires Same(e, f, 6) && Same(e, f, 7)
    requires Same(e, f, 8) && Same(e, f, 9) && Same(e, f, 10) && Same(e, f, 11) && Same(e, f, 12)
    requires Same(e, f, 13) && Same(e, f, 14)
    requires Same(e, f, 15) && Same(e, f, 16) && Same(e, f, 17) && Same(e, f, 18) && Same(e, f, 19) && Same(e, f, 20)
    ensures forall i :: 0 <= i < 21 ==> Same(e, f, i)
  {
    hide Same;
  }

  lemma TextsInvert(f: seq<Value>, e: Event)
    requires |f| == 21 && EventTextsOk(f) && EventOfFields(f) == Ok(e)
    ensures Same(e, f, 0) && Same(e, f, 3) && Same(e, f, 11) && Same(e, f, 12) && Same(e, f, 14) && Same(e, f, 15)
    ensures Same(e, f, 19)
  {
    hide IsAddress, AddressOf, ToHex, OperationName, PlatformName, DomainName, ViolationName, PlatformId, OperationId;
    hide DomainId, ViolationId, IntOf, UIntOf, U32Of, FlagOf;
    hide Norm;
    AddressExactly(f[0]);
    AddressExactly(f[3]);
    AddressExactly(f[12]);
    AddressExactly(f[14]);
  }

  lemma NamesInvert(f: seq<Value>, e: Event)
    requires |f| == 21 && EventNamesOk(f) && EventOfFields(f) == Ok(e)
    ensures Same(e, f, 5) && Same(e, f, 8) && Same(e, f, 9) && Same(e, f, 20)
  {
    hide IsAddress, AddressOf, ToHex, OperationName, PlatformName, DomainName, ViolationName, PlatformId, OperationId;
    hide DomainId, ViolationId, IntOf, UIntOf, U32Of, FlagOf, Operations;
    OperationsInvert(f[8].s);
    SmallNamesInvert(f[9].s, f[5].s, f[20].s);
  }

  // The numbers of an event that was read, written again.

  lemma NumbersRewritten(f: seq<Value>, e: Event)
    requires |f| == 21 && EventOfFields(f) == Ok(e)
    ensures EventFields(e)[1] == UInt(UIntOf(f[1])) && EventFields(e)[2] == Bool(FlagOf(f[2]) != 0)
    ensures EventFields(e)[4] == Int(IntOf(f[4])) && EventFields(e)[7] == Int(IntOf(f[7]))
    ensures EventFields(e)[17] == UInt(UIntOf(f[17])) && EventFields(e)[18] == UInt(UIntOf(f[18]))
  {
    hide IsAddress, AddressOf, ToHex, OperationName, PlatformName, DomainName, ViolationName, PlatformId, OperationId;
    hide DomainId, ViolationId, IntOf, UIntOf, U32Of, FlagOf, Norm, FitsSigned, IntegerIn;
  }

  lemma WordsRewritten(f: seq<Value>, e: Event)
    requires |f| == 21 && EventOfFields(f) == Ok(e)
    ensures EventFields(e)[6] == UInt(U32Of(f[6])) && EventFields(e)[10] == UInt(U32Of(f[10]))
    ensures EventFields(e)[13] == UInt(U32Of(f[13])) && EventFields(e)[16] == UInt(U32Of(f[16]))
  {
    hide IsAddress, AddressOf, ToHex, OperationName, PlatformName, DomainName, ViolationName, PlatformId, OperationId;
    hide DomainId, ViolationId, IntOf, UIntOf, U32Of, FlagOf, Norm, FitsSigned, IntegerIn;
  }

  lemma SizesInvert(f: seq<Value>, e: Event)
    requires |f| == 21 && EventNumbersOk(f) && EventOfFields(f) == Ok(e)
    ensures Same(e, f, 1) && Same(e, f, 2) && Same(e, f, 17) && Same(e, f, 18)
  {
    hide EventFields, EventOfFields, IntOf, UIntOf, U32Of, FlagOf, Norm, FitsSigned, IntegerIn;
    NumbersRewritten(f, e);
    UnsignedExactly(f[1], U64_LIMIT - 1);
    UnsignedExactly(f[18], U64_LIMIT - 1);
    SequenceIsNatural(f[17]);
    UnsignedExactly(f[17], U64_LIMIT - 1);
    FlagExactly(f[2]);
  }

  lemma WordsInvert(f: seq<Value>, e: Event)
    requires |f| == 21 && EventNumbersOk(f) && EventOfFields(f) == Ok(e)
    ensures Same(e, f, 6) && Same(e, f, 10) && Same(e, f, 13) && Same(e, f, 16)
  {
    hide EventFields, EventOfFields, IntOf, UIntOf, U32Of, FlagOf, Norm, FitsSigned, IntegerIn;
    WordsRewritten(f, e);
    UnsignedExactly(f[6], U32_LIMIT - 1);
    UnsignedExactly(f[10], U32_LIMIT - 1);
    UnsignedExactly(f[13], U32_LIMIT - 1);
    UnsignedExactly(f[16], 31);
  }

  lemma SignedInvert(f: seq<Value>, e: Event)
    requires |f| == 21 && EventNumbersOk(f) && EventOfFields(f) == Ok(e)
    ensures (Same(e, f, 4) <==> FitsSigned(f[4])) && (Same(e, f, 7) <==> FitsSigned(f[7]))
  {
    hide EventFields, EventOfFields, IntOf, UIntOf, U32Of, FlagOf, Norm, FitsSigned, IntegerIn;
    NumbersRewritten(f, e);
    SignedExactly(f[4]);
    SignedExactly(f[7]);
  }

  lemma SequenceIsNatural(sequence: Value)
    ensures IntegerIn(sequence, 1, U64_LIMIT - 1) ==> IntegerIn(sequence, 0, U64_LIMIT - 1)
  {
  }

  lemma FlagExactly(v: Value)
    ensures v.Bool? ==> Bool(FlagOf(v) != 0) == v
  {
  }

  /** Read and written again, the fields are equal exactly when the two signed numbers fit. */
  lemma FieldsInvert(f: seq<Value>, e: Event)
    requires |f| == 21 && EventFieldsOk(f) && EventOfFields(f) == Ok(e)
    ensures (forall i :: 0 <= i < 21 ==> Same(e, f, i)) <==> FitsSigned(f[4]) && FitsSigned(f[7])
  {
    hide EventOfFields, Same, FitsSigned, EventTextsOk, EventNamesOk, EventNumbersOk;
    TextsInvert(f, e);
    NamesInvert(f, e);
    SizesInvert(f, e);
    WordsInvert(f, e);
    SignedInvert(f, e);
    if FitsSigned(f[4]) && FitsSigned(f[7]) {
      AllSame(e, f);
    }
  }

  lemma SignedKeys()
    ensures EventKeys()[4] == "native_error_code" && EventKeys()[7] == "offset"
  {
  }

  /**
   * A schema-valid event document is an event's own document exactly when its error code and its offset fit
   * 64 bits with a sign: the schema admits only what some recorder could write.
   */
  lemma ValidEventsAreWritten(doc: Value, e: Event)
    requires ValidEvent(doc) && Proper(doc) && ParseEvent(doc) == Ok(e)
    ensures Eq(EventJson(e), doc) <==>
            FitsSigned(Get(doc, "native_error_code")) && FitsSigned(Get(doc, "offset"))
  {
    SignedKeys();
    EventKeysAscend();
    hide EventFieldsOk, EventOfFields, EventFields, Eq, Get, Ascending, Less, FitsSigned, EventKeys;
    var keys := EventKeys();
    var f := FieldsOf(doc, keys);
    DocumentIsRecord(doc, keys);
    FieldsInvert(f, e);
    EqualRecords(keys, EventFields(e), f);
    hide Norm;
    assert forall i :: 0 <= i < 21 ==> (Same(e, f, i) <==> Norm(EventFields(e)[i]) == Norm(f[i]));
  }

  lemma EqualRecords(keys: seq<string>, g: seq<Value>, f: seq<Value>)
    requires |keys| == |g| == |f|
    ensures Eq(Record(keys, g), Record(keys, f)) <==> forall i :: 0 <= i < |keys| ==> Norm(g[i]) == Norm(f[i])
  {
    hide Norm;
    forall i | 0 <= i < |keys| ensures Eq(g[i], f[i]) <==> Norm(g[i]) == Norm(f[i]) {
      EqIsSameNorm(g[i], f[i]);
    }
  }

  /** The addresses of a schema-valid event document can be read exactly when each fits 64 bits. */
  lemma AddressesRead(v: Value)
    requires IsAddress(v)
    ensures AddressOf(v).Ok? <==> exists a: u64 :: v == String(ToHex(a))
  {
    hide IsAddress, HexMeaning, Numeral, AddressOf;
    AddressesExactly(v);
    var n: nat :| v == String("0x" + Numeral(n, Sixteen));
    AddressMeans(n);
    assert n < U64_LIMIT ==> v == String(ToHex(n));
    if a: u64 :| v == String(ToHex(a)) {
      AddressMeans(a);
    }
  }

  // -------------------------------------------------------------------------
  // Headers and footers
  // -------------------------------------------------------------------------

  lemma ListExactly(v: Value)
    requires IsApiList(v)
    ensures Array(Texts(TextsOf(v))) == v
  {
    var apis := TextsOf(v);
    forall i | 0 <= i < |v.items| ensures Texts(apis)[i] == v.items[i] {
      assert OneOf(v.items[i], PosixApis() + WindowsApis());
    }
  }

  lemma HeaderFieldsInvert(f: seq<Value>)
    requires |f| == 7 && HeaderFieldsOk(f)
    ensures forall i :: 0 <= i < 7 ==> Norm(HeaderFields(HeaderOfFields(f))[i]) == Norm(f[i])
  {
    hide Norm, IsApiList, Texts, TextsOf, U32Of, UIntOf;
    ListExactly(f[2]);
    OneIsNatural(f[0], 1);
    OneIsNatural(f[1], 4096);
    UnsignedExactly(f[0], 1);
    UnsignedExactly(f[1], 4096);
  }

  lemma OneIsNatural(v: Value, high: int)
    ensures IntegerIn(v, 1, high) ==> IntegerIn(v, 0, high) && 1 <= UIntOf(v) <= high
  {
  }

  /**
   * A schema-valid header document is its header's own document; its interfaces are then the whole set of its
   * platform exactly when a configured recorder could have written it.
   */
  lemma ValidHeadersAreWritten(doc: Value)
    requires ValidHeader(doc) && Proper(doc)
    ensures Eq(HeaderJson(ParseHeader(doc)), doc)
    ensures var h := ParseHeader(doc);
      && (h.platform == "posix" || h.platform == "windows")
      && (WritableHeader(h) <==>
            h.instrumentedApis == if h.platform == "windows" then ["VirtualAlloc", "VirtualProtect", "VirtualFree"]
                                  else ["mmap", "mprotect", "munmap"])
  {
    HeaderKeysAscend();
    var keys := HeaderKeys();
    var f := FieldsOf(doc, keys);
    ReadHeaders(f);
    hide Norm, Ascending, Less, HeaderKeys, Eq, HeaderFields, HeaderOfFields, IsApiList, WritableHeader, Get;
    DocumentIsRecord(doc, keys);
    HeaderFieldsInvert(f);
    EqualRecords(keys, HeaderFields(ParseHeader(doc)), f);
  }

  lemma ReadHeaders(f: seq<Value>)
    requires |f| == 7 && HeaderFieldsOk(f)
    ensures var h := HeaderOfFields(f);
      && (h.platform == "posix" || h.platform == "windows")
      && (WritableHeader(h) <==>
            h.instrumentedApis == if h.platform == "windows" then ["VirtualAlloc", "VirtualProtect", "VirtualFree"]
                                  else ["mmap", "mprotect", "munmap"])
  {
    hide IsApiList, TextsOf, UIntOf;
    OneIsNatural(f[0], 1);
    OneIsNatural(f[1], 4096);
    assert U32Of(f[0]) == UIntOf(f[0]) && U32Of(f[1]) == UIntOf(f[1]);
  }

  /** A schema-valid footer document is its footer's own document. */
  lemma ValidFootersAreWritten(doc: Value)
    requires ValidFooter(doc) && Proper(doc)
    ensures Eq(FooterJson(ParseFooter(doc)), doc)
  {
    FooterKeysAscend();
    var keys := FooterKeys();
    var f := FieldsOf(doc, keys);
    hide Norm, Ascending, Less, FooterKeys, Eq, Get, IsDigest, UIntOf;
    DocumentIsRecord(doc, keys);
    UnsignedExactly(f[2], U64_LIMIT - 1);
    UnsignedExactly(f[3], U64_LIMIT - 1);
    UnsignedExactly(f[5], U64_LIMIT - 1);
    EqualRecords(keys, FooterFields(ParseFooter(doc)), f);
  }

  // -------------------------------------------------------------------------
  // Fields by name
  // -------------------------------------------------------------------------

  lemma EventGet(e: Event, key: string, i: nat)
    requires i < 21 && EventKeys()[i] == key
    ensures Get(EventJson(e), key) == EventFields(e)[i]
  {
    hide EventKeys, EventFields, Get, Less;
    EventKeysAscend();
    RecordGet(EventKeys(), EventFields(e), i);
  }

  /** Each address, each size, the sequence number and the exactness of an event stand under their own names. */
  lemma AddressesByName(e: Event)
    ensures Get(EventJson(e), "effective_address") == String(ToHex(e.effectiveAddress))
    ensures Get(EventJson(e), "expected_address") == String(ToHex(e.expectedAddress))
    ensures Get(EventJson(e), "requested_address") == String(ToHex(e.requestedAddress))
    ensures Get(EventJson(e), "returned_address") == String(ToHex(e.returnedAddress))
    ensures Get(EventJson(e), "effective_size") == UInt(e.effectiveSize)
    ensures Get(EventJson(e), "size") == UInt(e.size)
    ensures Get(EventJson(e), "sequence") == UInt(e.sequence)
    ensures Get(EventJson(e), "exact_address_required") == Bool(e.exactRequired != 0)
  {
    hide EventJson, Get, ToHex, DomainName, PlatformName, ViolationName, OperationName, Less;
    EventGet(e, "effective_address", 0);
    EventGet(e, "expected_address", 3);
    EventGet(e, "requested_address", 12);
    EventGet(e, "returned_address", 14);
    EventGet(e, "effective_size", 1);
    EventGet(e, "size", 18);
    EventGet(e, "sequence", 17);
    EventGet(e, "exact_address_required", 2);
  }

  /** Each number of an event stands under its own name. */
  lemma NumbersByName(e: Event)
    ensures Get(EventJson(e), "native_error_code") == Int(e.errorCode)
    ensures Get(EventJson(e), "offset") == Int(e.offset)
    ensures Get(EventJson(e), "native_flags") == UInt(e.nativeFlags)
    ensures Get(EventJson(e), "previous_protection") == UInt(e.previousProtection)
    ensures Get(EventJson(e), "requested_protection") == UInt(e.requestedProtection)
  {
    hide EventJson, Get, ToHex, DomainName, PlatformName, ViolationName, OperationName, Less;
    EventGet(e, "native_error_code", 4);
    EventGet(e, "offset", 7);
    EventGet(e, "native_flags", 6);
    EventGet(e, "previous_protection", 10);
    EventGet(e, "requested_protection", 13);
  }

  lemma MarksByName(e: Event)
    ensures Get(EventJson(e), "semantic_flags") == UInt(e.semanticFlags)
    ensures Get(EventJson(e), "record_type") == String("event")
    ensures Get(EventJson(e), "schema") == String(SCHEMA_VERSION)
  {
    hide EventJson, Get, ToHex, DomainName, PlatformName, ViolationName, OperationName, Less;
    EventGet(e, "semantic_flags", 16);
    EventGet(e, "record_type", 11);
    EventGet(e, "schema", 15);
  }

  /** Each enumeration is written as the name that the schema lists at its number. */
  lemma NamesByName(e: Event)
    requires Encodable(e)
    ensures Get(EventJson(e), "native_error_domain") == String(["none", "errno", "win32"][e.errorDomain])
    ensures Get(EventJson(e), "operation") == String(Operations()[e.operation - 1])
    ensures Get(EventJson(e), "platform") == String(["posix", "windows"][e.platform - 1])
    ensures Get(EventJson(e), "status") == String(["failure", "success"][e.success])
    ensures Get(EventJson(e), "violation") ==
            String(["none", "exact_address_relocated", "invalid_expectation"][e.violation])
  {
    hide EventJson, Get, ToHex, OperationName, Less;
    NamesAreListed(e);
    EventGet(e, "native_error_domain", 5);
    EventGet(e, "operation", 8);
    EventGet(e, "platform", 9);
    EventGet(e, "status", 19);
    EventGet(e, "violation", 20);
  }

  lemma HeaderGet(h: Header, key: string, i: nat)
    requires i < 7 && HeaderKeys()[i] == key
    ensures Get(HeaderJson(h), key) == HeaderFields(h)[i]
  {
    hide HeaderKeys, HeaderFields, Get, Less;
    HeaderKeysAscend();
    RecordGet(HeaderKeys(), HeaderFields(h), i);
  }

  /** So does each field of a header. */
  lemma HeadersByName(h: Header)
    ensures Get(HeaderJson(h), "abi_version") == UInt(h.abiVersion)
    ensures Get(HeaderJson(h), "buffer_capacity") == UInt(h.bufferCapacity)
    ensures Get(HeaderJson(h), "instrumented_apis") == Array(Texts(h.instrumentedApis))
    ensures Get(HeaderJson(h), "monitor_mode") == String(h.monitorMode)
    ensures Get(HeaderJson(h), "platform") == String(h.platform)
    ensures Get(HeaderJson(h), "record_type") == String("header")
    ensures Get(HeaderJson(h), "schema") == String(SCHEMA_VERSION)
  {
    hide HeaderJson, Get, Texts, Less;
    HeaderGet(h, "abi_version", 0);
    HeaderGet(h, "buffer_capacity", 1);
    HeaderGet(h, "instrumented_apis", 2);
    HeaderGet(h, "monitor_mode", 3);
    HeaderGet(h, "platform", 4);
    HeaderGet(h, "record_type", 5);
    HeaderGet(h, "schema", 6);
  }

  lemma FooterGet(f: Footer, key: string, i: nat)
    requires i < 7 && FooterKeys()[i] == key
    ensures Get(FooterJson(f), key) == FooterFields(f)[i]
  {
    hide FooterKeys, FooterFields, Get, Less;
    FooterKeysAscend();
    RecordGet(FooterKeys(), FooterFields(f), i);
  }

  /** So does each field of a footer. */
  lemma FootersByName(f: Footer)
    ensures Get(FooterJson(f), "complete") == Bool(f.complete)
    ensures Get(FooterJson(f), "digest") == String(f.digest)
    ensures Get(FooterJson(f), "dropped_events") == UInt(f.droppedEvents)
    ensures Get(FooterJson(f), "event_count") == UInt(f.eventCount)
    ensures Get(FooterJson(f), "record_type") == String("footer")
    ensures Get(FooterJson(f), "reentrant_events") == UInt(f.reentrantEvents)
    ensures Get(FooterJson(f), "schema") == String(SCHEMA_VERSION)
  {
    hide FooterJson, Get, Texts, Less;
    FooterGet(f, "complete", 0);
    FooterGet(f, "digest", 1);
    FooterGet(f, "dropped_events", 2);
    FooterGet(f, "event_count", 3);
    FooterGet(f, "record_type", 4);
    FooterGet(f, "reentrant_events", 5);
    FooterGet(f, "schema", 6);
  }
}
