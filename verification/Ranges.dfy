/** Address ranges and the range records a probe writes. */
module Ranges {
  import opened Words
  import opened Wrappers
  import opened Evidence

  /** Half-open: `[start, end)`. */
  datatype AddressRange = AddressRange(start: u64, end: u64) {

    predicate Empty() {
      end <= start
    }

    predicate HasAddress(a: int) {
      start <= a < end
    }

    /** False for an empty argument. */
    predicate Contains(other: AddressRange) {
      !other.Empty() && other.start >= start && other.end <= end
    }

    predicate Intersects(other: AddressRange) {
      !Empty() && !other.Empty() && start < other.end && other.start < end
    }
  }

  datatype ClassifiedRange = ClassifiedRange(range: AddressRange, evidence: EvidenceClass, note: string)

  /** `AddressRange::from_base_size`: nothing when the size is zero or the end is not a 64-bit address. */
  function FromBaseSize(base: u64, size: u64): Option<AddressRange> {
    if size == 0 || base + size >= U64_LIMIT then None else Some(AddressRange(base, base + size))
  }
}
