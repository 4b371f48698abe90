/** Result types and address units shared by every component. */
module Common {
  datatype Option<+T> = None | Some(value: T)

  /** Physical addresses of whole 4 KiB frames. */
  type Frame = a: nat | a % 4096 == 0 && a < 0x1_0000_0000

  const PAGE: nat := 0x1000
  const ENTRIES: nat := 1024

  /** Machine words hold the numbers below this; sums wrap around. */
  const TWO32: nat := 0x1_0000_0000

  function Sum32(x: nat, y: nat): nat { (x + y) % TWO32 }

  /** A 32-bit machine word, split into the frame number part and the low twelve bits. The split is
      exact, so `|` and `&` with constants below 0x1000 act on `low` alone. */
  datatype Word = Word(base: Frame, low: bv12)

  function Value(w: Word): nat { w.base + w.low as nat }

  /** Errors of the mapping interface. The ones the modelled code never returns are left out. */
  datatype MappingError =
    | MappingOver(addr: Word)
    | PageAllocationFailed
    | UnmappingPartOfLargePage(addr: Word)

  datatype MappingResult = Ok | Err(error: MappingError)
}
