/** Integer widths, constants and result codes shared by the modules of the swap store. */
module SwapTypes {

  const U32: nat := 0x1_0000_0000
  const U64: nat := 0x1_0000_0000_0000_0000

  const DIO_ALIGNMENT: nat := 4096
  const DEFAULT_SPACE_LIMIT: nat := 1024 * 1024 * 1024
  const MIN_AVAILABLE_SPACE: nat := 5 * 1024 * 1024 * 1024

  type Key = nat
  type Bytes = seq<bv8>

  datatype Option<+T> = None | Some(value: T)

  datatype Code =
    | Ok
    | Inval
    | DioAlign
    | BufferTooSmall
    | KeyNotFound
    | KeyStateInvalid
    | Busy
    | NoSpc
    | QuotaExceeded
    | IoError
    | Acces
    | PathUnavailable
    | ShuttingDown
    | NoMem

  /** Unsigned addition and subtraction that wrap around at the given width. */
  function AddWrap(width: nat, a: nat, b: nat): nat {
    if a + b < width then a + b else a + b - width
  }

  function SubWrap(width: nat, a: nat, b: nat): nat {
    if a >= b then a - b else if a + width >= b then a + width - b else 0
  }

  /** A 64-bit signed value reinterpreted as unsigned. */
  function ToUnsigned64(v: int): nat {
    v % U64
  }

  predicate IsDioAligned(addr: nat, size: nat) {
    addr % DIO_ALIGNMENT == 0 && size % DIO_ALIGNMENT == 0
  }

  /** The sum of the elements of `s` from position `from` on. */
  function SumFrom(s: seq<nat>, from: nat): nat
    decreases |s| - from
  {
    if from >= |s| then 0 else s[from] + SumFrom(s, from + 1)
  }

  lemma {:induction false} SumFromAppend(s: seq<nat>, x: nat, from: nat)
    requires from <= |s|
    ensures SumFrom(s + [x], from) == SumFrom(s, from) + x
    decreases |s| - from
  {
    if from < |s| {
      SumFromAppend(s, x, from + 1);
    } else {
      assert SumFrom(s + [x], from + 1) == 0;
    }
  }
}
