/** Shared value types: machine integers, positions, errors and results. */
module Prelude {

  const TWO8: int := 0x100
  const TWO15: int := 0x8000
  const TWO16: int := 0x1_0000
  const TWO31: int := 0x8000_0000
  const TWO32: int := 0x1_0000_0000
  const TWO64: int := 0x1_0000_0000_0000_0000

  type u8 = x: int | 0 <= x < 0x100
  type u32 = x: int | 0 <= x < 0x1_0000_0000
  type u64 = x: int | 0 <= x < 0x1_0000_0000_0000_0000
  type i16 = x: int | -0x8000 <= x < 0x8000
  type i32 = x: int | -0x8000_0000 <= x < 0x8000_0000
  type i64 = x: int | -0x8000_0000_0000_0000 <= x < 0x8000_0000_0000_0000

  /** A WAL position. Positions are compared and copied, never added to. */
  type Lsn = u64

  function Max(a: Lsn, b: Lsn): Lsn {
    if a < b then b else a
  }

  /** The error variants, without their message texts. */
  datatype Error =
    | SlotMissing
    | SlotAhead(slotLsn: Lsn, durable: Lsn)
    | SlotUnusable
    | SlotBusyTimedOut(waited: nat, budget: nat)
    | DecodeError
    | UnsupportedMessage(kind: u8)
    | UnknownRelation(relationId: u32)
    | TransactionTooLarge(limit: nat)
    | AckBeyondDurable(attempted: Lsn, durablePosition: Lsn)
    | Sink
    | Connection
    | InvalidDatabaseUrl
    | InvalidReconnectBounds(initial: nat, max: nat)
  {
    /** Only a lost connection is worth another attempt. */
    predicate IsFatal() {
      !Connection?
    }
  }

  datatype Option<+T> = None | Some(value: T)

  datatype Result<+T> = Ok(value: T) | Err(error: Error) {
    predicate IsFailure() {
      Err?
    }

    function PropagateFailure<U>(): Result<U>
      requires Err?
    {
      Err(error)
    }

    function Extract(): T
      requires Ok?
    {
      value
    }
  }
}
