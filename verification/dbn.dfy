/**
 * The parts of the Databento DBN record format the engine reads: the MBO
 * (market-by-order) message with its side and action enumerations, and the
 * stream of callbacks a file replay delivers. Decoding itself is not modelled:
 * a replay is given as the sequence of items the decoder would produce.
 */
module Dbn {
  import opened Ints

  datatype Side = Ask | Bid | NoSide

  datatype Action = Add | Cancel | Modify | Clear | Trade | Fill | NoAction

  /** Databento's `kUndefPrice`: the largest signed 64-bit value marks "no price". */
  const UndefPrice: i64 := 0x7FFF_FFFF_FFFF_FFFF

  /** An MBO message: the record header's publisher and instrument ids, the
      top-of-book flag from `flags`, and the receive timestamp. */
  datatype MboMsg = MboMsg(
    orderId: u64,
    price: i64,
    size: u32,
    side: Side,
    action: Action,
    publisherId: u16,
    instrumentId: u32,
    isTob: bool,
    tsRecv: u64)

  /** A decoded record: an MBO message, or a record of any other schema. */
  datatype DbnRecord = Mbo(msg: MboMsg) | OtherRecord

  /** The two kinds of exception a replay is caught with. */
  datatype FaultKind = ResponseError | OtherException

  /** One step of `DbnFileStore::Replay`. A callback carries the record, the value
      the engine's `running_` flag has when the callback reads it, and the
      processing latency a clock would measure for it; a fault is an exception
      with its `what()` text, which ends the replay. */
  datatype Item =
    | Callback(running: bool, rec: DbnRecord, latencyNs: u64)
    | Fault(kind: FaultKind, what: string)
}
