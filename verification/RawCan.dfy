/** The observed raw Classic CAN data frame (can/models.py). */
module RawCan {

  type byte = x: int | 0 <= x < 256

  const MAXIMUM_ID: nat := 0x7FF
  const MAXIMUM_PAYLOAD: nat := 8

  datatype RawFrame = RawFrame(arbitrationId: nat, payload: seq<byte>, timestamp: nat)

  /** The limits of a standard data frame: section 3.1.1 of the Bosch CAN Specification 2.0, Part A. */
  predicate ValidFrame(f: RawFrame) {
    f.arbitrationId <= MAXIMUM_ID && |f.payload| <= MAXIMUM_PAYLOAD
  }

  /** Timestamps never fall. */
  predicate Sorted(fs: seq<RawFrame>) {
    forall i, j :: 0 <= i <= j < |fs| ==> fs[i].timestamp <= fs[j].timestamp
  }
}
