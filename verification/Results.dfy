/** What the decoder returns. */
module Results {
  const MAX_PAYLOAD: nat := 8896

  datatype DecodeError =
    | Success | InvalidGridSize | InvalidVersion | FormatEcc | DataEcc | DataOverflow | DataUnderflow

  class QuircData {
    var version: int
    var eccLevel: nat
    var mask: nat
    var dataType: nat
    var eci: nat
    const payload: array<bv8>
    var payloadLen: nat

    ghost predicate Valid() {
      payload.Length == MAX_PAYLOAD
    }

    constructor ()
      ensures Valid() && fresh(payload)
    {
      version, eccLevel, mask, dataType, eci, payloadLen := 0, 0, 0, 0, 0, 0;
      payload := new bv8[MAX_PAYLOAD](i => 0);
    }
  }
}
