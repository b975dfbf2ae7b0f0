/** Realtime datagrams on the wire (`realtime.rs`): a fixed header and the rest is payload. */
module RealtimeWire {
  import opened Base
  import opened Wire
  import opened RealtimeSpec

  /** `MLRD`, wire version 1. */
  const PREAMBLE: Bytes := [0x4D, 0x4C, 0x52, 0x44, 1]

  datatype Received = Received(flow: u16, generation: u32, sequence: u64, priority: Priority, payload: Bytes)

  function Encode(d: Received): (b: Bytes)
    ensures |b| == HEADER_LEN + |d.payload|
  {
    PREAMBLE + [d.priority] + Put16(d.flow) + Put32(d.generation) + Put64(d.sequence) + d.payload
  }

  function Decode(b: Bytes): Option<Received> {
    if |b| < HEADER_LEN || b[..5] != PREAMBLE || b[5] > 3 then None
    else Some(Received(Get16(b[6..8]), Get32(b[8..12]), Get64(b[12..20]), b[5], b[20..]))
  }

  /** The flow a receiver can attribute even when the priority is not one it knows. */
  function FlowFromWire(b: Bytes): Option<u16> {
    if |b| >= HEADER_LEN && b[..5] == PREAMBLE then Some(Get16(b[6..8])) else None
  }

  lemma EncodedParts(d: Received)
    ensures var b := Encode(d);
            && b[..5] == PREAMBLE && b[5] == d.priority && b[6..8] == Put16(d.flow)
            && b[8..12] == Put32(d.generation) && b[12..20] == Put64(d.sequence) && b[20..] == d.payload
  {
    hide Put16, Put32, Put64;
  }

  /** Every datagram survives the wire, whatever its payload, and its flow can be read on its own. */
  lemma DecodeInvertsEncode(d: Received)
    ensures Decode(Encode(d)) == Some(d) && FlowFromWire(Encode(d)) == Some(d.flow)
  {
    EncodedParts(d);
    GetPut16(d.flow);
    GetPut32(d.generation);
    GetPut64(d.sequence);
  }

  /** Every accepted datagram is the encoding of what it decodes to. */
  lemma EncodeInvertsDecode(b: Bytes)
    requires Decode(b).Some?
    ensures Encode(Decode(b).value) == b && FlowFromWire(b) == Some(Decode(b).value.flow)
  {
    hide Put16, Put32, Put64, Get16, Get32, Get64;
    PutGet16(b[6..8]);
    PutGet32(b[8..12]);
    PutGet64(b[12..20]);
    assert b == b[..5] + [b[5]] + b[6..8] + b[8..12] + b[12..20] + b[20..];
  }
}
