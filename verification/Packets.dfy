/** Data packets and the storage units that hold them (CPacket and CUnit, reduced to what the buffers read). */
module Packets {
  import opened SeqNo

  type Byte = b: int | 0 <= b < 0x100

  datatype Option<+T> = None | Some(value: T)

  /** `isFirst` and `isLast` are the PB_FIRST and PB_LAST bits; a solo packet has both. */
  datatype Packet = Packet(seqno: Seq, msgno: nat, isFirst: bool, isLast: bool, inOrder: bool, payload: seq<Byte>)

  datatype Unit = Unit(id: nat, packet: Packet)

  /** The payloads of consecutive packets, one after the other. */
  function Payloads(ps: seq<Packet>): seq<Byte> {
    if ps == [] then [] else ps[0].payload + Payloads(ps[1..])
  }

  lemma {:induction false} PayloadsAppend(ps: seq<Packet>, qs: seq<Packet>)
    ensures Payloads(ps + qs) == Payloads(ps) + Payloads(qs)
  {
    if ps == [] {
      assert ps + qs == qs;
    } else {
      assert (ps + qs)[1..] == ps[1..] + qs;
      PayloadsAppend(ps[1..], qs);
      assert ps[0].payload + (Payloads(ps[1..]) + Payloads(qs)) == (ps[0].payload + Payloads(ps[1..])) + Payloads(qs);
    }
  }
}
