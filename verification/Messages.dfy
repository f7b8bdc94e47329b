/** MIH messages as the transaction layer sees them: header fields, source and
    destination identifiers, and the service-specific TLVs left abstract. */
module Messages {

  type uint16 = x: int | 0 <= x < 0x1_0000
  type uint32 = x: int | 0 <= x < 0x1_0000_0000

  /** An MIHF identifier; the empty one addresses every MIHF. */
  type Id = string

  datatype Option<+T> = None | Some(value: T)

  datatype Opcode = Confirm | Request | Response | Indication

  /** A message identifier: the operation code sits inside it, beside the
      service and action numbers. */
  datatype Mid = Mid(opcode: Opcode, action: nat)

  datatype Message = Message(
    mid: Mid, ackreq: bool, ackrsp: bool, tid: uint16,
    source: Id, destination: Id, tlvs: seq<nat>)
  {
    function Opcode(): Opcode { mid.opcode }

    predicate HasServiceTlv() { tlvs != [] }

    predicate IsMulticast() { destination == "" }

    /** A header that only acknowledges a request. */
    predicate IsRequestAck() { ackrsp && mid.opcode.Request? }

    /** Which pool an incoming message belongs to: acknowledgements of what we
        sent and answers go to the source machine, the rest to the destination
        machine. */
    predicate ForSource() {
      || (ackrsp && (mid.opcode.Request? || mid.opcode.Indication?))
      || (!ackrsp && mid.opcode.Response?)
      || (ackrsp && mid.opcode.Response? && HasServiceTlv())
    }
  }

  /** What the message handler does when it is called: the message it leaves
      in its second argument and whether it asks for it to be sent. */
  datatype Outcome = Outcome(out: Message, avail: bool)

  /** Unsigned arithmetic of the two countdowns and the retransmission counter. */
  function Dec32(x: uint32): uint32 { if x == 0 then 0xFFFF_FFFF else x - 1 }

  function Inc32(x: uint32): uint32 { if x == 0xFFFF_FFFF then 0 else x + 1 }

  /** The next transaction identifier: 16-bit increment that skips 0. */
  function NextTid(tid: uint16): uint16 {
    var t := (tid + 1) % 0x1_0000;
    if t == 0 then 1 else t
  }
}
