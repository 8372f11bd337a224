/** The message struct of mavlink_types.h, which both directions fill in place. */
module Messages {
  import opened Bytes
  import opened Framing

  /** 33 64-bit words: payload, with room for the checksum behind it. */
  const PAYLOAD_BYTES := 264

  class Message {
    var checksum: bv16
    var magic: byte
    var len: byte
    var incompatFlags: byte
    var compatFlags: byte
    var seqno: byte
    var sysid: byte
    var compid: byte
    var msgid: nat
    const payload: array<byte>
    var ck0: byte
    var ck1: byte
    const signature: array<byte>

    ghost predicate Shaped()
      reads this
    {
      && payload.Length == PAYLOAD_BYTES && signature.Length == SIGNATURE_BLOCK_LEN && payload != signature
      && msgid < 0x100_0000
    }

    constructor ()
      ensures Shaped() && fresh(payload) && fresh(signature)
    {
      checksum := 0;
      magic, len, incompatFlags, compatFlags, seqno, sysid, compid, msgid, ck0, ck1 := 0, 0, 0, 0, 0, 0, 0, 0, 0, 0;
      payload := new byte[PAYLOAD_BYTES](_ => 0);
      signature := new byte[SIGNATURE_BLOCK_LEN](_ => 0);
    }

    /** The ten bytes from `magic` on, as the packed little-endian struct lays them out. */
    function StructHeader(): (h: seq<byte>)
      reads this
      ensures |h| == 10
    {
      HeaderV2(magic, len, incompatFlags, compatFlags, seqno, sysid, compid, msgid)
    }

    /** The received MAVLink 2 frame, when all of it is in the struct. */
    ghost function ReceivedBytes(): seq<byte>
      requires Shaped()
      reads this, payload, signature
    {
      StructHeader() + payload[..len] + [ck0, ck1] + signature[..]
    }
  }
}
