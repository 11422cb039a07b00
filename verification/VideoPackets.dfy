// The video packet header, the packets on the wire, and the abstract payload cipher.
module VideoPackets {
  import opened Wrappers
  import opened Bytes

  const MAX_PACKET_SIZE := 1400
  const HEADER_SIZE := 21
  const MAX_PAYLOAD := MAX_PACKET_SIZE - HEADER_SIZE
  const DATA_TYPE: u8 := 96
  const FEC_TYPE: u8 := 97

  datatype Header = Header(
    version: u8,
    payloadType: u8,
    sequence: u16,
    timestamp: u32,
    ssrc: u32,
    frameNumber: u16,
    packetIndex: u8,
    totalPackets: u8,
    hostProcTime: u16,
    fecGroupId: u8,
    fecIndex: u8,
    flags: u8)

  datatype Packet = Packet(hdr: Header, payload: seq<Byte>)

  // Bit 0: IDR frame. Bit 1: last packet of the frame. Bit 2: Reed-Solomon parity.
  predicate IdrFlag(flags: u8) { flags % 2 == 1 }

  predicate RsFlag(flags: u8) { flags / 4 % 2 == 1 }

  // ----- AES-GCM, seen from outside: an empty result reports failure

  datatype Nonce = Nonce(a: u32, b: u32, c: u32)

  datatype Cipher = Cipher(encrypt: (Nonce, seq<Byte>) -> seq<Byte>, decrypt: (Nonce, seq<Byte>) -> seq<Byte>)

  // Encryption never fails, and decryption under the same nonce undoes it.
  ghost predicate Lawful(c: Cipher) {
    forall n: Nonce, p: seq<Byte> :: p != [] ==>
      c.encrypt(n, p) != [] && c.decrypt(n, c.encrypt(n, p)) == p
  }

  function PacketNonce(hdr: Header): Nonce {
    Nonce(hdr.ssrc, hdr.frameNumber, hdr.sequence)
  }

  // What the sender puts on the wire: a payload that cannot be encrypted goes out as it is.
  function Seal(crypto: Option<Cipher>, pkt: Packet): Packet {
    match crypto
    case None => pkt
    case Some(c) =>
      var e := c.encrypt(PacketNonce(pkt.hdr), pkt.payload);
      if e != [] then pkt.(payload := e) else pkt
  }

  // What the receiver makes of it: None when the packet is dropped. Parity packets are not decrypted.
  function Open(crypto: Option<Cipher>, pkt: Packet): Option<seq<Byte>> {
    if crypto.None? || pkt.hdr.payloadType == FEC_TYPE then Some(pkt.payload)
    else
      var d := crypto.value.decrypt(PacketNonce(pkt.hdr), pkt.payload);
      if d != [] then Some(d) else None
  }

  // The nonce is rebuilt from the header, so opening undoes sealing.
  lemma {:induction false} OpenSeal(crypto: Option<Cipher>, pkt: Packet)
    requires crypto.Some? ==> Lawful(crypto.value)
    requires pkt.payload != [] && pkt.hdr.payloadType != FEC_TYPE
    ensures Open(crypto, Seal(crypto, pkt)) == Some(pkt.payload)
  {
    if crypto.Some? {
      var n := PacketNonce(pkt.hdr);
      assert crypto.value.encrypt(n, pkt.payload) != [];
    }
  }
}
