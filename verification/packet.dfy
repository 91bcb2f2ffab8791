/** The two packed SOCKS5 reply structs the local agent writes to applications: the
    2-byte method-selection reply and the 10-byte reply to a request (sections 3 and 6 of
    RFC 1928). Both structs are packed, so their bytes are their fields in declaration
    order; multi-byte fields appear in host memory order. */
module Packet {
  import opened Bytes

  type uint16 = x: nat | x < 0x1_0000
  type uint32 = x: nat | x < 0x1_0000_0000

  datatype Verify = Verify(ver: byte, selected: byte)

  /** A default-constructed `verify`: version 5, method "no authentication". */
  const DefaultVerify: Verify := Verify(0x05, 0x00)

  datatype Response = Response(ver: byte, rep: byte, rsv: byte, atyp: byte, addr: uint32, port: uint16)

  /** A default-constructed `response`: version 5, success, IPv4 0.0.0.0 port 0. */
  const DefaultResponse: Response := Response(0x05, 0x00, 0x00, 0x01, 0, 0)

  const VerifySize: nat := 2
  const ResponseSize: nat := 10

  function SerializeVerify(v: Verify): (b: Bytes)
    ensures |b| == VerifySize
  {
    [v.ver, v.selected]
  }

  function ParseVerify(b: Bytes): (v: Verify)
    requires |b| == VerifySize
  {
    Verify(b[0], b[1])
  }

  function SerializeResponse(r: Response): (b: Bytes)
    ensures |b| == ResponseSize
  {
    [r.ver, r.rep, r.rsv, r.atyp] + LittleEndian(r.addr, 4) + LittleEndian(r.port, 2)
  }

  /** Reads the 10 bytes back into the struct, field by field. */
  function ParseResponse(b: Bytes): (r: Response)
    requires |b| == ResponseSize
  {
    ReadLittleEndianInverse(b[4..8]);
    ReadLittleEndianInverse(b[8..10]);
    Response(b[0], b[1], b[2], b[3], ReadLittleEndian(b[4..8]), ReadLittleEndian(b[8..10]))
  }

  lemma VerifyRoundTrip(v: Verify, b: Bytes)
    requires |b| == VerifySize
    ensures ParseVerify(SerializeVerify(v)) == v
    ensures SerializeVerify(ParseVerify(b)) == b
  {
  }

  /** No padding: serialising then reading back gives the struct, and every 10 bytes are
      the serialisation of exactly one struct. */
  lemma ResponseRoundTrip(r: Response, b: Bytes)
    requires |b| == ResponseSize
    ensures ParseResponse(SerializeResponse(r)) == r
    ensures SerializeResponse(ParseResponse(b)) == b
  {
    var s := SerializeResponse(r);
    assert s[4..8] == LittleEndian(r.addr, 4);
    assert s[8..10] == LittleEndian(r.port, 2);
    assert Pow256(4) == 0x1_0000_0000 && Pow256(2) == 0x1_0000;
    LittleEndianRoundTrip(r.addr, 4);
    LittleEndianRoundTrip(r.port, 2);
    ReadLittleEndianInverse(b[4..8]);
    ReadLittleEndianInverse(b[8..10]);
    assert b == b[..4] + b[4..8] + b[8..10];
  }

  /** The method-selection reply: `05 00` accepts, `05 FF` rejects. */
  function MethodReply(selected: byte): (b: Bytes)
    ensures b == [0x05, selected]
  {
    SerializeVerify(DefaultVerify.(selected := selected))
  }

  /** An error reply: a default response with only `rep` changed. */
  function ErrorReply(rep: byte): (b: Bytes)
    ensures b == [0x05, rep, 0x00, 0x01, 0, 0, 0, 0, 0, 0]
  {
    SerializeResponse(DefaultResponse.(rep := rep))
  }

  /** The success reply, carrying the address and port numbers exactly as the remote
      agent reported them (assignment to the narrower struct fields truncates). */
  function SuccessReply(addr: nat, port: nat): (b: Bytes)
    ensures |b| == ResponseSize && b[..4] == [0x05, 0x00, 0x00, 0x01]
    ensures ParseResponse(b).addr == ToUint32(addr) && ParseResponse(b).port == ToUint16(port)
  {
    var r := DefaultResponse.(addr := ToUint32(addr), port := ToUint16(port));
    ResponseRoundTrip(r, SerializeResponse(r));
    SerializeResponse(r)
  }

  /** The remote agent reports the destination's address and port in network byte order
      (`ipNetEndian`, `portNetEndian`): numbers whose in-memory bytes on this host are the
      big-endian bytes. Copied into the packed struct, those bytes reach the application
      unchanged, so the reply carries the bound address and port in network order. */
  lemma SuccessReplyIsNetworkOrder(ip: Bytes, port: Bytes)
    requires |ip| == 4 && |port| == 2
    ensures SuccessReply(ReadLittleEndian(ip), ReadLittleEndian(port)) == [0x05, 0x00, 0x00, 0x01] + ip + port
  {
    var a := ReadLittleEndian(ip);
    var p := ReadLittleEndian(port);
    ReadLittleEndianInverse(ip);
    ReadLittleEndianInverse(port);
    assert Pow256(4) == 0x1_0000_0000 && Pow256(2) == 0x1_0000;
    ToUint32Small(a);
    ToUint16Small(p);
    var r := Response(0x05, 0x00, 0x00, 0x01, a, p);
    assert DefaultResponse.(addr := ToUint32(a), port := ToUint16(p)) == r;
    assert LittleEndian(r.addr, 4) == ip && LittleEndian(r.port, 2) == port;
    assert SerializeResponse(r) == [0x05, 0x00, 0x00, 0x01] + ip + port;
  }
}
