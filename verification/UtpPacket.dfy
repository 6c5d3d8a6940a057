/** The binary form of µTP packets (pkg/utp/packet.go). */
module UtpPacket {
  import opened Bytes

  const ST_DATA: nat := 0
  const ST_FIN: nat := 1
  const ST_STATE: nat := 2

  datatype Packet = Packet(
    kind: nat, version: nat, ext: nat, connID: nat,
    tMicro: nat, tDiff: nat, wndSize: nat, seqNum: nat, ackNum: nat,
    payload: Buf)

  predicate Encodable(p: Packet) {
    && p.kind < 16 && p.version == 1 && p.ext < 256 && p.connID < U16
    && p.tMicro < U32 && p.tDiff < U32 && p.wndSize < U32 && p.seqNum < U16 && p.ackNum < U16
  }

  /** Four bits of type and four of version; what does not fit is cut off. */
  function FirstByte(kind: nat, version: nat): byte {
    kind % 16 * 16 + version % 16
  }

  function Header(p: Packet): (h: Buf)
    ensures |h| == 20
  {
    [FirstByte(p.kind, p.version), p.ext % 256] + Put16(p.connID) + Put32(p.tMicro) + Put32(p.tDiff)
    + Put32(p.wndSize) + Put16(p.seqNum) + Put16(p.ackNum)
  }

  function EncodePacket(p: Packet): Buf { Header(p) + p.payload }

  function DecodePacket(data: Buf): Option<Packet> {
    if |data| < 20 || data[0] % 16 != 1 then None
    else Some(Packet(
      data[0] / 16, data[0] % 16, data[1], GetBE(data[2..4]),
      GetBE(data[4..8]), GetBE(data[8..12]), GetBE(data[12..16]), GetBE(data[16..18]), GetBE(data[18..20]),
      data[20..]))
  }

  lemma HeaderParts(a: Buf, b: Buf, c: Buf, d: Buf, e: Buf, f: Buf, g: Buf, rest: Buf)
    requires |a| == 2 && |b| == 2 && |c| == 4 && |d| == 4 && |e| == 4 && |f| == 2 && |g| == 2
    ensures var h := a + b + c + d + e + f + g + rest;
      && |h| == 20 + |rest| && h[0] == a[0] && h[1] == a[1]
      && h[2..4] == b && h[4..8] == c && h[8..12] == d && h[12..16] == e
      && h[16..18] == f && h[18..20] == g && h[20..] == rest
  {
  }

  lemma FirstByteParts(kind: nat, version: nat)
    requires kind < 16 && version < 16
    ensures FirstByte(kind, version) / 16 == kind && FirstByte(kind, version) % 16 == version
  {
  }

  lemma PacketRoundTrip(p: Packet)
    requires Encodable(p)
    ensures DecodePacket(EncodePacket(p)) == Some(p)
  {
    hide GetBE, PutBE, FirstByte;
    FirstByteParts(p.kind, p.version);
    HeaderParts([FirstByte(p.kind, p.version), p.ext % 256], Put16(p.connID), Put32(p.tMicro), Put32(p.tDiff),
                Put32(p.wndSize), Put16(p.seqNum), Put16(p.ackNum), p.payload);
  }

  /** Exactly the encodings are decoded: any 20 bytes of version 1, each to the packet it is the encoding of. */
  lemma DecodesExactly(data: Buf, p: Packet)
    ensures DecodePacket(data) == Some(p) <==> Encodable(p) && data == EncodePacket(p)
    ensures DecodePacket(data).Some? <==> |data| >= 20 && data[0] % 16 == 1
  {
    if Encodable(p) && data == EncodePacket(p) {
      PacketRoundTrip(p);
    }
    if DecodePacket(data) == Some(p) {
      DecodedIsEncodable(data, p);
    }
  }

  lemma DecodedIsEncodable(data: Buf, p: Packet)
    requires DecodePacket(data) == Some(p)
    ensures Encodable(p) && data == EncodePacket(p)
  {
    Pow256Values();
    FieldBack(data[2..4]);
    FieldBack(data[4..8]);
    FieldBack(data[8..12]);
    FieldBack(data[12..16]);
    FieldBack(data[16..18]);
    FieldBack(data[18..20]);
    hide GetBE, PutBE;
    AllParts(data);
  }

  lemma AllParts(data: Buf)
    requires |data| >= 20
    ensures data == [data[0], data[1]] + data[2..4] + data[4..8] + data[8..12] + data[12..16] + data[16..18]
                    + data[18..20] + data[20..]
  {
  }

  lemma FieldBack(b: Buf)
    ensures PutBE(GetBE(b), |b|) == b && GetBE(b) < Pow256(|b|)
  {
    PutGetBE(b);
    GetBEBound(b);
  }

  // ----- Encoding fills a buffer in place

  /** Writes `b` after the first `at` bytes, which stay as they are. */
  method Fill(a: array<byte>, at: nat, b: Buf)
    requires at + |b| <= a.Length
    modifies a
    ensures a[..at + |b|] == old(a[..at]) + b
  {
    for i := 0 to |b|
      invariant a[..at + i] == old(a[..at]) + b[..i]
    {
      a[at + i] := b[i];
      assert a[..at + i + 1] == a[..at + i] + [b[i]];
      assert b[..i + 1] == b[..i] + [b[i]];
    }
    assert b[..|b|] == b;
  }

  method FillHeader(buf: array<byte>, p: Packet)
    requires buf.Length >= 20
    modifies buf
    ensures buf[..20] == Header(p)
  {
    hide Put16, Put32, FirstByte;
    assert buf[..0] == [];
    Fill(buf, 0, [FirstByte(p.kind, p.version), p.ext % 256]);
    Fill(buf, 2, Put16(p.connID));
    Fill(buf, 4, Put32(p.tMicro));
    Fill(buf, 8, Put32(p.tDiff));
    Fill(buf, 12, Put32(p.wndSize));
    Fill(buf, 16, Put16(p.seqNum));
    Fill(buf, 18, Put16(p.ackNum));
  }

  method Encode(p: Packet) returns (buf: array<byte>)
    ensures fresh(buf) && buf[..] == EncodePacket(p)
  {
    hide Header;
    buf := new byte[20 + |p.payload|](_ => 0);
    FillHeader(buf, p);
    Fill(buf, 20, p.payload);
    assert buf[..] == buf[..20 + |p.payload|];
  }
}
