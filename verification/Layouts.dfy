/**
 * The binary forms byte by byte, with every integer written out: each lemma says which bytes stand at which place, so
 * that an encoder and its decoder cannot agree on another form. Names of helpers of the codecs do not occur.
 */
module Layouts {
  import opened Bytes
  import BlockRepo
  import Closest
  import NodeId
  import Protobuf
  import ProtobufMessages
  import Rpc
  import SecureChannel
  import Storage
  import Turn
  import UtpPacket
  import Varints
  import Wire

  lemma Is16(n: nat)
    ensures Put16(n) == Be16(n)
  {
    PutBEIsBigEndian(n);
  }

  lemma Is32(n: nat)
    ensures Put32(n) == Be32(n)
  {
    PutBEIsBigEndian(n);
  }

  lemma Is64(n: nat)
    ensures Put64(n) == Be64(n)
  {
    PutBEIsBigEndian(n);
  }

  // ----- Replication

  function WithLength(b: Buf): Buf { Be32(|b|) + b }

  lemma WriteBytesIs(b: Buf)
    ensures Wire.WriteBytes(b) == WithLength(b)
  {
    hide Put16, Put32, Put64, Be16, Be32, Be64;
    Is32(|b|);
  }

  lemma {:induction false} WriteAllIs(bs: seq<Buf>)
    ensures Wire.WriteAll(bs) == Concat(seq(|bs|, i requires 0 <= i < |bs| => WithLength(bs[i])))
  {
    hide Wire.WriteBytes, WithLength;
    var parts := seq(|bs|, i requires 0 <= i < |bs| => WithLength(bs[i]));
    if bs != [] {
      WriteBytesIs(bs[0]);
      WriteAllIs(bs[1..]);
      assert parts[1..] == seq(|bs[1..]|, i requires 0 <= i < |bs[1..]| => WithLength(bs[1..][i]));
    }
  }

  lemma ReplicationMessages(a: nat, b: nat, value: Buf, sig: Buf)
    ensures Wire.Encode(Wire.Have(a, b)) == [2] + Be64(a) + Be64(b)
    ensures Wire.Encode(Wire.Want(a, b)) == [3] + Be64(a) + Be64(b)
    ensures Wire.Encode(Wire.Request(a)) == [4] + Be64(a)
    ensures Wire.Encode(Wire.Data(a, value, sig)) == [5] + Be64(a) + Be32(|value|) + value + Be32(|sig|) + sig
  {
    hide Put16, Put32, Put64, Be16, Be32, Be64;
    Is64(a);
    Is64(b);
    WriteBytesIs(value);
    WriteBytesIs(sig);
    hide Wire.WriteBytes;
    Regroup5([5], Be64(a), Be32(|value|), value, Be32(|sig|), sig);
    Regroup2([2], Be64(a), Be64(b));
    Regroup2([3], Be64(a), Be64(b));
  }

  lemma Regroup2(a: Buf, b: Buf, c: Buf)
    ensures a + (b + c) == a + b + c
  {
  }

  lemma Regroup5(a: Buf, b: Buf, c: Buf, d: Buf, e: Buf, f: Buf)
    ensures a + (b + ((c + d) + (e + f))) == a + b + c + d + e + f
  {
  }

  lemma Handshake(protocol: Buf, key: Buf, exts: seq<Buf>)
    ensures Wire.Encode(Wire.Handshake(protocol, key, exts)) ==
      [0] + Be32(|protocol|) + protocol + Be32(|key|) + key + Be32(|exts|)
      + Concat(seq(|exts|, i requires 0 <= i < |exts| => WithLength(exts[i])))
  {
    hide Put16, Put32, Put64, Be16, Be32, Be64;
    Is32(|exts|);
    WriteBytesIs(protocol);
    WriteBytesIs(key);
    WriteAllIs(exts);
    hide Wire.WriteBytes, Wire.WriteAll, Concat;
    Regroup6([0], Be32(|protocol|), protocol, Be32(|key|), key, Be32(|exts|), Wire.WriteAll(exts));
  }

  lemma Regroup6(a: Buf, b: Buf, c: Buf, d: Buf, e: Buf, f: Buf, g: Buf)
    ensures a + ((b + c) + ((d + e) + (f + g))) == a + b + c + d + e + f + g
  {
  }

  /** A record of the index file, and a value of the block cache. */
  lemma StoredForms(offset: nat, length: nat, value: Buf, sig: Buf)
    ensures Storage.Record(Storage.Entry(offset, length)) == Be64(offset) + Be64(length)
    ensures BlockRepo.EncodeBlock(value, sig) == Be32(|value|) + value + Be32(|sig|) + sig
  {
    hide Put16, Put32, Put64, Be16, Be32, Be64;
    Is64(offset);
    Is64(length);
    Is32(|value|);
    Is32(|sig|);
  }

  /** An encrypted record, and the two records of a message frame. */
  lemma Records(sealed: Buf, payload: Buf)
    ensures SecureChannel.Frame(sealed) == Be16(|sealed|) + sealed
    ensures SecureChannel.Writes(payload) == [Be32(|payload|), payload]
  {
    hide Put16, Put32, Put64, Be16, Be32, Be64;
    Is16(|sealed|);
    Is32(|payload|);
  }

  // ----- Datagrams

  lemma UtpHeader(p: UtpPacket.Packet)
    requires UtpPacket.Encodable(p)
    ensures UtpPacket.EncodePacket(p) ==
      [16 * p.kind + 1, p.ext] + Be16(p.connID) + Be32(p.tMicro) + Be32(p.tDiff) + Be32(p.wndSize)
      + Be16(p.seqNum) + Be16(p.ackNum) + p.payload
  {
    hide Put16, Put32, Put64, Be16, Be32, Be64;
    Is16(p.connID);
    Is32(p.tMicro);
    Is32(p.tDiff);
    Is32(p.wndSize);
    Is16(p.seqNum);
    Is16(p.ackNum);
  }

  lemma RpcMessages(txID: Buf, sender: NodeId.Id, id: NodeId.Id, port: nat)
    ensures Rpc.EncodeMessage(Rpc.Message(txID, sender, Rpc.Ping)) == txID + [1] + sender
    ensures Rpc.EncodeMessage(Rpc.Message(txID, sender, Rpc.Pong)) == txID + [2] + sender
    ensures Rpc.EncodeMessage(Rpc.Message(txID, sender, Rpc.FindNode(id))) == txID + [3] + sender + id
    ensures Rpc.EncodeMessage(Rpc.Message(txID, sender, Rpc.Announce(id, port)))
         == txID + [5] + sender + id + Be16(port)
    ensures Rpc.EncodeMessage(Rpc.Message(txID, sender, Rpc.Lookup(id))) == txID + [6] + sender + id
  {
    hide Put16, Put32, Put64, Be16, Be32, Be64;
    Is16(port);
    Regroup2(txID + [5] + sender, id, Be16(port));
    assert txID + [1] + sender + [] == txID + [1] + sender && txID + [2] + sender + [] == txID + [2] + sender;
  }

  /** The lists in answers: a count of 16 bits, then identifier, length and address, or length and peer. */
  lemma RpcLists(txID: Buf, sender: NodeId.Id, a: Closest.Contact, b: Closest.Contact, p: Buf, q: Buf)
    ensures Rpc.EncodeMessage(Rpc.Message(txID, sender, Rpc.FindNodeResp([a, b]))) ==
      txID + [4] + sender + ([0, 2] + a.id + Be16(|a.addr|) + a.addr + b.id + Be16(|b.addr|) + b.addr)
    ensures Rpc.EncodeMessage(Rpc.Message(txID, sender, Rpc.LookupResp([p, q]))) ==
      txID + [7] + sender + ([0, 2] + Be16(|p|) + p + Be16(|q|) + q)
  {
    hide Put16, Put32, Put64, Be16, Be32, Be64;
    Is16(2);
    TwoIs();
    TwoContacts(a, b);
    TwoPeers(p, q);
    hide Rpc.WriteContacts, Rpc.WritePeers;
    RegroupContacts([0, 2], a.id, Be16(|a.addr|), a.addr, b.id, Be16(|b.addr|), b.addr);
    RegroupPeers([0, 2], Be16(|p|), p, Be16(|q|), q);
  }

  lemma TwoIs()
    ensures Be16(2) == [0, 2]
  {
  }

  lemma TwoContacts(a: Closest.Contact, b: Closest.Contact)
    ensures Rpc.WriteContacts([a, b]) == a.id + (Be16(|a.addr|) + a.addr) + (b.id + (Be16(|b.addr|) + b.addr) + [])
  {
    hide Put16, Put32, Put64, Be16, Be32, Be64;
    Is16(|a.addr|);
    Is16(|b.addr|);
    assert [a, b][1..] == [b] && [b][1..] == [] && Rpc.WriteContacts([]) == [];
    assert Rpc.WriteContacts([b]) == b.id + Rpc.WriteString(b.addr) + Rpc.WriteContacts([]);
    assert Rpc.WriteContacts([a, b]) == a.id + Rpc.WriteString(a.addr) + Rpc.WriteContacts([b]);
  }

  lemma TwoPeers(p: Buf, q: Buf)
    ensures Rpc.WritePeers([p, q]) == (Be16(|p|) + p) + ((Be16(|q|) + q) + [])
  {
    hide Put16, Put32, Put64, Be16, Be32, Be64;
    Is16(|p|);
    Is16(|q|);
    assert [p, q][1..] == [q] && [q][1..] == [] && Rpc.WritePeers([]) == [];
    assert Rpc.WritePeers([q]) == Rpc.WriteString(q) + Rpc.WritePeers([]);
    assert Rpc.WritePeers([p, q]) == Rpc.WriteString(p) + Rpc.WritePeers([q]);
  }

  lemma RegroupContacts(n: Buf, i: Buf, la: Buf, a: Buf, j: Buf, lb: Buf, b: Buf)
    ensures n + (i + (la + a) + (j + (lb + b) + [])) == n + i + la + a + j + lb + b
  {
  }

  lemma RegroupPeers(n: Buf, lp: Buf, p: Buf, lq: Buf, q: Buf)
    ensures n + ((lp + p) + ((lq + q) + [])) == n + lp + p + lq + q
  {
  }

  /** Type 0x0016, the length of what follows, the cookie and the transaction. */
  function SendHead(length: nat, txID: Buf): Buf { [0x00, 0x16] + Be16(length) + [0x21, 0x12, 0xA4, 0x42] + txID }

  /** Attribute 0x0012 of eight bytes, family 1; the port is masked with 0x2112 and the address with 0x2112A442. */
  function SendPeer(ip: Buf, port: nat): Buf {
    [0x00, 0x12] + [0x00, 0x08] + [0x00, 0x01]
    + Be16(NodeId.XorBits(port, 0x2112, 16)) + Be32(NodeId.XorBits(GetBE(ip), 0x2112A442, 32))
  }

  /** A Send Indication: head, peer, and the payload in attribute 0x0013, padded with zeros to four bytes. */
  lemma SendIndication(ip: Buf, port: nat, payload: Buf, txID: Buf)
    requires |ip| == 4 && |txID| == 12 && port < 65536
    ensures var pad := (4 - |payload| % 4) % 4;
      Turn.Indication(Turn.SEND_TYPE, ip, port, payload, txID) ==
        SendHead(16 + |payload| + pad, txID) + SendPeer(ip, port)
        + ([0x00, 0x13] + Be16(|payload|) + payload) + seq(pad, _ => 0)
  {
    hide Put16, Put32, Be16, GetBE, SendHead, SendPeer, Turn.Head, Turn.Attribute, Turn.PeerAddress, Turn.Padded;
    var pad := (4 - |payload| % 4) % 4;
    PaddingIs(|payload|);
    HeadIs(16 + |payload| + pad, txID);
    PeerAddressIs(ip, port);
    DataIs(payload);
  }

  lemma PaddingIs(n: nat)
    ensures var pad := (4 - n % 4) % 4; Turn.Padded(n) == n + pad && Turn.Zeros(pad) == seq(pad, _ => 0)
  {
  }

  lemma HeadIs(length: nat, txID: Buf)
    ensures Turn.Head(Turn.SEND_TYPE, length, txID) == SendHead(length, txID)
  {
    hide Put16, Put32;
    Is16(0x16);
    Is16(length);
    Is32(0x2112A442);
    assert Be16(0x16) == [0x00, 0x16] && Be32(0x2112A442) == [0x21, 0x12, 0xA4, 0x42];
    hide Be16, Be32;
  }

  lemma PeerAddressIs(ip: Buf, port: nat)
    requires |ip| == 4 && port < 65536
    ensures Turn.Attribute(Turn.ATTR_XOR_PEER_ADDRESS, 8, Turn.PeerAddress(ip, port)) == SendPeer(ip, port)
  {
    hide Put16, Put32, Be16, Be32, GetBE, NodeId.XorBits;
    SmallNumbers();
    assert 0x2112A442 / 65536 == 0x2112;
    var port', ip' := NodeId.XorBits(port, 0x2112, 16), NodeId.XorBits(GetBE(ip), 0x2112A442, 32);
    Is16(port');
    Is32(ip');
    RegroupAddress([0x00, 0x12], [0x00, 0x08], [0x00, 0x01], Be16(port'), Be32(ip'));
  }

  lemma SmallNumbers()
    ensures Put16(0x12) == [0x00, 0x12] && Put16(8) == [0x00, 0x08]
  {
    hide Put16;
    Is16(0x12);
    Is16(8);
  }

  lemma DataIs(payload: Buf)
    ensures Turn.Attribute(Turn.ATTR_DATA, |payload|, payload) == [0x00, 0x13] + Be16(|payload|) + payload
  {
    hide Put16;
    Is16(0x13);
    assert Be16(0x13) == [0x00, 0x13];
    hide Be16;
    Is16(|payload|);
  }

  lemma RegroupAddress(a: Buf, b: Buf, c: Buf, d: Buf, e: Buf)
    ensures a + b + (c + d + e) == a + b + c + d + e
  {
  }

  // ----- Protobuf

  /** One, two and three bytes of base 128, the lowest digit first and a high bit on all but the last. */
  lemma SmallVarints(v: nat)
    ensures v < 128 ==> Varints.Varint(v) == [v]
    ensures 128 <= v < 16_384 ==> Varints.Varint(v) == [128 + v % 128, v / 128]
    ensures 16_384 <= v < 2_097_152 ==> Varints.Varint(v) == [128 + v % 128, 128 + v / 128 % 128, v / 16_384]
  {
    if 128 <= v < 16_384 {
      VarintTail(v);
      VarintTail(v / 128);
    } else if 16_384 <= v < 2_097_152 {
      VarintTail(v);
      VarintTail(v / 128);
      DivTwice(v, 128, 128);
      VarintTail(v / 16_384);
    }
    VarintTail(v);
    hide Varints.Varint;
  }

  lemma VarintTail(v: nat)
    ensures Varints.Varint(v) == if v < 128 then [v] else [v % 128 + 128] + Varints.Varint(v / 128)
  {
  }

  lemma SmallFields(num: nat, val: nat, value: Buf)
    requires num < 16 && val < 128 && |value| < 128
    ensures Protobuf.EncodeField(Protobuf.Number(num, val)) == [8 * num, val]
    ensures Protobuf.EncodeField(Protobuf.Bytes(num, value)) == [8 * num + 2, |value|] + value
  {
    SmallVarints(8 * num);
    SmallVarints(8 * num + 2);
    SmallVarints(val);
    SmallVarints(|value|);
    hide Varints.Varint;
  }

  /** The fields of each message with the numbers they are written under. */
  lemma FieldNumbers(p: Buf, k: Buf, x: Buf, y: Buf, u: Buf, i: Varints.u64, b: Varints.u64, n: Varints.u64)
    requires p != [] && k != [] && u != [] && n > 0
    ensures ProtobufMessages.FeedFields(ProtobufMessages.Feed(k)) == [Protobuf.Bytes(1, k)]
    ensures ProtobufMessages.HandshakeFields(ProtobufMessages.Handshake(p, k, [x, y], true, u)) ==
      [Protobuf.Bytes(1, p), Protobuf.Bytes(2, k), Protobuf.Bytes(3, x), Protobuf.Bytes(3, y), Protobuf.Number(4, 1),
       Protobuf.Bytes(5, u)]
    ensures ProtobufMessages.RequestFields(ProtobufMessages.Request(i, b, true, n)) ==
      [Protobuf.Number(1, i), Protobuf.Number(2, b), Protobuf.Number(3, 1), Protobuf.Number(4, n)]
    ensures ProtobufMessages.DataFields(ProtobufMessages.Data(i, p, k)) ==
      [Protobuf.Number(1, i), Protobuf.Bytes(2, p), Protobuf.Bytes(4, k)]
    ensures ProtobufMessages.CancelFields(ProtobufMessages.Cancel(i, b)) ==
      [Protobuf.Number(1, i), Protobuf.Number(2, b)]
  {
    assert [x, y][1..] == [y] && [y][1..] == [] && ProtobufMessages.ExtensionFields([]) == [];
    assert ProtobufMessages.ExtensionFields([y]) == [Protobuf.Bytes(3, y)];
    assert ProtobufMessages.ExtensionFields([x, y]) == [Protobuf.Bytes(3, x), Protobuf.Bytes(3, y)];
  }

  /** A handshake with one byte in each field. */
  lemma HandshakeBytes(p: byte, k: byte, x: byte, u: byte)
    ensures Protobuf.EncodeFields(ProtobufMessages.HandshakeFields(
              ProtobufMessages.Handshake([p], [k], [[x]], true, [u]))) ==
      [0x0A, 1, p, 0x12, 1, k, 0x1A, 1, x, 0x20, 1, 0x2A, 1, u]
  {
    hide Protobuf.EncodeField, Protobuf.EncodeFields;
    SmallFields(1, 0, [p]);
    SmallFields(2, 0, [k]);
    SmallFields(3, 0, [x]);
    SmallFields(4, 1, []);
    SmallFields(5, 0, [u]);
    HandshakeOfFive(p, k, x, u);
    FiveFields(Protobuf.Bytes(1, [p]), Protobuf.Bytes(2, [k]), Protobuf.Bytes(3, [x]), Protobuf.Number(4, 1),
               Protobuf.Bytes(5, [u]));
  }

  lemma HandshakeOfFive(p: byte, k: byte, x: byte, u: byte)
    ensures ProtobufMessages.HandshakeFields(ProtobufMessages.Handshake([p], [k], [[x]], true, [u])) ==
      [Protobuf.Bytes(1, [p]), Protobuf.Bytes(2, [k]), Protobuf.Bytes(3, [x]), Protobuf.Number(4, 1),
       Protobuf.Bytes(5, [u])]
  {
    assert [[x]][1..] == [] && ProtobufMessages.ExtensionFields([]) == [];
    assert ProtobufMessages.ExtensionFields([[x]]) == [Protobuf.Bytes(3, [x])] + [];
  }

  lemma FiveFields(a: Protobuf.Field, b: Protobuf.Field, c: Protobuf.Field, d: Protobuf.Field, e: Protobuf.Field)
    ensures Protobuf.EncodeFields([a, b, c, d, e]) ==
      Protobuf.EncodeField(a) + (Protobuf.EncodeField(b) + (Protobuf.EncodeField(c)
      + (Protobuf.EncodeField(d) + Protobuf.EncodeField(e))))
  {
    hide Protobuf.EncodeField;
    assert [a, b, c, d, e][1..] == [b, c, d, e] && [b, c, d, e][1..] == [c, d, e];
    assert [c, d, e][1..] == [d, e] && [d, e][1..] == [e] && [e][1..] == [];
    assert Protobuf.EncodeFields([e]) == Protobuf.EncodeField(e) + [];
    assert Protobuf.EncodeFields([d, e]) == Protobuf.EncodeField(d) + Protobuf.EncodeFields([e]);
    assert Protobuf.EncodeFields([c, d, e]) == Protobuf.EncodeField(c) + Protobuf.EncodeFields([d, e]);
    assert Protobuf.EncodeFields([b, c, d, e]) == Protobuf.EncodeField(b) + Protobuf.EncodeFields([c, d, e]);
  }
}
