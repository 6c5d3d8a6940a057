/**
 * TURN relaying (pkg/utp/turn.go; sections 14.3 and 14.4 of RFC 5766, section 15 of RFC 5389): the Send Indication a
 * client builds and the Data Indication it parses.
 */
module Turn {
  import opened Bytes
  import NodeId
  import UtpPacket

  const MAGIC_COOKIE: nat := 0x2112A442
  const SEND_TYPE: nat := 0x0016
  const DATA_TYPE: nat := 0x0017
  const ATTR_XOR_PEER_ADDRESS: nat := 0x0012
  const ATTR_DATA: nat := 0x0013

  // ----- Masking with the cookie

  function Masked(x: nat, mask: nat, bits: nat): (z: nat)
    ensures z < NodeId.Pow2(bits)
  {
    NodeId.XorBits(x, mask, bits)
  }

  lemma {:induction false} MaskedTwice(x: nat, mask: nat, bits: nat)
    requires x < NodeId.Pow2(bits)
    ensures Masked(Masked(x, mask, bits), mask, bits) == x
  {
    if bits > 0 {
      MaskedTwice(x / 2, mask / 2, bits - 1);
    }
  }

  lemma Widths()
    ensures NodeId.Pow2(16) == U16 && NodeId.Pow2(32) == U32
  {
    assert NodeId.Pow2(8) == 256;
    assert NodeId.Pow2(16) == U16;
    assert NodeId.Pow2(24) == 0x100_0000;
  }

  function XorPort(port: nat): (z: nat)
    ensures z < U16
  {
    Widths();
    Masked(port, MAGIC_COOKIE / U16, 16)
  }

  function XorAddress(ip: Buf): (z: Buf)
    ensures |z| == 4
  {
    Put32(Masked(GetBE(ip), MAGIC_COOKIE, 32))
  }

  lemma PortTwice(port: nat)
    requires port < U16
    ensures XorPort(XorPort(port)) == port
  {
    hide NodeId.XorBits, NodeId.Pow2;
    Widths();
    MaskedTwice(port, MAGIC_COOKIE / U16, 16);
  }

  lemma AddressTwice(ip: Buf)
    requires |ip| == 4
    ensures XorAddress(XorAddress(ip)) == ip
  {
    hide NodeId.XorBits, NodeId.Pow2, PutBE, GetBE;
    Widths();
    Pow256Values();
    GetBEBound(ip);
    PutGetBE(ip);
    MaskedTwice(GetBE(ip), MAGIC_COOKIE, 32);
  }

  // ----- Building

  function Padded(n: nat): nat { (n + 3) / 4 * 4 }

  /** The peer's address: reserved byte, family 1 for IPv4, masked port and address. A port is cut to 16 bits. */
  function PeerAddress(ip: Buf, port: int): (v: Buf)
    ensures |v| == 8
  {
    [0, 1] + Put16(XorPort(port % U16)) + XorAddress(ip)
  }

  function Head(kind: nat, length: nat, txID: Buf): Buf {
    Put16(kind) + Put16(length) + Put32(MAGIC_COOKIE) + txID
  }

  function Attribute(kind: nat, length: nat, value: Buf): Buf { Put16(kind) + Put16(length) + value }

  function Zeros(n: nat): (z: Buf)
    ensures |z| == n
  {
    seq(n, _ => 0)
  }

  /** Lengths are cut to 16 bits. */
  function Indication(kind: nat, ip: Buf, port: int, payload: Buf, txID: Buf): Buf {
    Head(kind, 16 + Padded(|payload|), txID)
    + Attribute(ATTR_XOR_PEER_ADDRESS, 8, PeerAddress(ip, port))
    + Attribute(ATTR_DATA, |payload|, payload) + Zeros(Padded(|payload|) - |payload|)
  }

  method PutHead(p: array<byte>, kind: nat, length: nat, txID: Buf)
    requires |txID| == 12 && p.Length >= 20
    modifies p
    ensures p[..20] == Head(kind, length, txID)
  {
    hide Put16, Put32;
    assert p[..0] == [];
    UtpPacket.Fill(p, 0, Put16(kind));
    UtpPacket.Fill(p, 2, Put16(length));
    UtpPacket.Fill(p, 4, Put32(MAGIC_COOKIE));
    UtpPacket.Fill(p, 8, txID);
  }

  method PutPeerAddress(p: array<byte>, ip: Buf, port: int, ghost front: Buf)
    requires p.Length >= 32 && p[..20] == front
    modifies p
    ensures p[..32] == front + Attribute(ATTR_XOR_PEER_ADDRESS, 8, PeerAddress(ip, port))
  {
    hide Put16, XorPort, XorAddress;
    UtpPacket.Fill(p, 20, Put16(ATTR_XOR_PEER_ADDRESS));
    UtpPacket.Fill(p, 22, Put16(8));
    UtpPacket.Fill(p, 24, [0, 1]);
    UtpPacket.Fill(p, 26, Put16(XorPort(port % U16)));
    UtpPacket.Fill(p, 28, XorAddress(ip));
    AddressLayout(front, Put16(ATTR_XOR_PEER_ADDRESS), Put16(8), [0, 1], Put16(XorPort(port % U16)), XorAddress(ip));
  }

  lemma AddressLayout(h: Buf, a: Buf, b: Buf, c: Buf, d: Buf, e: Buf)
    ensures h + a + b + c + d + e == h + (a + b + (c + d + e))
  {
  }

  method PutData(p: array<byte>, payload: Buf, ghost front: Buf)
    requires p.Length == 36 + Padded(|payload|) && p[..32] == front
    modifies p
    ensures p[..] == front + Attribute(ATTR_DATA, |payload|, payload) + Zeros(Padded(|payload|) - |payload|)
  {
    hide Put16, Zeros;
    ghost var zeros := Zeros(Padded(|payload|) - |payload|);
    UtpPacket.Fill(p, 32, Put16(ATTR_DATA));
    UtpPacket.Fill(p, 34, Put16(|payload|));
    UtpPacket.Fill(p, 36, payload);
    UtpPacket.Fill(p, 36 + |payload|, Zeros(Padded(|payload|) - |payload|));
    assert p[..] == p[..36 + |payload| + |zeros|];
    DataLayout(front, Put16(ATTR_DATA), Put16(|payload|), payload, zeros);
  }

  lemma DataLayout(front: Buf, kind: Buf, length: Buf, payload: Buf, zeros: Buf)
    ensures front + kind + length + payload + zeros == front + (kind + length + payload) + zeros
  {
  }

  lemma IndicationIs(ip: Buf, port: int, payload: Buf, txID: Buf)
    ensures Indication(SEND_TYPE, ip, port, payload, txID) ==
      Head(SEND_TYPE, 12 + 4 + Padded(|payload|), txID) + Attribute(ATTR_XOR_PEER_ADDRESS, 8, PeerAddress(ip, port))
      + Attribute(ATTR_DATA, |payload|, payload) + Zeros(Padded(|payload|) - |payload|)
  {
  }

  /** Fills a packet in place; `ip` is the peer's IPv4 form, if it has one, and `txID` the random bytes. */
  method BuildSendIndication(ip: Option<Buf>, port: int, payload: Buf, txID: Buf) returns (packet: Option<array<byte>>)
    requires |txID| == 12 && (ip.Some? ==> |ip.value| == 4)
    ensures packet.Some? <==> ip.Some?
    ensures packet.Some? ==>
      fresh(packet.value) && packet.value[..] == Indication(SEND_TYPE, ip.value, port, payload, txID)
  {
    if ip.None? {
      return None;
    }
    hide Head, Attribute, PeerAddress, Zeros, Padded, Indication;
    IndicationIs(ip.value, port, payload, txID);
    var attrLen := 12 + 4 + Padded(|payload|);
    var p := new byte[20 + attrLen](_ => 0);
    PutHead(p, SEND_TYPE, attrLen, txID);
    ghost var head := Head(SEND_TYPE, attrLen, txID);
    PutPeerAddress(p, ip.value, port, head);
    PutData(p, payload, head + Attribute(ATTR_XOR_PEER_ADDRESS, 8, PeerAddress(ip.value, port)));
    packet := Some(p);
  }

  // ----- Parsing

  /** What the attributes walked over so far have set. */
  datatype Found = Found(ip: Option<Buf>, port: nat, payload: Buf)

  function TakeAttribute(found: Found, kind: nat, value: Buf): Found {
    if kind == ATTR_XOR_PEER_ADDRESS then
      if |value| < 8 then found
      else found.(port := XorPort(GetBE(value[2..4])),
                  ip := if value[1] == 1 then Some(XorAddress(value[4..8])) else found.ip)
    else if kind == ATTR_DATA then found.(payload := value)
    else found
  }

  function Walk(data: Buf, offset: nat, end: nat, found: Found): Found
    requires end <= |data|
    decreases end - offset
  {
    if offset + 4 > end then found
    else
      var length := GetBE(data[offset + 2..offset + 4]);
      if offset + 4 + length > end then found
      else
        Walk(data, offset + 4 + Padded(length), end,
             TakeAttribute(found, GetBE(data[offset..offset + 2]), data[offset + 4..offset + 4 + length]))
  }

  /** The peer's address and port and the payload. */
  function Parse(data: Buf): Option<(Option<Buf>, nat, Buf)> {
    if |data| < 20 || GetBE(data[0..2]) != DATA_TYPE || GetBE(data[4..8]) != MAGIC_COOKIE then None
    else
      var length := GetBE(data[2..4]);
      if |data| < 20 + length then None
      else
        var found := Walk(data, 20, 20 + length, Found(None, 0, []));
        if found.payload == [] then None else Some((found.ip, found.port, found.payload))
  }

  lemma WalkStep(data: Buf, offset: nat, end: nat, found: Found)
    requires end <= |data|
    ensures offset + 4 > end ==> Walk(data, offset, end, found) == found
    ensures offset + 4 <= end ==>
      var length := GetBE(data[offset + 2..offset + 4]);
      Walk(data, offset, end, found) ==
        if offset + 4 + length > end then found
        else Walk(data, offset + 4 + Padded(length), end,
                  TakeAttribute(found, GetBE(data[offset..offset + 2]), data[offset + 4..offset + 4 + length]))
  {
    hide GetBE, TakeAttribute, Padded;
  }

  /** Every read is in bounds and the walk ends, whatever the packet says. */
  method ParseDataIndication(data: Buf) returns (r: Option<(Option<Buf>, nat, Buf)>)
    ensures r == Parse(data)
  {
    hide GetBE, XorPort, XorAddress, Walk, Padded;
    if |data| < 20 {
      return None;
    }
    if GetBE(data[0..2]) != DATA_TYPE {
      return None;
    }
    var length := GetBE(data[2..4]);
    if GetBE(data[4..8]) != MAGIC_COOKIE {
      return None;
    }
    if |data| < 20 + length {
      return None;
    }
    var end := 20 + length;
    var peerIP, peerPort, payload := WalkLoop(data, end);
    if |payload| == 0 {
      return None;
    }
    r := Some((peerIP, peerPort, payload));
  }

  /** The attribute loop. */
  method WalkLoop(data: Buf, end: nat) returns (peerIP: Option<Buf>, peerPort: nat, payload: Buf)
    requires 20 <= end <= |data|
    ensures Found(peerIP, peerPort, payload) == Walk(data, 20, end, Found(None, 0, []))
  {
    hide GetBE, XorPort, XorAddress, Walk;
    peerIP, peerPort, payload := None, 0, [];
    var offset := 20;
    while offset < end
      invariant Walk(data, 20, end, Found(None, 0, [])) == Walk(data, offset, end, Found(peerIP, peerPort, payload))
      decreases end - offset
    {
      WalkStep(data, offset, end, Found(peerIP, peerPort, payload));
      if offset + 4 > end {
        return;
      }
      var attrType, attrLen := GetBE(data[offset..offset + 2]), GetBE(data[offset + 2..offset + 4]);
      offset := offset + 4;
      if offset + attrLen > end {
        return;
      }
      var attrValue := data[offset..offset + attrLen];
      offset := offset + Padded(attrLen);
      if attrType == ATTR_XOR_PEER_ADDRESS {
        if |attrValue| < 8 {
          continue;
        }
        peerPort := XorPort(GetBE(attrValue[2..4]));
        if attrValue[1] == 1 {
          peerIP := Some(XorAddress(attrValue[4..8]));
        }
      } else if attrType == ATTR_DATA {
        payload := attrValue;
      }
    }
    WalkStep(data, offset, end, Found(peerIP, peerPort, payload));
  }

  /** What is parsed is long enough and has the type of a Data Indication and the cookie. */
  lemma ParseChecks(data: Buf)
    requires Parse(data).Some?
    ensures |data| >= 20 && |data| >= 20 + 256 * (data[2] as int) + data[3] as int
    ensures data[0] == 0x00 && data[1] == 0x17
    ensures data[4] == 0x21 && data[5] == 0x12 && data[6] == 0xA4 && data[7] == 0x42
  {
    hide Walk;
    TwoBytes(data[0..2]);
    TwoBytes(data[2..4]);
    CookieBytes(data[4..8]);
  }

  lemma TwoBytes(b: Buf)
    requires |b| == 2
    ensures GetBE(b) == 256 * (b[0] as int) + b[1] as int
  {
    assert b[..1] == [b[0]] && b[..1][..0] == [];
    assert GetBE(b[..1]) == b[0];
  }

  lemma CookieBytes(b: Buf)
    requires |b| == 4 && GetBE(b) == MAGIC_COOKIE
    ensures b[0] == 0x21 && b[1] == 0x12 && b[2] == 0xA4 && b[3] == 0x42
  {
    PutGetBE(b);
    PutBEIsBigEndian(MAGIC_COOKIE);
    hide PutBE, GetBE;
  }

  // ----- Any list of attributes

  datatype Attr = Attr(kind: nat, value: Buf)

  /** The attributes one after the other, each padded to four bytes. */
  function WriteAttrs(attrs: seq<Attr>): Buf {
    if attrs == [] then []
    else
      var kind, value := attrs[0].kind, attrs[0].value;
      Put16(kind) + Put16(|value|) + value + Zeros(Padded(|value|) - |value|) + WriteAttrs(attrs[1..])
  }

  predicate SmallAttrs(attrs: seq<Attr>) {
    forall i | 0 <= i < |attrs| :: attrs[i].kind < U16 && |attrs[i].value| < U16
  }

  function TakeAll(found: Found, attrs: seq<Attr>): Found {
    if attrs == [] then found
    else
      var last := |attrs| - 1;
      TakeAttribute(TakeAll(found, attrs[..last]), attrs[last].kind, attrs[last].value)
  }

  lemma {:induction false} TakeAllFirst(found: Found, a: Attr, attrs: seq<Attr>)
    ensures TakeAll(found, [a] + attrs) == TakeAll(TakeAttribute(found, a.kind, a.value), attrs)
  {
    hide TakeAttribute;
    if attrs == [] {
      assert [a] + attrs == [a] && [a][..0] == [];
    } else {
      var last := |attrs| - 1;
      assert ([a] + attrs)[..last + 1] == [a] + attrs[..last];
      TakeAllFirst(found, a, attrs[..last]);
    }
  }

  lemma {:induction false} WalkAttrs(data: Buf, offset: nat, end: nat, found: Found, attrs: seq<Attr>)
    requires offset <= end <= |data| && data[offset..end] == WriteAttrs(attrs) && SmallAttrs(attrs)
    ensures Walk(data, offset, end, found) == TakeAll(found, attrs)
    decreases |attrs|
  {
    hide Walk, TakeAttribute, Zeros, Padded;
    if attrs == [] {
      WalkEnds(data, offset, end, found);
      TakeNone(found);
    } else {
      var a := attrs[0];
      var n := 4 + Padded(|a.value|);
      FirstAttr(attrs, data[offset..], end - offset);
      assert data[offset..][..end - offset] == data[offset..end];
      SliceOfTail(data, offset, n, end - offset);
      var rest := data[offset..][4 + |a.value|..];
      WalkAttribute(data, offset, end, found, a.kind, a.value, rest);
      WalkAttrs(data, offset + n, end, TakeAttribute(found, a.kind, a.value), attrs[1..]);
      assert attrs == [a] + attrs[1..];
      TakeAllFirst(found, a, attrs[1..]);
    }
  }

  lemma TakeNone(found: Found)
    ensures TakeAll(found, []) == found
  {
  }

  /** The first attribute of a list at the front of `b`, and where the others are. */
  lemma FirstAttr(attrs: seq<Attr>, b: Buf, size: nat)
    requires attrs != [] && size <= |b| && b[..size] == WriteAttrs(attrs)
    ensures var a, n := attrs[0], 4 + Padded(|attrs[0].value|);
      && 4 + |a.value| <= n <= size && b[n..size] == WriteAttrs(attrs[1..])
      && b == Attribute(a.kind, |a.value|, a.value) + b[4 + |a.value|..]
  {
    hide Put16, WriteAttrs;
    var a := attrs[0];
    var head, pad := Attribute(a.kind, |a.value|, a.value), Zeros(Padded(|a.value|) - |a.value|);
    WriteAttrsHead(attrs);
    FrontAndRest(b, size, head, pad, WriteAttrs(attrs[1..]));
  }

  lemma WriteAttrsHead(attrs: seq<Attr>)
    requires attrs != []
    ensures var a := attrs[0];
      WriteAttrs(attrs) ==
        Attribute(a.kind, |a.value|, a.value) + Zeros(Padded(|a.value|) - |a.value|) + WriteAttrs(attrs[1..])
  {
    hide Put16, Zeros, Padded;
  }

  lemma FrontAndRest(b: Buf, size: nat, head: Buf, pad: Buf, rest: Buf)
    requires size <= |b| && b[..size] == head + pad + rest
    ensures |head| + |pad| <= size && b[|head| + |pad|..size] == rest && b == head + b[|head|..]
  {
    assert b[..size][|head| + |pad|..] == rest;
    assert b[..size][..|head|] == head;
  }

  /** The attribute carries an address: at least eight bytes, the second of which names the family. */
  predicate IsPeer(a: Attr) { a.kind == 0x0012 && |a.value| >= 8 }

  predicate IsLast(attrs: seq<Attr>, i: nat, p: Attr -> bool) {
    i < |attrs| && p(attrs[i]) && forall j | i < j < |attrs| :: !p(attrs[j])
  }

  /** The last attribute of each sort decides, and others are passed over. */
  lemma {:induction false} LastAttributeDecides(found: Found, attrs: seq<Attr>, i: nat)
    ensures var r := TakeAll(found, attrs);
      && (IsLast(attrs, i, (a: Attr) => a.kind == 0x0013) ==> r.payload == attrs[i].value)
      && (IsLast(attrs, i, (a: Attr) => IsPeer(a)) ==>
            r.port == NodeId.XorBits(GetBE(attrs[i].value[2..4]), 0x2112, 16))
      && (IsLast(attrs, i, (a: Attr) => IsPeer(a) && a.value[1] == 1) ==>
            r.ip == Some(Put32(NodeId.XorBits(GetBE(attrs[i].value[4..8]), 0x2112A442, 32))))
    decreases |attrs|
  {
    hide NodeId.XorBits, GetBE, PutBE;
    if i < |attrs| {
      var last := |attrs| - 1;
      var front := attrs[..last];
      if i < last {
        assert front[i] == attrs[i];
        LastAttributeDecides(found, front, i);
      }
    }
  }

  /** What no attribute sets stays as it was. */
  lemma {:induction false} OthersArePassedOver(found: Found, attrs: seq<Attr>)
    ensures var r := TakeAll(found, attrs);
      && ((forall i | 0 <= i < |attrs| :: attrs[i].kind != 0x0013) ==> r.payload == found.payload)
      && ((forall i | 0 <= i < |attrs| :: !IsPeer(attrs[i])) ==> r.port == found.port)
      && ((forall i | 0 <= i < |attrs| :: !(IsPeer(attrs[i]) && attrs[i].value[1] == 1)) ==> r.ip == found.ip)
    decreases |attrs|
  {
    hide NodeId.XorBits, GetBE, PutBE, XorPort, XorAddress;
    if attrs != [] {
      var last := |attrs| - 1;
      OthersArePassedOver(found, attrs[..last]);
      assert forall i | 0 <= i < last :: attrs[..last][i] == attrs[i];
      assert attrs[last] in attrs;
    }
  }

  /** A Data Indication with any attributes is parsed into what they say; without a payload it is an error. */
  lemma ParseOfAttributes(attrs: seq<Attr>, txID: Buf, after: Buf)
    requires SmallAttrs(attrs) && |txID| == 12 && |WriteAttrs(attrs)| < U16
    ensures var data := Head(0x0017, |WriteAttrs(attrs)|, txID) + WriteAttrs(attrs) + after;
      var found := TakeAll(Found(None, 0, []), attrs);
      Parse(data) == if found.payload == [] then None else Some((found.ip, found.port, found.payload))
  {
    hide Walk, TakeAll, WriteAttrs, Head, GetBE;
    var body := WriteAttrs(attrs);
    var head := Head(0x0017, |body|, txID);
    HeadParts(0x0017, |body|, txID, body + after);
    assert head + body + after == head + (body + after);
    var data := head + (body + after);
    assert data[20..][..|body|] == body;
    assert data[20..20 + |body|] == data[20..][..|body|];
    WalkAttrs(data, 20, 20 + |body|, Found(None, 0, []), attrs);
  }

  // ----- The exact range of the round trip

  /** A parsed payload is no longer than the header says, and a parsed port has 16 bits. */
  lemma {:induction false} WalkBounds(data: Buf, offset: nat, end: nat, found: Found, max: nat)
    requires end <= |data| && end <= offset + max && |found.payload| <= max && found.port < U16
    ensures |Walk(data, offset, end, found).payload| <= max && Walk(data, offset, end, found).port < U16
    decreases end - offset
  {
    hide XorPort, XorAddress, GetBE;
    if offset + 4 <= end {
      var length := GetBE(data[offset + 2..offset + 4]);
      if offset + 4 + length <= end {
        WalkBounds(data, offset + 4 + Padded(length), end,
                   TakeAttribute(found, GetBE(data[offset..offset + 2]), data[offset + 4..offset + 4 + length]), max);
      }
    }
  }

  lemma ParseBounds(data: Buf)
    requires Parse(data).Some?
    ensures |Parse(data).value.2| <= GetBE(data[2..4]) && Parse(data).value.1 < U16
  {
    hide Walk;
    WalkBounds(data, 20, 20 + GetBE(data[2..4]), Found(None, 0, []), GetBE(data[2..4]));
  }

  lemma HeadParts(kind: nat, length: nat, txID: Buf, rest: Buf)
    requires kind < U16 && |txID| == 12
    ensures var d := Head(kind, length, txID) + rest;
      |d| == 20 + |rest| && GetBE(d[0..2]) == kind && GetBE(d[2..4]) == length % U16 && GetBE(d[4..8]) == MAGIC_COOKIE
      && d[20..] == rest
  {
    hide GetBE, PutBE;
    var d := Head(kind, length, txID) + rest;
    assert d[0..2] == Put16(kind) && d[2..4] == Put16(length) && d[4..8] == Put32(MAGIC_COOKIE);
  }

  /** One turn of the walk over an attribute that was written at `offset`. */
  lemma WalkAttribute(data: Buf, offset: nat, end: nat, found: Found, kind: nat, value: Buf, rest: Buf)
    requires end <= |data| && offset <= |data| && data[offset..] == Attribute(kind, |value|, value) + rest
    requires kind < U16 && |value| < U16 && offset + 4 + |value| <= end
    ensures Walk(data, offset, end, found)
         == Walk(data, offset + 4 + Padded(|value|), end, TakeAttribute(found, kind, value))
  {
    hide TakeAttribute, GetBE, Attribute, Walk, Padded;
    AttributeParts(kind, value, rest);
    SliceOfTail(data, offset, 0, 2);
    SliceOfTail(data, offset, 2, 4);
    SliceOfTail(data, offset, 4, 4 + |value|);
    WalkStep(data, offset, end, found);
  }

  lemma SliceOfTail(data: Buf, offset: nat, from: nat, to: nat)
    requires from <= to && offset + to <= |data|
    ensures data[offset..][from..to] == data[offset + from..offset + to]
  {
  }

  lemma AttributeParts(kind: nat, value: Buf, rest: Buf)
    requires kind < U16 && |value| < U16
    ensures var s := Attribute(kind, |value|, value) + rest;
      |s| >= 4 + |value| && GetBE(s[0..2]) == kind && GetBE(s[2..4]) == |value| && s[4..4 + |value|] == value
  {
    hide GetBE, PutBE;
    var s := Attribute(kind, |value|, value) + rest;
    assert s[0..2] == Put16(kind) && s[2..4] == Put16(|value|);
  }

  lemma PeerAddressParts(a: Buf, b: Buf, c: Buf)
    requires |a| == 2 && |b| == 2 && |c| == 4
    ensures (a + b + c)[1] == a[1] && (a + b + c)[2..4] == b && (a + b + c)[4..8] == c
  {
  }

  lemma TakePeerAddress(found: Found, ip: Buf, port: int)
    requires |ip| == 4
    ensures TakeAttribute(found, ATTR_XOR_PEER_ADDRESS, PeerAddress(ip, port))
         == found.(ip := Some(ip), port := port % U16)
  {
    hide GetBE, PutBE, Put16, XorPort, XorAddress;
    PortTwice(port % U16);
    AddressTwice(ip);
    PeerAddressParts([0, 1], Put16(XorPort(port % U16)), XorAddress(ip));
  }

  lemma IndicationParts(kind: nat, ip: Buf, port: int, payload: Buf, txID: Buf)
    requires kind < U16 && |txID| == 12 && |ip| == 4
    ensures var d, zeros := Indication(kind, ip, port, payload, txID), Zeros(Padded(|payload|) - |payload|);
      && |d| == 36 + Padded(|payload|) && GetBE(d[0..2]) == kind
      && GetBE(d[2..4]) == (16 + Padded(|payload|)) % U16 && GetBE(d[4..8]) == MAGIC_COOKIE
      && d[20..] == Attribute(ATTR_XOR_PEER_ADDRESS, 8, PeerAddress(ip, port))
                    + (Attribute(ATTR_DATA, |payload|, payload) + zeros)
      && d[32..] == Attribute(ATTR_DATA, |payload|, payload) + zeros
  {
    hide PeerAddress, GetBE, Head, Put16, Put32;
    var a, b := Attribute(ATTR_XOR_PEER_ADDRESS, 8, PeerAddress(ip, port)), Attribute(ATTR_DATA, |payload|, payload);
    var zeros := Zeros(Padded(|payload|) - |payload|);
    var head := Head(kind, 16 + Padded(|payload|), txID);
    assert |a| == 12 && |b| == 4 + |payload|;
    HeadParts(kind, 16 + Padded(|payload|), txID, a + (b + zeros));
    assert head + a + b + zeros == head + (a + (b + zeros));
    assert (head + (a + (b + zeros)))[32..] == (head + (a + (b + zeros)))[20..][12..];
  }

  /** A relay turns a Send Indication into a Data Indication by changing the message type. */
  lemma RelayChangesType(ip: Buf, port: int, payload: Buf, txID: Buf)
    requires |txID| == 12
    ensures Put16(DATA_TYPE) + Indication(SEND_TYPE, ip, port, payload, txID)[2..]
         == Indication(DATA_TYPE, ip, port, payload, txID)
  {
    hide Put16, Put32, PeerAddress, Zeros, Attribute;
    var rest := Put16(16 + Padded(|payload|)) + Put32(MAGIC_COOKIE) + txID;
    assert Head(SEND_TYPE, 16 + Padded(|payload|), txID) == Put16(SEND_TYPE) + rest;
    assert Head(DATA_TYPE, 16 + Padded(|payload|), txID) == Put16(DATA_TYPE) + rest;
  }

  lemma ParseOfIndication(ip: Buf, port: int, payload: Buf, txID: Buf)
    requires |ip| == 4 && |txID| == 12 && 1 <= |payload| <= 65516
    ensures Parse(Indication(DATA_TYPE, ip, port, payload, txID)) == Some((Some(ip), port % U16, payload))
  {
    hide Walk, TakeAttribute, Indication, PeerAddress, Attribute, GetBE, XorPort, XorAddress, Put16;
    IndicationParts(DATA_TYPE, ip, port, payload, txID);
    var d := Indication(DATA_TYPE, ip, port, payload, txID);
    var end := 36 + Padded(|payload|);
    var zeros := Zeros(Padded(|payload|) - |payload|);
    var start := Found(None, 0, []);
    WalkAttribute(d, 20, end, start, ATTR_XOR_PEER_ADDRESS, PeerAddress(ip, port),
                  Attribute(ATTR_DATA, |payload|, payload) + zeros);
    TakePeerAddress(start, ip, port);
    var found := start.(ip := Some(ip), port := port % U16);
    WalkAttribute(d, 32, end, found, ATTR_DATA, payload, zeros);
    TakeData(found, payload);
    WalkEnds(d, end, end, found.(payload := payload));
  }

  lemma TakeData(found: Found, payload: Buf)
    ensures TakeAttribute(found, ATTR_DATA, payload) == found.(payload := payload)
  {
  }

  lemma WalkEnds(data: Buf, offset: nat, end: nat, found: Found)
    requires end <= |data| && offset >= end
    ensures Walk(data, offset, end, found) == found
  {
  }

  /** The relayed packet gives back peer, port and payload if and only if port and packet length fit 16 bits. */
  lemma RelayRoundTrip(ip: Buf, port: int, payload: Buf, txID: Buf)
    requires |ip| == 4 && |txID| == 12
    ensures var relayed := Put16(DATA_TYPE) + Indication(SEND_TYPE, ip, port, payload, txID)[2..];
      Parse(relayed) == Some((Some(ip), port, payload)) <==> 0 <= port < U16 && 1 <= |payload| <= 65516
  {
    hide Indication, Parse, Head, Attribute, PeerAddress, Padded, Put16, GetBE;
    RelayChangesType(ip, port, payload, txID);
    var d := Indication(DATA_TYPE, ip, port, payload, txID);
    IndicationParts(DATA_TYPE, ip, port, payload, txID);
    if 1 <= |payload| <= 65516 {
      ParseOfIndication(ip, port, payload, txID);
    } else if Parse(d).Some? {
      ParseBounds(d);
      LongPayload(|payload|);
      ParseNotEmpty(d);
    }
  }

  /** Cutting the length to 16 bits makes it shorter than the payload. */
  lemma LongPayload(n: nat)
    ensures n > 65516 ==> (16 + Padded(n)) % U16 < n
  {
  }

  lemma ParseNotEmpty(data: Buf)
    requires Parse(data).Some?
    ensures Parse(data).value.2 != []
  {
    hide Walk;
  }
}
