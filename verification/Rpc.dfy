/** The DHT's messages and their binary form (pkg/dht/rpc.go). */
module Rpc {
  import opened Bytes
  import opened NodeId
  import opened Closest
  import Wire

  /** The payload fields that a message's type does not use are left out; addresses and peers are byte strings. */
  datatype Body =
    | Ping | Pong
    | FindNode(target: Id)
    | FindNodeResp(contacts: seq<Contact>)
    | Announce(topic: Id, port: nat)
    | Lookup(topic: Id)
    | LookupResp(peers: seq<Buf>)

  datatype Message = Message(txID: Buf, senderID: Id, body: Body)

  function TypeByte(b: Body): byte {
    match b
    case Ping => 1
    case Pong => 2
    case FindNode(_) => 3
    case FindNodeResp(_) => 4
    case Announce(_, _) => 5
    case Lookup(_) => 6
    case LookupResp(_) => 7
  }

  // ----- Writing; lengths and counts are cut to 16 bits

  function WriteString(s: Buf): (b: Buf)
    ensures |b| == 2 + |s|
  {
    Put16(|s|) + s
  }

  function WriteContacts(cs: seq<Contact>): Buf {
    if cs == [] then [] else cs[0].id + WriteString(cs[0].addr) + WriteContacts(cs[1..])
  }

  function WritePeers(ps: seq<Buf>): Buf {
    if ps == [] then [] else WriteString(ps[0]) + WritePeers(ps[1..])
  }

  function WriteBody(b: Body): Buf {
    match b
    case Ping => []
    case Pong => []
    case FindNode(target) => target
    case FindNodeResp(cs) => Put16(|cs|) + WriteContacts(cs)
    case Announce(topic, port) => topic + Put16(port)
    case Lookup(topic) => topic
    case LookupResp(ps) => Put16(|ps|) + WritePeers(ps)
  }

  function EncodeMessage(m: Message): Buf { m.txID + [TypeByte(m.body)] + m.senderID + WriteBody(m.body) }

  // ----- Reading

  /** Read of a bytes.Reader: an error at the end even for no bytes, and a short read leaves zeros. */
  function Fill(r: Buf, n: nat): (o: Option<(Buf, Buf)>)
    ensures o.Some? ==> |o.value.0| == n
  {
    if r == [] then None
    else if n <= |r| then Some((r[..n], r[n..]))
    else Some((r + seq(n - |r|, _ => 0), []))
  }

  function ReadString(r: Buf): Option<(Buf, Buf)> {
    match Wire.ReadInt(r, 2)
    case None => None
    case Some((n, rest)) => Fill(rest, n)
  }

  function ReadContact(r: Buf): Option<(Contact, Buf)> {
    match Fill(r, ID_SIZE)
    case None => None
    case Some((id, r1)) =>
      match ReadString(r1)
      case None => None
      case Some((addr, r2)) => Some((Contact(id, addr), r2))
  }

  function ReadContacts(r: Buf, n: nat): Option<seq<Contact>>
    decreases n
  {
    if n == 0 then Some([])
    else
      match ReadContact(r)
      case None => None
      case Some((c, rest)) =>
        match ReadContacts(rest, n - 1) case None => None case Some(cs) => Some([c] + cs)
  }

  function ReadPeers(r: Buf, n: nat): Option<seq<Buf>>
    decreases n
  {
    if n == 0 then Some([])
    else
      match ReadString(r)
      case None => None
      case Some((p, rest)) =>
        match ReadPeers(rest, n - 1) case None => None case Some(ps) => Some([p] + ps)
  }

  function ReadBody(kind: byte, r: Buf): Option<Body> {
    if kind == 1 then Some(Ping)
    else if kind == 2 then Some(Pong)
    else if kind == 3 then match Fill(r, ID_SIZE) case None => None case Some((t, _)) => Some(FindNode(t))
    else if kind == 4 then
      match Wire.ReadInt(r, 2)
      case None => None
      case Some((n, rest)) => match ReadContacts(rest, n) case None => None case Some(cs) => Some(FindNodeResp(cs))
    else if kind == 5 then
      match Fill(r, ID_SIZE)
      case None => None
      case Some((t, rest)) => match Wire.ReadInt(rest, 2) case None => None case Some((p, _)) => Some(Announce(t, p))
    else if kind == 6 then match Fill(r, ID_SIZE) case None => None case Some((t, _)) => Some(Lookup(t))
    else if kind == 7 then
      match Wire.ReadInt(r, 2)
      case None => None
      case Some((n, rest)) => match ReadPeers(rest, n) case None => None case Some(ps) => Some(LookupResp(ps))
    else None
  }

  function DecodeMessage(data: Buf): Option<Message> {
    if |data| < 37 then None
    else
      match ReadBody(data[4], data[37..])
      case None => None
      case Some(b) => Some(Message(data[..4], data[5..37], b))
  }

  // ----- The exact range of the round trip

  predicate SmallStrings(ps: seq<Buf>) { forall i | 0 <= i < |ps| :: |ps[i]| < U16 }

  predicate SmallAddrs(cs: seq<Contact>) { forall i | 0 <= i < |cs| :: |cs[i].addr| < U16 }

  /** Lengths, counts and the port fit 16 bits. */
  predicate Fits(b: Body) {
    match b
    case FindNodeResp(cs) => |cs| < U16 && SmallAddrs(cs)
    case LookupResp(ps) => |ps| < U16 && SmallStrings(ps)
    case Announce(_, port) => port < U16
    case Ping => true
    case Pong => true
    case FindNode(_) => true
    case Lookup(_) => true
  }

  /** The last thing written is the empty content of a string. */
  predicate EndsEmpty(b: Body) {
    match b
    case FindNodeResp(cs) => cs != [] && cs[|cs| - 1].addr == []
    case LookupResp(ps) => ps != [] && ps[|ps| - 1] == []
    case Announce(_, _) => false
    case Ping => false
    case Pong => false
    case FindNode(_) => false
    case Lookup(_) => false
  }

  lemma FillExact(b: Buf, rest: Buf)
    ensures Fill(b + rest, |b|) == if b + rest == [] then None else Some((b, rest))
  {
    assert (b + rest)[..|b|] == b && (b + rest)[|b|..] == rest;
  }

  lemma ReadStringOfWrite(s: Buf, rest: Buf)
    requires |s| < U16
    ensures ReadString(WriteString(s) + rest) == if s + rest == [] then None else Some((s, rest))
  {
    Pow256Values();
    assert WriteString(s) + rest == Put16(|s|) + (s + rest);
    Wire.ReadIntOfPut(|s|, 2, s + rest);
    FillExact(s, rest);
  }

  lemma ReadContactOfWrite(c: Contact, rest: Buf)
    requires |c.addr| < U16
    ensures ReadContact(c.id + WriteString(c.addr) + rest) == if c.addr + rest == [] then None else Some((c, rest))
  {
    assert c.id + WriteString(c.addr) + rest == c.id + (WriteString(c.addr) + rest);
    FillExact(c.id, WriteString(c.addr) + rest);
    ReadStringOfWrite(c.addr, rest);
  }

  lemma WrittenIsNotEmpty(cs: seq<Contact>, ps: seq<Buf>)
    ensures WriteContacts(cs) == [] <==> cs == []
    ensures WritePeers(ps) == [] <==> ps == []
  {
  }

  lemma {:induction false} ContactsRoundTrip(cs: seq<Contact>)
    requires SmallAddrs(cs)
    ensures ReadContacts(WriteContacts(cs), |cs|) == if EndsEmpty(FindNodeResp(cs)) then None else Some(cs)
  {
    hide ReadContact, WriteString;
    if cs != [] {
      var rest := WriteContacts(cs[1..]);
      assert WriteContacts(cs) == cs[0].id + WriteString(cs[0].addr) + rest;
      ReadContactOfWrite(cs[0], rest);
      ContactsRoundTrip(cs[1..]);
      WrittenIsNotEmpty(cs[1..], []);
      hide WriteContacts;
      assert cs == [cs[0]] + cs[1..];
    }
  }

  lemma {:induction false} PeersRoundTrip(ps: seq<Buf>)
    requires SmallStrings(ps)
    ensures ReadPeers(WritePeers(ps), |ps|) == if EndsEmpty(LookupResp(ps)) then None else Some(ps)
  {
    hide ReadString, WriteString;
    if ps != [] {
      var rest := WritePeers(ps[1..]);
      assert WritePeers(ps) == WriteString(ps[0]) + rest;
      ReadStringOfWrite(ps[0], rest);
      PeersRoundTrip(ps[1..]);
      WrittenIsNotEmpty([], ps[1..]);
      hide WritePeers;
      assert ps == [ps[0]] + ps[1..];
    }
  }

  lemma BodyRoundTrip(b: Body)
    requires Fits(b)
    ensures ReadBody(TypeByte(b), WriteBody(b)) == if EndsEmpty(b) then None else Some(b)
  {
    hide ReadContacts, ReadPeers, WriteContacts, WritePeers, SmallAddrs, SmallStrings, Wire.ReadInt, Fill;
    Pow256Values();
    match b
    case Ping =>
    case Pong =>
    case FindNode(target) =>
      FillExact(target, []);
      assert target + [] == target;
    case Lookup(topic) =>
      FillExact(topic, []);
      assert topic + [] == topic;
    case FindNodeResp(cs) =>
      Wire.ReadIntOfPut(|cs|, 2, WriteContacts(cs));
      ContactsRoundTrip(cs);
    case LookupResp(ps) =>
      Wire.ReadIntOfPut(|ps|, 2, WritePeers(ps));
      PeersRoundTrip(ps);
    case Announce(topic, port) =>
      FillExact(topic, Put16(port));
      assert Put16(port) + [] == Put16(port);
      Wire.ReadIntOfPut(port, 2, []);
  }

  lemma {:induction false} ContactsWithRest(cs: seq<Contact>, rest: Buf)
    requires SmallAddrs(cs) && rest != []
    ensures ReadContacts(WriteContacts(cs) + rest, |cs|) == Some(cs)
  {
    hide ReadContact, WriteString;
    if cs != [] {
      var more := WriteContacts(cs[1..]) + rest;
      assert WriteContacts(cs) + rest == cs[0].id + WriteString(cs[0].addr) + more;
      ReadContactOfWrite(cs[0], more);
      ContactsWithRest(cs[1..], rest);
      hide WriteContacts;
      assert cs == [cs[0]] + cs[1..];
    }
  }

  lemma {:induction false} PeersWithRest(ps: seq<Buf>, rest: Buf)
    requires SmallStrings(ps) && rest != []
    ensures ReadPeers(WritePeers(ps) + rest, |ps|) == Some(ps)
  {
    hide ReadString, WriteString;
    if ps != [] {
      var more := WritePeers(ps[1..]) + rest;
      assert WritePeers(ps) + rest == WriteString(ps[0]) + more;
      ReadStringOfWrite(ps[0], more);
      PeersWithRest(ps[1..], rest);
      hide WritePeers;
      assert ps == [ps[0]] + ps[1..];
    }
  }

  /** With any bytes after it, every message that fits is read back, an empty end included. */
  lemma RoundTripWithRest(m: Message, rest: Buf)
    requires |m.txID| == 4 && Fits(m.body) && rest != []
    ensures DecodeMessage(EncodeMessage(m) + rest) == Some(m)
  {
    MessageLayout(m);
    var b := EncodeMessage(m);
    assert (b + rest)[..4] == b[..4] && (b + rest)[4] == b[4] && (b + rest)[5..37] == b[5..37];
    assert (b + rest)[37..] == b[37..] + rest;
    BodyWithRest(m.body, rest);
    hide EncodeMessage, WriteBody, ReadBody, Fits, TypeByte;
  }

  lemma BodyWithRest(b: Body, rest: Buf)
    requires Fits(b) && rest != []
    ensures ReadBody(TypeByte(b), WriteBody(b) + rest) == Some(b)
  {
    hide ReadContacts, ReadPeers, WriteContacts, WritePeers, SmallAddrs, SmallStrings, Wire.ReadInt, Fill;
    Pow256Values();
    match b
    case Ping =>
    case Pong =>
    case FindNode(target) =>
      FillExact(target, rest);
    case Lookup(topic) =>
      FillExact(topic, rest);
    case FindNodeResp(cs) =>
      assert WriteBody(b) + rest == Put16(|cs|) + (WriteContacts(cs) + rest);
      Wire.ReadIntOfPut(|cs|, 2, WriteContacts(cs) + rest);
      ContactsWithRest(cs, rest);
    case LookupResp(ps) =>
      assert WriteBody(b) + rest == Put16(|ps|) + (WritePeers(ps) + rest);
      Wire.ReadIntOfPut(|ps|, 2, WritePeers(ps) + rest);
      PeersWithRest(ps, rest);
    case Announce(topic, port) =>
      assert WriteBody(b) + rest == topic + (Put16(port) + rest);
      FillExact(topic, Put16(port) + rest);
      Wire.ReadIntOfPut(port, 2, rest);
  }

  // ----- What is decoded always fits 16 bits

  lemma ReadIntBound(r: Buf)
    requires Wire.ReadInt(r, 2).Some?
    ensures Wire.ReadInt(r, 2).value.0 < U16
  {
    Pow256Values();
    GetBEBound(r[..2]);
  }

  lemma ReadStringBound(r: Buf)
    requires ReadString(r).Some?
    ensures |ReadString(r).value.0| < U16
  {
    ReadIntBound(r);
  }

  lemma {:induction false} ReadContactsBound(r: Buf, n: nat)
    requires ReadContacts(r, n).Some?
    ensures |ReadContacts(r, n).value| == n && SmallAddrs(ReadContacts(r, n).value)
    decreases n
  {
    if n > 0 {
      ReadStringBound(Fill(r, ID_SIZE).value.1);
      hide ReadString, Fill;
      ReadContactsBound(ReadContact(r).value.1, n - 1);
    }
  }

  lemma {:induction false} ReadPeersBound(r: Buf, n: nat)
    requires ReadPeers(r, n).Some?
    ensures |ReadPeers(r, n).value| == n && SmallStrings(ReadPeers(r, n).value)
    decreases n
  {
    if n > 0 {
      ReadStringBound(r);
      hide ReadString;
      ReadPeersBound(ReadString(r).value.1, n - 1);
    }
  }

  lemma DecodedFits(kind: byte, r: Buf)
    requires ReadBody(kind, r).Some?
    ensures Fits(ReadBody(kind, r).value)
  {
    if kind == 4 || kind == 7 {
      ReadIntBound(r);
      var (n, rest) := Wire.ReadInt(r, 2).value;
      if kind == 4 {
        ReadContactsBound(rest, n);
      } else {
        ReadPeersBound(rest, n);
      }
    } else if kind == 5 {
      ReadIntBound(Fill(r, ID_SIZE).value.1);
    }
    hide Fill, Wire.ReadInt, ReadContacts, ReadPeers;
  }

  lemma MessageLayout(m: Message)
    requires |m.txID| == 4
    ensures var b := EncodeMessage(m);
      && |b| >= 37 && b[..4] == m.txID && b[4] == TypeByte(m.body) && b[5..37] == m.senderID
      && b[37..] == WriteBody(m.body)
  {
    hide WriteBody, TypeByte;
  }

  /**
   * A message is read back if and only if its lengths, counts and port fit 16 bits and it does not end in an
   * empty address or peer.
   */
  lemma RoundTripExactly(m: Message)
    requires |m.txID| == 4
    ensures DecodeMessage(EncodeMessage(m)) == Some(m) <==> Fits(m.body) && !EndsEmpty(m.body)
  {
    MessageLayout(m);
    var kind, r := TypeByte(m.body), WriteBody(m.body);
    if Fits(m.body) {
      BodyRoundTrip(m.body);
    } else if ReadBody(kind, r).Some? {
      DecodedFits(kind, r);
    }
    hide EncodeMessage, WriteBody, ReadBody, Fits, EndsEmpty, TypeByte;
  }

  // ----- What a truncated message decodes to

  /** The size of the raw field a message ends in: an identifier, or the last address or peer. */
  function FinalRaw(b: Body): (n: nat)
    ensures n <= |WriteBody(b)|
  {
    match b
    case FindNode(target) => |target|
    case Lookup(topic) => |topic|
    case FindNodeResp(cs) => if cs == [] then 0 else WrittenContactsSize(cs); |cs[|cs| - 1].addr|
    case LookupResp(ps) => if ps == [] then 0 else WrittenPeersSize(ps); |ps[|ps| - 1]|
    case Announce(_, _) => 0
    case Ping => 0
    case Pong => 0
  }

  /** `s` with all but its first `keep` bytes replaced by zeros. */
  function Zeroed(s: Buf, keep: nat): (z: Buf)
    requires keep <= |s|
    ensures |z| == |s|
  {
    s[..keep] + seq(|s| - keep, _ => 0)
  }

  /** The message with the last `cut` bytes of its final raw field replaced by zeros. */
  function ZeroTail(b: Body, cut: nat): Body
    requires cut <= FinalRaw(b)
  {
    match b
    case FindNode(target) => FindNode(Zeroed(target, |target| - cut))
    case Lookup(topic) => Lookup(Zeroed(topic, |topic| - cut))
    case FindNodeResp(cs) => if cs == [] then b else FindNodeResp(ZeroLastAddr(cs, cut))
    case LookupResp(ps) => if ps == [] then b else LookupResp(ZeroLastPeer(ps, cut))
    case Announce(_, _) => b
    case Ping => b
    case Pong => b
  }

  function ZeroLastAddr(cs: seq<Contact>, cut: nat): seq<Contact>
    requires cs != [] && cut <= |cs[|cs| - 1].addr|
  {
    var last := cs[|cs| - 1];
    cs[..|cs| - 1] + [Contact(last.id, Zeroed(last.addr, |last.addr| - cut))]
  }

  function ZeroLastPeer(ps: seq<Buf>, cut: nat): seq<Buf>
    requires ps != [] && cut <= |ps[|ps| - 1]|
  {
    var last := ps[|ps| - 1];
    ps[..|ps| - 1] + [Zeroed(last, |last| - cut)]
  }

  lemma {:induction false} WrittenContactsSize(cs: seq<Contact>)
    requires cs != []
    ensures |WriteContacts(cs)| >= 34 + |cs[|cs| - 1].addr|
  {
    if |cs| > 1 {
      WrittenContactsSize(cs[1..]);
    }
  }

  lemma {:induction false} WrittenPeersSize(ps: seq<Buf>)
    requires ps != []
    ensures |WritePeers(ps)| >= 2 + |ps[|ps| - 1]|
  {
    if |ps| > 1 {
      WrittenPeersSize(ps[1..]);
    }
  }

  lemma FillCut(b: Buf, j: nat)
    requires j <= |b|
    ensures Fill(b[..j], |b|) == if j == 0 then None else Some((Zeroed(b, j), []))
  {
    if j == |b| {
      assert b[..j] == b && Zeroed(b, j) == b && b[j..] == [];
    }
  }

  lemma ReadStringCut(s: Buf, j: nat)
    requires |s| < U16 && j < 2 + |s|
    ensures ReadString(WriteString(s)[..j]) == if j <= 2 then None else Some((Zeroed(s, j - 2), []))
  {
    if j >= 2 {
      Pow256Values();
      assert WriteString(s)[..j] == Put16(|s|) + s[..j - 2];
      Wire.ReadIntOfPut(|s|, 2, s[..j - 2]);
      FillCut(s, j - 2);
    }
  }

  lemma ReadContactCut(c: Contact, j: nat)
    requires |c.addr| < U16 && j < 34 + |c.addr|
    ensures ReadContact((c.id + WriteString(c.addr))[..j]) ==
      if j <= 34 then None else Some((Contact(c.id, Zeroed(c.addr, j - 34)), []))
  {
    var ws := WriteString(c.addr);
    assert |ws| == 2 + |c.addr|;
    if j <= 32 {
      assert (c.id + ws)[..j] == c.id[..j];
      FillCut(c.id, j);
      hide Fill, WriteString;
      assert ReadString([]) == None;
    } else {
      assert (c.id + ws)[..j] == c.id + ws[..j - 32];
      FillExact(c.id, ws[..j - 32]);
      ReadStringCut(c.addr, j - 32);
      hide Fill, WriteString, ReadString;
    }
  }

  lemma NothingToRead(n: nat)
    requires n > 0
    ensures ReadContacts([], n) == None && ReadPeers([], n) == None
  {
  }

  lemma ContactsHead(cs: seq<Contact>)
    requires cs != []
    ensures WriteContacts(cs) == (cs[0].id + WriteString(cs[0].addr)) + WriteContacts(cs[1..])
    ensures |cs[0].id + WriteString(cs[0].addr)| == 34 + |cs[0].addr|
  {
  }

  lemma CutFront(a: Buf, b: Buf, j: nat)
    requires j <= |a + b|
    ensures (a + b)[..j] == if j <= |a| then a[..j] else a + b[..j - |a|]
    ensures j >= |a| ==> (a + b)[..j] == a + b[..j - |a|]
  {
  }

  lemma ReadContactsHead(r: Buf, n: nat)
    requires n > 0
    ensures ReadContacts(r, n) ==
      match ReadContact(r)
      case None => None
      case Some((c, rest)) => match ReadContacts(rest, n - 1) case None => None case Some(cs) => Some([c] + cs)
    ensures ReadContacts(r, 0) == Some([])
  {
    hide ReadContact;
  }

  lemma ReadPeersHead(r: Buf, n: nat)
    requires n > 0
    ensures ReadPeers(r, n) ==
      match ReadString(r)
      case None => None
      case Some((p, rest)) => match ReadPeers(rest, n - 1) case None => None case Some(ps) => Some([p] + ps)
    ensures ReadPeers(r, 0) == Some([])
  {
    hide ReadString;
  }

  lemma ZeroLastOfRest(c: Contact, cs: seq<Contact>, p: Buf, ps: seq<Buf>, cut: nat)
    ensures cs != [] && cut <= |cs[|cs| - 1].addr| ==>
      ([c] + cs)[|[c] + cs| - 1] == cs[|cs| - 1] && ZeroLastAddr([c] + cs, cut) == [c] + ZeroLastAddr(cs, cut)
    ensures ps != [] && cut <= |ps[|ps| - 1]| ==>
      ([p] + ps)[|[p] + ps| - 1] == ps[|ps| - 1] && ZeroLastPeer([p] + ps, cut) == [p] + ZeroLastPeer(ps, cut)
  {
    hide Zeroed;
    assert cs != [] ==> ([c] + cs)[..|cs|] == [c] + cs[..|cs| - 1];
    assert ps != [] ==> ([p] + ps)[..|ps|] == [p] + ps[..|ps| - 1];
  }

  lemma ZeroOnly(c: Contact, p: Buf, cut: nat)
    ensures cut <= |c.addr| ==> ZeroLastAddr([c], cut) == [Contact(c.id, Zeroed(c.addr, |c.addr| - cut))]
    ensures cut <= |p| ==> ZeroLastPeer([p], cut) == [Zeroed(p, |p| - cut)]
  {
    hide Zeroed;
  }

  lemma OneContactCut(c: Contact, j: nat, n: nat)
    requires |c.addr| < U16 && j < 34 + |c.addr| && n > 0
    ensures ReadContacts((c.id + WriteString(c.addr))[..j], n) ==
      if n == 1 && j > 34 then Some([Contact(c.id, Zeroed(c.addr, j - 34))]) else None
  {
    hide WriteString, ReadContact, ReadContacts, Zeroed;
    var r := (c.id + WriteString(c.addr))[..j];
    ReadContactsHead(r, n);
    ReadContactCut(c, j);
    if n == 1 {
      ReadContactsHead([], 1);
      assert j > 34 ==> [Contact(c.id, Zeroed(c.addr, j - 34))] + [] == [Contact(c.id, Zeroed(c.addr, j - 34))];
    } else {
      NothingToRead(n - 1);
    }
  }

  lemma OnePeerCut(p: Buf, j: nat, n: nat)
    requires |p| < U16 && j < 2 + |p| && n > 0
    ensures ReadPeers(WriteString(p)[..j], n) == if n == 1 && j > 2 then Some([Zeroed(p, j - 2)]) else None
  {
    hide WriteString, ReadString, ReadPeers, Zeroed;
    var r := WriteString(p)[..j];
    ReadPeersHead(r, n);
    ReadStringCut(p, j);
    if n == 1 {
      ReadPeersHead([], 1);
      assert j > 2 ==> [Zeroed(p, j - 2)] + [] == [Zeroed(p, j - 2)];
    } else {
      NothingToRead(n - 1);
    }
  }

  lemma AfterFirstContact(c: Contact, rest: seq<Contact>, i: nat)
    requires |c.addr| < U16 && rest != [] && i < |WriteContacts(rest)|
    requires var cut := |WriteContacts(rest)| - i;
      ReadContacts(WriteContacts(rest)[..i], |rest|) ==
        if cut < |rest[|rest| - 1].addr| then Some(ZeroLastAddr(rest, cut)) else None
    ensures var cut, cs := |WriteContacts(rest)| - i, [c] + rest;
      ReadContacts(c.id + WriteString(c.addr) + WriteContacts(rest)[..i], |cs|) ==
        if cut < |cs[|cs| - 1].addr| then Some(ZeroLastAddr(cs, cut)) else None
  {
    hide WriteString, ReadContact, ReadContacts, WriteContacts, Zeroed, ZeroLastAddr;
    var more := WriteContacts(rest)[..i];
    WrittenContactsSize(rest);
    ReadContactsHead(c.id + WriteString(c.addr) + more, 1 + |rest|);
    ReadContactOfWrite(c, more);
    ZeroLastOfRest(c, rest, [], [], |WriteContacts(rest)| - i);
  }

  lemma AfterFirstPeer(p: Buf, rest: seq<Buf>, i: nat)
    requires |p| < U16 && rest != [] && i < |WritePeers(rest)|
    requires var cut := |WritePeers(rest)| - i;
      ReadPeers(WritePeers(rest)[..i], |rest|) ==
        if cut < |rest[|rest| - 1]| then Some(ZeroLastPeer(rest, cut)) else None
    ensures var cut, ps := |WritePeers(rest)| - i, [p] + rest;
      ReadPeers(WriteString(p) + WritePeers(rest)[..i], |ps|) ==
        if cut < |ps[|ps| - 1]| then Some(ZeroLastPeer(ps, cut)) else None
  {
    hide WriteString, ReadString, ReadPeers, WritePeers, Zeroed, ZeroLastPeer;
    var more := WritePeers(rest)[..i];
    WrittenPeersSize(rest);
    ReadPeersHead(WriteString(p) + more, 1 + |rest|);
    ReadStringOfWrite(p, more);
    ZeroLastOfRest(Contact(seq(32, _ => 0), []), [], p, rest, |WritePeers(rest)| - i);
  }

  lemma {:induction false} ContactsCut(cs: seq<Contact>, j: nat)
    requires SmallAddrs(cs) && j < |WriteContacts(cs)|
    ensures cs != []
    ensures var cut := |WriteContacts(cs)| - j;
      ReadContacts(WriteContacts(cs)[..j], |cs|) ==
        if cut < |cs[|cs| - 1].addr| then Some(ZeroLastAddr(cs, cut)) else None
    decreases |cs|
  {
    assert cs != [];
    hide WriteString, ReadContact, ReadContacts, WriteContacts, Zeroed, ZeroLastAddr;
    var c, rest := cs[0], cs[1..];
    var w, tail := c.id + WriteString(c.addr), WriteContacts(rest);
    ContactsHead(cs);
    CutFront(w, tail, j);
    WrittenIsNotEmpty(rest, []);
    assert cs == [c] + rest;
    if j < |w| {
      FirstContactCut(cs, j);
    } else {
      ContactsCut(rest, j - |w|);
      AfterFirstContact(c, rest, j - |w|);
    }
  }

  lemma FirstContactCut(cs: seq<Contact>, j: nat)
    requires SmallAddrs(cs) && cs != [] && j < |cs[0].id + WriteString(cs[0].addr)|
    ensures var cut := |WriteContacts(cs)| - j;
      ReadContacts((cs[0].id + WriteString(cs[0].addr))[..j], |cs|) ==
        if cut < |cs[|cs| - 1].addr| then Some(ZeroLastAddr(cs, cut)) else None
  {
    hide ReadContact, ReadContacts, WriteContacts, Zeroed, ZeroLastAddr;
    var c, rest := cs[0], cs[1..];
    ContactsHead(cs);
    OneContactCut(c, j, |cs|);
    if rest == [] {
      WrittenIsNotEmpty(rest, []);
      assert cs == [c];
      ZeroOnly(c, [], |WriteContacts(cs)| - j);
    } else {
      WrittenContactsSize(rest);
    }
  }

  lemma PeersHead(ps: seq<Buf>)
    requires ps != []
    ensures WritePeers(ps) == WriteString(ps[0]) + WritePeers(ps[1..])
    ensures |WriteString(ps[0])| == 2 + |ps[0]|
  {
  }

  lemma {:induction false} PeersCut(ps: seq<Buf>, j: nat)
    requires SmallStrings(ps) && j < |WritePeers(ps)|
    ensures ps != []
    ensures var cut := |WritePeers(ps)| - j;
      ReadPeers(WritePeers(ps)[..j], |ps|) ==
        if cut < |ps[|ps| - 1]| then Some(ZeroLastPeer(ps, cut)) else None
    decreases |ps|
  {
    assert ps != [];
    hide WriteString, ReadString, ReadPeers, WritePeers, Zeroed, ZeroLastPeer;
    var p, rest := ps[0], ps[1..];
    var w, tail := WriteString(p), WritePeers(rest);
    PeersHead(ps);
    CutFront(w, tail, j);
    WrittenIsNotEmpty([], rest);
    assert ps == [p] + rest;
    if j < |w| {
      OnePeerCut(p, j, |ps|);
      if rest == [] {
        ZeroOnly(Contact(seq(32, _ => 0), []), p, |w + tail| - j);
      } else {
        WrittenPeersSize(rest);
      }
    } else {
      PeersCut(rest, j - |w|);
      AfterFirstPeer(p, rest, j - |w|);
    }
  }

  /** The count of a list is read or missing. */
  lemma CountCut(n: nat, list: Buf, j: nat)
    requires n < U16 && j <= 2 + |list|
    ensures Wire.ReadInt((Put16(n) + list)[..j], 2) == if j < 2 then None else Some((n, list[..j - 2]))
  {
    if j >= 2 {
      Pow256Values();
      CutFront(Put16(n), list, j);
      Wire.ReadIntOfPut(n, 2, list[..j - 2]);
    }
  }

  lemma AnnounceCut(topic: Id, port: nat, j: nat)
    requires j < 34
    ensures ReadBody(5, (topic + Put16(port))[..j]) == None
  {
    CutFront(topic, Put16(port), j);
    if j <= 32 {
      FillCut(topic, j);
    } else {
      FillExact(topic, Put16(port)[..j - 32]);
    }
  }

  lemma FindNodeRespCut(cs: seq<Contact>, j: nat)
    requires Fits(FindNodeResp(cs)) && j < |WriteBody(FindNodeResp(cs))|
    ensures var b, cut := FindNodeResp(cs), |WriteBody(FindNodeResp(cs))| - j;
      ReadBody(4, WriteBody(b)[..j]) == if cut < FinalRaw(b) then Some(ZeroTail(b, cut)) else None
  {
    hide ReadContacts, WriteContacts, Zeroed, ZeroLastAddr, Wire.ReadInt;
    CountCut(|cs|, WriteContacts(cs), j);
    if cs != [] {
      WrittenContactsSize(cs);
    }
    if j >= 2 {
      ContactsCut(cs, j - 2);
    }
  }

  lemma LookupRespCut(ps: seq<Buf>, j: nat)
    requires Fits(LookupResp(ps)) && j < |WriteBody(LookupResp(ps))|
    ensures var b, cut := LookupResp(ps), |WriteBody(LookupResp(ps))| - j;
      ReadBody(7, WriteBody(b)[..j]) == if cut < FinalRaw(b) then Some(ZeroTail(b, cut)) else None
  {
    hide ReadPeers, WritePeers, Zeroed, ZeroLastPeer, Wire.ReadInt;
    CountCut(|ps|, WritePeers(ps), j);
    if ps != [] {
      WrittenPeersSize(ps);
    }
    if j >= 2 {
      PeersCut(ps, j - 2);
    }
  }

  /** A body cut short is read exactly when at least one byte of its final raw field is left. */
  lemma BodyCut(b: Body, j: nat)
    requires Fits(b) && j < |WriteBody(b)|
    ensures var cut := |WriteBody(b)| - j;
      ReadBody(TypeByte(b), WriteBody(b)[..j]) == if cut < FinalRaw(b) then Some(ZeroTail(b, cut)) else None
  {
    hide Fill, ReadContacts, ReadPeers, WriteContacts, WritePeers, Zeroed, Wire.ReadInt;
    match b
    case Ping => assert false;
    case Pong => assert false;
    case FindNode(target) => FillCut(target, j);
    case Lookup(topic) => FillCut(topic, j);
    case Announce(topic, port) => AnnounceCut(topic, port, j);
    case FindNodeResp(cs) => FindNodeRespCut(cs, j);
    case LookupResp(ps) => LookupRespCut(ps, j);
  }

  /**
   * A message that is cut short is accepted if and only if at least one byte of its final raw field is left, and then
   * what is missing of that field reads as zeros.
   */
  lemma TruncatedExactly(m: Message, k: nat)
    requires |m.txID| == 4 && Fits(m.body) && k < |EncodeMessage(m)|
    ensures var cut := |EncodeMessage(m)| - k;
      DecodeMessage(EncodeMessage(m)[..k]) ==
        if cut < FinalRaw(m.body) then Some(m.(body := ZeroTail(m.body, cut))) else None
  {
    MessageLayout(m);
    var e, data := EncodeMessage(m), EncodeMessage(m)[..k];
    assert |e| == 37 + |WriteBody(m.body)|;
    hide EncodeMessage, WriteBody, ReadBody, TypeByte, FinalRaw, ZeroTail;
    if k >= 37 {
      assert data[..4] == e[..4] && data[4] == e[4] && data[5..37] == e[5..37] && data[37..] == e[37..][..k - 37];
      BodyCut(m.body, k - 37);
    }
  }

  /** One byte of a topic is enough. */
  lemma OneByteOfTopic(txID: Buf, sender: Id, b: byte)
    requires |txID| == 4
    ensures DecodeMessage(txID + [6] + sender + [b])
         == Some(Message(txID, sender, Lookup(Zeroed([b] + seq(31, _ => 0), 1))))
  {
    var topic: Id := [b] + seq(31, _ => 0);
    var m := Message(txID, sender, Lookup(topic));
    TruncatedExactly(m, 38);
    assert EncodeMessage(m)[..38] == txID + [6] + sender + [b];
  }

  // ----- The loops

  lemma {:induction false} WriteContactsAppend(cs: seq<Contact>, c: Contact)
    ensures WriteContacts(cs + [c]) == WriteContacts(cs) + (c.id + WriteString(c.addr))
  {
    hide WriteString;
    if cs == [] {
      assert [] + [c] == [c] && [c][1..] == [];
    } else {
      assert (cs + [c])[1..] == cs[1..] + [c];
      WriteContactsAppend(cs[1..], c);
    }
  }

  lemma {:induction false} WritePeersAppend(ps: seq<Buf>, p: Buf)
    ensures WritePeers(ps + [p]) == WritePeers(ps) + WriteString(p)
  {
    hide WriteString;
    if ps == [] {
      assert [] + [p] == [p] && [p][1..] == [];
    } else {
      assert (ps + [p])[1..] == ps[1..] + [p];
      WritePeersAppend(ps[1..], p);
    }
  }

  method EncodeContacts(contacts: seq<Contact>) returns (buf: Buf)
    ensures buf == WriteBody(FindNodeResp(contacts))
  {
    buf := Put16(|contacts|);
    for i := 0 to |contacts|
      invariant buf == Put16(|contacts|) + WriteContacts(contacts[..i])
    {
      var c := contacts[i];
      assert contacts[..i + 1] == contacts[..i] + [c];
      WriteContactsAppend(contacts[..i], c);
      buf := buf + c.id;
      buf := buf + Put16(|c.addr|);
      buf := buf + c.addr;
    }
    assert contacts[..|contacts|] == contacts;
  }

  method EncodePeers(peers: seq<Buf>) returns (buf: Buf)
    ensures buf == WriteBody(LookupResp(peers))
  {
    buf := Put16(|peers|);
    for i := 0 to |peers|
      invariant buf == Put16(|peers|) + WritePeers(peers[..i])
    {
      assert peers[..i + 1] == peers[..i] + [peers[i]];
      WritePeersAppend(peers[..i], peers[i]);
      buf := buf + Put16(|peers[i]|);
      buf := buf + peers[i];
    }
    assert peers[..|peers|] == peers;
  }

  method DecodeContacts(reader: Buf, count: nat) returns (contacts: Option<seq<Contact>>)
    ensures contacts == ReadContacts(reader, count)
  {
    var read: seq<Contact>, r := [], reader;
    PrependNothing([], ReadContacts(reader, count));
    for i := 0 to count
      invariant ReadContacts(reader, count) == Prepend(read, ReadContacts(r, count - i))
    {
      var id := Fill(r, ID_SIZE);
      if id.None? {
        return None;
      }
      var addr := ReadString(id.value.1);
      if addr.None? {
        return None;
      }
      var c := Contact(id.value.0, addr.value.0);
      PrependMore(read, c, ReadContacts(addr.value.1, count - i - 1));
      read, r := read + [c], addr.value.1;
    }
    assert read + [] == read;
    contacts := Some(read);
  }

  method DecodePeers(reader: Buf, count: nat) returns (peers: Option<seq<Buf>>)
    ensures peers == ReadPeers(reader, count)
  {
    var read: seq<Buf>, r := [], reader;
    PrependNothing([], ReadPeers(reader, count));
    for i := 0 to count
      invariant ReadPeers(reader, count) == Prepend(read, ReadPeers(r, count - i))
    {
      var p := ReadString(r);
      if p.None? {
        return None;
      }
      PrependMore(read, p.value.0, ReadPeers(p.value.1, count - i - 1));
      read, r := read + [p.value.0], p.value.1;
    }
    assert read + [] == read;
    peers := Some(read);
  }
}
