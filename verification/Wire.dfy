/** The messages of a replication session and their binary form (pkg/hypercore/wire.go). */
module Wire {
  import opened Bytes

  const MAX_MESSAGE_SIZE: nat := 10 * 1024 * 1024

  datatype Msg =
    | Handshake(protocol: Buf, key: Buf, extensions: seq<Buf>)
    | Have(start: nat, length: nat)
    | Want(start: nat, length: nat)
    | Request(index: nat)
    | Data(index: nat, value: Buf, signature: Buf)

  /** Integers fit their fields and byte fields pass the reader's limit. */
  predicate Encodable(m: Msg) {
    match m
    case Handshake(p, k, exts) =>
      |p| <= MAX_MESSAGE_SIZE && |k| <= MAX_MESSAGE_SIZE && |exts| < U32 &&
      forall i | 0 <= i < |exts| :: |exts[i]| <= MAX_MESSAGE_SIZE
    case Have(s, n) => s < U64 && n < U64
    case Want(s, n) => s < U64 && n < U64
    case Request(i) => i < U64
    case Data(i, v, sig) => i < U64 && |v| <= MAX_MESSAGE_SIZE && |sig| <= MAX_MESSAGE_SIZE
  }

  // ----- Writers

  function WriteBytes(b: Buf): Buf { Put32(|b|) + b }

  function WriteAll(bs: seq<Buf>): Buf {
    if bs == [] then [] else WriteBytes(bs[0]) + WriteAll(bs[1..])
  }

  function Encode(m: Msg): (b: Buf)
    ensures b != []
  {
    match m
    case Handshake(p, k, exts) => [0] + (WriteBytes(p) + (WriteBytes(k) + (Put32(|exts|) + WriteAll(exts))))
    case Have(s, n) => [2] + (Put64(s) + Put64(n))
    case Want(s, n) => [3] + (Put64(s) + Put64(n))
    case Request(i) => [4] + Put64(i)
    case Data(i, v, sig) => [5] + (Put64(i) + (WriteBytes(v) + WriteBytes(sig)))
  }

  // ----- Readers: each returns the value read and the bytes that remain

  function ReadInt(r: Buf, k: nat): (o: Option<(nat, Buf)>) {
    if |r| < k then None else Some((GetBE(r[..k]), r[k..]))
  }

  function ReadBytes(r: Buf): (o: Option<(Buf, Buf)>) {
    match ReadInt(r, 4)
    case None => None
    case Some((n, rest)) =>
      if n > MAX_MESSAGE_SIZE || |rest| < n then None else Some((rest[..n], rest[n..]))
  }

  function ReadMany(r: Buf, n: nat): (o: Option<seq<Buf>>)
    decreases n
  {
    if n == 0 then Some([])
    else
      match ReadBytes(r)
      case None => None
      case Some((b, rest)) =>
        match ReadMany(rest, n - 1)
        case None => None
        case Some(bs) => Some([b] + bs)
  }

  function DecodeHandshake(b: Buf): Option<Msg> {
    if b == [] || b[0] != 0 then None
    else
      match ReadBytes(b[1..])
      case None => None
      case Some((p, r1)) =>
        match ReadBytes(r1)
        case None => None
        case Some((k, r2)) =>
          // A missing extension count means no extensions.
          match ReadInt(r2, 4)
          case None => Some(Handshake(p, k, []))
          case Some((n, r3)) =>
            match ReadMany(r3, n)
            case None => None
            case Some(exts) => Some(Handshake(p, k, exts))
  }

  function ReadTwo(r: Buf): Option<(nat, nat)> {
    match ReadInt(r, 8)
    case None => None
    case Some((a, rest)) =>
      match ReadInt(rest, 8)
      case None => None
      case Some((b, _)) => Some((a, b))
  }

  function DecodeHave(b: Buf): Option<Msg> {
    if b == [] || b[0] != 2 then None
    else match ReadTwo(b[1..]) case None => None case Some((s, n)) => Some(Have(s, n))
  }

  function DecodeWant(b: Buf): Option<Msg> {
    if b == [] || b[0] != 3 then None
    else match ReadTwo(b[1..]) case None => None case Some((s, n)) => Some(Want(s, n))
  }

  function DecodeRequest(b: Buf): Option<Msg> {
    if b == [] || b[0] != 4 then None
    else match ReadInt(b[1..], 8) case None => None case Some((i, _)) => Some(Request(i))
  }

  function DecodeData(b: Buf): Option<Msg> {
    if b == [] || b[0] != 5 then None
    else
      match ReadInt(b[1..], 8)
      case None => None
      case Some((i, r1)) =>
        match ReadBytes(r1)
        case None => None
        case Some((v, r2)) =>
          match ReadBytes(r2)
          case None => None
          case Some((sig, _)) => Some(Data(i, v, sig))
  }

  /** The decoder the receiver picks from the first byte. */
  function Decode(b: Buf): Option<Msg> {
    if b == [] then None
    else if b[0] == 0 then DecodeHandshake(b)
    else if b[0] == 2 then DecodeHave(b)
    else if b[0] == 3 then DecodeWant(b)
    else if b[0] == 4 then DecodeRequest(b)
    else if b[0] == 5 then DecodeData(b)
    else None
  }

  // ----- Round trips

  lemma ReadIntOfPut(n: nat, k: nat, rest: Buf)
    requires n < Pow256(k)
    ensures ReadInt(PutBE(n, k) + rest, k) == Some((n, rest))
  {
    var r := PutBE(n, k) + rest;
    assert r[..k] == PutBE(n, k) && r[k..] == rest;
    GetPutBE(n, k);
  }

  lemma ReadBytesOfWrite(b: Buf, rest: Buf)
    requires |b| <= MAX_MESSAGE_SIZE
    ensures ReadBytes(WriteBytes(b) + rest) == Some((b, rest))
  {
    Pow256Values();
    assert WriteBytes(b) + rest == Put32(|b|) + (b + rest);
    ReadIntOfPut(|b|, 4, b + rest);
    assert (b + rest)[..|b|] == b && (b + rest)[|b|..] == rest;
  }

  lemma {:induction false} ReadManyOfWrite(bs: seq<Buf>, rest: Buf)
    requires forall i | 0 <= i < |bs| :: |bs[i]| <= MAX_MESSAGE_SIZE
    ensures ReadMany(WriteAll(bs) + rest, |bs|) == Some(bs)
  {
    hide ReadBytes, WriteBytes;
    if bs == [] {
    } else {
      assert WriteAll(bs) + rest == WriteBytes(bs[0]) + (WriteAll(bs[1..]) + rest);
      ReadBytesOfWrite(bs[0], WriteAll(bs[1..]) + rest);
      ReadManyOfWrite(bs[1..], rest);
      assert bs == [bs[0]] + bs[1..];
    }
  }

  lemma ReadTwoWithRest(a: nat, b: nat, rest: Buf)
    requires a < U64 && b < U64
    ensures ReadTwo(Put64(a) + (Put64(b) + rest)) == Some((a, b))
  {
    Pow256Values();
    ReadIntOfPut(a, 8, Put64(b) + rest);
    ReadIntOfPut(b, 8, rest);
  }

  lemma AfterFirst(t: byte, body: Buf, rest: Buf)
    ensures ([t] + body + rest)[0] == t && ([t] + body + rest)[1..] == body + rest
  {
  }

  lemma RegroupData(a: Buf, b: Buf, c: Buf, rest: Buf)
    ensures a + b + rest == a + (b + rest)
    ensures a + (b + c) + rest == a + (b + (c + rest))
  {
  }

  lemma RegroupHandshake(a: Buf, b: Buf, c: Buf, d: Buf, rest: Buf)
    ensures a + (b + (c + d)) + rest == a + (b + (c + (d + rest)))
  {
  }

  lemma HandshakeWithRest(p: Buf, k: Buf, exts: seq<Buf>, rest: Buf)
    requires Encodable(Handshake(p, k, exts))
    ensures Decode(Encode(Handshake(p, k, exts)) + rest) == Some(Handshake(p, k, exts))
  {
    hide ReadBytes, ReadMany, WriteBytes, WriteAll, ReadInt, GetBE, PutBE;
    Pow256Values();
    var tail := Put32(|exts|) + (WriteAll(exts) + rest);
    AfterFirst(0, WriteBytes(p) + (WriteBytes(k) + (Put32(|exts|) + WriteAll(exts))), rest);
    RegroupHandshake(WriteBytes(p), WriteBytes(k), Put32(|exts|), WriteAll(exts), rest);
    ReadBytesOfWrite(p, WriteBytes(k) + tail);
    ReadBytesOfWrite(k, tail);
    ReadIntOfPut(|exts|, 4, WriteAll(exts) + rest);
    ReadManyOfWrite(exts, rest);
  }

  /** Decoding an encoded message gives the message back, whatever bytes follow. */
  lemma RoundTripWithRest(m: Msg, rest: Buf)
    requires Encodable(m)
    ensures Decode(Encode(m) + rest) == Some(m)
  {
    hide ReadBytes, ReadMany, WriteBytes, WriteAll, ReadInt, GetBE, PutBE, ReadTwo;
    Pow256Values();
    match m
    case Handshake(p, k, exts) =>
      HandshakeWithRest(p, k, exts, rest);
    case Have(s, n) =>
      AfterFirst(2, Put64(s) + Put64(n), rest);
      RegroupData(Put64(s), Put64(n), [], rest);
      ReadTwoWithRest(s, n, rest);
    case Want(s, n) =>
      AfterFirst(3, Put64(s) + Put64(n), rest);
      RegroupData(Put64(s), Put64(n), [], rest);
      ReadTwoWithRest(s, n, rest);
    case Request(i) =>
      AfterFirst(4, Put64(i), rest);
      ReadIntOfPut(i, 8, rest);
    case Data(i, v, sig) =>
      AfterFirst(5, Put64(i) + (WriteBytes(v) + WriteBytes(sig)), rest);
      RegroupData(Put64(i), WriteBytes(v), WriteBytes(sig), rest);
      ReadIntOfPut(i, 8, WriteBytes(v) + (WriteBytes(sig) + rest));
      ReadBytesOfWrite(v, WriteBytes(sig) + rest);
      ReadBytesOfWrite(sig, rest);
  }

  lemma RoundTrip(m: Msg)
    requires Encodable(m)
    ensures Decode(Encode(m)) == Some(m)
  {
    RoundTripWithRest(m, []);
    assert Encode(m) + [] == Encode(m);
  }

  // ----- Decoders accept nothing but encodings (with trailing bytes)

  lemma ReadIntSound(r: Buf, k: nat)
    requires ReadInt(r, k).Some?
    ensures var (n, rest) := ReadInt(r, k).value; r == PutBE(n, k) + rest && n < Pow256(k)
  {
    PutGetBE(r[..k]);
    GetBEBound(r[..k]);
    assert r == r[..k] + r[k..];
  }

  lemma ReadBytesSound(r: Buf)
    requires ReadBytes(r).Some?
    ensures var (b, rest) := ReadBytes(r).value; r == WriteBytes(b) + rest && |b| <= MAX_MESSAGE_SIZE
  {
    Pow256Values();
    ReadIntSound(r, 4);
    var (n, rest) := ReadInt(r, 4).value;
    assert rest == rest[..n] + rest[n..];
    assert r == Put32(n) + rest[..n] + rest[n..];
  }

  lemma ReadTwoSound(r: Buf)
    requires ReadTwo(r).Some?
    ensures var (x, y) := ReadTwo(r).value; x < U64 && y < U64 && Put64(x) + Put64(y) <= r
  {
    Pow256Values();
    ReadIntSound(r, 8);
    var (x, r1) := ReadInt(r, 8).value;
    ReadIntSound(r1, 8);
    var (y, r2) := ReadInt(r1, 8).value;
    TwoLayout(Put64(x), Put64(y), r2);
  }

  lemma TwoLayout(a: Buf, b: Buf, rest: Buf)
    ensures a + b <= a + (b + rest)
  {
    assert a + (b + rest) == (a + b) + rest;
  }

  lemma DecodeDataSound(b: Buf)
    requires DecodeData(b).Some?
    ensures Encodable(DecodeData(b).value)
    ensures Encode(DecodeData(b).value) <= b
  {
    Pow256Values();
    var r := b[1..];
    ReadIntSound(r, 8);
    var (i, r1) := ReadInt(r, 8).value;
    ReadBytesSound(r1);
    var (v, r2) := ReadBytes(r1).value;
    ReadBytesSound(r2);
    var (sig, r3) := ReadBytes(r2).value;
    DataLayout(b, Put64(i), WriteBytes(v), WriteBytes(sig), r3);
  }

  lemma DataLayout(b: Buf, i: Buf, v: Buf, sig: Buf, rest: Buf)
    requires b != [] && b[0] == 5 && b[1..] == i + (v + (sig + rest))
    ensures [5] + (i + (v + sig)) <= b
  {
    assert b == [5] + (i + (v + sig)) + rest;
  }

  lemma {:induction false} ReadManySound(r: Buf, n: nat)
    requires ReadMany(r, n).Some?
    ensures var bs := ReadMany(r, n).value;
      |bs| == n && WriteAll(bs) <= r && forall i | 0 <= i < n :: |bs[i]| <= MAX_MESSAGE_SIZE
    decreases n
  {
    if n > 0 {
      ReadBytesSound(r);
      var (b, rest) := ReadBytes(r).value;
      ReadManySound(rest, n - 1);
      var bs := ReadMany(rest, n - 1).value;
      hide ReadBytes, WriteBytes;
      assert ([b] + bs)[1..] == bs;
      assert r == WriteBytes(b) + WriteAll(bs) + rest[|WriteAll(bs)|..];
    }
  }

  /** The handshake's bytes end before the count of its extensions. */
  predicate LacksExtensionCount(b: Buf, m: Msg)
    requires m.Handshake?
  {
    var head := [0] + (WriteBytes(m.protocol) + WriteBytes(m.key));
    m.extensions == [] && head <= b && |b| < |head| + 4
  }

  lemma DecodeHandshakeSound(b: Buf)
    requires DecodeHandshake(b).Some?
    ensures var m := DecodeHandshake(b).value;
      m.Handshake? && Encodable(m) && (Encode(m) <= b || LacksExtensionCount(b, m))
  {
    Pow256Values();
    hide ReadBytes, ReadMany, WriteBytes, WriteAll, ReadInt, GetBE, PutBE, Encodable;
    ReadBytesSound(b[1..]);
    var (p, r1) := ReadBytes(b[1..]).value;
    ReadBytesSound(r1);
    var (k, r2) := ReadBytes(r1).value;
    HandshakeHead(b, WriteBytes(p), WriteBytes(k), r2);
    if ReadInt(r2, 4).Some? {
      ReadIntSound(r2, 4);
      var (n, r3) := ReadInt(r2, 4).value;
      ReadManySound(r3, n);
      var exts := ReadMany(r3, n).value;
      HandshakeWhole(b, WriteBytes(p), WriteBytes(k), Put32(n), WriteAll(exts), r3);
      HandshakeEncodable(p, k, exts);
    } else {
      ShortRest(r2);
      HandshakeEncodable(p, k, []);
    }
  }

  lemma HandshakeEncodable(p: Buf, k: Buf, exts: seq<Buf>)
    requires |p| <= MAX_MESSAGE_SIZE && |k| <= MAX_MESSAGE_SIZE && |exts| < U32
    requires forall i | 0 <= i < |exts| :: |exts[i]| <= MAX_MESSAGE_SIZE
    ensures Encodable(Handshake(p, k, exts))
  {
  }

  lemma ShortRest(r: Buf)
    requires ReadInt(r, 4).None?
    ensures |r| < 4
  {
  }

  lemma HandshakeHead(b: Buf, p: Buf, k: Buf, rest: Buf)
    requires b != [] && b[0] == 0 && b[1..] == p + (k + rest)
    ensures [0] + (p + k) <= b && |b| == |[0] + (p + k)| + |rest| && b == [0] + (p + (k + rest))
  {
    assert b == [0] + (p + k) + rest;
    assert b == [0] + b[1..];
  }

  lemma HandshakeWhole(b: Buf, p: Buf, k: Buf, n: Buf, exts: Buf, rest: Buf)
    requires b == [0] + (p + (k + (n + rest))) && exts <= rest
    ensures [0] + (p + (k + (n + exts))) <= b
  {
    assert rest == exts + rest[|exts|..];
    assert b == [0] + (p + (k + (n + exts))) + rest[|exts|..];
  }

  /**
   * What the decoders accept starts with the encoding of what they return; only a handshake may also end before the
   * count of its extensions, and then has none.
   */
  lemma DecodeIsCanonical(b: Buf)
    requires Decode(b).Some?
    ensures var m := Decode(b).value;
      Encodable(m) && (Encode(m) <= b || (m.Handshake? && LacksExtensionCount(b, m)))
  {
    if b[0] == 0 {
      DecodeHandshakeSound(b);
    } else {
      SessionMessageSound(b);
    }
  }

  /** A message other than a handshake is decoded from exactly the byte strings that begin with its encoding. */
  lemma DecodesExactly(b: Buf, m: Msg)
    requires !m.Handshake?
    ensures Decode(b) == Some(m) <==> Encodable(m) && Encode(m) <= b
  {
    if Decode(b) == Some(m) {
      DecodeIsCanonical(b);
    }
    if Encodable(m) && Encode(m) <= b {
      RoundTripWithRest(m, b[|Encode(m)|..]);
      assert Encode(m) + b[|Encode(m)|..] == b;
    }
    hide Decode, Encode, Encodable;
  }

  lemma SessionMessageSound(b: Buf)
    requires Decode(b).Some? && b[0] != 0
    ensures Encodable(Decode(b).value) && Encode(Decode(b).value) <= b
  {
    Pow256Values();
    assert b == [b[0]] + b[1..];
    if b[0] == 5 {
      DecodeDataSound(b);
    } else if b[0] == 4 {
      ReadIntSound(b[1..], 8);
    } else {
      ReadTwoSound(b[1..]);
    }
  }

  // ----- The loops over the extension list

  lemma {:induction false} WriteAllAppend(a: seq<Buf>, b: Buf)
    ensures WriteAll(a + [b]) == WriteAll(a) + WriteBytes(b)
  {
    if a == [] {
      assert [] + [b] == [b];
      assert WriteAll([b]) == WriteBytes(b) + WriteAll([]);
    } else {
      assert (a + [b])[1..] == a[1..] + [b];
      WriteAllAppend(a[1..], b);
    }
  }

  method AppendExtensions(head: Buf, extensions: seq<Buf>) returns (buf: Buf)
    ensures buf == head + WriteAll(extensions)
  {
    buf := head;
    for i := 0 to |extensions|
      invariant buf == head + WriteAll(extensions[..i])
    {
      assert extensions[..i + 1] == extensions[..i] + [extensions[i]];
      WriteAllAppend(extensions[..i], extensions[i]);
      buf := buf + WriteBytes(extensions[i]);
    }
    assert extensions[..|extensions|] == extensions;
  }

  lemma HandshakeLayout(p: Buf, k: Buf, n: Buf, exts: Buf)
    ensures [0] + p + k + n + exts == [0] + (p + (k + (n + exts)))
  {
  }

  method EncodeHandshakeBuffer(protocol: Buf, key: Buf, extensions: seq<Buf>) returns (buf: Buf)
    ensures buf == Encode(Handshake(protocol, key, extensions))
  {
    buf := [0];
    buf := buf + WriteBytes(protocol);
    buf := buf + WriteBytes(key);
    buf := buf + Put32(|extensions|);
    buf := AppendExtensions(buf, extensions);
    HandshakeLayout(WriteBytes(protocol), WriteBytes(key), Put32(|extensions|), WriteAll(extensions));
  }

  method DecodeExtensions(reader: Buf, count: nat) returns (extensions: Option<seq<Buf>>)
    ensures extensions == ReadMany(reader, count)
  {
    var read: seq<Buf> := [];
    var r := reader;
    PrependNothing([], ReadMany(reader, count));
    for i := 0 to count
      invariant |read| == i
      invariant ReadMany(reader, count) == Prepend(read, ReadMany(r, count - i))
    {
      match ReadBytes(r)
      case None =>
        return None;
      case Some((ext, rest)) =>
        PrependMore(read, ext, ReadMany(rest, count - i - 1));
        read, r := read + [ext], rest;
    }
    PrependNothing(read, None);
    extensions := Some(read);
  }
}
