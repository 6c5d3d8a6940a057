/**
 * Encrypted records and the message frames inside them: SecureConn in pkg/crypto/noise.go below
 * SyncSession.writeFrame and readFrame in pkg/hypercore/sync.go. The cipher is any pair of functions; a record is
 * sealed under the number of records before it.
 */
module SecureChannel {
  import opened Bytes
  import Wire

  datatype Cipher = Cipher(seal: (nat, Buf) -> Buf, open: (nat, Buf) -> Option<Buf>)

  /** What is assumed of the two ends' keys: each record opens, under its own number, to what was sealed. */
  ghost predicate Opens(ci: Cipher) {
    forall n: nat, p: Buf :: ci.open(n, ci.seal(n, p)) == Some(p)
  }

  const MAX_RECORD: nat := 65535

  /** A record: two bytes of length and the sealed bytes. */
  function Frame(data: Buf): Buf { Put16(|data|) + data }

  lemma FrameAfter(before: Buf, data: Buf)
    ensures before + Put16(|data|) + data == before + Frame(data)
  {
  }

  function TakeFrame(b: Buf): Option<(Buf, Buf)> {
    match Wire.ReadInt(b, 2)
    case None => None
    case Some((n, rest)) => if |rest| < n then None else Some((rest[..n], rest[n..]))
  }

  lemma TakeFrameOfFrame(data: Buf, rest: Buf)
    requires |data| <= MAX_RECORD
    ensures TakeFrame(Frame(data) + rest) == Some((data, rest))
  {
    Pow256Values();
    assert Frame(data) + rest == Put16(|data|) + (data + rest);
    Wire.ReadIntOfPut(|data|, 2, data + rest);
    assert (data + rest)[..|data|] == data && (data + rest)[|data|..] == rest;
  }

  // ----- One direction of a connection

  /** The reading end: bytes of an opened record not read yet, records opened so far, bytes still to come. */
  datatype Channel = Channel(readBuf: Buf, nonce: nat, incoming: Buf)

  function Cut(b: Buf, size: nat): nat { if size < |b| then size else |b| }

  /** The channel after Read with a buffer of `size` bytes, and the bytes read; none on an error. */
  function ReadStep(ci: Cipher, c: Channel, size: nat): Option<(Channel, Buf)> {
    if c.readBuf != [] then
      var k := Cut(c.readBuf, size);
      Some((c.(readBuf := c.readBuf[k..]), c.readBuf[..k]))
    else
      match TakeFrame(c.incoming)
      case None => None
      case Some((record, rest)) =>
        match ci.open(c.nonce, record)
        case None => None
        case Some(p) =>
          var k := Cut(p, size);
          Some((Channel(p[k..], c.nonce + 1, rest), p[..k]))
  }

  /** The records that writing `ps` puts on the network, the first one under number `nonce`. */
  function Records(ci: Cipher, nonce: nat, ps: seq<Buf>): Buf
    decreases |ps|
  {
    if ps == [] then [] else Frame(ci.seal(nonce, ps[0])) + Records(ci, nonce + 1, ps[1..])
  }

  predicate Fits(ci: Cipher, nonce: nat, ps: seq<Buf>) {
    forall i | 0 <= i < |ps| :: |ci.seal(nonce + i, ps[i])| <= MAX_RECORD
  }

  /** The bytes still to come are the records of `ps`. */
  predicate Holds(ci: Cipher, c: Channel, ps: seq<Buf>) {
    Fits(ci, c.nonce, ps) && c.incoming == Records(ci, c.nonce, ps)
  }

  /** What is left to read. */
  function Stream(c: Channel, ps: seq<Buf>): Buf { c.readBuf + Concat(ps) }

  lemma FitsTail(ci: Cipher, nonce: nat, ps: seq<Buf>)
    requires Fits(ci, nonce, ps) && ps != []
    ensures |ci.seal(nonce, ps[0])| <= MAX_RECORD && Fits(ci, nonce + 1, ps[1..])
  {
    var rest := ps[1..];
    assert |ci.seal(nonce + 0, ps[0])| <= MAX_RECORD;
    forall i | 0 <= i < |rest|
      ensures |ci.seal(nonce + 1 + i, rest[i])| <= MAX_RECORD
    {
      assert |ci.seal(nonce + (i + 1), ps[i + 1])| <= MAX_RECORD;
    }
  }

  lemma NextRecord(ci: Cipher, c: Channel, ps: seq<Buf>, size: nat)
    requires Opens(ci) && Holds(ci, c, ps) && c.readBuf == [] && ps != []
    ensures var p := ps[0];
      var k := Cut(p, size);
      var c' := Channel(p[k..], c.nonce + 1, Records(ci, c.nonce + 1, ps[1..]));
      ReadStep(ci, c, size) == Some((c', p[..k])) && Holds(ci, c', ps[1..])
  {
    FitsTail(ci, c.nonce, ps);
    TakeFrameOfFrame(ci.seal(c.nonce, ps[0]), Records(ci, c.nonce + 1, ps[1..]));
    hide Frame, TakeFrame, Fits;
  }

  lemma Leftover(ci: Cipher, c: Channel, ps: seq<Buf>, size: nat)
    requires Holds(ci, c, ps) && c.readBuf != []
    ensures ReadStep(ci, c, size).Some? && Stream(c, ps) != []
    ensures var (c', b) := ReadStep(ci, c, size).value;
      && Holds(ci, c', ps) && b + Stream(c', ps) == Stream(c, ps) && (size > 0 ==> b != [])
      && |b| == (if size < |c.readBuf| then size else |c.readBuf|)
  {
    hide Records, Fits, TakeFrame, Concat;
    var k := Cut(c.readBuf, size);
    assert c.readBuf[..k] + (c.readBuf[k..] + Concat(ps)) == c.readBuf + Concat(ps);
  }

  /** A Read gives the next bytes of the stream, and fails only when every record has been read. */
  lemma ReadStepKeepsStream(ci: Cipher, c: Channel, ps: seq<Buf>, size: nat) returns (ps': seq<Buf>)
    requires Opens(ci) && Holds(ci, c, ps)
    ensures ReadStep(ci, c, size).None? <==> Stream(c, ps) == [] && ps == []
    ensures ReadStep(ci, c, size).Some? ==>
      var (c', b) := ReadStep(ci, c, size).value;
      && Holds(ci, c', ps') && b + Stream(c', ps') == Stream(c, ps) && |b| <= size
      && (c.readBuf != [] ==> |b| == (if size < |c.readBuf| then size else |c.readBuf|))
      && (|ps'| < |ps| || (ps' == ps && (size > 0 ==> b != [])))
  {
    hide ReadStep, Records, Fits, Holds, Opens, Concat;
    ps' := ps;
    if c.readBuf != [] {
      Leftover(ci, c, ps, size);
    } else if ps == [] {
      NothingLeft(ci, c, size);
    } else {
      ps' := ps[1..];
      NextRecord(ci, c, ps, size);
      CutRecord(ps, Cut(ps[0], size));
    }
  }

  lemma NothingLeft(ci: Cipher, c: Channel, size: nat)
    requires Holds(ci, c, []) && c.readBuf == []
    ensures ReadStep(ci, c, size) == None && Stream(c, []) == []
  {
  }

  lemma CutRecord(ps: seq<Buf>, k: nat)
    requires ps != [] && k <= |ps[0]|
    ensures ps[0][..k] + (ps[0][k..] + Concat(ps[1..])) == [] + Concat(ps)
  {
    var rest := Concat(ps[1..]);
    assert Concat(ps) == ps[0] + rest;
    hide Concat;
    Rejoin(ps[0], k, rest);
  }

  lemma Rejoin(p: Buf, k: nat, rest: Buf)
    requires k <= |p|
    ensures p[..k] + (p[k..] + rest) == [] + (p + rest)
  {
  }

  // ----- The sending end

  /** What a sequence of Write calls puts on the network: a refused record leaves nothing there but uses its number. */
  function Sent(ci: Cipher, nonce: nat, ps: seq<Buf>): Buf
    decreases |ps|
  {
    if ps == [] then []
    else
      var record := ci.seal(nonce, ps[0]);
      (if |record| <= MAX_RECORD then Frame(record) else []) + Sent(ci, nonce + 1, ps[1..])
  }

  lemma {:induction false} SentAppend(ci: Cipher, nonce: nat, ps: seq<Buf>, p: Buf)
    ensures var record := ci.seal(nonce + |ps|, p);
      Sent(ci, nonce, ps + [p]) == Sent(ci, nonce, ps) + if |record| <= MAX_RECORD then Frame(record) else []
    decreases |ps|
  {
    hide Frame;
    if ps == [] {
      assert [] + [p] == [p] && [p][1..] == [];
    } else {
      assert (ps + [p])[1..] == ps[1..] + [p];
      SentAppend(ci, nonce + 1, ps[1..], p);
    }
  }

  /** Without a refusal the reading end has exactly the written records in front of it. */
  lemma {:induction false} SentWithoutRefusal(ci: Cipher, nonce: nat, ps: seq<Buf>)
    requires Fits(ci, nonce, ps)
    ensures Holds(ci, Channel([], nonce, Sent(ci, nonce, ps)), ps)
    decreases |ps|
  {
    if ps != [] {
      FitsTail(ci, nonce, ps);
      SentWithoutRefusal(ci, nonce + 1, ps[1..]);
    }
  }

  /** The plaintexts the reading end gets, record by record, up to the first error. */
  function Received(ci: Cipher, nonce: nat, incoming: Buf): seq<Buf>
    decreases |incoming|
  {
    match TakeFrame(incoming)
    case None => []
    case Some((record, rest)) =>
      match ci.open(nonce, record)
      case None => []
      case Some(p) => [p] + Received(ci, nonce + 1, rest)
  }

  /** A Read with an empty leftover buffer takes the next of them, and fails when there is none. */
  lemma ReadTakesReceived(ci: Cipher, nonce: nat, incoming: Buf, size: nat)
    ensures var o, r := ReadStep(ci, Channel([], nonce, incoming), size), Received(ci, nonce, incoming);
      && (o.None? <==> r == [])
      && (o.Some? ==>
            var (c, b) := o.value;
            && b + c.readBuf == r[0] && |b| == (if size < |r[0]| then size else |r[0]|)
            && Received(ci, c.nonce, c.incoming) == r[1..])
  {
    hide TakeFrame;
  }

  /** Writes before the first one that is refused. */
  function BeforeRefusal(ci: Cipher, nonce: nat, ps: seq<Buf>): (k: nat)
    ensures k <= |ps|
    decreases |ps|
  {
    if ps == [] || |ci.seal(nonce, ps[0])| > MAX_RECORD then 0 else 1 + BeforeRefusal(ci, nonce + 1, ps[1..])
  }

  lemma {:induction false} RefusedFirst(ci: Cipher, nonce: nat, ps: seq<Buf>)
    ensures var k := BeforeRefusal(ci, nonce, ps);
      && (forall i | 0 <= i < k :: |ci.seal(nonce + i, ps[i])| <= MAX_RECORD)
      && (k < |ps| ==> |ci.seal(nonce + k, ps[k])| > MAX_RECORD)
    decreases |ps|
  {
    if ps != [] && |ci.seal(nonce, ps[0])| <= MAX_RECORD {
      var rest, k := ps[1..], BeforeRefusal(ci, nonce, ps);
      RefusedFirst(ci, nonce + 1, rest);
      forall i | 0 <= i < k
        ensures |ci.seal(nonce + i, ps[i])| <= MAX_RECORD
      {
        if i > 0 {
          assert |ci.seal(nonce + 1 + (i - 1), rest[i - 1])| <= MAX_RECORD;
        }
      }
      assert nonce + k == nonce + 1 + (k - 1);
    }
  }

  /**
   * What is assumed of the records of one run: those written after a refused one, which the reader tries under the
   * refused one's number, do not open there.
   */
  predicate LaterRecordsRejected(ci: Cipher, nonce: nat, ps: seq<Buf>) {
    var k := BeforeRefusal(ci, nonce, ps);
    forall j | k < j < |ps| :: ci.open(nonce + k, ci.seal(nonce + j, ps[j])) == None
  }

  lemma NothingSent(ci: Cipher, nonce: nat)
    ensures Sent(ci, nonce, []) == [] && Received(ci, nonce, []) == []
  {
  }

  lemma SentFirst(ci: Cipher, nonce: nat, ps: seq<Buf>)
    requires ps != []
    ensures var record, more := ci.seal(nonce, ps[0]), Sent(ci, nonce + 1, ps[1..]);
      Sent(ci, nonce, ps) == if |record| <= MAX_RECORD then Frame(record) + more else more
  {
    hide Frame;
    var more := Sent(ci, nonce + 1, ps[1..]);
    assert [] + more == more;
  }

  lemma ReceivedFirst(ci: Cipher, nonce: nat, record: Buf, more: Buf)
    requires |record| <= MAX_RECORD
    ensures Received(ci, nonce, Frame(record) + more) ==
      match ci.open(nonce, record)
      case None => []
      case Some(p) => [p] + Received(ci, nonce + 1, more)
  {
    hide Frame, TakeFrame;
    TakeFrameOfFrame(record, more);
  }

  lemma {:induction false} NothingAfterARefusal(ci: Cipher, nonce: nat, ps: seq<Buf>, expected: nat)
    requires forall j | 0 <= j < |ps| :: ci.open(expected, ci.seal(nonce + j, ps[j])) == None
    ensures Received(ci, expected, Sent(ci, nonce, ps)) == []
    decreases |ps|
  {
    hide Frame;
    if ps != [] {
      var rest := ps[1..];
      SentFirst(ci, nonce, ps);
      assert ci.open(expected, ci.seal(nonce + 0, ps[0])) == None;
      if |ci.seal(nonce, ps[0])| <= MAX_RECORD {
        ReceivedFirst(ci, expected, ci.seal(nonce, ps[0]), Sent(ci, nonce + 1, rest));
      } else {
        forall j | 0 <= j < |rest|
          ensures ci.open(expected, ci.seal(nonce + 1 + j, rest[j])) == None
        {
          assert ci.open(expected, ci.seal(nonce + (j + 1), ps[j + 1])) == None;
        }
        NothingAfterARefusal(ci, nonce + 1, rest, expected);
      }
    }
  }

  lemma RejectedTail(ci: Cipher, nonce: nat, ps: seq<Buf>)
    requires ps != [] && LaterRecordsRejected(ci, nonce, ps)
    ensures var rest := ps[1..];
      if |ci.seal(nonce, ps[0])| <= MAX_RECORD then LaterRecordsRejected(ci, nonce + 1, rest)
      else forall j | 0 <= j < |rest| :: ci.open(nonce, ci.seal(nonce + 1 + j, rest[j])) == None
  {
    var rest, k := ps[1..], BeforeRefusal(ci, nonce, ps);
    forall j | 0 <= j < |rest| && k < j + 1
      ensures ci.open(nonce + k, ci.seal(nonce + 1 + j, rest[j])) == None
    {
      assert ci.open(nonce + k, ci.seal(nonce + (j + 1), ps[j + 1])) == None;
    }
    if |ci.seal(nonce, ps[0])| <= MAX_RECORD {
      var k' := BeforeRefusal(ci, nonce + 1, rest);
      assert k == k' + 1 && nonce + k == nonce + 1 + k';
    } else {
      assert k == 0 && nonce + k == nonce;
    }
  }

  /** The reading end gets exactly the writes before the first refused one. */
  lemma {:induction false} RefusalEndsTheStream(ci: Cipher, nonce: nat, ps: seq<Buf>)
    requires Opens(ci) && LaterRecordsRejected(ci, nonce, ps)
    ensures Received(ci, nonce, Sent(ci, nonce, ps)) == ps[..BeforeRefusal(ci, nonce, ps)]
    decreases |ps|
  {
    hide LaterRecordsRejected, Sent, Received, Frame;
    if ps == [] {
      NothingSent(ci, nonce);
    } else {
      var rest := ps[1..];
      RejectedTail(ci, nonce, ps);
      SentFirst(ci, nonce, ps);
      if |ci.seal(nonce, ps[0])| <= MAX_RECORD {
        ReceivedFirst(ci, nonce, ci.seal(nonce, ps[0]), Sent(ci, nonce + 1, rest));
        RefusalEndsTheStream(ci, nonce + 1, rest);
        FirstOfPrefix(ps, BeforeRefusal(ci, nonce + 1, rest));
      } else {
        NothingAfterARefusal(ci, nonce + 1, rest, nonce);
      }
    }
  }

  lemma FirstOfPrefix(ps: seq<Buf>, k: nat)
    requires k < |ps|
    ensures ps[..k + 1] == [ps[0]] + ps[1..][..k]
  {
  }

  /** Write number i is read if and only if neither it nor one before it was refused. */
  lemma ReadUnlessRefused(ci: Cipher, nonce: nat, ps: seq<Buf>, i: nat)
    requires Opens(ci) && LaterRecordsRejected(ci, nonce, ps) && i < |ps|
    ensures var r := Received(ci, nonce, Sent(ci, nonce, ps));
      && (i < |r| <==> forall j | 0 <= j <= i :: |ci.seal(nonce + j, ps[j])| <= MAX_RECORD)
      && (i < |r| ==> r[i] == ps[i])
  {
    RefusalEndsTheStream(ci, nonce, ps);
    RefusedFirst(ci, nonce, ps);
    var k := BeforeRefusal(ci, nonce, ps);
    hide Sent, Received, LaterRecordsRejected, BeforeRefusal;
    if i >= k {
      assert |ci.seal(nonce + k, ps[k])| > MAX_RECORD;
    }
  }

  // ----- A cipher that meets what is assumed

  /** A tag of 16 bytes that holds the number. */
  function Tag(n: nat): (t: Buf)
    ensures |t| == 16
  {
    Put64(n) + Put64(0)
  }

  /** A record is the plaintext and its tag. */
  function TaggingCipher(): Cipher {
    Cipher((n: nat, p: Buf) => p + Tag(n),
           (n: nat, c: Buf) => if |c| >= 16 && c[|c| - 16..] == Tag(n) then Some(c[..|c| - 16]) else None)
  }

  lemma TagsDiffer(n: nat, m: nat)
    requires n < U64 && m < U64 && n != m
    ensures Tag(n) != Tag(m)
  {
    hide PutBE, GetBE;
    assert Tag(n)[..8] == Put64(n) && Tag(m)[..8] == Put64(m);
  }

  /** With tags of fixed length both assumptions hold of every run of fewer than 2^64 records. */
  lemma TaggingCipherFits(nonce: nat, ps: seq<Buf>)
    requires nonce + |ps| < U64
    ensures Opens(TaggingCipher()) && LaterRecordsRejected(TaggingCipher(), nonce, ps)
    ensures forall n: nat, p: Buf :: |TaggingCipher().seal(n, p)| == |p| + 16
  {
    hide Tag;
    var ci := TaggingCipher();
    forall n: nat, p: Buf
      ensures ci.open(n, ci.seal(n, p)) == Some(p)
    {
      TagOf(p, Tag(n));
    }
    var k := BeforeRefusal(ci, nonce, ps);
    forall j | k < j < |ps|
      ensures ci.open(nonce + k, ci.seal(nonce + j, ps[j])) == None
    {
      TagOf(ps[j], Tag(nonce + j));
      TagsDiffer(nonce + k, nonce + j);
    }
  }

  lemma TagOf(p: Buf, tag: Buf)
    requires |tag| == 16
    ensures (p + tag)[|p + tag| - 16..] == tag && (p + tag)[..|p + tag| - 16] == p
  {
  }

  /** The bytes returned by reads with the given buffer sizes, up to the first failure. */
  function ReadAll(ci: Cipher, c: Channel, sizes: seq<nat>): (Channel, Buf)
    decreases |sizes|
  {
    if sizes == [] then (c, [])
    else
      match ReadStep(ci, c, sizes[0])
      case None => (c, [])
      case Some((c', b)) => var (last, bs) := ReadAll(ci, c', sizes[1..]); (last, b + bs)
  }

  /** For every choice of buffer sizes the reads give the written bytes, in order and without gaps. */
  lemma {:induction false} AnyBufferSizes(ci: Cipher, c: Channel, ps: seq<Buf>, sizes: seq<nat>) returns (ps': seq<Buf>)
    requires Opens(ci) && Holds(ci, c, ps)
    ensures var (c', b) := ReadAll(ci, c, sizes); Holds(ci, c', ps') && b + Stream(c', ps') == Stream(c, ps)
    decreases |sizes|
  {
    ps' := ps;
    if sizes != [] {
      var next := ReadStepKeepsStream(ci, c, ps, sizes[0]);
      hide Holds, Opens, Stream, ReadStep;
      if ReadStep(ci, c, sizes[0]).Some? {
        var (c1, b) := ReadStep(ci, c, sizes[0]).value;
        ps' := AnyBufferSizes(ci, c1, next, sizes[1..]);
        var (c', bs) := ReadAll(ci, c1, sizes[1..]);
        assert b + (bs + Stream(c', ps')) == b + bs + Stream(c', ps');
      }
    }
  }

  // ----- The connection object

  class SecureConn {
    const sendCipher: Cipher
    const recvCipher: Cipher
    var csSend: nat
    var csRecv: nat
    var readBuf: Buf
    /** Bytes the network will still deliver, and bytes handed to it. */
    var incoming: Buf
    var outgoing: Buf
    /** The arguments of every Write so far. */
    ghost var written: seq<Buf>

    ghost predicate Valid()
      reads this
    {
      csSend == |written| && outgoing == Sent(sendCipher, 0, written)
    }

    ghost function Reading(): Channel
      reads this
    {
      Channel(readBuf, csRecv, incoming)
    }

    constructor (sendCipher: Cipher, recvCipher: Cipher, incoming: Buf)
      ensures this.sendCipher == sendCipher && this.recvCipher == recvCipher
      ensures Valid() && Reading() == Channel([], 0, incoming) && written == []
    {
      this.sendCipher, this.recvCipher, this.incoming := sendCipher, recvCipher, incoming;
      csSend, csRecv, readBuf, outgoing := 0, 0, [], [];
      written := [];
    }

    /** A record that is too long is refused after it was sealed: the number is used up. */
    method Write(p: Buf) returns (n: Option<nat>)
      requires Valid()
      modifies this`csSend, this`outgoing, this`written
      ensures Valid() && written == old(written) + [p]
      ensures var record := sendCipher.seal(old(csSend), p);
        && n == (if |record| <= MAX_RECORD then Some(|p|) else None)
        && outgoing == old(outgoing) + (if n.Some? then Frame(record) else [])
    {
      hide Sent, Frame;
      SentAppend(sendCipher, 0, written, p);
      written := written + [p];
      var encrypted := sendCipher.seal(csSend, p);
      csSend := csSend + 1;
      if |encrypted| > MAX_RECORD {
        return None;
      }
      outgoing := outgoing + Put16(|encrypted|);
      outgoing := outgoing + encrypted;
      FrameAfter(old(outgoing), encrypted);
      n := Some(|p|);
    }

    /** What is left behind by an error is not specified; the session ends there. */
    method Read(size: nat) returns (p: Option<Buf>)
      modifies this`csRecv, this`readBuf, this`incoming
      ensures p.None? <==> ReadStep(recvCipher, old(Reading()), size).None?
      ensures p.Some? ==> (Reading(), p.value) == ReadStep(recvCipher, old(Reading()), size).value
    {
      if |readBuf| > 0 {
        var n := Cut(readBuf, size);
        p := Some(readBuf[..n]);
        readBuf := readBuf[n..];
        return;
      }
      match TakeFrame(incoming)
      case None =>
        p := None;
      case Some((encrypted, rest)) =>
        incoming := rest;
        match recvCipher.open(csRecv, encrypted)
        case None =>
          p := None;
        case Some(decrypted) =>
          csRecv := csRecv + 1;
          var n := Cut(decrypted, size);
          p := Some(decrypted[..n]);
          if n < |decrypted| {
            readBuf := decrypted[n..];
          }
    }

    /** Fills a buffer of `size` bytes with as many calls of Read as it takes. */
    method ReadFull(size: nat, ghost ps: seq<Buf>) returns (data: Option<Buf>, ghost rest: seq<Buf>)
      requires Opens(recvCipher) && Holds(recvCipher, Reading(), ps)
      modifies this`csRecv, this`readBuf, this`incoming
      ensures var stream := Stream(old(Reading()), ps);
        && (data.Some? <==> |stream| >= size)
        && (data.Some? ==>
             && Holds(recvCipher, Reading(), rest)
             && data.value == stream[..size] && Stream(Reading(), rest) == stream[size..])
    {
      hide Holds, Opens, Stream, ReadStep;
      var buf: Buf := [];
      rest := ps;
      while |buf| < size
        invariant |buf| <= size && Holds(recvCipher, Reading(), rest)
        invariant buf + Stream(Reading(), rest) == Stream(old(Reading()), ps)
        decreases |rest|, size - |buf|
      {
        ghost var next := ReadStepKeepsStream(recvCipher, Reading(), rest, size - |buf|);
        var p := Read(size - |buf|);
        if p.None? {
          data := None;
          return;
        }
        assert buf + (p.value + Stream(Reading(), next)) == buf + p.value + Stream(Reading(), next);
        buf, rest := buf + p.value, next;
      }
      data := Some(buf);
    }
  }

  // ----- Message frames

  /** The two Write calls of one message frame. */
  function Writes(payload: Buf): seq<Buf> { [Put32(|payload|), payload] }

  function AllWrites(payloads: seq<Buf>): seq<Buf> {
    if payloads == [] then [] else Writes(payloads[0]) + AllWrites(payloads[1..])
  }

  lemma {:induction false} AllWritesAreFrames(payloads: seq<Buf>)
    ensures Concat(AllWrites(payloads)) == Wire.WriteAll(payloads)
  {
    if payloads != [] {
      var ws: seq<Buf> := Writes(payloads[0]);
      AllWritesAreFrames(payloads[1..]);
      ConcatAppend(ws, AllWrites(payloads[1..]));
      assert ws[1..] == [payloads[0]] && ws[1..][1..] == [];
      assert Concat(ws) == Put32(|payloads[0]|) + Concat(ws[1..]);
      assert Concat(ws[1..]) == payloads[0] + Concat(ws[1..][1..]);
    }
  }

  method WriteFrame(conn: SecureConn, payload: Buf) returns (ok: bool)
    requires conn.Valid()
    modifies conn`csSend, conn`outgoing, conn`written
    ensures conn.Valid()
    ensures ok <==> Fits(conn.sendCipher, old(conn.csSend), Writes(payload))
    ensures ok ==> conn.written == old(conn.written) + Writes(payload) && conn.csSend == old(conn.csSend) + 2
    ensures ok ==> conn.outgoing == old(conn.outgoing) + Records(conn.sendCipher, old(conn.csSend), Writes(payload))
  {
    ghost var n0, ws := conn.csSend, Writes(payload);
    FitsTwo(conn.sendCipher, n0, ws);
    var written := conn.Write(Put32(|payload|));
    if written.None? {
      return false;
    }
    written := conn.Write(payload);
    ok := written.Some?;
    var header, body := conn.sendCipher.seal(n0, ws[0]), conn.sendCipher.seal(n0 + 1, ws[1]);
    assert ok ==> conn.outgoing == old(conn.outgoing) + Frame(header) + Frame(body);
    assert old(conn.outgoing) + Frame(header) + Frame(body) == old(conn.outgoing) + (Frame(header) + Frame(body));
  }

  lemma FitsTwo(ci: Cipher, n: nat, ws: seq<Buf>)
    requires |ws| == 2
    ensures Fits(ci, n, ws) <==> |ci.seal(n, ws[0])| <= MAX_RECORD && |ci.seal(n + 1, ws[1])| <= MAX_RECORD
    ensures Records(ci, n, ws) == Frame(ci.seal(n, ws[0])) + Frame(ci.seal(n + 1, ws[1]))
  {
    assert ws[1..][1..] == [];
    assert Fits(ci, n, ws) ==> |ci.seal(n + 0, ws[0])| <= MAX_RECORD;
    assert Records(ci, n + 1, ws[1..]) == Frame(ci.seal(n + 1, ws[1])) + [];
  }

  /** With a tag of fixed size, the records of a message frame fit exactly up to this payload. */
  lemma FrameLimit(ci: Cipher, nonce: nat, payload: Buf, tag: nat)
    requires tag <= 65531 && forall n: nat, p: Buf :: |ci.seal(n, p)| == |p| + tag
    ensures Fits(ci, nonce, Writes(payload)) <==> |payload| <= 65535 - tag
  {
    FitsTwo(ci, nonce, Writes(payload));
  }

  /** A frame is read exactly when the stream starts with one, however it was cut into records. */
  method ReadFrame(conn: SecureConn, ghost ps: seq<Buf>) returns (payload: Option<Buf>, ghost rest: seq<Buf>)
    requires Opens(conn.recvCipher) && Holds(conn.recvCipher, conn.Reading(), ps)
    modifies conn`csRecv, conn`readBuf, conn`incoming
    ensures var r := Wire.ReadBytes(Stream(old(conn.Reading()), ps));
      && (payload.Some? <==> r.Some?)
      && (payload.Some? ==> Holds(conn.recvCipher, conn.Reading(), rest)
                            && r.value == (payload.value, Stream(conn.Reading(), rest)))
  {
    var header;
    header, rest := conn.ReadFull(4, ps);
    if header.None? {
      return None, rest;
    }
    var length := GetBE(header.value);
    if length > Wire.MAX_MESSAGE_SIZE {
      return None, rest;
    }
    payload, rest := conn.ReadFull(length, rest);
  }

  // ----- End to end

  function Payloads(ms: seq<Wire.Msg>): seq<Buf> {
    if ms == [] then [] else [Wire.Encode(ms[0])] + Payloads(ms[1..])
  }

  /** The messages of the first `k` frames of a byte stream. */
  function Messages(stream: Buf, k: nat): Option<seq<Wire.Msg>> {
    if k == 0 then Some([])
    else
      match Wire.ReadBytes(stream)
      case None => None
      case Some((payload, rest)) =>
        match Wire.Decode(payload)
        case None => None
        case Some(m) =>
          match Messages(rest, k - 1)
          case None => None
          case Some(ms) => Some([m] + ms)
  }

  predicate Sendable(ms: seq<Wire.Msg>) {
    forall i | 0 <= i < |ms| :: Wire.Encodable(ms[i]) && |Wire.Encode(ms[i])| <= Wire.MAX_MESSAGE_SIZE
  }

  lemma FirstFrame(ms: seq<Wire.Msg>)
    requires ms != []
    ensures Wire.WriteAll(Payloads(ms)) == Wire.WriteBytes(Wire.Encode(ms[0])) + Wire.WriteAll(Payloads(ms[1..]))
  {
    hide Wire.Encode, Wire.WriteBytes;
    assert Payloads(ms)[1..] == Payloads(ms[1..]);
  }

  lemma {:induction false} FramesCarryMessages(ms: seq<Wire.Msg>)
    requires Sendable(ms)
    ensures Messages(Wire.WriteAll(Payloads(ms)), |ms|) == Some(ms)
  {
    hide Wire.Encode, Wire.Decode, Wire.ReadBytes, Wire.WriteBytes, Wire.WriteAll, Wire.Encodable, Payloads;
    if ms != [] {
      var rest := Wire.WriteAll(Payloads(ms[1..]));
      FirstFrame(ms);
      FramesCarryMessages(ms[1..]);
      Wire.ReadBytesOfWrite(Wire.Encode(ms[0]), rest);
      Wire.RoundTrip(ms[0]);
      assert [ms[0]] + ms[1..] == ms;
    }
  }

  /** The first message of a stream, and the messages of the `k` frames after it. */
  lemma MessagesStep(stream: Buf, k: nat)
    requires k > 0
    ensures Messages(stream, k) ==
      match Wire.ReadBytes(stream)
      case None => None
      case Some((payload, rest)) =>
        match Wire.Decode(payload)
        case None => None
        case Some(m) => Prepend([m], Messages(rest, k - 1))
  {
    hide Wire.ReadBytes, Wire.Decode;
  }

  /**
   * Reads and decodes `k` frames, from any state of the leftover buffer: the messages at the front of the stream, so
   * that messages sent are the messages returned.
   */
  method ReceiveMessages(conn: SecureConn, k: nat, ghost ps: seq<Buf>, ghost sent: seq<Wire.Msg>)
    returns (ms: Option<seq<Wire.Msg>>, ghost rest: seq<Buf>)
    requires Opens(conn.recvCipher) && Holds(conn.recvCipher, conn.Reading(), ps)
    modifies conn`csRecv, conn`readBuf, conn`incoming
    ensures ms == Messages(Stream(old(conn.Reading()), ps), k)
    ensures ms.Some? ==> Holds(conn.recvCipher, conn.Reading(), rest)
    ensures Sendable(sent) && |sent| == k && Stream(old(conn.Reading()), ps) == Wire.WriteAll(Payloads(sent)) ==>
      ms == Some(sent)
  {
    hide *;
    SentIsParsed(Stream(conn.Reading(), ps), k, sent);
    var read: seq<Wire.Msg> := [];
    rest := ps;
    ghost var all := Messages(Stream(conn.Reading(), ps), k);
    PrependNothing(read, all);
    for i := 0 to k
      invariant Holds(conn.recvCipher, conn.Reading(), rest)
      invariant all == Prepend(read, Messages(Stream(conn.Reading(), rest), k - i))
    {
      MessagesStep(Stream(conn.Reading(), rest), k - i);
      var payload;
      payload, rest := ReadFrame(conn, rest);
      if payload.None? {
        PrependNothing(read, None);
        return None, rest;
      }
      var m := Wire.Decode(payload.value);
      if m.None? {
        PrependNothing(read, None);
        return None, rest;
      }
      PrependMore(read, m.value, Messages(Stream(conn.Reading(), rest), k - i - 1));
      read := read + [m.value];
    }
    NoMessages(Stream(conn.Reading(), rest));
    PrependNothing(read, None);
    ms := Some(read);
  }

  lemma SentIsParsed(stream: Buf, k: nat, sent: seq<Wire.Msg>)
    ensures Sendable(sent) && |sent| == k && stream == Wire.WriteAll(Payloads(sent)) ==>
      Messages(stream, k) == Some(sent)
  {
    hide Messages, Payloads, Wire.WriteAll;
    if Sendable(sent) {
      FramesCarryMessages(sent);
    }
  }

  lemma NoMessages(stream: Buf)
    ensures Messages(stream, 0) == Some([])
  {
  }

  /**
   * Messages written as frames inside records, all of which fit, are the messages the other end finds in the
   * bytes it reads: before any read, and after reads of any sizes in what was read and what is left together.
   */
  lemma MessagesComeBack(ci: Cipher, nonce: nat, ms: seq<Wire.Msg>, sizes: seq<nat>) returns (left: seq<Buf>)
    requires Opens(ci) && Sendable(ms) && Fits(ci, nonce, AllWrites(Payloads(ms)))
    ensures var (c, b) := ReadAll(ci, Channel([], nonce, Records(ci, nonce, AllWrites(Payloads(ms)))), sizes);
      Holds(ci, c, left) && Messages(b + Stream(c, left), |ms|) == Some(ms)
  {
    var ps := AllWrites(Payloads(ms));
    var c := Channel([], nonce, Records(ci, nonce, ps));
    left := AnyBufferSizes(ci, c, ps, sizes);
    AllWritesAreFrames(Payloads(ms));
    FramesCarryMessages(ms);
    assert Stream(c, ps) == Concat(ps);
  }

  // ----- From one end to the other

  lemma FitsConcat(ci: Cipher, nonce: nat, p: seq<Buf>, q: seq<Buf>)
    ensures Fits(ci, nonce, p + q) <==> Fits(ci, nonce, p) && Fits(ci, nonce + |p|, q)
  {
    if Fits(ci, nonce, p + q) {
      forall i | 0 <= i < |p|
        ensures |ci.seal(nonce + i, p[i])| <= MAX_RECORD
      {
        assert (p + q)[i] == p[i];
      }
      forall i | 0 <= i < |q|
        ensures |ci.seal(nonce + |p| + i, q[i])| <= MAX_RECORD
      {
        assert |ci.seal(nonce + (|p| + i), (p + q)[|p| + i])| <= MAX_RECORD;
      }
    }
    if Fits(ci, nonce, p) && Fits(ci, nonce + |p|, q) {
      forall i | 0 <= i < |p + q|
        ensures |ci.seal(nonce + i, (p + q)[i])| <= MAX_RECORD
      {
        if i >= |p| {
          assert |ci.seal(nonce + |p| + (i - |p|), q[i - |p|])| <= MAX_RECORD;
        }
      }
    }
  }

  lemma {:induction false} RecordsConcat(ci: Cipher, nonce: nat, p: seq<Buf>, q: seq<Buf>)
    ensures Records(ci, nonce, p + q) == Records(ci, nonce, p) + Records(ci, nonce + |p|, q)
    decreases |p|
  {
    hide Frame;
    if p == [] {
      assert p + q == q;
      assert [] + Records(ci, nonce, q) == Records(ci, nonce, q);
    } else {
      assert (p + q)[0] == p[0] && (p + q)[1..] == p[1..] + q;
      RecordsConcat(ci, nonce + 1, p[1..], q);
      assert nonce + 1 + |p[1..]| == nonce + |p|;
    }
  }

  /** The Write calls of all frames of these messages. */
  function MessageWrites(ms: seq<Wire.Msg>): seq<Buf> { AllWrites(Payloads(ms)) }

  lemma {:induction false} MessageWritesConcat(a: seq<Wire.Msg>, b: seq<Wire.Msg>)
    ensures MessageWrites(a + b) == MessageWrites(a) + MessageWrites(b)
  {
    hide Writes, Wire.Encode;
    if a == [] {
      assert a + b == b;
    } else {
      assert (a + b)[0] == a[0] && (a + b)[1..] == a[1..] + b;
      MessageWritesConcat(a[1..], b);
      FirstWrites(a);
      FirstWrites(a + b);
      hide MessageWrites;
      var ws := Writes(Wire.Encode(a[0]));
      assert ws + (MessageWrites(a[1..]) + MessageWrites(b)) == ws + MessageWrites(a[1..]) + MessageWrites(b);
    }
  }

  lemma FirstWrites(ms: seq<Wire.Msg>)
    requires ms != []
    ensures MessageWrites(ms) == Writes(Wire.Encode(ms[0])) + MessageWrites(ms[1..])
  {
    hide Writes, Wire.Encode;
    assert Payloads(ms)[1..] == Payloads(ms[1..]);
  }

  lemma OneMessage(m: Wire.Msg)
    ensures MessageWrites([m]) == Writes(Wire.Encode(m))
  {
    hide Writes, Wire.Encode;
    FirstWrites([m]);
    assert [m][1..] == [] && MessageWrites([]) == [];
  }

  /** The first messages have been written whole. */
  predicate SentSoFar(ci: Cipher, nonce: nat, before: Buf, ms: seq<Wire.Msg>, nonce': nat, after: Buf) {
    var ps := MessageWrites(ms);
    Fits(ci, nonce, ps) && nonce' == nonce + |ps| && after == before + Records(ci, nonce, ps)
  }

  lemma NothingSentYet(ci: Cipher, nonce: nat, before: Buf)
    ensures SentSoFar(ci, nonce, before, [], nonce, before)
  {
    assert MessageWrites([]) == [] && before + [] == before;
  }

  lemma OneMoreSent(ci: Cipher, nonce: nat, before: Buf, ms: seq<Wire.Msg>, m: Wire.Msg, nonce': nat, after: Buf)
    requires SentSoFar(ci, nonce, before, ms, nonce', after) && Fits(ci, nonce', Writes(Wire.Encode(m)))
    ensures var ws := Writes(Wire.Encode(m));
      SentSoFar(ci, nonce, before, ms + [m], nonce' + 2, after + Records(ci, nonce', ws))
  {
    hide Fits, Records, Wire.Encode, MessageWrites;
    var ps, ws := MessageWrites(ms), Writes(Wire.Encode(m));
    MessageWritesConcat(ms, [m]);
    OneMessage(m);
    FitsConcat(ci, nonce, ps, ws);
    RecordsConcat(ci, nonce, ps, ws);
    assert before + Records(ci, nonce, ps) + Records(ci, nonce', ws)
        == before + (Records(ci, nonce, ps) + Records(ci, nonce', ws));
  }

  lemma RefusedMessage(ci: Cipher, nonce: nat, before: Buf, ms: seq<Wire.Msg>, i: nat, nonce': nat, after: Buf)
    requires i < |ms| && SentSoFar(ci, nonce, before, ms[..i], nonce', after)
    requires !Fits(ci, nonce', Writes(Wire.Encode(ms[i])))
    ensures !Fits(ci, nonce, MessageWrites(ms))
  {
    hide Fits, Records, Wire.Encode, MessageWrites, Writes;
    assert ms[i..][1..] == ms[i + 1..] && ms == ms[..i] + ms[i..];
    MessageWritesConcat(ms[..i], ms[i..]);
    FirstWrites(ms[i..]);
    FitsConcat(ci, nonce, MessageWrites(ms[..i]), MessageWrites(ms[i..]));
    FitsConcat(ci, nonce', Writes(Wire.Encode(ms[i])), MessageWrites(ms[i + 1..]));
  }

  /** Writes the messages one frame after the other, up to the first refused one; `n` is how many were written whole. */
  method SendMessages(conn: SecureConn, ms: seq<Wire.Msg>) returns (n: nat)
    requires conn.Valid()
    modifies conn`csSend, conn`outgoing, conn`written
    ensures conn.Valid() && n <= |ms|
    ensures n == |ms| <==> Fits(conn.sendCipher, old(conn.csSend), MessageWrites(ms))
    ensures n == |ms| ==>
      SentSoFar(conn.sendCipher, old(conn.csSend), old(conn.outgoing), ms, conn.csSend, conn.outgoing)
  {
    ghost var ci, n0, before := conn.sendCipher, conn.csSend, conn.outgoing;
    hide *;
    NothingSentYet(ci, n0, before);
    assert ms[..0] == [];
    for i := 0 to |ms|
      invariant conn.Valid() && SentSoFar(ci, n0, before, ms[..i], conn.csSend, conn.outgoing)
    {
      ghost var nonce, after := conn.csSend, conn.outgoing;
      var ok := WriteFrame(conn, Wire.Encode(ms[i]));
      if !ok {
        RefusedMessage(ci, n0, before, ms, i, nonce, after);
        return i;
      }
      OneMoreSent(ci, n0, before, ms[..i], ms[i], nonce, after);
      assert ms[..i] + [ms[i]] == ms[..i + 1];
    }
    assert ms[..|ms|] == ms;
    AllFits(ci, n0, before, ms, conn.csSend, conn.outgoing);
    n := |ms|;
  }

  lemma AllFits(ci: Cipher, nonce: nat, before: Buf, ms: seq<Wire.Msg>, nonce': nat, after: Buf)
    requires SentSoFar(ci, nonce, before, ms, nonce', after)
    ensures Fits(ci, nonce, MessageWrites(ms))
  {
  }

  /**
   * One end writes the messages, the network hands over what it wrote, and the other end reads them: they are the
   * messages it returns, if and only if every record fits.
   */
  method Exchange(a: SecureConn, b: SecureConn, ms: seq<Wire.Msg>) returns (got: Option<seq<Wire.Msg>>)
    requires a != b && a.Valid() && a.sendCipher == b.recvCipher && Opens(a.sendCipher) && Sendable(ms)
    requires a.csSend == b.csRecv && b.readBuf == [] && b.incoming == []
    modifies a`csSend, a`outgoing, a`written, b`csRecv, b`readBuf, b`incoming
    ensures a.Valid()
    ensures got == if Fits(a.sendCipher, old(a.csSend), MessageWrites(ms)) then Some(ms) else None
  {
    ghost var ci, n0 := a.sendCipher, a.csSend;
    var before := |a.outgoing|;
    var n := SendMessages(a, ms);
    if n < |ms| {
      return None;
    }
    ghost var ps := MessageWrites(ms);
    assert a.outgoing == old(a.outgoing) + Records(ci, n0, ps);
    b.incoming := a.outgoing[before..];
    assert b.incoming == Records(ci, n0, ps);
    AllWritesAreFrames(Payloads(ms));
    assert Stream(b.Reading(), ps) == Wire.WriteAll(Payloads(ms));
    ghost var rest;
    got, rest := ReceiveMessages(b, |ms|, ps, ms);
  }
}
