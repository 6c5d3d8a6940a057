/** One end of a µTP connection (pkg/utp/conn.go) and the datagram filter in front of it (pkg/utp/mux.go). */
module UtpConn {
  import opened Bytes
  import opened UtpPacket

  const CHUNK_SIZE: nat := 1400

  /** Capacity of the acknowledgement and read channels. */
  const QUEUE_SIZE: nat := 100

  const MAGIC_COOKIE: nat := 0x2112A442

  datatype ConnState = Connected | FinSent | Closed

  /** The fields of a connection; the channels hold what has been put in and not yet taken out. */
  datatype Conn = Conn(
    state: ConnState, recvID: nat, sendID: nat, seqNo: nat, ackNo: nat,
    ackChan: seq<nat>, readQueue: seq<Buf>, unread: Buf)

  function AckPacket(sendID: nat, ackNum: nat): Packet {
    Packet(ST_STATE, 1, 0, sendID, 0, 0, 0, 0, ackNum, [])
  }

  function DataPacket(sendID: nat, seqNum: nat, ackNum: nat, chunk: Buf): Packet {
    Packet(ST_DATA, 1, 0, sendID, 0, 0, 0, seqNum, ackNum, chunk)
  }

  /** A non-blocking send on a channel: dropped when the channel is full. */
  function Offer<T>(queue: seq<T>, x: T): seq<T> {
    if |queue| < QUEUE_SIZE then queue + [x] else queue
  }

  /** What a connection does with a packet: its new fields, and the packet it sends back, if any. */
  function OnPacket(c: Conn, p: Packet): (Conn, Option<Packet>) {
    if p.kind == ST_FIN then
      (c.(ackNo := p.seqNum, state := Closed), Some(AckPacket(c.sendID, p.seqNum)))
    else if p.kind == ST_STATE then
      if c.state == FinSent && p.ackNum == c.seqNo then (c.(state := Closed), None)
      else (c.(ackChan := Offer(c.ackChan, p.ackNum)), None)
    else if p.kind == ST_DATA then
      (c.(ackNo := p.seqNum, readQueue := Offer(c.readQueue, p.payload)), Some(AckPacket(c.sendID, p.seqNum)))
    else (c, None)
  }

  /** A FIN on a connection that is closed already closes its channel a second time, and the program panics. */
  predicate Panics(c: Conn, p: Packet) { p.kind == ST_FIN && c.state == Closed }

  /** Handling these packets one after the other panics. */
  predicate PanicsIn(c: Conn, ps: seq<Packet>)
    decreases |ps|
  {
    ps != [] && (Panics(c, ps[0]) || PanicsIn(OnPacket(c, ps[0]).0, ps[1..]))
  }

  predicate HasFin(ps: seq<Packet>) { exists i | 0 <= i < |ps| :: ps[i].kind == ST_FIN }

  lemma HasFinHead(ps: seq<Packet>)
    requires ps != []
    ensures HasFin(ps) <==> ps[0].kind == ST_FIN || HasFin(ps[1..])
  {
    if HasFin(ps) && ps[0].kind != ST_FIN {
      var i :| 0 <= i < |ps| && ps[i].kind == ST_FIN;
      assert ps[1..][i - 1].kind == ST_FIN;
    }
    if HasFin(ps[1..]) {
      var i :| 0 <= i < |ps[1..]| && ps[1..][i].kind == ST_FIN;
      assert ps[i + 1].kind == ST_FIN;
    }
  }

  lemma {:induction false} ClosedPanicsOnFin(c: Conn, ps: seq<Packet>)
    requires c.state == Closed
    ensures PanicsIn(c, ps) <==> HasFin(ps)
    decreases |ps|
  {
    hide HasFin;
    if ps != [] {
      HasFinHead(ps);
      ClosedPanicsOnFin(OnPacket(c, ps[0]).0, ps[1..]);
    } else {
      NoFin();
    }
  }

  lemma NoFin()
    ensures !HasFin([])
  {
  }

  /** An open connection panics on exactly those packets among which there are two FINs. */
  lemma {:induction false} SecondFinPanics(c: Conn, ps: seq<Packet>)
    requires c.state == Connected
    ensures PanicsIn(c, ps) <==> exists i | 0 <= i < |ps| :: ps[i].kind == ST_FIN && HasFin(ps[i + 1..])
    decreases |ps|
  {
    hide HasFin;
    if ps == [] {
    } else {
      var c', rest := OnPacket(c, ps[0]).0, ps[1..];
      HasFinHead(ps);
      if ps[0].kind == ST_FIN {
        ClosedPanicsOnFin(c', rest);
        if i :| 0 < i < |ps| && ps[i].kind == ST_FIN && HasFin(ps[i + 1..]) {
          FinAt(rest, i - 1);
        }
      } else {
        SecondFinPanics(c', rest);
        forall i | 0 < i < |ps|
          ensures ps[i] == rest[i - 1] && ps[i + 1..] == rest[i - 1 + 1..]
        {
        }
        if PanicsIn(c', rest) {
          var i :| 0 <= i < |rest| && rest[i].kind == ST_FIN && HasFin(rest[i + 1..]);
          assert ps[i + 1].kind == ST_FIN && ps[i + 1 + 1..] == rest[i + 1..];
        }
      }
    }
  }

  lemma FinAt(ps: seq<Packet>, i: nat)
    requires i < |ps| && ps[i].kind == ST_FIN
    ensures HasFin(ps)
  {
  }

  /** The packet a datagram delivers to the connection registered under `recvID`; STUN traffic is diverted. */
  function Route(recvID: nat, raw: Buf): Option<Packet> {
    if |raw| >= 8 && GetBE(raw[4..8]) == MAGIC_COOKIE then None
    else match DecodePacket(raw)
      case None => None
      case Some(p) => if p.connID == recvID then Some(p) else None
  }

  lemma SentPacketIsRouted(p: Packet)
    requires Encodable(p) && p.tMicro != MAGIC_COOKIE
    ensures Route(p.connID, EncodePacket(p)) == Some(p)
  {
    PacketRoundTrip(p);
    assert EncodePacket(p)[4..8] == Put32(p.tMicro) by {
      HeaderParts([FirstByte(p.kind, p.version), p.ext % 256], Put16(p.connID), Put32(p.tMicro), Put32(p.tDiff),
                  Put32(p.wndSize), Put16(p.seqNum), Put16(p.ackNum), p.payload);
    }
  }

  // ----- Cutting a write into chunks

  function Chunks(b: Buf): (cs: seq<Buf>)
    ensures forall i | 0 <= i < |cs| :: 1 <= |cs[i]| <= CHUNK_SIZE
    decreases |b|
  {
    if b == [] then []
    else if |b| <= CHUNK_SIZE then [b]
    else [b[..CHUNK_SIZE]] + Chunks(b[CHUNK_SIZE..])
  }

  lemma {:induction false} ChunksConcat(b: Buf)
    ensures Concat(Chunks(b)) == b
    decreases |b|
  {
    if b == [] {
    } else if |b| <= CHUNK_SIZE {
      assert [b][1..] == [];
    } else {
      ChunksConcat(b[CHUNK_SIZE..]);
      assert Chunks(b)[1..] == Chunks(b[CHUNK_SIZE..]);
    }
  }

  lemma ChunksStep(b: Buf, from: nat, end: nat)
    requires from < |b| && end == if from + CHUNK_SIZE > |b| then |b| else from + CHUNK_SIZE
    ensures Chunks(b[from..]) == [b[from..end]] + Chunks(b[end..])
  {
    var rest := b[from..];
    if |rest| <= CHUNK_SIZE {
      assert rest == b[from..end] && b[end..] == [];
    } else {
      assert rest[..CHUNK_SIZE] == b[from..end] && rest[CHUNK_SIZE..] == b[end..];
    }
  }

  // ----- What Write sends, from what it hears while it waits

  /**
   * What one turn of the retransmit loop meets: an error of the socket; or, after the transmission, a passed deadline,
   * a number from the acknowledgement channel, or the timer, which finds the connection closed or not.
   */
  datatype Wait = SendFailed | Overdue | Acked(num: nat) | TimedOut(closed: bool)

  datatype WriteEnd = Wrote | NotOpen | SocketError | DeadlinePassed | ClosedDuringWrite | StillWaiting

  /** How the loop ends for one chunk: acknowledged with these waits left, or with the whole Write. */
  datatype Outcome = Got(rest: seq<Wait>) | Ended(end: WriteEnd)

  /** How often the chunk with this number is transmitted: once more after each wait that is not its acknowledgement. */
  function Until(waits: seq<Wait>, num: nat): (nat, Outcome)
    decreases |waits|
  {
    if waits == [] then (1, Ended(StillWaiting))
    else if waits[0] == SendFailed then (0, Ended(SocketError))
    else if waits[0] == Overdue then (1, Ended(DeadlinePassed))
    else if waits[0] == Acked(num) then (1, Got(waits[1..]))
    else if waits[0] == TimedOut(true) then (1, Ended(ClosedDuringWrite))
    else var (k, o) := Until(waits[1..], num); (k + 1, o)
  }

  /** How often each chunk is transmitted, and how the Write ends. */
  function Schedule(seqNo: nat, cs: seq<Buf>, waits: seq<Wait>): (seq<nat>, WriteEnd)
    decreases |cs|
  {
    if cs == [] then ([], Wrote)
    else
      var num := (seqNo + 1) % U16;
      var (k, o) := Until(waits, num);
      match o
      case Ended(end) => ([k], end)
      case Got(rest) => var (ks, end) := Schedule(num, cs[1..], rest); ([k] + ks, end)
  }

  function Repeat(datagram: Buf, k: nat): seq<Buf> { seq(k, _ => datagram) }

  /** The datagrams of the first chunks, numbered from `seqNo + 1` on, each as often as `times` says. */
  function Datagrams(sendID: nat, ackNo: nat, seqNo: nat, cs: seq<Buf>, times: seq<nat>): seq<Buf>
    requires |times| <= |cs|
    decreases |times|
  {
    if times == [] then []
    else
      var num := (seqNo + 1) % U16;
      Repeat(EncodePacket(DataPacket(sendID, num, ackNo, cs[0])), times[0])
      + Datagrams(sendID, ackNo, num, cs[1..], times[1..])
  }

  lemma {:induction false} UntilEnds(waits: seq<Wait>, num: nat)
    ensures var (k, o) := Until(waits, num);
      && (o.Got? ==> k >= 1) && (k == 0 ==> o == Ended(SocketError)) && o != Ended(Wrote) && o != Ended(NotOpen)
    decreases |waits|
  {
    if waits != [] {
      UntilEnds(waits[1..], num);
    }
  }

  /**
   * All chunks are started exactly when the Write succeeds, and each started one is transmitted, but for the last one
   * if the socket refuses it.
   */
  lemma {:induction false} ScheduleCoversChunks(seqNo: nat, cs: seq<Buf>, waits: seq<Wait>)
    ensures var (ks, end) := Schedule(seqNo, cs, waits);
      && |ks| <= |cs|
      && (forall i | 0 <= i < |ks| :: ks[i] >= 1 || (i == |ks| - 1 && end == SocketError))
      && (end == Wrote ==> |ks| == |cs|) && (end != Wrote ==> ks != []) && end != NotOpen
    decreases |cs|
  {
    if cs != [] {
      var num := (seqNo + 1) % U16;
      var (k, o) := Until(waits, num);
      UntilEnds(waits, num);
      hide Until;
      if o.Got? {
        ScheduleCoversChunks(num, cs[1..], o.rest);
        var ks := Schedule(num, cs[1..], o.rest).0;
        assert Schedule(seqNo, cs, waits).0 == [k] + ks;
      }
    }
  }

  // ----- Progress of a Write

  /** A Write: the fields it starts from, its bytes, what its waits bring, and what the socket had sent before. */
  datatype Job = Job(sendID: nat, ackNo: nat, seqNo: nat, b: Buf, waits: seq<Wait>, sent: seq<Buf>)

  /** The first `m` chunks are the first `totalSent` bytes. */
  predicate AtPlace(b: Buf, m: nat, totalSent: nat) {
    && totalSent <= |b| && m <= |Chunks(b)|
    && Chunks(b)[m..] == Chunks(b[totalSent..]) && Concat(Chunks(b)[..m]) == b[..totalSent]
  }

  /** What is left to do, put behind `times`, is what the whole Write does. */
  predicate OnSchedule(j: Job, seqNo: nat, totalSent: nat, w: seq<Wait>, times: seq<nat>) {
    && totalSent <= |j.b|
    && var (ks, end) := Schedule(seqNo, Chunks(j.b[totalSent..]), w);
       Schedule(j.seqNo, Chunks(j.b), j.waits) == (times + ks, end)
  }

  predicate NumberedUpTo(seqNo0: nat, m: nat, seqNo: nat) {
    if m == 0 then seqNo == seqNo0 else seqNo == (seqNo0 + m) % U16
  }

  /** The socket has sent the datagrams of the first chunks, each as often as `times` says. */
  predicate HasSent(j: Job, times: seq<nat>, sent: seq<Buf>) {
    && |times| <= |Chunks(j.b)|
    && sent == j.sent + Datagrams(j.sendID, j.ackNo, j.seqNo, Chunks(j.b), times)
  }

  /** After the chunks of `b[..totalSent]`, transmitted `times` and numbered up to `seqNo`, with the waits `w` left. */
  predicate WriteProgress(j: Job, seqNo: nat, totalSent: nat, w: seq<Wait>, times: seq<nat>, sent: seq<Buf>) {
    && AtPlace(j.b, |times|, totalSent) && NumberedUpTo(j.seqNo, |times|, seqNo)
    && OnSchedule(j, seqNo, totalSent, w, times) && HasSent(j, times, sent)
  }

  /**
   * A finished Write: every chunk up to the last one started has its number and was transmitted as the waits say; the
   * bytes counted are those of the acknowledged chunks, and all of them exactly when the Write succeeds.
   */
  predicate WriteDid(j: Job, seqNo: nat, n: nat, end: WriteEnd, times: seq<nat>, sent: seq<Buf>) {
    && (times, end) == Schedule(j.seqNo, Chunks(j.b), j.waits)
    && NumberedUpTo(j.seqNo, |times|, seqNo) && HasSent(j, times, sent)
    && (if end == Wrote then n == |j.b| && |times| == |Chunks(j.b)|
        else times != [] && n == |Concat(Chunks(j.b)[..|times| - 1])|)
  }

  lemma WriteStarts(j: Job)
    ensures WriteProgress(j, j.seqNo, 0, j.waits, [], j.sent)
  {
    hide Chunks, Schedule;
    var b := j.b;
    assert b[0..] == b && b[..0] == [] && Chunks(b)[0..] == Chunks(b) && Chunks(b)[..0] == [];
    var (ks, end) := Schedule(j.seqNo, Chunks(b), j.waits);
    assert [] + ks == ks && j.sent + [] == j.sent;
  }

  lemma NumberAfter(seqNo0: nat, m: nat, seqNo: nat)
    requires NumberedUpTo(seqNo0, m, seqNo)
    ensures (seqNo + 1) % U16 == (seqNo0 + m + 1) % U16
  {
  }

  lemma NumberShift(seqNo0: nat, m: nat)
    ensures ((seqNo0 + 1) % U16 + m + 1) % U16 == (seqNo0 + (m + 1) + 1) % U16
  {
  }

  lemma DatagramsHead(sendID: nat, ackNo: nat, seqNo: nat, cs: seq<Buf>, times: seq<nat>)
    requires times != [] && |times| <= |cs|
    ensures var num := (seqNo + 1) % U16;
      Datagrams(sendID, ackNo, seqNo, cs, times) ==
        Repeat(EncodePacket(DataPacket(sendID, num, ackNo, cs[0])), times[0])
        + Datagrams(sendID, ackNo, num, cs[1..], times[1..])
  {
    hide EncodePacket, DataPacket, Repeat;
  }

  lemma NoDatagrams(sendID: nat, ackNo: nat, seqNo: nat, cs: seq<Buf>)
    ensures Datagrams(sendID, ackNo, seqNo, cs, []) == []
  {
  }

  lemma {:induction false} DatagramsSnoc(sendID: nat, ackNo: nat, seqNo0: nat, cs: seq<Buf>, times: seq<nat>, k: nat)
    requires |times| < |cs|
    ensures Datagrams(sendID, ackNo, seqNo0, cs, times + [k]) ==
      Datagrams(sendID, ackNo, seqNo0, cs, times)
      + Repeat(EncodePacket(DataPacket(sendID, (seqNo0 + |times| + 1) % U16, ackNo, cs[|times|])), k)
    decreases |times|
  {
    hide EncodePacket, DataPacket, Repeat, Datagrams;
    var num := (seqNo0 + 1) % U16;
    DatagramsHead(sendID, ackNo, seqNo0, cs, times + [k]);
    if times == [] {
      NoDatagrams(sendID, ackNo, seqNo0, cs);
      NoDatagrams(sendID, ackNo, num, cs[1..]);
      assert [k][1..] == [] && [] + [k] == [k];
    } else {
      NumberShift(seqNo0, |times| - 1);
      assert (times + [k])[1..] == times[1..] + [k];
      DatagramsHead(sendID, ackNo, seqNo0, cs, times);
      DatagramsSnoc(sendID, ackNo, num, cs[1..], times[1..], k);
      assert cs[1..][|times| - 1] == cs[|times|];
    }
  }

  lemma NextChunkAt(b: Buf, m: nat, totalSent: nat, stop: nat)
    requires AtPlace(b, m, totalSent) && totalSent < |b|
    requires stop == if totalSent + CHUNK_SIZE > |b| then |b| else totalSent + CHUNK_SIZE
    ensures m < |Chunks(b)| && Chunks(b)[m] == b[totalSent..stop] && totalSent == |Concat(Chunks(b)[..m])|
    ensures Chunks(b[totalSent..]) == [b[totalSent..stop]] + Chunks(b[stop..])
    ensures AtPlace(b, m + 1, stop)
  {
    ChunksStep(b, totalSent, stop);
    NextPlace(b, Chunks(b), m, totalSent, stop);
    hide Chunks, Concat;
  }

  lemma ScheduledNow(j: Job, seqNo: nat, totalSent: nat, stop: nat, w: seq<Wait>, times: seq<nat>)
    requires OnSchedule(j, seqNo, totalSent, w, times) && totalSent <= stop <= |j.b|
    requires Chunks(j.b[totalSent..]) == [j.b[totalSent..stop]] + Chunks(j.b[stop..])
    ensures var num := (seqNo + 1) % U16;
      var (k, o) := Until(w, num);
      match o
      case Ended(end) => Schedule(j.seqNo, Chunks(j.b), j.waits) == (times + [k], end)
      case Got(rest) => OnSchedule(j, num, stop, rest, times + [k])
  {
    hide Chunks, Until;
    var num := (seqNo + 1) % U16;
    var (k, o) := Until(w, num);
    ScheduleStep(seqNo, j.b[totalSent..stop], Chunks(j.b[stop..]), w);
    hide Schedule;
    if o.Got? {
      var ks := Schedule(num, Chunks(j.b[stop..]), o.rest).0;
      assert times + ([k] + ks) == times + [k] + ks;
    }
  }

  lemma SentNow(j: Job, times: seq<nat>, k: nat, sent: seq<Buf>, chunk: Buf, num: nat)
    requires HasSent(j, times, sent) && |times| < |Chunks(j.b)| && chunk == Chunks(j.b)[|times|]
    requires num == (j.seqNo + |times| + 1) % U16
    ensures HasSent(j, times + [k], sent + Repeat(EncodePacket(DataPacket(j.sendID, num, j.ackNo, chunk)), k))
  {
    hide Chunks, EncodePacket, DataPacket, Repeat, Datagrams;
    DatagramsSnoc(j.sendID, j.ackNo, j.seqNo, Chunks(j.b), times, k);
    var sofar, copies := Datagrams(j.sendID, j.ackNo, j.seqNo, Chunks(j.b), times),
                         Repeat(EncodePacket(DataPacket(j.sendID, num, j.ackNo, chunk)), k);
    assert j.sent + sofar + copies == j.sent + (sofar + copies);
  }

  /** What one turn of the chunk loop has to make of the progress. */
  predicate Turned(j: Job, seqNo: nat, totalSent: nat, stop: nat, o: Outcome, times: seq<nat>, sent: seq<Buf>) {
    match o
    case Ended(end) => WriteDid(j, seqNo, totalSent, end, times, sent)
    case Got(rest) => WriteProgress(j, seqNo, stop, rest, times, sent)
  }

  /** The next chunk has its number, its place in the plan and its transmissions. */
  lemma WriteStep(j: Job, before: nat, totalSent: nat, stop: nat, w: seq<Wait>, times: seq<nat>, sent: seq<Buf>)
    requires WriteProgress(j, before, totalSent, w, times, sent) && totalSent < |j.b|
    requires stop == if totalSent + CHUNK_SIZE > |j.b| then |j.b| else totalSent + CHUNK_SIZE
    ensures var num := (before + 1) % U16;
      var (k, o) := Until(w, num);
      var copies := Repeat(EncodePacket(DataPacket(j.sendID, num, j.ackNo, j.b[totalSent..stop])), k);
      Turned(j, num, totalSent, stop, o, times + [k], sent + copies)
  {
    hide Chunks, EncodePacket, DataPacket, Until, Repeat, Concat, Schedule, AtPlace, OnSchedule, HasSent;
    var num := (before + 1) % U16;
    var (k, o) := Until(w, num);
    NextChunkAt(j.b, |times|, totalSent, stop);
    NumberAfter(j.seqNo, |times|, before);
    ScheduledNow(j, before, totalSent, stop, w, times);
    SentNow(j, times, k, sent, j.b[totalSent..stop], num);
    UntilEnds(w, num);
    assert (times + [k])[..|times|] == times;
    hide NumberedUpTo;
  }

  lemma ScheduleStep(seqNo: nat, chunk: Buf, rest: seq<Buf>, w: seq<Wait>)
    ensures var num := (seqNo + 1) % U16;
      var (k, o) := Until(w, num);
      Schedule(seqNo, [chunk] + rest, w) ==
        match o
        case Ended(end) => ([k], end)
        case Got(w') => ([k] + Schedule(num, rest, w').0, Schedule(num, rest, w').1)
  {
    hide Until;
    assert ([chunk] + rest)[1..] == rest;
  }

  lemma NextPlace(b: Buf, cs: seq<Buf>, m: nat, totalSent: nat, stop: nat)
    requires m < |cs| && totalSent <= stop <= |b|
    requires cs[m..] == [b[totalSent..stop]] + Chunks(b[stop..]) && Concat(cs[..m]) == b[..totalSent]
    ensures cs[m + 1..] == Chunks(b[stop..]) && Concat(cs[..m + 1]) == b[..stop]
  {
    hide Chunks;
    assert cs[m + 1..] == cs[m..][1..];
    assert cs[..m + 1] == cs[..m] + [cs[m..][0]];
    ConcatAppend(cs[..m], [b[totalSent..stop]]);
    assert [b[totalSent..stop]][1..] == [];
    assert Concat([b[totalSent..stop]]) == b[totalSent..stop];
  }

  lemma WriteDone(j: Job, seqNo: nat, totalSent: nat, w: seq<Wait>, times: seq<nat>, sent: seq<Buf>)
    requires WriteProgress(j, seqNo, totalSent, w, times, sent) && totalSent >= |j.b|
    ensures WriteDid(j, seqNo, totalSent, Wrote, times, sent)
  {
    assert j.b[totalSent..] == [];
    assert Chunks(j.b[totalSent..]) == [];
    hide Chunks, Datagrams, Concat;
    assert times + [] == times;
  }

  // ----- The connection object

  /** The bytes that can be read without another packet. */
  function Stream(c: Conn): Buf { c.unread + Concat(c.readQueue) }

  function Min(a: nat, b: nat): nat { if a < b then a else b }

  /** The fields after Read, and the bytes it returns. */
  function ReadStep(c: Conn, size: nat): (Conn, Buf)
    requires c.unread != [] || c.readQueue != []
  {
    if c.unread != [] then
      var k := Min(size, |c.unread|);
      (c.(unread := c.unread[k..]), c.unread[..k])
    else
      var payload := c.readQueue[0];
      var k := Min(size, |payload|);
      (c.(readQueue := c.readQueue[1..], unread := payload[k..]), payload[..k])
  }

  /** Read takes at most `size` bytes off the front of the stream and changes nothing else. */
  lemma ReadStepKeepsStream(c: Conn, size: nat)
    requires c.unread != [] || c.readQueue != []
    ensures var (c', bytes) := ReadStep(c, size);
      bytes + Stream(c') == Stream(c) && |bytes| <= size
      && c' == c.(unread := c'.unread, readQueue := c'.readQueue)
  {
  }

  /** The case Read takes when it has no leftover: several can be ready, and then the choice is random. */
  datatype Pick = TakePayload | SeeClosed | TimeUp

  datatype ReadResult = Bytes(bytes: Buf) | EndOfStream | Timeout | Waiting

  function ReadWith(c: Conn, size: nat, pick: Pick): (Conn, ReadResult) {
    if c.unread != [] || (pick == TakePayload && c.readQueue != []) then
      var (c', bytes) := ReadStep(c, size); (c', Bytes(bytes))
    else
      match pick
      case TimeUp => (c, Timeout)
      case SeeClosed => (c, if c.state == Closed then EndOfStream else Waiting)
      case TakePayload => (c, Waiting)
  }

  /**
   * However the choices fall, a Read that returns bytes takes them off the front of the stream, and any other leaves
   * the stream as it is. The end of the stream is reported on closed connections only, but not only after their last
   * byte.
   */
  lemma ReadKeepsStream(c: Conn, size: nat, pick: Pick)
    ensures var (c', r) := ReadWith(c, size, pick);
      && (r.Bytes? ==>
            && (c.unread != [] || c.readQueue != [])
            && r.bytes + Stream(c') == Stream(c)
            && |r.bytes| == Min(size, if c.unread != [] then |c.unread| else |c.readQueue[0]|))
      && (!r.Bytes? ==> c' == c)
      && (r == EndOfStream ==> c.state == Closed)
      && c' == c.(unread := c'.unread, readQueue := c'.readQueue)
    ensures c.unread == [] ==>
      && ReadWith(c, size, TimeUp).1 == Timeout
      && (c.state == Closed ==> ReadWith(c, size, SeeClosed).1 == EndOfStream)
    ensures c.unread != [] || c.readQueue != [] ==> ReadWith(c, size, TakePayload).1.Bytes?
  {
    if c.unread != [] || c.readQueue != [] {
      ReadStepKeepsStream(c, size);
    }
  }

  /** A connection that is closed behind its last payload: Read can report the end of the stream before it. */
  lemma ClosedReadCanMissBytes()
    ensures var c := OnPacket(OnPacket(Conn(Connected, 1, 2, 0, 0, [], [], []), DataPacket(1, 5, 0, [7])).0,
                              Packet(ST_FIN, 1, 0, 1, 0, 0, 0, 6, 0, [])).0;
      Stream(c) == [7] && ReadWith(c, 10, SeeClosed) == (c, EndOfStream)
  {
    assert [[7]][1..] == [] && Concat([]) == [];
    assert Concat([[7]]) == [7];
    assert [] + [[7]] == [[7]];
  }

  class UTPConn {
    const recvID: nat
    const sendID: nat
    var state: ConnState
    var seqNo: nat
    var ackNo: nat
    var ackChan: seq<nat>
    var readQueue: seq<Buf>
    var unread: Buf
    /** Datagrams written to the socket. */
    var sent: seq<Buf>

    ghost function Abstract(): Conn
      reads this
    {
      Conn(state, recvID, sendID, seqNo, ackNo, ackChan, readQueue, unread)
    }

    constructor (recvID: nat, sendID: nat, seqNo: nat, ackNo: nat)
      ensures Abstract() == Conn(Connected, recvID, sendID, seqNo, ackNo, [], [], []) && sent == []
    {
      this.recvID, this.sendID, this.seqNo, this.ackNo := recvID, sendID, seqNo, ackNo;
      state, ackChan, readQueue, unread, sent := Connected, [], [], [], [];
    }

    method SendAck(ackNum: nat)
      modifies this`sent
      ensures sent == old(sent) + [EncodePacket(AckPacket(sendID, ackNum))]
    {
      var buf := Encode(AckPacket(sendID, ackNum));
      sent := sent + [buf[..]];
    }

    /** The loop that calls this may take a packet after the connection has closed: it chooses at random. */
    method HandlePacket(p: Packet) returns (panics: bool)
      modifies this
      ensures panics == Panics(old(Abstract()), p)
      ensures var (c, reply) := OnPacket(old(Abstract()), p);
        && Abstract() == c
        && sent == old(sent) + (if reply.Some? then [EncodePacket(reply.value)] else [])
    {
      panics := false;
      if p.kind == ST_FIN {
        ackNo := p.seqNum;
        SendAck(p.seqNum);
        panics := state == Closed;
        state := Closed;
      } else if p.kind == ST_STATE {
        if state == FinSent && p.ackNum == seqNo {
          state := Closed;
        } else if |ackChan| < QUEUE_SIZE {
          ackChan := ackChan + [p.ackNum];
        }
      } else if p.kind == ST_DATA {
        ackNo := p.seqNum;
        SendAck(p.seqNum);
        if |readQueue| < QUEUE_SIZE {
          readQueue := readQueue + [p.payload];
        }
      }
    }

    /** The retransmit loop for one chunk; `k` is how often it was transmitted. */
    method SendUntilAcked(data: Buf, num: nat, waits: seq<Wait>) returns (o: Outcome, ghost k: nat)
      modifies this`sent
      ensures (k, o) == Until(waits, num) && sent == old(sent) + Repeat(data, k)
    {
      var w := waits;
      k := 0;
      while true
        invariant var (m, o') := Until(w, num); Until(waits, num) == (k + m, o')
        invariant sent == old(sent) + Repeat(data, k)
        decreases |w|
      {
        if |w| > 0 && w[0] == SendFailed {
          return Ended(SocketError), k;
        }
        sent := sent + [data];
        assert Repeat(data, k) + [data] == Repeat(data, k + 1);
        k := k + 1;
        if |w| == 0 {
          return Ended(StillWaiting), k;
        }
        if w[0] == Overdue {
          return Ended(DeadlinePassed), k;
        }
        if w[0] == Acked(num) {
          return Got(w[1..]), k;
        }
        if w[0] == TimedOut(true) {
          return Ended(ClosedDuringWrite), k;
        }
        w := w[1..];
      }
    }

    /** Numbers one chunk and sends it. */
    method SendChunk(chunk: Buf, waits: seq<Wait>) returns (o: Outcome, ghost k: nat)
      modifies this`seqNo, this`sent
      ensures seqNo == (old(seqNo) + 1) % U16 && (k, o) == Until(waits, seqNo)
      ensures sent == old(sent) + Repeat(EncodePacket(DataPacket(sendID, seqNo, ackNo, chunk)), k)
    {
      hide Until, EncodePacket, DataPacket, Repeat;
      seqNo := (seqNo + 1) % U16;
      var buf := Encode(DataPacket(sendID, seqNo, ackNo, chunk));
      o, k := SendUntilAcked(buf[..], seqNo, waits);
    }

    /** One turn of the chunk loop, which sends `b[totalSent..stop]`. */
    method SendPart(b: Buf, totalSent: nat, w: seq<Wait>, ghost j: Job, ghost times: seq<nat>)
      returns (stop: nat, o: Outcome, ghost times': seq<nat>)
      requires j.sendID == sendID && j.ackNo == ackNo && j.b == b && totalSent < |b|
      requires WriteProgress(j, seqNo, totalSent, w, times, sent)
      modifies this`seqNo, this`sent
      ensures totalSent < stop <= |b| && Turned(j, seqNo, totalSent, stop, o, times', sent)
    {
      hide Until, EncodePacket, DataPacket, Repeat, Turned, WriteProgress;
      stop := totalSent + CHUNK_SIZE;
      if stop > |b| {
        stop := |b|;
      }
      WriteStep(j, seqNo, totalSent, stop, w, times, sent);
      ghost var k;
      o, k := SendChunk(b[totalSent..stop], w);
      times' := times + [k];
    }

    /**
     * Sends `b` in numbered chunks, each again and again until its own number is acknowledged. `n` is how many bytes
     * were acknowledged; `times` is how often each chunk was transmitted. When the given waits run out the call would
     * go on waiting.
     */
    method Write(b: Buf, waits: seq<Wait>) returns (n: nat, end: WriteEnd, ghost times: seq<nat>)
      modifies this`seqNo, this`sent
      ensures old(state) != Connected ==> end == NotOpen && n == 0 && seqNo == old(seqNo) && sent == old(sent)
      ensures old(state) == Connected ==>
        WriteDid(Job(sendID, ackNo, old(seqNo), b, waits, old(sent)), seqNo, n, end, times, sent)
    {
      hide WriteProgress, WriteDid;
      n, times := 0, [];
      if state != Connected {
        return 0, NotOpen, [];
      }
      ghost var j := Job(sendID, ackNo, seqNo, b, waits, sent);
      var w, totalSent := waits, 0;
      WriteStarts(j);
      while totalSent < |b|
        invariant totalSent <= |b| && WriteProgress(j, seqNo, totalSent, w, times, sent)
        decreases |b| - totalSent
      {
        var stop, o;
        stop, o, times := SendPart(b, totalSent, w, j, times);
        match o
        case Ended(e) =>
          return totalSent, e, times;
        case Got(rest) =>
          w, totalSent := rest, stop;
      }
      WriteDone(j, seqNo, totalSent, w, times, sent);
      n, end := totalSent, Wrote;
    }

    /** Reads up to `size` bytes; `pick` is the ready case that is chosen when no leftover is there. */
    method Read(size: nat, pick: Pick) returns (r: ReadResult)
      modifies this`unread, this`readQueue
      ensures var (c, result) := ReadWith(old(Abstract()), size, pick); Abstract() == c && r == result
    {
      if |unread| > 0 {
        var n := if size < |unread| then size else |unread|;
        r := Bytes(unread[..n]);
        unread := unread[n..];
        return;
      }
      match pick
      case TimeUp =>
        return Timeout;
      case SeeClosed =>
        return if state == Closed then EndOfStream else Waiting;
      case TakePayload =>
        if |readQueue| == 0 {
          return Waiting;
        }
        var payload := readQueue[0];
        readQueue := readQueue[1..];
        var n := if size < |payload| then size else |payload|;
        r := Bytes(payload[..n]);
        if n < |payload| {
          unread := payload[n..];
        }
        assert unread == payload[n..];
    }
  }
}
