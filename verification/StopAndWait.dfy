/**
 * Stop-and-wait transmission over a lossy FIFO network (pkg/utp/conn.go): one connection writes, the other
 * reads, and every packet crosses the network as a datagram that may be lost.
 */
module StopAndWait {
  import opened Bytes
  import opened UtpPacket
  import opened UtpConn

  /** A chunk being retransmitted: its number and its datagram. */
  datatype Flight = Flight(num: nat, datagram: Buf)

  datatype Net = Net(
    s: Conn,               // the writing end
    r: Conn,               // the reading end
    todo: seq<Buf>,        // chunks of the running Write that have not been numbered yet
    flight: Option<Flight>,
    data: seq<Buf>,        // datagrams on the way to the reader, oldest first
    acks: seq<Buf>,        // datagrams on the way to the writer, oldest first
    log: History)          // read by no step

  /** What has happened so far. Chunks are counted from 0 over all Writes. */
  datatype History = History(
    written: Buf,          // every byte handed to Write
    plan: seq<Buf>,        // the chunks of all Writes
    done: nat,             // chunks acknowledged
    got: seq<nat>,         // which chunk each datagram that reached the reader carried
    enqueued: seq<Buf>,    // payloads put into the read queue: those of them that found room
    kept: seq<nat>,        // which chunk each of these is
    dataOf: seq<nat>,      // which chunk each datagram to the reader carries
    acksOf: seq<nat>,      // which chunk each datagram to the writer acknowledges
    chanOf: seq<nat>,      // which chunk each queued acknowledgement is for
    readBytes: Buf)        // every byte returned by Read

  datatype Event =
    | StartWrite(bytes: Buf)
    | NextChunk
    | Transmit
    | LoseData(i: nat) | LoseAck(i: nat)
    | DeliverData | DeliverAck
    | TakeAck
    | ReadSome(size: nat)

  function RemoveAt<T>(q: seq<T>, i: nat): seq<T>
    requires i < |q|
  {
    q[..i] + q[i + 1..]
  }

  /** No Write is running. */
  predicate Idle(n: Net) { n.flight.None? && n.todo == [] }

  predicate Enabled(n: Net, e: Event) {
    match e
    case StartWrite(_) => Idle(n) && n.s.state == Connected
    case NextChunk => n.flight.None? && n.todo != []
    case Transmit => n.flight.Some?
    case LoseData(i) => i < |n.data|
    case LoseAck(i) => i < |n.acks|
    case DeliverData => n.data != []
    case DeliverAck => n.acks != []
    case TakeAck => n.flight.Some? && n.s.ackChan != []
    case ReadSome(_) => n.r.unread != [] || n.r.readQueue != []
  }

  function Apply(n: Net, e: Event): Net
    requires Enabled(n, e)
  {
    var h := n.log;
    match e
    case StartWrite(bytes) =>
      n.(todo := Chunks(bytes), log := h.(written := h.written + bytes, plan := h.plan + Chunks(bytes)))
    case NextChunk =>
      var num := (n.s.seqNo + 1) % U16;
      var p := DataPacket(n.s.sendID, num, n.s.ackNo, n.todo[0]);
      n.(s := n.s.(seqNo := num), todo := n.todo[1..], flight := Some(Flight(num, EncodePacket(p))))
    case Transmit =>
      n.(data := n.data + [n.flight.value.datagram], log := h.(dataOf := h.dataOf + [h.done]))
    case LoseData(i) =>
      n.(data := RemoveAt(n.data, i),
         log := h.(dataOf := if i < |h.dataOf| then RemoveAt(h.dataOf, i) else h.dataOf))
    case LoseAck(i) =>
      n.(acks := RemoveAt(n.acks, i),
         log := h.(acksOf := if i < |h.acksOf| then RemoveAt(h.acksOf, i) else h.acksOf))
    case DeliverData => DeliverDataStep(n)
    case DeliverAck => DeliverAckStep(n)
    case TakeAck =>
      var ack, rest := n.s.ackChan[0], n.s.(ackChan := n.s.ackChan[1..]);
      var h' := if h.chanOf != [] then h.(chanOf := h.chanOf[1..]) else h;
      if ack == n.flight.value.num then n.(s := rest, flight := None, log := h'.(done := h.done + 1))
      else n.(s := rest, log := h')
    case ReadSome(size) =>
      var (r', bytes) := ReadStep(n.r, size);
      n.(r := r', log := h.(readBytes := h.readBytes + bytes))
  }

  /** Chunk `k` has reached the reader; it is enqueued if there is room, and acknowledged in any case. */
  function Heard(h: History, r: Conn, payload: Buf, k: nat): History {
    if |r.readQueue| < QUEUE_SIZE then
      h.(got := h.got + [k], enqueued := h.enqueued + [payload], kept := h.kept + [k])
    else h.(got := h.got + [k])
  }

  function DeliverDataStep(n: Net): Net
    requires n.data != []
  {
    var h, n' := n.log, n.(data := n.data[1..]);
    var k, h' := if h.dataOf != [] then h.dataOf[0] else 0, if h.dataOf != [] then h.(dataOf := h.dataOf[1..]) else h;
    match Route(n.r.recvID, n.data[0])
    case None => n'.(log := h')
    case Some(p) =>
      var (r', reply) := OnPacket(n.r, p);
      var h'' := if p.kind == ST_DATA then Heard(h', n.r, p.payload, k) else h';
      match reply
      case None => n'.(r := r', log := h'')
      case Some(a) => n'.(r := r', acks := n.acks + [EncodePacket(a)], log := h''.(acksOf := h.acksOf + [k]))
  }

  function DeliverAckStep(n: Net): Net
    requires n.acks != []
  {
    var h, n' := n.log, n.(acks := n.acks[1..]);
    var k, h' := if h.acksOf != [] then h.acksOf[0] else 0, if h.acksOf != [] then h.(acksOf := h.acksOf[1..]) else h;
    match Route(n.s.recvID, n.acks[0])
    case None => n'.(log := h')
    case Some(p) =>
      var (s', reply) := OnPacket(n.s, p);
      n'.(s := s', log := if |s'.ackChan| > |n.s.ackChan| then h'.(chanOf := h.chanOf + [k]) else h')
  }

  predicate CanRun(n: Net, es: seq<Event>)
    decreases |es|
  {
    es == [] || (Enabled(n, es[0]) && CanRun(Apply(n, es[0]), es[1..]))
  }

  function Run(n: Net, es: seq<Event>): Net
    requires CanRun(n, es)
    decreases |es|
  {
    if es == [] then n else Run(Apply(n, es[0]), es[1..])
  }

  /** Two connected ends and an empty network; the sequence number to start from is arbitrary. */
  predicate Init(n: Net) {
    && n.s.state == Connected && n.r.state == Connected
    && n.s.sendID == n.r.recvID && n.r.sendID == n.s.recvID
    && n.s.sendID < U16 && n.r.sendID < U16 && n.s.seqNo < U16 && n.s.ackNo < U16
    && n.s.ackChan == [] && n.r.readQueue == [] && n.r.unread == []
    && Idle(n) && n.data == [] && n.acks == []
    && n.log == History([], [], 0, [], [], [], [], [], [], [])
  }

  // ----- The invariant

  /** The 16-bit number of chunk `k` when counting started after `base`. */
  function Num(base: nat, k: nat): nat { (base + 1 + k) % U16 }

  lemma NeighboursDiffer(base: nat, k: nat)
    ensures Num(base, k) != Num(base, k + 1)
  {
  }

  function Started(n: Net): nat { n.log.done + (if n.flight.Some? then 1 else 0) }

  /** How many chunks have been seen: one more than the last one in the list. */
  function Seen(got: seq<nat>): nat { if got == [] then 0 else got[|got| - 1] + 1 }

  predicate Sorted(ks: seq<nat>) { forall i, j | 0 <= i < j < |ks| :: ks[i] <= ks[j] }

  predicate Within(ks: seq<nat>, lo: int, hi: int) { forall i | 0 <= i < |ks| :: lo <= ks[i] <= hi }

  /** Each chunk follows a copy of itself or its predecessor, and the first is chunk 0. */
  predicate Stuttering(got: seq<nat>) {
    && (got != [] ==> got[0] == 0)
    && (forall i, j | 0 <= i < |got| && 0 <= j < |got| && j == i + 1 :: got[i] <= got[j] <= got[i] + 1)
  }

  predicate IsData(recvID: nat, raw: Buf, num: nat, chunk: Buf) {
    var p := Route(recvID, raw);
    p.Some? && p.value.kind == ST_DATA && p.value.seqNum == num && p.value.payload == chunk
  }

  predicate IsAck(recvID: nat, raw: Buf, num: nat) {
    var p := Route(recvID, raw);
    p.Some? && p.value.kind == ST_STATE && p.value.ackNum == num
  }

  /** Addresses, states and field widths never change. */
  predicate Wired(n: Net) {
    && n.s.state == Connected && n.r.state == Connected
    && n.s.sendID == n.r.recvID && n.r.sendID == n.s.recvID
    && n.s.sendID < U16 && n.r.sendID < U16 && n.s.ackNo < U16
  }

  /** The writer's side: what is numbered, in flight and still to do. */
  predicate WriterOk(base: nat, n: Net) {
    && Started(n) + |n.todo| == |n.log.plan| && n.todo == n.log.plan[Started(n)..]
    && n.s.seqNo == (base + Started(n)) % U16
    && (n.flight.Some? ==>
          && n.flight.value.num == Num(base, n.log.done)
          && IsData(n.r.recvID, n.flight.value.datagram, Num(base, n.log.done), n.log.plan[n.log.done]))
  }

  /** Every datagram and queued acknowledgement is what the history says it is. */
  predicate NetworkOk(base: nat, n: Net) {
    var h := n.log;
    && |h.dataOf| == |n.data| && |h.acksOf| == |n.acks| && |h.chanOf| == |n.s.ackChan|
    && (forall i | 0 <= i < |n.data| :: h.dataOf[i] < |h.plan|
          && IsData(n.r.recvID, n.data[i], Num(base, h.dataOf[i]), h.plan[h.dataOf[i]]))
    && (forall i | 0 <= i < |n.acks| :: IsAck(n.s.recvID, n.acks[i], Num(base, h.acksOf[i])))
    && (forall i | 0 <= i < |n.s.ackChan| :: n.s.ackChan[i] == Num(base, h.chanOf[i]))
  }

  /** FIFO order: only the current chunk and its predecessor can be in the network. */
  predicate OrderOk(n: Net) {
    var h := n.log;
    && h.done <= Seen(h.got) <= Started(n)
    && Sorted(h.dataOf) && Within(h.dataOf, Seen(h.got) - 1, Started(n) - 1)
    && Sorted(h.chanOf + h.acksOf) && Within(h.chanOf + h.acksOf, h.done - 1, Seen(h.got) - 1)
  }

  /** The reader's side: what was enqueued, and what has been read. */
  predicate ReaderOk(n: Net) {
    var h := n.log;
    && Stuttering(h.got) && Sorted(h.kept) && Within(h.kept, 0, Seen(h.got) - 1)
    && |h.enqueued| == |h.kept|
    && (forall i | 0 <= i < |h.kept| :: h.kept[i] < |h.plan| && h.enqueued[i] == h.plan[h.kept[i]])
    && h.readBytes + Stream(n.r) == Concat(h.enqueued)
    && Concat(h.plan) == h.written
    && (forall i | 0 <= i < |h.plan| :: h.plan[i] != [])
  }

  predicate Inv(base: nat, n: Net) {
    Wired(n) && WriterOk(base, n) && NetworkOk(base, n) && OrderOk(n) && ReaderOk(n)
  }

  // ----- Every event keeps the invariant

  /** The reader's part looks at these fields only. */
  lemma ReaderFrame(n: Net, n': Net)
    requires ReaderOk(n)
    requires n'.r.unread == n.r.unread && n'.r.readQueue == n.r.readQueue
    requires n'.log.enqueued == n.log.enqueued && n'.log.kept == n.log.kept && n'.log.got == n.log.got
    requires n'.log.readBytes == n.log.readBytes
    requires n'.log.plan == n.log.plan && n'.log.written == n.log.written
    ensures ReaderOk(n')
  {
    assert Stream(n'.r) == Stream(n.r);
    hide Stream, Concat, Stuttering;
  }

  /** The writer's part looks at these fields only. */
  lemma WriterFrame(base: nat, n: Net, n': Net)
    requires WriterOk(base, n)
    requires n'.todo == n.todo && n'.flight == n.flight && n'.s.seqNo == n.s.seqNo && n'.r.recvID == n.r.recvID
    requires n'.log.plan == n.log.plan && n'.log.done == n.log.done
    ensures WriterOk(base, n')
  {
    hide IsData, Num;
  }

  lemma StartWriteKeepsReader(n: Net, bytes: Buf)
    requires ReaderOk(n) && Enabled(n, StartWrite(bytes))
    ensures ReaderOk(Apply(n, StartWrite(bytes)))
  {
    hide Concat, Chunks, Stuttering;
    ChunksConcat(bytes);
    ConcatAppend(n.log.plan, Chunks(bytes));
  }

  lemma StartWriteKeepsNetwork(base: nat, n: Net, bytes: Buf)
    requires NetworkOk(base, n) && Enabled(n, StartWrite(bytes))
    ensures NetworkOk(base, Apply(n, StartWrite(bytes)))
  {
    hide IsData, IsAck, Num, Chunks;
  }

  lemma StartWriteKeepsWriter(base: nat, n: Net, bytes: Buf)
    requires WriterOk(base, n) && Enabled(n, StartWrite(bytes))
    ensures WriterOk(base, Apply(n, StartWrite(bytes)))
  {
    hide Chunks, IsData, Num;
    assert (n.log.plan + Chunks(bytes))[|n.log.plan|..] == Chunks(bytes);
  }

  /** The order looks at these fields only. */
  lemma OrderFrame(n: Net, n': Net)
    requires OrderOk(n) && Started(n') == Started(n)
    requires n'.log.done == n.log.done && n'.log.got == n.log.got
    requires n'.log.dataOf == n.log.dataOf && n'.log.chanOf == n.log.chanOf && n'.log.acksOf == n.log.acksOf
    ensures OrderOk(n')
  {
    hide Sorted, Within, Seen, Started;
  }

  lemma StartWriteKeepsInv(base: nat, n: Net, bytes: Buf)
    requires Inv(base, n) && Enabled(n, StartWrite(bytes))
    ensures Inv(base, Apply(n, StartWrite(bytes)))
  {
    hide ReaderOk, NetworkOk, WriterOk, OrderOk, Chunks;
    StartWriteKeepsReader(n, bytes);
    StartWriteKeepsNetwork(base, n, bytes);
    StartWriteKeepsWriter(base, n, bytes);
    OrderFrame(n, Apply(n, StartWrite(bytes)));
  }

  lemma NextNumber(base: nat, k: nat)
    ensures ((base + k) % U16 + 1) % U16 == Num(base, k)
    ensures Num(base, k) == (base + (k + 1)) % U16
  {
  }

  /** A numbered chunk becomes a datagram that the reader's end will take for that chunk. */
  lemma DataPacketIsData(sendID: nat, num: nat, ack: nat, chunk: Buf)
    requires sendID < U16 && num < U16 && ack < U16
    ensures IsData(sendID, EncodePacket(DataPacket(sendID, num, ack, chunk)), num, chunk)
  {
    hide EncodePacket;
    SentPacketIsRouted(DataPacket(sendID, num, ack, chunk));
  }

  lemma AckPacketIsAck(sendID: nat, num: nat)
    requires sendID < U16 && num < U16
    ensures IsAck(sendID, EncodePacket(AckPacket(sendID, num)), num)
  {
    hide EncodePacket;
    SentPacketIsRouted(AckPacket(sendID, num));
  }

  lemma NextChunkKeepsInv(base: nat, n: Net)
    requires Inv(base, n) && Enabled(n, NextChunk)
    ensures Inv(base, Apply(n, NextChunk))
  {
    hide IsData, IsAck, EncodePacket, DataPacket, Concat, Stream, Stuttering, Sorted;
    NextNumber(base, n.log.done);
    DataPacketIsData(n.s.sendID, (n.s.seqNo + 1) % U16, n.s.ackNo, n.todo[0]);
    assert n.todo[0] == n.log.plan[n.log.done];
    assert n.todo[1..] == n.log.plan[n.log.done + 1..];
  }

  lemma SortedSnoc(ks: seq<nat>, k: nat, lo: int)
    requires Sorted(ks) && Within(ks, lo, k)
    ensures Sorted(ks + [k])
  {
  }

  lemma TransmitKeepsInv(base: nat, n: Net)
    requires Inv(base, n) && Enabled(n, Transmit)
    ensures Inv(base, Apply(n, Transmit))
  {
    hide Route, Stream, Concat, Stuttering;
    SortedSnoc(n.log.dataOf, n.log.done, Seen(n.log.got) - 1);
  }

  lemma RemoveKeepsOrder(ks: seq<nat>, i: nat, lo: int, hi: int)
    requires i < |ks| && Sorted(ks) && Within(ks, lo, hi)
    ensures Sorted(RemoveAt(ks, i)) && Within(RemoveAt(ks, i), lo, hi)
  {
  }

  lemma LossKeepsNetwork(base: nat, n: Net, e: Event)
    requires NetworkOk(base, n) && Enabled(n, e) && (e.LoseData? || e.LoseAck?)
    ensures NetworkOk(base, Apply(n, e))
  {
    hide IsData, IsAck, Num;
  }

  lemma LossKeepsOrder(n: Net, e: Event)
    requires OrderOk(n) && Enabled(n, e) && (e.LoseData? || e.LoseAck?)
    requires |n.log.dataOf| == |n.data| && |n.log.acksOf| == |n.acks|
    ensures OrderOk(Apply(n, e))
  {
    var h := n.log;
    if e.LoseData? {
      RemoveKeepsOrder(h.dataOf, e.i, Seen(h.got) - 1, Started(n) - 1);
    } else {
      RemoveKeepsOrder(h.chanOf + h.acksOf, |h.chanOf| + e.i, h.done - 1, Seen(h.got) - 1);
      assert RemoveAt(h.chanOf + h.acksOf, |h.chanOf| + e.i) == h.chanOf + RemoveAt(h.acksOf, e.i);
    }
    hide Sorted, Within, Seen;
  }

  lemma LossKeepsInv(base: nat, n: Net, e: Event)
    requires Inv(base, n) && Enabled(n, e) && (e.LoseData? || e.LoseAck?)
    ensures Inv(base, Apply(n, e))
  {
    LossKeepsNetwork(base, n, e);
    LossKeepsOrder(n, e);
    hide NetworkOk, OrderOk, WriterOk, ReaderOk, RemoveAt;
    ReaderFrame(n, Apply(n, e));
    WriterFrame(base, n, Apply(n, e));
  }

  // ----- Delivery to the reader

  /** The reader enqueues the chunk of the oldest datagram, if there is room, and acknowledges its number. */
  lemma DeliverDataEffect(base: nat, n: Net)
    requires Wired(n) && NetworkOk(base, n) && Enabled(n, DeliverData)
    ensures var h, k := n.log, n.log.dataOf[0];
      var num, chunk := Num(base, k), h.plan[k];
      DeliverDataStep(n) ==
        n.(r := n.r.(ackNo := num, readQueue := Offer(n.r.readQueue, chunk)),
           data := n.data[1..],
           acks := n.acks + [EncodePacket(AckPacket(n.r.sendID, num))],
           log := Heard(h.(dataOf := h.dataOf[1..]), n.r, chunk, k).(acksOf := h.acksOf + [k]))
  {
    hide Num, EncodePacket, AckPacket;
    assert IsData(n.r.recvID, n.data[0], Num(base, n.log.dataOf[0]), n.log.plan[n.log.dataOf[0]]);
    hide Route;
  }

  lemma DeliverDataKeepsOrder(n: Net, n': Net, k: nat)
    requires OrderOk(n) && n.log.dataOf != [] && k == n.log.dataOf[0]
    requires Started(n') == Started(n)
    requires n'.log.dataOf == n.log.dataOf[1..] && n'.log.got == n.log.got + [k]
    requires n'.log.acksOf == n.log.acksOf + [k] && n'.log.chanOf == n.log.chanOf && n'.log.done == n.log.done
    ensures OrderOk(n')
  {
    var h := n.log;
    assert Seen(h.got + [k]) == k + 1;
    SortedSnoc(h.chanOf + h.acksOf, k, h.done - 1);
    assert h.chanOf + (h.acksOf + [k]) == h.chanOf + h.acksOf + [k];
  }

  lemma StutteringSnoc(got: seq<nat>, k: nat)
    requires Stuttering(got) && Seen(got) <= k + 1 && k <= Seen(got)
    ensures Stuttering(got + [k])
  {
  }

  lemma StreamGrows(c: Conn, chunk: Buf, ack: nat, enqueued: seq<Buf>, readBytes: Buf)
    requires readBytes + Stream(c) == Concat(enqueued)
    ensures readBytes + Stream(c.(ackNo := ack, readQueue := c.readQueue + [chunk])) == Concat(enqueued + [chunk])
  {
    ConcatAppend(c.readQueue, [chunk]);
    ConcatAppend(enqueued, [chunk]);
    var one := Concat([chunk]);
    assert readBytes + (c.unread + (Concat(c.readQueue) + one)) == readBytes + (c.unread + Concat(c.readQueue)) + one;
  }

  /** The histories agree in what concerns the reader. */
  predicate HeardBy(h: History, h': History) {
    && h'.enqueued == h.enqueued && h'.kept == h.kept && h'.got == h.got
    && h'.plan == h.plan && h'.written == h.written && h'.readBytes == h.readBytes
  }

  lemma DeliverDataKeepsReader(n: Net, n': Net, k: nat, ack: nat)
    requires ReaderOk(n) && k < |n.log.plan| && Seen(n.log.got) <= k + 1 && k <= Seen(n.log.got)
    requires n'.r == n.r.(ackNo := ack, readQueue := Offer(n.r.readQueue, n.log.plan[k]))
    requires HeardBy(Heard(n.log, n.r, n.log.plan[k], k), n'.log)
    ensures ReaderOk(n')
  {
    StutteringSnoc(n.log.got, k);
    assert Seen(n.log.got + [k]) == k + 1;
    WithinMore(n.log.kept, Seen(n.log.got) - 1, k);
    hide Stuttering, Stream, Concat, Seen;
    if |n.r.readQueue| < QUEUE_SIZE {
      StreamGrows(n.r, n.log.plan[k], ack, n.log.enqueued, n.log.readBytes);
      SortedSnoc(n.log.kept, k, 0);
    } else {
      SameStream(n.r, ack);
    }
  }

  lemma WithinMore(ks: seq<nat>, hi: int, k: nat)
    requires Within(ks, 0, hi) && hi <= k
    ensures Within(ks, 0, k) && Within(ks + [k], 0, k)
  {
  }

  lemma SameStream(c: Conn, ack: nat)
    ensures Stream(c.(ackNo := ack)) == Stream(c)
  {
  }

  lemma DeliverDataKeepsNetwork(base: nat, n: Net, n': Net, ack: Buf)
    requires NetworkOk(base, n) && n.data != []
    requires IsAck(n.s.recvID, ack, Num(base, n.log.dataOf[0]))
    requires n'.data == n.data[1..] && n'.acks == n.acks + [ack] && n'.s == n.s && n'.r.recvID == n.r.recvID
    requires n'.log.plan == n.log.plan && n'.log.dataOf == n.log.dataOf[1..]
    requires n'.log.acksOf == n.log.acksOf + [n.log.dataOf[0]] && n'.log.chanOf == n.log.chanOf
    ensures NetworkOk(base, n')
  {
    hide IsData, IsAck, Num;
  }

  /** The oldest datagram carries the last chunk seen or the next one. */
  lemma OldestChunk(base: nat, n: Net)
    requires Inv(base, n) && Enabled(n, DeliverData)
    ensures n.log.dataOf != [] && n.r.sendID < U16
    ensures var k, seen := n.log.dataOf[0], Seen(n.log.got); k < |n.log.plan| && seen <= k + 1 && k <= seen
  {
    hide Seen, IsData, IsAck, Num, ReaderOk;
    assert Started(n) <= n.log.done + 1;
  }

  lemma NumBound(base: nat, k: nat)
    ensures Num(base, k) < U16
  {
  }

  lemma DeliverDataKeepsInv(base: nat, n: Net)
    requires Inv(base, n) && Enabled(n, DeliverData)
    ensures Inv(base, Apply(n, DeliverData))
  {
    hide EncodePacket, AckPacket, IsAck, Num, DeliverDataStep, OrderOk, ReaderOk, NetworkOk, WriterOk, Seen;
    OldestChunk(base, n);
    var k, n' := n.log.dataOf[0], Apply(n, DeliverData);
    DeliverDataEffect(base, n);
    NumBound(base, k);
    AckPacketIsAck(n.r.sendID, Num(base, k));
    DeliverDataKeepsOrder(n, n', k);
    DeliverDataKeepsReader(n, n', k, Num(base, k));
    DeliverDataKeepsNetwork(base, n, n', EncodePacket(AckPacket(n.r.sendID, Num(base, k))));
    WriterFrame(base, n, n');
  }

  // ----- Delivery to the writer, and the acknowledgement Write waits for

  /** The oldest acknowledgement is queued, or lost when the channel is full. */
  lemma DeliverAckEffect(base: nat, n: Net)
    requires Wired(n) && NetworkOk(base, n) && Enabled(n, DeliverAck)
    ensures var h, k := n.log, n.log.acksOf[0];
      DeliverAckStep(n) ==
        if |n.s.ackChan| < QUEUE_SIZE then
          n.(s := n.s.(ackChan := n.s.ackChan + [Num(base, k)]), acks := n.acks[1..],
             log := h.(acksOf := h.acksOf[1..], chanOf := h.chanOf + [k]))
        else n.(acks := n.acks[1..], log := h.(acksOf := h.acksOf[1..]))
  {
    hide Num;
    assert IsAck(n.s.recvID, n.acks[0], Num(base, n.log.acksOf[0]));
    hide Route;
  }

  lemma DropHeadKeepsOrder(ks: seq<nat>, lo: int, hi: int)
    requires ks != [] && Sorted(ks) && Within(ks, lo, hi)
    ensures Sorted(ks[1..]) && Within(ks[1..], ks[0], hi) && Within(ks[1..], lo, hi)
  {
  }

  lemma DeliverAckKeepsOrder(n: Net, n': Net)
    requires OrderOk(n) && n.log.acksOf != [] && Started(n') == Started(n)
    requires n'.log == n.log.(acksOf := n.log.acksOf[1..], chanOf := n.log.chanOf + [n.log.acksOf[0]])
          || n'.log == n.log.(acksOf := n.log.acksOf[1..])
    ensures OrderOk(n')
  {
    var h := n.log;
    if |n'.log.chanOf| > |h.chanOf| {
      assert n'.log.chanOf + n'.log.acksOf == h.chanOf + h.acksOf;
    } else {
      RemoveKeepsOrder(h.chanOf + h.acksOf, |h.chanOf|, h.done - 1, Seen(h.got) - 1);
      assert n'.log.chanOf + n'.log.acksOf == RemoveAt(h.chanOf + h.acksOf, |h.chanOf|);
    }
  }

  lemma DeliverAckKeepsNetwork(base: nat, n: Net)
    requires Wired(n) && NetworkOk(base, n) && Enabled(n, DeliverAck)
    ensures NetworkOk(base, Apply(n, DeliverAck))
  {
    DeliverAckEffect(base, n);
    hide IsData, IsAck, Num, Route, DeliverAckStep;
  }

  lemma AckLengths(base: nat, n: Net)
    requires NetworkOk(base, n)
    ensures |n.log.dataOf| == |n.data| && |n.log.acksOf| == |n.acks| && |n.log.chanOf| == |n.s.ackChan|
  {
    hide IsData, IsAck, Num;
  }

  lemma DeliverAckKeepsInv(base: nat, n: Net)
    requires Inv(base, n) && Enabled(n, DeliverAck)
    ensures Inv(base, Apply(n, DeliverAck))
  {
    hide Num, DeliverAckStep, OrderOk, WriterOk, ReaderOk, NetworkOk;
    DeliverAckEffect(base, n);
    DeliverAckKeepsNetwork(base, n);
    AckLengths(base, n);
    DeliverAckKeepsOrder(n, Apply(n, DeliverAck));
    ReaderFrame(n, Apply(n, DeliverAck));
    WriterFrame(base, n, Apply(n, DeliverAck));
  }

  /** Write sees its own number exactly when the current chunk is acknowledged: 16 bits are enough. */
  lemma AckIsForCurrent(base: nat, n: Net)
    requires Inv(base, n) && Enabled(n, TakeAck)
    ensures n.s.ackChan[0] == n.flight.value.num <==> n.log.chanOf[0] == n.log.done
  {
    var k := n.log.chanOf[0];
    assert k == (n.log.chanOf + n.log.acksOf)[0];
    hide IsData, IsAck, Stuttering, Stream, Concat, Sorted;
    if k != n.log.done {
      assert k + 1 == n.log.done;
      NeighboursDiffer(base, k);
    }
  }

  lemma TakeAckKeepsNetwork(base: nat, n: Net)
    requires NetworkOk(base, n) && Enabled(n, TakeAck)
    ensures NetworkOk(base, Apply(n, TakeAck))
  {
    hide IsData, IsAck, Num;
  }

  lemma AckQueueParts(base: nat, n: Net)
    requires Inv(base, n) && Enabled(n, TakeAck)
    ensures OrderOk(n) && |n.log.chanOf| == |n.s.ackChan|
  {
    hide OrderOk, WriterOk, ReaderOk;
  }

  lemma TakenAckKeepsOrder(n: Net, n': Net)
    requires OrderOk(n) && n.log.chanOf != [] && Started(n') == Started(n)
    requires n'.log == n.log.(chanOf := n.log.chanOf[1..],
                              done := n.log.done + if n.log.chanOf[0] == n.log.done then 1 else 0)
    ensures OrderOk(n')
  {
    var h := n.log;
    var ks := h.chanOf + h.acksOf;
    assert ks[0] == h.chanOf[0] && ks[1..] == h.chanOf[1..] + h.acksOf;
    DropHeadKeepsOrder(ks, h.done - 1, Seen(h.got) - 1);
    assert h.done - 1 <= ks[0] <= Seen(h.got) - 1;
    hide Sorted, Within, Seen, Started;
    assert n'.log.chanOf + n'.log.acksOf == ks[1..];
    WithinWeaken(ks[1..], ks[0], Seen(h.got) - 1, n'.log.done - 1);
  }

  lemma WithinWeaken(ks: seq<nat>, lo: int, hi: int, lo': int)
    requires Within(ks, lo, hi) && lo' <= lo
    ensures Within(ks, lo', hi)
  {
  }

  lemma TakeAckKeepsOrder(base: nat, n: Net)
    requires Inv(base, n) && Enabled(n, TakeAck)
    ensures OrderOk(Apply(n, TakeAck))
  {
    AckIsForCurrent(base, n);
    AckQueueParts(base, n);
    hide Inv, OrderOk;
    TakenAckKeepsOrder(n, Apply(n, TakeAck));
  }

  lemma TakeAckKeepsWriter(base: nat, n: Net)
    requires Inv(base, n) && Enabled(n, TakeAck)
    ensures WriterOk(base, Apply(n, TakeAck))
  {
    hide NetworkOk, OrderOk, ReaderOk, IsData;
    NextNumber(base, n.log.done);
  }

  lemma TakeAckKeepsInv(base: nat, n: Net)
    requires Inv(base, n) && Enabled(n, TakeAck)
    ensures Inv(base, Apply(n, TakeAck))
  {
    hide NetworkOk, OrderOk, WriterOk, ReaderOk;
    TakeAckKeepsNetwork(base, n);
    TakeAckKeepsOrder(base, n);
    TakeAckKeepsWriter(base, n);
    ReaderFrame(n, Apply(n, TakeAck));
  }

  // ----- Reading

  lemma ReadKeepsReader(n: Net, size: nat)
    requires ReaderOk(n) && Enabled(n, ReadSome(size))
    ensures ReaderOk(Apply(n, ReadSome(size)))
  {
    ReadStepKeepsStream(n.r, size);
    var (r', bytes) := ReadStep(n.r, size);
    hide ReadStep, Stream, Concat, Stuttering;
    assert n.log.readBytes + bytes + Stream(r') == n.log.readBytes + (bytes + Stream(r'));
  }

  /** The network's part looks at these fields only. */
  lemma NetworkFrame(base: nat, n: Net, n': Net)
    requires NetworkOk(base, n)
    requires n'.data == n.data && n'.acks == n.acks && n'.s == n.s && n'.r.recvID == n.r.recvID
    requires n'.log.dataOf == n.log.dataOf && n'.log.acksOf == n.log.acksOf && n'.log.chanOf == n.log.chanOf
    requires n'.log.plan == n.log.plan
    ensures NetworkOk(base, n')
  {
    hide IsData, IsAck, Num;
  }

  lemma ReadKeepsInv(base: nat, n: Net, size: nat)
    requires Inv(base, n) && Enabled(n, ReadSome(size))
    ensures Inv(base, Apply(n, ReadSome(size)))
  {
    hide ReadStep, Stream, ReaderOk, NetworkOk, OrderOk, WriterOk;
    var n' := Apply(n, ReadSome(size));
    ReadKeepsReader(n, size);
    ReadStepKeepsStream(n.r, size);
    NetworkFrame(base, n, n');
    WriterFrame(base, n, n');
    OrderFrame(n, n');
  }

  lemma EventKeepsInv(base: nat, n: Net, e: Event)
    requires Inv(base, n) && Enabled(n, e)
    ensures Inv(base, Apply(n, e))
  {
    hide Inv, Apply;
    match e
    case StartWrite(bytes) => StartWriteKeepsInv(base, n, bytes);
    case NextChunk => NextChunkKeepsInv(base, n);
    case Transmit => TransmitKeepsInv(base, n);
    case LoseData(_) => LossKeepsInv(base, n, e);
    case LoseAck(_) => LossKeepsInv(base, n, e);
    case DeliverData => DeliverDataKeepsInv(base, n);
    case DeliverAck => DeliverAckKeepsInv(base, n);
    case TakeAck => TakeAckKeepsInv(base, n);
    case ReadSome(size) => ReadKeepsInv(base, n, size);
  }

  lemma {:induction false} RunKeepsInv(base: nat, n: Net, es: seq<Event>)
    requires Inv(base, n) && CanRun(n, es)
    ensures Inv(base, Run(n, es))
    decreases |es|
  {
    hide Inv, Apply, Enabled;
    if es == [] {
    } else {
      EventKeepsInv(base, n, es[0]);
      RunKeepsInv(base, Apply(n, es[0]), es[1..]);
    }
  }
}
