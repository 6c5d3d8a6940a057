/** Every Write of a connection is a run of the stop-and-wait transmission (pkg/utp/conn.go). */
module WriteRuns {
  import opened Bytes
  import opened UtpPacket
  import opened UtpConn
  import opened StopAndWait
  import opened Delivery

  // ----- The events of a Write

  /** The turns of the retransmit loop for one chunk, each acknowledgement arriving when it is heard. */
  function ChunkEvents(waits: seq<Wait>, num: nat): seq<Event>
    decreases |waits|
  {
    if waits == [] || waits[0] == Overdue || waits[0] == TimedOut(true) then [Transmit]
    else if waits[0] == SendFailed then []
    else if waits[0] == Acked(num) then [Transmit] + [DeliverAck, TakeAck]
    else if waits[0].Acked? then [Transmit] + ([DeliverAck, TakeAck] + ChunkEvents(waits[1..], num))
    else [Transmit] + ChunkEvents(waits[1..], num)
  }

  function ChunksEvents(seqNo: nat, cs: seq<Buf>, waits: seq<Wait>): seq<Event>
    decreases |cs|
  {
    if cs == [] then []
    else
      var num := (seqNo + 1) % U16;
      var o := Until(waits, num).1;
      [NextChunk] + (ChunkEvents(waits, num) + if o.Got? then ChunksEvents(num, cs[1..], o.rest) else [])
  }

  function WriteEvents(seqNo: nat, b: Buf, waits: seq<Wait>): seq<Event> {
    [StartWrite(b)] + ChunksEvents(seqNo, Chunks(b), waits)
  }

  /** The acknowledgements that the waits bring. */
  function AckNumbers(waits: seq<Wait>): seq<nat> {
    if waits == [] then [] else (if waits[0].Acked? then [waits[0].num] else []) + AckNumbers(waits[1..])
  }

  /** They are the next ones on their way to the writer, whose channel is empty. */
  predicate Supplied(n: Net, waits: seq<Wait>) {
    && n.s.state == Connected && n.s.ackChan == [] && |AckNumbers(waits)| <= |n.acks|
    && forall i | 0 <= i < |AckNumbers(waits)| :: IsAck(n.s.recvID, n.acks[i], AckNumbers(waits)[i])
  }

  lemma SuppliedNext(n: Net, n': Net, waits: seq<Wait>)
    requires Supplied(n, waits) && waits != [] && n'.s == n.s
    requires n'.acks == if waits[0].Acked? then n.acks[1..] else n.acks
    requires waits[0].Acked? ==> n.acks != []
    ensures Supplied(n', waits[1..])
  {
    hide IsAck;
    if waits[0].Acked? {
      assert AckNumbers(waits) == [waits[0].num] + AckNumbers(waits[1..]);
      assert forall i | 0 <= i < |AckNumbers(waits[1..])| :: AckNumbers(waits[1..])[i] == AckNumbers(waits)[i + 1];
    } else {
      assert AckNumbers(waits) == AckNumbers(waits[1..]);
    }
  }

  /** An acknowledgement arrives and is taken: the flight ends if it is its own. */
  lemma AckIsTaken(n: Net, num: nat)
    requires n.s.state == Connected && n.s.ackChan == [] && n.acks != [] && IsAck(n.s.recvID, n.acks[0], num)
    requires n.flight.Some?
    ensures CanRun(n, [DeliverAck, TakeAck])
    ensures var n', own := Run(n, [DeliverAck, TakeAck]), num == n.flight.value.num;
      && n'.s == n.s && n'.r == n.r && n'.todo == n.todo && n'.data == n.data && n'.acks == n.acks[1..]
      && n'.flight == (if own then None else n.flight)
      && n'.log.plan == n.log.plan && n'.log.written == n.log.written
      && n'.log.done == n.log.done + if own then 1 else 0
  {
    AckArrives(n, num);
    var n1 := Apply(n, DeliverAck);
    hide DeliverAckStep, IsAck;
    RunStep(n1, TakeAck, []);
    RunStep(n, DeliverAck, [TakeAck]);
    assert [DeliverAck] + [TakeAck] == [DeliverAck, TakeAck];
  }

  lemma AckArrives(n: Net, num: nat)
    requires n.s.state == Connected && n.s.ackChan == [] && n.acks != [] && IsAck(n.s.recvID, n.acks[0], num)
    ensures var n' := Apply(n, DeliverAck);
      && n'.s == n.s.(ackChan := [num]) && n'.acks == n.acks[1..] && n'.s.ackChan[1..] == []
      && n' == n.(s := n'.s, acks := n'.acks, log := n'.log)
      && n'.log == n.log.(acksOf := n'.log.acksOf, chanOf := n'.log.chanOf)
  {
    assert [] + [num] == [num];
    hide Route;
  }

  /** What the turns for one chunk leave: its copies are on their way, and it is acknowledged if the waits say so. */
  predicate ChunkDone(n: Net, n': Net, k: nat, o: Outcome)
    requires n.flight.Some?
  {
    && n'.data == n.data + Repeat(n.flight.value.datagram, k)
    && n'.s == n.s && n'.r == n.r && n'.todo == n.todo
    && n'.log.plan == n.log.plan && n'.log.written == n.log.written
    && n'.flight == (if o.Got? then None else n.flight)
    && n'.log.done == n.log.done + (if o.Got? then 1 else 0)
    && (o.Got? ==> Supplied(n', o.rest))
  }

  lemma OneCopy(n: Net)
    requires n.flight.Some?
    ensures CanRun(n, [Transmit])
    ensures Run(n, [Transmit]) ==
      n.(data := n.data + Repeat(n.flight.value.datagram, 1), log := n.log.(dataOf := n.log.dataOf + [n.log.done]))
  {
    RunStep(n, Transmit, []);
    assert [Transmit] + [] == [Transmit];
    assert Repeat(n.flight.value.datagram, 1) == [n.flight.value.datagram];
  }

  lemma CopiesAdd(data: seq<Buf>, datagram: Buf, k: nat)
    ensures data + Repeat(datagram, 1) + Repeat(datagram, k) == data + Repeat(datagram, k + 1)
    ensures data + Repeat(datagram, 0) == data
  {
  }

  lemma {:induction false} ChunkRun(n: Net, waits: seq<Wait>)
    requires Supplied(n, waits) && n.flight.Some?
    ensures var num := n.flight.value.num;
      var (k, o) := Until(waits, num);
      CanRun(n, ChunkEvents(waits, num)) && ChunkDone(n, Run(n, ChunkEvents(waits, num)), k, o)
    decreases |waits|
  {
    var num, datagram := n.flight.value.num, n.flight.value.datagram;
    CopiesAdd(n.data, datagram, 0);
    if waits != [] && waits[0] == SendFailed {
    } else {
      OneCopy(n);
      var n1 := Run(n, [Transmit]);
      if waits != [] && waits[0].Acked? {
        FirstAckNumber(n, waits);
        AckIsTaken(n1, waits[0].num);
        var n2 := Run(n1, [DeliverAck, TakeAck]);
        SuppliedNext(n, n2, waits);
        hide Supplied, Run, CanRun, Repeat, AckNumbers;
        if waits[0].num == num {
          RunConcat(n, [Transmit], [DeliverAck, TakeAck]);
        } else {
          ChunkRun(n2, waits[1..]);
          RunConcat(n1, [DeliverAck, TakeAck], ChunkEvents(waits[1..], num));
          RunConcat(n, [Transmit], [DeliverAck, TakeAck] + ChunkEvents(waits[1..], num));
          CopiesAdd(n.data, datagram, Until(waits[1..], num).0);
        }
      } else if waits != [] && waits[0] == TimedOut(false) {
        SuppliedNext(n, n1, waits);
        hide Supplied, Run, CanRun, Repeat, AckNumbers;
        ChunkRun(n1, waits[1..]);
        RunConcat(n, [Transmit], ChunkEvents(waits[1..], num));
        CopiesAdd(n.data, datagram, Until(waits[1..], num).0);
      }
    }
  }

  lemma FirstAckNumber(n: Net, waits: seq<Wait>)
    requires Supplied(n, waits) && waits != [] && waits[0].Acked?
    ensures n.acks != [] && IsAck(n.s.recvID, n.acks[0], waits[0].num)
  {
    hide IsAck;
    assert AckNumbers(waits)[0] == waits[0].num;
  }

  // ----- All chunks

  /** What the chunks leave when they are numbered from `n.s.seqNo + 1` on and transmitted as `times` says. */
  predicate ChunksDone(n: Net, n': Net, cs: seq<Buf>, times: seq<nat>, end: WriteEnd)
    requires |times| <= |cs|
  {
    && n'.data == n.data + Datagrams(n.s.sendID, n.s.ackNo, n.s.seqNo, cs, times)
    && NumberedUpTo(n.s.seqNo, |times|, n'.s.seqNo)
    && n'.log.plan == n.log.plan && n'.log.written == n.log.written
    && (Idle(n') <==> end == Wrote)
    && n'.log.done + (if end == Wrote then 0 else 1) == n.log.done + |times|
  }

  lemma ChunkNumbered(n: Net)
    requires n.flight.None? && n.todo != []
    ensures CanRun(n, [NextChunk])
    ensures var n', num := Run(n, [NextChunk]), (n.s.seqNo + 1) % U16;
      n' == n.(s := n.s.(seqNo := num), todo := n.todo[1..],
               flight := Some(Flight(num, EncodePacket(DataPacket(n.s.sendID, num, n.s.ackNo, n.todo[0])))))
  {
    hide EncodePacket, DataPacket;
    RunStep(n, NextChunk, []);
    assert [NextChunk] + [] == [NextChunk];
  }

  lemma NumbersShift(seqNo: nat, m: nat, last: nat)
    requires NumberedUpTo((seqNo + 1) % U16, m, last)
    ensures NumberedUpTo(seqNo, m + 1, last)
  {
  }

  /** The first chunk is done, and the Write ends with it. */
  lemma LastChunkDone(n: Net, n1: Net, n': Net, k: nat, end: WriteEnd)
    requires n.flight.None? && n.todo != [] && n1 == Run(n, [NextChunk]) && CanRun(n, [NextChunk])
    requires n1.flight.Some? && ChunkDone(n1, n', k, Ended(end)) && end != Wrote
    ensures ChunksDone(n, n', n.todo, [k], end)
  {
    hide EncodePacket, DataPacket, Repeat, Datagrams;
    ChunkNumbered(n);
    hide Run, CanRun;
    DatagramsHead(n.s.sendID, n.s.ackNo, n.s.seqNo, n.todo, [k]);
    var num := (n.s.seqNo + 1) % U16;
    var copies := Repeat(EncodePacket(DataPacket(n.s.sendID, num, n.s.ackNo, n.todo[0])), k);
    assert [k][1..] == [];
    NoDatagrams(n.s.sendID, n.s.ackNo, num, n.todo[1..]);
    assert copies + [] == copies;
  }

  /** The first chunk is done and acknowledged, and then the others. */
  lemma FirstChunkDone(n: Net, n1: Net, n2: Net, n': Net, k: nat, rest: seq<Wait>, times: seq<nat>, end: WriteEnd)
    requires n.flight.None? && n.todo != [] && n1 == Run(n, [NextChunk]) && CanRun(n, [NextChunk])
    requires n1.flight.Some? && ChunkDone(n1, n2, k, Got(rest))
    requires |times| <= |n2.todo| && ChunksDone(n2, n', n2.todo, times, end)
    ensures |times| + 1 <= |n.todo| && ChunksDone(n, n', n.todo, [k] + times, end)
  {
    hide EncodePacket, DataPacket, Repeat, Datagrams, Supplied;
    ChunkNumbered(n);
    hide Run, CanRun, Idle;
    DatagramsHead(n.s.sendID, n.s.ackNo, n.s.seqNo, n.todo, [k] + times);
    var num := (n.s.seqNo + 1) % U16;
    var copies := Repeat(EncodePacket(DataPacket(n.s.sendID, num, n.s.ackNo, n.todo[0])), k);
    assert ([k] + times)[1..] == times;
    var others := Datagrams(n.s.sendID, n.s.ackNo, num, n.todo[1..], times);
    assert n.data + copies + others == n.data + (copies + others);
    NumbersShift(n.s.seqNo, |times|, n'.s.seqNo);
    hide NumberedUpTo;
  }

  lemma {:induction false} ChunksRun(n: Net, cs: seq<Buf>, waits: seq<Wait>)
    requires Supplied(n, waits) && n.flight.None? && n.todo == cs
    ensures var (times, end) := Schedule(n.s.seqNo, cs, waits);
      && |times| <= |cs| && CanRun(n, ChunksEvents(n.s.seqNo, cs, waits))
      && ChunksDone(n, Run(n, ChunksEvents(n.s.seqNo, cs, waits)), cs, times, end)
    decreases |cs|
  {
    if cs == [] {
      assert n.data + [] == n.data;
    } else {
      hide Supplied, Run, CanRun, Until, ChunksDone, ChunkDone, ChunkEvents;
      var num := (n.s.seqNo + 1) % U16;
      var (k, o) := Until(waits, num);
      UntilEnds(waits, num);
      FirstOfSchedule(n.s.seqNo, cs, waits);
      hide Schedule, ChunksEvents;
      ChunkStarts(n, waits);
      var n1 := Run(n, [NextChunk]);
      ChunkRun(n1, waits);
      var turns := ChunkEvents(waits, num);
      var n2 := Run(n1, turns);
      if o.Ended? {
        LastChunkDone(n, n1, n2, k, o.end);
        RunConcat(n, [NextChunk], turns);
      } else {
        ChunkLeaves(n1, n2, k, o.rest);
        ChunksRun(n2, cs[1..], o.rest);
        var others := ChunksEvents(num, cs[1..], o.rest);
        RunConcat(n1, turns, others);
        RunConcat(n, [NextChunk], turns + others);
        FirstChunkDone(n, n1, n2, Run(n2, others), k, o.rest,
                       Schedule(num, cs[1..], o.rest).0, Schedule(num, cs[1..], o.rest).1);
      }
    }
  }

  lemma ChunkStarts(n: Net, waits: seq<Wait>)
    requires n.flight.None? && n.todo != [] && Supplied(n, waits)
    ensures CanRun(n, [NextChunk])
    ensures var n', num := Run(n, [NextChunk]), (n.s.seqNo + 1) % U16;
      && n'.flight.Some? && n'.flight.value.num == num && n'.s.seqNo == num && n'.todo == n.todo[1..]
      && Supplied(n', waits)
  {
    hide Supplied, Run, CanRun, EncodePacket, DataPacket;
    ChunkNumbered(n);
    SameSupply(n, Run(n, [NextChunk]), waits);
  }

  lemma FirstOfSchedule(seqNo: nat, cs: seq<Buf>, waits: seq<Wait>)
    requires cs != []
    ensures var num := (seqNo + 1) % U16;
      var (k, o) := Until(waits, num);
      && (o.Ended? ==> Schedule(seqNo, cs, waits) == ([k], o.end)
                       && ChunksEvents(seqNo, cs, waits) == [NextChunk] + ChunkEvents(waits, num))
      && (o.Got? ==> var (ks, end) := Schedule(num, cs[1..], o.rest);
            && Schedule(seqNo, cs, waits) == ([k] + ks, end)
            && ChunksEvents(seqNo, cs, waits)
                 == [NextChunk] + (ChunkEvents(waits, num) + ChunksEvents(num, cs[1..], o.rest)))
  {
    hide Until, ChunkEvents;
    var turns := ChunkEvents(waits, (seqNo + 1) % U16);
    assert turns + [] == turns;
  }

  lemma SameSupply(n: Net, n': Net, waits: seq<Wait>)
    requires Supplied(n, waits) && n'.s == n.s.(seqNo := n'.s.seqNo) && n'.acks == n.acks
    ensures Supplied(n', waits)
  {
    hide IsAck;
  }

  lemma ChunkLeaves(n: Net, n': Net, k: nat, rest: seq<Wait>)
    requires n.flight.Some? && ChunkDone(n, n', k, Got(rest))
    ensures n'.flight.None? && n'.todo == n.todo && Supplied(n', rest) && n'.s == n.s
  {
    hide Supplied, Repeat;
  }

  /**
   * Whatever a Write of the connection has done for these waits, one run of stop-and-wait events does the same: it
   * leaves the writer with the same number, the same datagrams on their way to the reader, and all written chunks
   * acknowledged exactly when the Write succeeds.
   */
  lemma WriteIsRun(n: Net, b: Buf, waits: seq<Wait>, seqNo: nat, count: nat, end: WriteEnd, times: seq<nat>,
                   sent: seq<Buf>)
    requires Idle(n) && Supplied(n, waits)
    requires WriteDid(Job(n.s.sendID, n.s.ackNo, n.s.seqNo, b, waits, n.data), seqNo, count, end, times, sent)
    ensures CanRun(n, WriteEvents(n.s.seqNo, b, waits))
    ensures var t := Run(n, WriteEvents(n.s.seqNo, b, waits));
      && t.data == sent && t.s.seqNo == seqNo
      && t.log.written == n.log.written + b && t.log.plan == n.log.plan + Chunks(b)
      && (Idle(t) <==> end == Wrote)
      && t.log.done + (if end == Wrote then 0 else 1) == n.log.done + |times|
  {
    hide IsAck, Run, CanRun, Datagrams, Schedule, ChunksEvents, Chunks;
    RunStep(n, StartWrite(b), []);
    var n1 := Apply(n, StartWrite(b));
    SameSupply(n, n1, waits);
    ChunksRun(n1, Chunks(b), waits);
    RunStep(n, StartWrite(b), ChunksEvents(n.s.seqNo, Chunks(b), waits));
  }
}
