/** What stop-and-wait transmission delivers over all runs (pkg/utp/conn.go), and what the schedule decides about it. */
module Delivery {
  import opened Bytes
  import opened UtpPacket
  import opened UtpConn
  import opened StopAndWait

  lemma InitIsInv(n: Net)
    requires Init(n)
    ensures Inv(n.s.seqNo, n)
  {
    hide IsData, IsAck, Num;
    assert Stream(n.r) == [];
  }

  /**
   * In every run the chunks that reach the reader are the written ones in order, each one or more times in a row and
   * none skipped; the enqueued payloads are those of them that found room, in order; an acknowledged chunk has reached
   * the reader; what Read returns is a prefix of what was enqueued; and when no Write is running, every chunk has
   * reached the reader.
   */
  lemma DeliveryIsInOrder(n: Net, es: seq<Event>)
    requires Init(n) && CanRun(n, es)
    ensures var h := Run(n, es).log;
      && Stuttering(h.got) && Sorted(h.kept) && Within(h.kept, 0, Seen(h.got) - 1)
      && |h.enqueued| == |h.kept|
      && (forall i | 0 <= i < |h.kept| :: h.kept[i] < |h.plan| && h.enqueued[i] == h.plan[h.kept[i]])
      && h.done <= Seen(h.got)
      && Concat(h.plan) == h.written && (forall i | 0 <= i < |h.plan| :: h.plan[i] != [])
      && h.readBytes <= Concat(h.enqueued)
      && (Idle(Run(n, es)) ==> Seen(h.got) == |h.plan|)
  {
    hide *;
    InitIsInv(n);
    RunKeepsInv(n.s.seqNo, n, es);
    InvDelivers(n.s.seqNo, Run(n, es));
  }

  lemma InvDelivers(base: nat, n: Net)
    requires Inv(base, n)
    ensures var h := n.log;
      && Stuttering(h.got) && Sorted(h.kept) && Within(h.kept, 0, Seen(h.got) - 1)
      && |h.enqueued| == |h.kept|
      && (forall i | 0 <= i < |h.kept| :: h.kept[i] < |h.plan| && h.enqueued[i] == h.plan[h.kept[i]])
      && h.done <= Seen(h.got)
      && Concat(h.plan) == h.written && (forall i | 0 <= i < |h.plan| :: h.plan[i] != [])
      && h.readBytes <= Concat(h.enqueued)
      && (Idle(n) ==> Seen(h.got) == |h.plan|)
  {
    hide Wired, NetworkOk, Stuttering, Sorted, Within, Seen, Concat, Stream, IsData, Num;
  }

  // ----- Counting events of a schedule

  function ChunkedBy(e: Event): nat { if e.NextChunk? then 1 else 0 }
  function SentBy(e: Event): nat { if e.Transmit? then 1 else 0 }
  function LostBy(e: Event): nat { if e.LoseData? then 1 else 0 }
  function DeliveredBy(e: Event): nat { if e.DeliverData? then 1 else 0 }

  function Chunkings(es: seq<Event>): nat { if es == [] then 0 else ChunkedBy(es[0]) + Chunkings(es[1..]) }
  function Transmissions(es: seq<Event>): nat { if es == [] then 0 else SentBy(es[0]) + Transmissions(es[1..]) }
  function Losses(es: seq<Event>): nat { if es == [] then 0 else LostBy(es[0]) + Losses(es[1..]) }
  function Deliveries(es: seq<Event>): nat { if es == [] then 0 else DeliveredBy(es[0]) + Deliveries(es[1..]) }

  /** The chunk that this event delivers below the read queue's capacity, if it does. */
  function FiredBy(n: Net, e: Event): seq<nat> {
    if e.DeliverData? && |n.r.readQueue| < QUEUE_SIZE && n.log.dataOf != [] then [n.log.dataOf[0]] else []
  }

  /** The chunks that a schedule delivers below capacity, in order. */
  function Fired(n: Net, es: seq<Event>): seq<nat>
    requires CanRun(n, es)
    decreases |es|
  {
    if es == [] then [] else FiredBy(n, es[0]) + Fired(Apply(n, es[0]), es[1..])
  }

  /** No delivery of the schedule meets a full read queue. */
  predicate NeverFull(n: Net, es: seq<Event>)
    requires CanRun(n, es)
    decreases |es|
  {
    es == [] || ((es[0].DeliverData? ==> |n.r.readQueue| < QUEUE_SIZE) && NeverFull(Apply(n, es[0]), es[1..]))
  }

  /** What one event adds to each count. */
  lemma EventAccounts(base: nat, n: Net, e: Event)
    requires Inv(base, n) && Enabled(n, e)
    ensures var n' := Apply(n, e);
      && Started(n') == Started(n) + ChunkedBy(e)
      && |n'.log.got| == |n.log.got| + DeliveredBy(e)
      && |n'.data| + LostBy(e) + DeliveredBy(e) == |n.data| + SentBy(e)
      && n'.log.kept == n.log.kept + FiredBy(n, e)
  {
    hide ReaderOk, OrderOk, WriterOk, IsData, IsAck, Num, EncodePacket, DataPacket, AckPacket, Route, ReadStep, Chunks;
    AckLengths(base, n);
    if e.DeliverData? {
      DeliverDataEffect(base, n);
      hide DeliverDataStep, NetworkOk;
      assert n.log.kept + [] == n.log.kept;
    } else if e.DeliverAck? {
      DeliverAckEffect(base, n);
      hide DeliverAckStep, NetworkOk;
      assert n.log.kept + [] == n.log.kept;
    } else {
      hide NetworkOk;
      assert n.log.kept + [] == n.log.kept;
    }
  }

  lemma {:induction false} RunAccounts(base: nat, n: Net, es: seq<Event>)
    requires Inv(base, n) && CanRun(n, es)
    ensures var t := Run(n, es);
      && Started(t) == Started(n) + Chunkings(es)
      && |t.log.got| == |n.log.got| + Deliveries(es)
      && |t.data| + Losses(es) + Deliveries(es) == |n.data| + Transmissions(es)
      && t.log.kept == n.log.kept + Fired(n, es)
    decreases |es|
  {
    hide Inv, Apply, Enabled, Started, FiredBy;
    if es == [] {
      assert n.log.kept + [] == n.log.kept;
    } else {
      var n' := Apply(n, es[0]);
      EventKeepsInv(base, n, es[0]);
      EventAccounts(base, n, es[0]);
      RunAccounts(base, n', es[1..]);
      var first, rest := FiredBy(n, es[0]), Fired(n', es[1..]);
      assert n.log.kept + first + rest == n.log.kept + (first + rest);
    }
  }

  /** When the queue is never full, everything that reaches the reader is enqueued. */
  lemma {:induction false} NeverFullKeepsAll(base: nat, n: Net, es: seq<Event>)
    requires Inv(base, n) && CanRun(n, es) && NeverFull(n, es) && n.log.kept == n.log.got
    ensures Run(n, es).log.kept == Run(n, es).log.got
    decreases |es|
  {
    hide Inv, Apply, Enabled;
    if es != [] {
      EventKeepsInv(base, n, es[0]);
      EventKeepsAll(base, n, es[0]);
      NeverFullKeepsAll(base, Apply(n, es[0]), es[1..]);
    }
  }

  lemma EventKeepsAll(base: nat, n: Net, e: Event)
    requires Inv(base, n) && Enabled(n, e) && n.log.kept == n.log.got
    requires e.DeliverData? ==> |n.r.readQueue| < QUEUE_SIZE
    ensures Apply(n, e).log.kept == Apply(n, e).log.got
  {
    hide ReaderOk, OrderOk, WriterOk, IsData, IsAck, Num, EncodePacket, DataPacket, AckPacket, Route, ReadStep, Chunks;
    AckLengths(base, n);
    if e.DeliverData? {
      DeliverDataEffect(base, n);
      hide DeliverDataStep, NetworkOk;
    } else if e.DeliverAck? {
      DeliverAckEffect(base, n);
      hide DeliverAckStep, NetworkOk;
    }
  }

  lemma DeliveryFires(base: nat, n: Net, e: Event)
    requires Inv(base, n) && Enabled(n, e)
    ensures |FiredBy(n, e)| == if e.DeliverData? && |n.r.readQueue| < QUEUE_SIZE then 1 else 0
  {
    InvParts(base, n);
    hide Inv;
  }

  /** A schedule fires as many deliveries as it makes exactly when none of them meets a full queue. */
  lemma {:induction false} AllFireExactly(base: nat, n: Net, es: seq<Event>)
    requires Inv(base, n) && CanRun(n, es)
    ensures |Fired(n, es)| <= Deliveries(es)
    ensures |Fired(n, es)| == Deliveries(es) <==> NeverFull(n, es)
    decreases |es|
  {
    hide Inv, Apply, Enabled, FiredBy;
    if es != [] {
      EventKeepsInv(base, n, es[0]);
      DeliveryFires(base, n, es[0]);
      AllFireExactly(base, Apply(n, es[0]), es[1..]);
    }
  }

  /** What reached the reader was all enqueued if and only if no delivery met a full read queue. */
  lemma KeptAllExactly(n: Net, es: seq<Event>)
    requires Init(n) && CanRun(n, es)
    ensures Run(n, es).log.kept == Run(n, es).log.got <==> NeverFull(n, es)
  {
    InitIsInv(n);
    assert [] + Fired(n, es) == Fired(n, es);
    RunAccounts(n.s.seqNo, n, es);
    AllFireExactly(n.s.seqNo, n, es);
    if NeverFull(n, es) {
      NeverFullKeepsAll(n.s.seqNo, n, es);
    }
    hide Inv, Run, CanRun, Fired, NeverFull, Deliveries, Losses, Transmissions, Chunkings;
  }

  // ----- The length of the read queue

  /** A Read without leftover takes a payload out of the queue. */
  function TakenBy(n: Net, e: Event): nat { if e.ReadSome? && n.r.unread == [] then 1 else 0 }

  function Taken(n: Net, es: seq<Event>): nat
    requires CanRun(n, es)
    decreases |es|
  {
    if es == [] then 0 else TakenBy(n, es[0]) + Taken(Apply(n, es[0]), es[1..])
  }

  lemma EventQueue(base: nat, n: Net, e: Event)
    requires Inv(base, n) && Enabled(n, e)
    ensures |Apply(n, e).r.readQueue| + TakenBy(n, e) == |n.r.readQueue| + |FiredBy(n, e)|
  {
    DeliveryFires(base, n, e);
    hide ReaderOk, OrderOk, WriterOk, IsData, IsAck, Num, EncodePacket, DataPacket, AckPacket, Route, Chunks, FiredBy;
    if e.DeliverData? {
      DeliverDataEffect(base, n);
      hide DeliverDataStep;
    } else if e.DeliverAck? {
      DeliverAckEffect(base, n);
      hide DeliverAckStep;
    }
  }

  /** The queue holds the deliveries that fired less the payloads taken, so at most all deliveries less those. */
  lemma {:induction false} QueueAccounts(base: nat, n: Net, es: seq<Event>)
    requires Inv(base, n) && CanRun(n, es)
    ensures |Run(n, es).r.readQueue| + Taken(n, es) == |n.r.readQueue| + |Fired(n, es)|
    ensures |Run(n, es).r.readQueue| + Taken(n, es) <= |n.r.readQueue| + Deliveries(es)
    decreases |es|
  {
    hide Inv, Apply, Enabled, FiredBy, TakenBy;
    if es != [] {
      EventKeepsInv(base, n, es[0]);
      EventQueue(base, n, es[0]);
      DeliveryFires(base, n, es[0]);
      QueueAccounts(base, Apply(n, es[0]), es[1..]);
    }
  }

  /** Counting deliveries up and Reads down from `queued`, no delivery comes at the capacity. */
  predicate Roomy(queued: int, es: seq<Event>)
    decreases |es|
  {
    es == [] ||
    ((es[0].DeliverData? ==> queued < 100)
     && Roomy(if es[0].DeliverData? then queued + 1 else if es[0].ReadSome? then queued - 1 else queued, es[1..]))
  }

  /** Every Read has room for a whole chunk. */
  predicate WholeReads(es: seq<Event>) {
    forall i | 0 <= i < |es| && es[i].ReadSome? :: es[i].size >= 1400
  }

  /** No chunk is larger than the reads, and nothing is left over from one. */
  predicate Whole(n: Net) {
    && n.r.unread == []
    && (forall i | 0 <= i < |n.r.readQueue| :: |n.r.readQueue[i]| <= CHUNK_SIZE)
    && (forall i | 0 <= i < |n.log.plan| :: |n.log.plan[i]| <= CHUNK_SIZE)
  }

  lemma EventKeepsWhole(base: nat, n: Net, e: Event)
    requires Inv(base, n) && Enabled(n, e) && Whole(n) && (e.ReadSome? ==> e.size >= CHUNK_SIZE)
    ensures Whole(Apply(n, e))
  {
    hide ReaderOk, OrderOk, WriterOk, IsData, IsAck, Num, EncodePacket, DataPacket, AckPacket, Route, Chunks;
    if e.DeliverData? {
      InvParts(base, n);
      DeliverDataEffect(base, n);
      hide DeliverDataStep, NetworkOk;
    } else if e.DeliverAck? {
      DeliverAckEffect(base, n);
      hide DeliverAckStep, NetworkOk;
    } else {
      hide NetworkOk;
    }
  }

  /** With Reads of at least one chunk, counting deliveries and Reads decides whether the queue is ever full. */
  lemma {:induction false} RoomyExactly(base: nat, n: Net, es: seq<Event>)
    requires Inv(base, n) && CanRun(n, es) && Whole(n) && WholeReads(es)
    ensures NeverFull(n, es) <==> Roomy(|n.r.readQueue|, es)
    decreases |es|
  {
    hide Inv, Apply, Enabled, FiredBy, Whole;
    if es != [] {
      WholeHasNoLeftover(n);
      EventKeepsInv(base, n, es[0]);
      EventKeepsWhole(base, n, es[0]);
      EventQueue(base, n, es[0]);
      DeliveryFires(base, n, es[0]);
      RoomyExactly(base, Apply(n, es[0]), es[1..]);
    }
  }

  lemma WholeHasNoLeftover(n: Net)
    requires Whole(n)
    ensures n.r.unread == []
  {
  }

  /** So an application that keeps less than 100 deliveries ahead of its Reads gets everything that arrives. */
  lemma RoomyKeepsAll(n: Net, es: seq<Event>)
    requires Init(n) && CanRun(n, es) && WholeReads(es)
    ensures Run(n, es).log.kept == Run(n, es).log.got <==> Roomy(0, es)
  {
    InitIsInv(n);
    KeptAllExactly(n, es);
    hide Inv, Run, CanRun, NeverFull, Roomy;
    RoomyExactly(n.s.seqNo, n, es);
  }

  /** The counts of a whole schedule that ends with no Write running. */
  lemma IdleAccounts(n: Net, es: seq<Event>)
    requires Init(n) && CanRun(n, es) && Idle(Run(n, es))
    ensures var h := Run(n, es).log;
      && |h.plan| == Chunkings(es) && |h.got| == Deliveries(es) && h.kept == Fired(n, es)
      && Deliveries(es) + Losses(es) <= Transmissions(es)
  {
    InitIsInv(n);
    RunKeepsInv(n.s.seqNo, n, es);
    RunAccounts(n.s.seqNo, n, es);
    hide Run, CanRun, Fired, Chunkings, Deliveries, Losses, Transmissions, NetworkOk, OrderOk, ReaderOk, IsData;
    assert [] + Fired(n, es) == Fired(n, es);
  }

  // ----- Repetitions

  /** The payloads that are not a repetition of the chunk before them. */
  function FirstCopies(enqueued: seq<Buf>, kept: seq<nat>): seq<Buf>
    requires |enqueued| == |kept|
  {
    if kept == [] then []
    else
      var last := |kept| - 1;
      FirstCopies(enqueued[..last], kept[..last])
      + (if kept[last] + 1 == Seen(kept[..last]) then [] else [enqueued[last]])
  }

  lemma StutteringPrefix(got: seq<nat>)
    requires Stuttering(got) && got != []
    ensures var front, k := got[..|got| - 1], got[|got| - 1];
      Stuttering(front) && Seen(front) <= k + 1 && k <= Seen(front) && Seen(got) == k + 1
  {
  }

  lemma {:induction false} SeenAtMostAll(got: seq<nat>)
    requires Stuttering(got)
    ensures Seen(got) <= |got|
  {
    if got != [] {
      StutteringPrefix(got);
      SeenAtMostAll(got[..|got| - 1]);
    }
  }

  /** Without the repetitions an unbroken list of payloads is exactly the first chunks of the plan. */
  lemma {:induction false} FirstCopiesArePlan(enqueued: seq<Buf>, kept: seq<nat>, plan: seq<Buf>)
    requires |enqueued| == |kept| && Stuttering(kept)
    requires forall i | 0 <= i < |kept| :: kept[i] < |plan| && enqueued[i] == plan[kept[i]]
    ensures Seen(kept) <= |plan| && FirstCopies(enqueued, kept) == plan[..Seen(kept)]
  {
    if kept != [] {
      var last := |kept| - 1;
      StutteringPrefix(kept);
      FirstCopiesArePlan(enqueued[..last], kept[..last], plan);
      hide Stuttering, Seen;
      var seen := Seen(kept[..last]);
      assert kept[last] == seen ==> plan[..seen] + [plan[seen]] == plan[..seen + 1];
    }
  }

  lemma ConcatOne(b: Buf)
    ensures Concat([b]) == b
  {
    assert Concat([b][1..]) == [];
  }

  lemma {:induction false} RepetitionsAddBytes(enqueued: seq<Buf>, kept: seq<nat>)
    requires |enqueued| == |kept| && forall i | 0 <= i < |kept| :: enqueued[i] != []
    ensures |FirstCopies(enqueued, kept)| <= |enqueued|
    ensures |Concat(enqueued)| >= |Concat(FirstCopies(enqueued, kept))| + |enqueued| - |FirstCopies(enqueued, kept)|
    ensures |FirstCopies(enqueued, kept)| == |enqueued| ==> FirstCopies(enqueued, kept) == enqueued
  {
    hide Concat, Seen;
    if kept != [] {
      var last := |kept| - 1;
      var front, firsts := enqueued[..last], FirstCopies(enqueued[..last], kept[..last]);
      assert FirstCopies(enqueued, kept) == firsts || FirstCopies(enqueued, kept) == firsts + [enqueued[last]] by {
        assert firsts + [] == firsts;
      }
      RepetitionsAddBytes(front, kept[..last]);
      hide FirstCopies;
      assert enqueued == front + [enqueued[last]];
      ConcatAppend(front, [enqueued[last]]);
      ConcatAppend(firsts, [enqueued[last]]);
      ConcatOne(enqueued[last]);
    }
  }

  // ----- Chunks that never find room

  /** The list names every chunk. */
  predicate Complete(ks: seq<nat>, n: nat) { forall k | 0 <= k < n :: k in ks }

  lemma CompleteIsStuttering(ks: seq<nat>, n: nat)
    requires Sorted(ks) && Within(ks, 0, n - 1) && Complete(ks, n)
    ensures Stuttering(ks) && Seen(ks) == n
  {
    if ks != [] {
      assert 0 in ks;
      var j :| 0 <= j < |ks| && ks[j] == 0;
      assert ks[0] <= ks[j];
    }
    forall i, j | 0 <= i < j < |ks| && j == i + 1
      ensures ks[i] <= ks[j] <= ks[i] + 1
    {
      if ks[i] + 1 < n {
        assert ks[i] + 1 in ks;
        var m :| 0 <= m < |ks| && ks[m] == ks[i] + 1;
        assert m > i;
        assert ks[j] <= ks[m];
      }
    }
    if n > 0 {
      assert n - 1 in ks;
      var j :| 0 <= j < |ks| && ks[j] == n - 1;
      assert ks[j] <= ks[|ks| - 1];
    }
  }

  lemma ConcatPrefix(plan: seq<Buf>, a: nat, b: nat)
    requires a <= b <= |plan| && forall i | 0 <= i < |plan| :: plan[i] != []
    ensures |Concat(plan[..a])| + (b - a) <= |Concat(plan[..b])|
    decreases b
  {
    if a < b {
      ConcatPrefix(plan, a, b - 1);
      assert plan[..b] == plan[..b - 1] + [plan[b - 1]];
      ConcatAppend(plan[..b - 1], [plan[b - 1]]);
      ConcatOne(plan[b - 1]);
    }
  }

  lemma SortedFront(kept: seq<nat>)
    requires Sorted(kept) && kept != []
    ensures var front, x := kept[..|kept| - 1], kept[|kept| - 1];
      Sorted(front) && Seen(front) <= x + 1 && Seen(kept) == x + 1
  {
  }

  /** First copies are at most the chunks they span, and as many bytes only when no chunk is missing. */
  lemma {:induction false} MissingChunksMissBytes(enqueued: seq<Buf>, kept: seq<nat>, plan: seq<Buf>)
    requires |enqueued| == |kept| && Sorted(kept)
    requires forall i | 0 <= i < |kept| :: kept[i] < |plan| && enqueued[i] == plan[kept[i]]
    requires forall i | 0 <= i < |plan| :: plan[i] != []
    ensures Seen(kept) <= |plan|
    ensures |Concat(FirstCopies(enqueued, kept))| <= |Concat(plan[..Seen(kept)])|
    ensures |Concat(FirstCopies(enqueued, kept))| == |Concat(plan[..Seen(kept)])| ==> Complete(kept, Seen(kept))
  {
    hide Concat;
    if kept == [] {
      assert Concat([]) == Concat(plan[..0]);
    } else {
      var last := |kept| - 1;
      var front, x := kept[..last], kept[last];
      assert kept == front + [x];
      SortedFront(kept);
      hide Sorted, Seen;
      MissingChunksMissBytes(enqueued[..last], front, plan);
      var firsts, v := FirstCopies(enqueued[..last], front), Seen(front);
      assert FirstCopies(enqueued, kept) == firsts + if x + 1 == v then [] else [plan[x]];
      hide FirstCopies;
      if x + 1 == v {
        assert firsts + [] == firsts;
      } else {
        NextFirstCopy(firsts, front, x, v, plan);
      }
    }
  }

  lemma NextFirstCopy(firsts: seq<Buf>, front: seq<nat>, x: nat, v: nat, plan: seq<Buf>)
    requires v <= x < |plan| && forall i | 0 <= i < |plan| :: plan[i] != []
    requires |Concat(firsts)| <= |Concat(plan[..v])|
    requires |Concat(firsts)| == |Concat(plan[..v])| ==> Complete(front, v)
    ensures |Concat(firsts + [plan[x]])| <= |Concat(plan[..x + 1])|
    ensures |Concat(firsts + [plan[x]])| == |Concat(plan[..x + 1])| ==> Complete(front + [x], x + 1)
  {
    ConcatPrefix(plan, v, x);
    assert plan[..x + 1] == plan[..x] + [plan[x]];
    ConcatAppend(plan[..x], [plan[x]]);
    ConcatAppend(firsts, [plan[x]]);
    hide Concat;
    assert x in front + [x];
  }

  /** The plan arrives exactly when no chunk is missing. */
  lemma FirstCopiesExactly(enqueued: seq<Buf>, kept: seq<nat>, plan: seq<Buf>)
    requires |enqueued| == |kept| && Sorted(kept) && Within(kept, 0, |plan| - 1)
    requires forall i | 0 <= i < |kept| :: kept[i] < |plan| && enqueued[i] == plan[kept[i]]
    requires forall i | 0 <= i < |plan| :: plan[i] != []
    ensures Concat(FirstCopies(enqueued, kept)) == Concat(plan) <==> Complete(kept, |plan|)
  {
    assert plan[..|plan|] == plan;
    hide FirstCopies, Concat;
    if Complete(kept, |plan|) {
      CompleteIsStuttering(kept, |plan|);
      FirstCopiesArePlan(enqueued, kept, plan);
    }
    if Concat(FirstCopies(enqueued, kept)) == Concat(plan) {
      MissingChunksMissBytes(enqueued, kept, plan);
      ConcatPrefix(plan, Seen(kept), |plan|);
    }
  }

  // ----- The main results about schedules

  /**
   * No chunk is skipped if and only if each has a delivery that fires below the read queue's capacity: the code
   * acknowledges a chunk for which there is no room, and drops it.
   */
  lemma NoneSkippedExactly(n: Net, es: seq<Event>)
    requires Init(n) && CanRun(n, es) && Idle(Run(n, es))
    ensures var h := Run(n, es).log;
      && |h.enqueued| == |h.kept|
      && (Concat(FirstCopies(h.enqueued, h.kept)) == h.written <==> Complete(Fired(n, es), Chunkings(es)))
  {
    DeliveryIsInOrder(n, es);
    IdleAccounts(n, es);
    hide Init, Run, CanRun, Fired, Chunkings, FirstCopies, Concat, Sorted, Stuttering, Complete;
    var h := Run(n, es).log;
    assert Within(h.kept, 0, |h.plan| - 1);
    hide Within;
    FirstCopiesExactly(h.enqueued, h.kept, h.plan);
  }

  /**
   * When the read queue is never full, the enqueued payloads without repetitions are exactly the bytes written; the
   * repetitions included, they are so if and only if the schedule delivers as many datagrams as it cuts chunks.
   */
  lemma WholeWriteArrives(n: Net, es: seq<Event>)
    requires Init(n) && CanRun(n, es) && Idle(Run(n, es)) && NeverFull(n, es)
    ensures var h := Run(n, es).log;
      && |h.enqueued| == |h.kept|
      && Concat(FirstCopies(h.enqueued, h.kept)) == h.written
      && (Concat(h.enqueued) == h.written <==> Deliveries(es) == Chunkings(es))
  {
    InitIsInv(n);
    DeliveryIsInOrder(n, es);
    IdleAccounts(n, es);
    NeverFullKeepsAll(n.s.seqNo, n, es);
    hide Inv, Run, CanRun, Init, NeverFull, Fired, Chunkings, Deliveries, Losses, Transmissions;
    CompleteHistory(Run(n, es).log);
  }

  lemma CompleteHistory(h: History)
    requires |h.enqueued| == |h.kept| && Stuttering(h.kept) && Seen(h.kept) == |h.plan|
    requires forall i | 0 <= i < |h.kept| :: h.kept[i] < |h.plan| && h.enqueued[i] == h.plan[h.kept[i]]
    requires Concat(h.plan) == h.written && forall i | 0 <= i < |h.plan| :: h.plan[i] != []
    ensures Concat(FirstCopies(h.enqueued, h.kept)) == h.written
    ensures Concat(h.enqueued) == h.written <==> |h.enqueued| == |h.plan|
  {
    hide Stuttering, Concat, FirstCopies, Seen;
    FirstCopiesArePlan(h.enqueued, h.kept, h.plan);
    assert h.plan[..|h.plan|] == h.plan;
    RepetitionsAddBytes(h.enqueued, h.kept);
  }

  /** In particular when every chunk is transmitted once. */
  lemma OneTransmissionEach(n: Net, es: seq<Event>)
    requires Init(n) && CanRun(n, es) && Idle(Run(n, es)) && NeverFull(n, es)
    requires Transmissions(es) == Chunkings(es)
    ensures Concat(Run(n, es).log.enqueued) == Run(n, es).log.written && Losses(es) == 0
  {
    WholeWriteArrives(n, es);
    DeliveryIsInOrder(n, es);
    IdleAccounts(n, es);
    SeenAtMostAll(Run(n, es).log.got);
    hide Init, Run, CanRun, NeverFull, Stuttering;
  }

  // ----- A chunk can arrive twice

  /** A copy of the current chunk at the head of the queue is enqueued. */
  lemma OneCopyArrives(base: nat, n: Net)
    requires Inv(base, n) && n.data != [] && n.log.dataOf[..1] == [n.log.done] && |n.r.readQueue| < QUEUE_SIZE
    ensures Enabled(n, DeliverData) && Inv(base, Apply(n, DeliverData)) && n.log.done < |n.log.plan|
    ensures var n', h := Apply(n, DeliverData), n.log;
      && n'.data == n.data[1..] && |n'.r.readQueue| == |n.r.readQueue| + 1
      && n'.log.dataOf == h.dataOf[1..] && n'.log.enqueued == h.enqueued + [h.plan[h.done]]
      && n'.log.plan == h.plan && n'.log.done == h.done && n'.log.written == h.written
  {
    InvParts(base, n);
    assert n.log.dataOf[0] == n.log.done;
    DeliverDataEffect(base, n);
    EventKeepsInv(base, n, DeliverData);
    hide Inv, Wired, NetworkOk, DeliverDataStep, Num, AckPacket, EncodePacket;
  }

  /** With two copies of the current chunk in an otherwise empty network, both are enqueued. */
  lemma BothCopiesArrive(base: nat, n: Net)
    requires Inv(base, n) && |n.data| == 2 && n.log.dataOf == [n.log.done, n.log.done]
    requires |n.r.readQueue| + 2 <= QUEUE_SIZE
    ensures CanRun(n, [DeliverData, DeliverData])
    ensures n.log.done < |n.log.plan|
    ensures var h, chunk := Run(n, [DeliverData, DeliverData]).log, n.log.plan[n.log.done];
      h.written == n.log.written && h.enqueued == n.log.enqueued + [chunk] + [chunk]
  {
    hide Inv, Apply;
    OneCopyArrives(base, n);
    OneCopyArrives(base, Apply(n, DeliverData));
    RunStep(Apply(n, DeliverData), DeliverData, []);
    RunStep(n, DeliverData, [DeliverData]);
  }

  lemma TransmitOnce(base: nat, n: Net)
    requires Inv(base, n) && n.flight.Some?
    ensures Enabled(n, Transmit) && Inv(base, Apply(n, Transmit))
    ensures var n' := Apply(n, Transmit);
      && n'.flight == n.flight && |n'.data| == |n.data| + 1 && n'.r == n.r
      && n'.log == n.log.(dataOf := n.log.dataOf + [n.log.done])
  {
    hide Inv;
    EventKeepsInv(base, n, Transmit);
  }

  lemma TransmitTwice(base: nat, n: Net)
    requires Inv(base, n) && n.flight.Some? && n.data == []
    ensures CanRun(n, [Transmit, Transmit])
    ensures var n' := Run(n, [Transmit, Transmit]);
      && Inv(base, n') && |n'.data| == 2
      && n'.log == n.log.(dataOf := [n.log.done, n.log.done]) && n'.r == n.r
  {
    InvParts(base, n);
    assert n.log.dataOf == [];
    hide Inv, Apply, Enabled;
    TransmitOnce(base, n);
    TransmitOnce(base, Apply(n, Transmit));
    assert [] + [n.log.done] + [n.log.done] == [n.log.done, n.log.done];
    RunStep(Apply(n, Transmit), Transmit, []);
    RunStep(n, Transmit, [Transmit]);
  }

  lemma FirstWrite(n: Net, b: byte)
    requires Init(n)
    ensures var n' := Apply(n, StartWrite([b]));
      && Inv(n.s.seqNo, n') && n'.todo == [[b]] && n'.flight.None? && n'.data == [] && n'.r == n.r
      && n'.log == n.log.(written := [b], plan := [[b]])
  {
    InitIsInv(n);
    hide Inv;
    EventKeepsInv(n.s.seqNo, n, StartWrite([b]));
    assert [] + [[b]] == [[b]] && [] + [b] == [b];
  }

  lemma FirstChunkInFlight(n: Net, b: byte)
    requires Init(n)
    ensures CanRun(n, [StartWrite([b]), NextChunk])
    ensures var n' := Run(n, [StartWrite([b]), NextChunk]);
      && Inv(n.s.seqNo, n') && n'.flight.Some? && n'.data == [] && n'.r == n.r
      && n'.log == n.log.(written := [b], plan := [[b]])
  {
    hide Inv, EncodePacket, DataPacket, Chunks;
    FirstWrite(n, b);
    var n1 := Apply(n, StartWrite([b]));
    EventKeepsInv(n.s.seqNo, n1, NextChunk);
    RunStep(n1, NextChunk, []);
    hide Apply;
    RunStep(n, StartWrite([b]), [NextChunk]);
  }

  lemma {:induction false} RunConcat(n: Net, p: seq<Event>, q: seq<Event>)
    requires CanRun(n, p) && CanRun(Run(n, p), q)
    ensures CanRun(n, p + q) && Run(n, p + q) == Run(Run(n, p), q)
    decreases |p|
  {
    hide Enabled, Apply;
    if p == [] {
      assert p + q == q;
    } else {
      assert (p + q)[0] == p[0] && (p + q)[1..] == p[1..] + q;
      RunConcat(Apply(n, p[0]), p[1..], q);
    }
  }

  /** Exactly-once delivery does not hold: a one-byte write, transmitted twice, is enqueued twice. */
  lemma ChunkCanArriveTwice(n: Net)
    requires Init(n)
    ensures var es := [StartWrite([7]), NextChunk] + [Transmit, Transmit] + [DeliverData, DeliverData];
      CanRun(n, es) && Run(n, es).log.written == [7] && Run(n, es).log.enqueued == [[7], [7]]
  {
    hide Inv, Run, CanRun, Apply, Enabled;
    FirstChunkInFlight(n, 7);
    var first, second, third := [StartWrite([7]), NextChunk], [Transmit, Transmit], [DeliverData, DeliverData];
    TransmitTwice(n.s.seqNo, Run(n, first));
    BothCopiesArrive(n.s.seqNo, Run(Run(n, first), second));
    RunConcat(n, first, second);
    RunConcat(n, first + second, third);
    assert [] + [[7]] + [[7]] == [[7], [7]];
  }

  lemma InvParts(base: nat, n: Net)
    requires Inv(base, n)
    ensures Wired(n) && NetworkOk(base, n)
    ensures |n.log.dataOf| == |n.data| && n.log.done <= |n.log.plan|
    ensures forall i | 0 <= i < |n.log.dataOf| :: n.log.dataOf[i] < |n.log.plan|
  {
  }

  lemma RunStep(n: Net, e: Event, es: seq<Event>)
    requires Enabled(n, e) && CanRun(Apply(n, e), es)
    ensures CanRun(n, [e] + es) && Run(n, [e] + es) == Run(Apply(n, e), es)
  {
    assert ([e] + es)[1..] == es;
  }

  // ----- An acknowledged chunk can be lost

  /** Nothing is on the way and no Write is running. */
  predicate Resting(base: nat, n: Net) {
    Inv(base, n) && Idle(n) && n.data == [] && n.acks == [] && n.s.ackChan == []
  }

  lemma RestStart(base: nat, n: Net, b: byte)
    requires Resting(base, n)
    ensures Enabled(n, StartWrite([b]))
    ensures var n' := Apply(n, StartWrite([b]));
      && Inv(base, n')
      && n' == n.(todo := [[b]], log := n.log.(written := n.log.written + [b], plan := n.log.plan + [[b]]))
  {
    StartWriteKeepsInv(base, n, [b]);
    hide Inv;
    assert Chunks([b]) == [[b]];
  }

  lemma RestNumber(base: nat, n: Net)
    requires Inv(base, n) && n.flight.None? && |n.todo| == 1 && n.data == [] && n.acks == [] && n.s.ackChan == []
    ensures Enabled(n, NextChunk)
    ensures var n' := Apply(n, NextChunk);
      && Inv(base, n') && n'.flight.Some? && n'.todo == [] && n'.data == [] && n'.acks == [] && n'.s.ackChan == []
      && n'.r == n.r && n'.log == n.log
  {
    NextChunkKeepsInv(base, n);
    hide Inv, EncodePacket, DataPacket;
  }

  lemma RestTransmit(base: nat, n: Net)
    requires Inv(base, n) && n.flight.Some? && n.todo == [] && n.data == [] && n.acks == [] && n.s.ackChan == []
    ensures Enabled(n, Transmit)
    ensures var n' := Apply(n, Transmit);
      && Inv(base, n') && n'.flight.Some? && n'.todo == [] && |n'.data| == 1 && n'.acks == [] && n'.s.ackChan == []
      && n'.r == n.r && n'.log == n.log.(dataOf := [n.log.done])
  {
    TransmitOnce(base, n);
    InvParts(base, n);
    assert [] + [n.log.done] == [n.log.done];
    hide Inv;
  }

  lemma RestDeliver(base: nat, n: Net)
    requires Inv(base, n) && n.flight.Some? && n.todo == [] && |n.data| == 1 && n.acks == [] && n.s.ackChan == []
    requires n.log.dataOf == [n.log.done]
    ensures Enabled(n, DeliverData) && n.log.done < |n.log.plan|
    ensures var n', h, chunk := Apply(n, DeliverData), n.log, n.log.plan[n.log.done];
      && Inv(base, n') && n'.flight.Some? && n'.todo == [] && n'.data == [] && |n'.acks| == 1 && n'.s.ackChan == []
      && n'.log.acksOf == [h.done] && n'.log.done == h.done && n'.log.plan == h.plan && n'.log.written == h.written
      && n'.log.enqueued == (if |n.r.readQueue| < QUEUE_SIZE then h.enqueued + [chunk] else h.enqueued)
      && |n'.r.readQueue| == |n.r.readQueue| + (if |n.r.readQueue| < QUEUE_SIZE then 1 else 0)
  {
    InvParts(base, n);
    AckLengths(base, n);
    DeliverDataEffect(base, n);
    DeliverDataKeepsInv(base, n);
    assert n.log.acksOf == [] && [] + [n.log.done] == [n.log.done];
    hide Inv, Wired, NetworkOk, DeliverDataStep, Num, AckPacket, EncodePacket;
  }

  lemma RestAck(base: nat, n: Net)
    requires Inv(base, n) && n.flight.Some? && n.todo == [] && n.data == [] && |n.acks| == 1 && n.s.ackChan == []
    requires n.log.acksOf == [n.log.done]
    ensures Enabled(n, DeliverAck)
    ensures var n' := Apply(n, DeliverAck);
      && Inv(base, n') && n'.flight.Some? && n'.todo == [] && n'.data == [] && n'.acks == [] && |n'.s.ackChan| == 1
      && n'.r == n.r && n'.log == n.log.(acksOf := [], chanOf := [n.log.done])
  {
    InvParts(base, n);
    AckLengths(base, n);
    DeliverAckEffect(base, n);
    DeliverAckKeepsInv(base, n);
    assert n.log.chanOf == [] && [] + [n.log.done] == [n.log.done];
    hide Inv, Wired, NetworkOk, DeliverAckStep, Num;
  }

  lemma RestTake(base: nat, n: Net)
    requires Inv(base, n) && n.flight.Some? && n.todo == [] && n.data == [] && n.acks == [] && |n.s.ackChan| == 1
    requires n.log.chanOf == [n.log.done]
    ensures Enabled(n, TakeAck)
    ensures var n' := Apply(n, TakeAck);
      && Resting(base, n') && n'.r == n.r && n'.log == n.log.(chanOf := [], done := n.log.done + 1)
  {
    AckIsForCurrent(base, n);
    TakeAckKeepsInv(base, n);
    hide Inv;
  }

  function WriteOne(b: byte): seq<Event> { [StartWrite([b]), NextChunk, Transmit] }

  function Answer(): seq<Event> { [DeliverData, DeliverAck, TakeAck] }

  /** One byte is written, transmitted, delivered and acknowledged. */
  function Cycle(b: byte): seq<Event> { WriteOne(b) + Answer() }

  lemma RunThree(n: Net, e: Event, f: Event, g: Event)
    requires Enabled(n, e) && Enabled(Apply(n, e), f) && Enabled(Apply(Apply(n, e), f), g)
    ensures CanRun(n, [e, f, g]) && Run(n, [e, f, g]) == Apply(Apply(Apply(n, e), f), g)
  {
    hide Enabled, Apply;
    var n1 := Apply(n, e);
    var n2 := Apply(n1, f);
    RunStep(n2, g, []);
    RunStep(n1, f, [g]);
    assert [f] + [g] == [f, g];
    RunStep(n, e, [f, g]);
    assert [e] + [f, g] == [e, f, g];
  }

  lemma WriteOneEffect(base: nat, n: Net, b: byte)
    requires Resting(base, n)
    ensures CanRun(n, WriteOne(b))
    ensures var n' := Run(n, WriteOne(b));
      && Inv(base, n') && n'.flight.Some? && n'.todo == [] && |n'.data| == 1 && n'.acks == [] && n'.s.ackChan == []
      && n'.r == n.r && n'.log.dataOf == [n'.log.done] && n'.log.done == n.log.done
      && n'.log.written == n.log.written + [b] && n'.log.plan == n.log.plan + [[b]] && n'.log.enqueued == n.log.enqueued
  {
    hide Inv, Apply, Enabled, Run, CanRun;
    RestStart(base, n, b);
    var n1 := Apply(n, StartWrite([b]));
    RestNumber(base, n1);
    RestTransmit(base, Apply(n1, NextChunk));
    RunThree(n, StartWrite([b]), NextChunk, Transmit);
  }

  lemma AnswerEffect(base: nat, n: Net)
    requires Inv(base, n) && n.flight.Some? && n.todo == [] && |n.data| == 1 && n.acks == [] && n.s.ackChan == []
    requires n.log.dataOf == [n.log.done]
    ensures CanRun(n, Answer()) && Resting(base, Run(n, Answer())) && n.log.done < |n.log.plan|
    ensures var n', room, chunk := Run(n, Answer()), |n.r.readQueue| < QUEUE_SIZE, n.log.plan[n.log.done];
      && n'.log.written == n.log.written
      && n'.log.enqueued == (if room then n.log.enqueued + [chunk] else n.log.enqueued)
      && |n'.r.readQueue| == |n.r.readQueue| + (if room then 1 else 0)
  {
    hide Inv, Apply, Enabled, Run, CanRun, Resting;
    RestDeliver(base, n);
    var n1 := Apply(n, DeliverData);
    RestAck(base, n1);
    RestTake(base, Apply(n1, DeliverAck));
    RunThree(n, DeliverData, DeliverAck, TakeAck);
  }

  /** The Write returns in any case; its byte is enqueued only if there was room. */
  lemma CycleEffect(base: nat, n: Net, b: byte)
    requires Resting(base, n)
    ensures CanRun(n, Cycle(b)) && Resting(base, Run(n, Cycle(b)))
    ensures var n', room := Run(n, Cycle(b)), |n.r.readQueue| < QUEUE_SIZE;
      && n'.log.written == n.log.written + [b]
      && n'.log.enqueued == (if room then n.log.enqueued + [[b]] else n.log.enqueued)
      && |n'.r.readQueue| == |n.r.readQueue| + (if room then 1 else 0)
  {
    hide Inv, Run, CanRun, Resting, WriteOne, Answer;
    RestingDone(base, n);
    WriteOneEffect(base, n, b);
    AnswerEffect(base, Run(n, WriteOne(b)));
    RunConcat(n, WriteOne(b), Answer());
  }

  lemma RestingDone(base: nat, n: Net)
    requires Resting(base, n)
    ensures n.log.done == |n.log.plan|
  {
    hide NetworkOk, OrderOk, ReaderOk, IsData;
  }

  /** As many writes as there is room for fill the read queue. */
  lemma {:induction false} Filled(base: nat, n: Net, j: nat) returns (es: seq<Event>)
    requires Resting(base, n) && |n.r.readQueue| + j <= QUEUE_SIZE
    ensures CanRun(n, es) && Resting(base, Run(n, es))
    ensures var n' := Run(n, es);
      && |n'.r.readQueue| == |n.r.readQueue| + j && |n'.log.written| == |n.log.written| + j
      && |Concat(n'.log.enqueued)| == |Concat(n.log.enqueued)| + j
    decreases j
  {
    hide Resting, Cycle;
    if j == 0 {
      es := [];
    } else {
      var front := Filled(base, n, j - 1);
      var n' := Run(n, front);
      CycleEffect(base, n', 7);
      hide Run, CanRun, Concat;
      RunConcat(n, front, Cycle(7));
      ConcatAppend(n'.log.enqueued, [[7]]);
      ConcatOne([7]);
      es := front + Cycle(7);
    }
  }

  /** After 101 one-byte Writes, which all return, the reader has 100 bytes: the last was acknowledged and dropped. */
  lemma AcknowledgedChunkCanBeLost(n: Net) returns (es: seq<Event>)
    requires Init(n)
    ensures CanRun(n, es) && Idle(Run(n, es))
    ensures |Run(n, es).log.written| == 101 && |Concat(Run(n, es).log.enqueued)| == 100
  {
    InitRests(n);
    hide *;
    var front := Filled(n.s.seqNo, n, QUEUE_SIZE);
    OneTooMany(n.s.seqNo, n, front);
    es := front + Cycle(7);
  }

  lemma InitRests(n: Net)
    requires Init(n)
    ensures Resting(n.s.seqNo, n) && |n.r.readQueue| == 0 && |n.log.written| == 0 && |Concat(n.log.enqueued)| == 0
  {
    InitIsInv(n);
    hide Inv;
  }

  lemma OneTooMany(base: nat, n: Net, front: seq<Event>)
    requires CanRun(n, front) && Resting(base, Run(n, front)) && |Run(n, front).r.readQueue| >= QUEUE_SIZE
    ensures CanRun(n, front + Cycle(7)) && Idle(Run(n, front + Cycle(7)))
    ensures |Concat(Run(n, front + Cycle(7)).log.enqueued)| == |Concat(Run(n, front).log.enqueued)|
    ensures |Run(n, front + Cycle(7)).log.written| == |Run(n, front).log.written| + 1
  {
    hide Inv, Run, CanRun, Cycle, Concat;
    CycleEffect(base, Run(n, front), 7);
    RunConcat(n, front, Cycle(7));
  }
}
