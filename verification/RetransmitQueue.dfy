/** Unacknowledged packets and duplicate acknowledgements (pkg/utp/reliability.go). */
module RetransmitQueue {
  import opened Bytes
  import opened UtpPacket

  // ----- Comparing 16-bit sequence numbers

  /** `int16(s1 - s2) <= 0` in wrapping 16-bit arithmetic. */
  predicate SeqLessOrEqual(s1: nat, s2: nat) {
    var d := (s1 - s2) % U16;
    d == 0 || d >= 0x8000
  }

  /** Serial number order, section 3.2 of RFC 1982 with SERIAL_BITS = 16. */
  predicate SerialLess(s1: nat, s2: nat) {
    (s1 < s2 && s2 - s1 < 0x8000) || (s1 > s2 && s1 - s2 > 0x8000)
  }

  /** The comparison is the RFC's, and where the RFC leaves the order undefined it answers true both ways. */
  lemma AgreesWithSerialOrder(s1: nat, s2: nat)
    requires s1 < U16 && s2 < U16
    ensures SeqLessOrEqual(s1, s2) <==> s1 == s2 || SerialLess(s1, s2) || s1 - s2 == 0x8000 || s2 - s1 == 0x8000
  {
    WrapDifference(s1 - s2);
  }

  lemma WrapDifference(d: int)
    requires -0x1_0000 < d < 0x1_0000
    ensures d % U16 == if d < 0 then d + U16 else d
  {
  }

  /** Unwrapped numbers at most 2^15 apart are compared as numbers. */
  lemma UnwrappedOrder(i: int, j: int)
    requires -0x8000 <= i - j <= 0x7fff
    ensures SeqLessOrEqual(i % U16, j % U16) <==> i <= j
  {
    var d := i % U16 - j % U16;
    assert d % U16 == (i - j) % U16 by {
      assert d == (i - j) + U16 * (j / U16 - i / U16);
    }
    WrapDifference(i - j);
  }

  // ----- What the operations compute

  function Acked(ps: seq<Packet>, ackNum: nat): seq<Packet> {
    if ps == [] then []
    else
      var last := |ps| - 1;
      Acked(ps[..last], ackNum) + if SeqLessOrEqual(ps[last].seqNum, ackNum) then [ps[last]] else []
  }

  function Remaining(ps: seq<Packet>, ackNum: nat): seq<Packet> {
    if ps == [] then []
    else
      var last := |ps| - 1;
      Remaining(ps[..last], ackNum) + if SeqLessOrEqual(ps[last].seqNum, ackNum) then [] else [ps[last]]
  }

  lemma {:induction false} AckDistributes(ps: seq<Packet>, qs: seq<Packet>, ackNum: nat)
    ensures Acked(ps + qs, ackNum) == Acked(ps, ackNum) + Acked(qs, ackNum)
    ensures Remaining(ps + qs, ackNum) == Remaining(ps, ackNum) + Remaining(qs, ackNum)
    decreases |qs|
  {
    if qs == [] {
      assert ps + qs == ps;
    } else {
      var last := |qs| - 1;
      assert (ps + qs)[..|ps| + last] == ps + qs[..last];
      AckDistributes(ps, qs[..last], ackNum);
    }
  }

  /** Whatever the order of the queue, each packet is acknowledged or kept by its own number, in its place. */
  lemma EachPacketDecides(ps: seq<Packet>, p: Packet, qs: seq<Packet>, ackNum: nat)
    requires p.seqNum < U16 && ackNum < U16
    ensures var up := p.seqNum == ackNum || SerialLess(p.seqNum, ackNum)
                      || p.seqNum - ackNum == 0x8000 || ackNum - p.seqNum == 0x8000;
      && Acked(ps + [p] + qs, ackNum) == Acked(ps, ackNum) + (if up then [p] else []) + Acked(qs, ackNum)
      && Remaining(ps + [p] + qs, ackNum) == Remaining(ps, ackNum) + (if up then [] else [p]) + Remaining(qs, ackNum)
  {
    AgreesWithSerialOrder(p.seqNum, ackNum);
    AckDistributes(ps + [p], qs, ackNum);
    AckDistributes(ps, [p], ackNum);
    assert [p][..0] == [];
    hide SeqLessOrEqual, SerialLess;
    assert Acked([p], ackNum) == Acked([], ackNum) + if SeqLessOrEqual(p.seqNum, ackNum) then [p] else [];
    assert Remaining([p], ackNum) == Remaining([], ackNum) + if SeqLessOrEqual(p.seqNum, ackNum) then [] else [p];
  }

  function Cleared(counts: map<nat, nat>, ackNum: nat): map<nat, nat> {
    map s | s in counts && !SeqLessOrEqual(s, ackNum) :: counts[s]
  }

  function Count(counts: map<nat, nat>, s: nat): nat { if s in counts then counts[s] else 0 }

  class Queue {
    var packets: seq<Packet>
    var dupAckCount: map<nat, nat>

    constructor ()
      ensures packets == [] && dupAckCount == map[]
    {
      packets, dupAckCount := [], map[];
    }

    method Add(p: Packet)
      modifies this`packets
      ensures packets == old(packets) + [p]
    {
      packets := packets + [p];
    }

    method Ack(ackNum: nat) returns (acked: seq<Packet>)
      modifies this
      ensures acked == Acked(old(packets), ackNum) && packets == Remaining(old(packets), ackNum)
      ensures dupAckCount == Cleared(old(dupAckCount), ackNum)
    {
      acked := [];
      var remaining := [];
      for i := 0 to |packets|
        invariant acked == Acked(packets[..i], ackNum) && remaining == Remaining(packets[..i], ackNum)
      {
        assert packets[..i + 1][..i] == packets[..i];
        if SeqLessOrEqual(packets[i].seqNum, ackNum) {
          acked := acked + [packets[i]];
        } else {
          remaining := remaining + [packets[i]];
        }
      }
      assert packets[..|packets|] == packets;
      packets := remaining;
      var keys := dupAckCount.Keys;
      while keys != {}
        invariant keys <= old(dupAckCount).Keys
        invariant forall s :: s in dupAckCount <==>
          s in old(dupAckCount) && (s in keys || !SeqLessOrEqual(s, ackNum))
        invariant forall s | s in dupAckCount :: dupAckCount[s] == old(dupAckCount)[s]
        invariant packets == remaining
        decreases keys
      {
        var s :| s in keys;
        keys := keys - {s};
        if SeqLessOrEqual(s, ackNum) {
          dupAckCount := dupAckCount - {s};
        }
      }
    }

    method HandleDupAck(ackNum: nat) returns (fastRetransmit: bool)
      modifies this`dupAckCount
      ensures dupAckCount == old(dupAckCount)[ackNum := Count(old(dupAckCount), ackNum) + 1]
      ensures fastRetransmit <==> Count(old(dupAckCount), ackNum) == 2
    {
      dupAckCount := dupAckCount[ackNum := (if ackNum in dupAckCount then dupAckCount[ackNum] else 0) + 1];
      fastRetransmit := dupAckCount[ackNum] == 3;
    }
  }

  // ----- Whole runs, with unwrapped numbers

  /** Numbers are unwrapped; on the wire they are taken modulo 2^16. */
  datatype Event = AddPacket(p: Packet, number: int) | AckUpTo(number: int) | Duplicate(number: int)

  /** The queue's fields, the unwrapped numbers of its packets, and what went in and came out so far. */
  datatype State = State(
    packets: seq<Packet>, dupAckCount: map<nat, nat>, numbers: seq<int>, added: seq<Packet>, acked: seq<Packet>)

  /** How many numbers, from the front, are at most `a`. */
  function UpTo(numbers: seq<int>, a: int): (k: nat)
    ensures k <= |numbers|
    ensures forall i | 0 <= i < k :: numbers[i] <= a
    ensures k < |numbers| ==> numbers[k] > a
  {
    if numbers == [] || numbers[0] > a then 0 else 1 + UpTo(numbers[1..], a)
  }

  predicate Increasing(numbers: seq<int>) { forall i, j | 0 <= i < j < |numbers| :: numbers[i] < numbers[j] }

  /** Packets are added in increasing order, and an acknowledgement is within 2^15 of every queued packet. */
  predicate Enabled(s: State, e: Event) {
    match e
    case AddPacket(p, u) => p.seqNum == u % U16 && (s.numbers != [] ==> s.numbers[|s.numbers| - 1] < u)
    case AckUpTo(a) => forall i | 0 <= i < |s.numbers| :: -0x8000 <= s.numbers[i] - a <= 0x7fff
    case Duplicate(_) => true
  }

  function Apply(s: State, e: Event): State {
    match e
    case AddPacket(p, u) => s.(packets := s.packets + [p], numbers := s.numbers + [u], added := s.added + [p])
    case AckUpTo(a) =>
      State(Remaining(s.packets, a % U16), Cleared(s.dupAckCount, a % U16), s.numbers[UpTo(s.numbers, a)..],
            s.added, s.acked + Acked(s.packets, a % U16))
    case Duplicate(a) =>
      s.(dupAckCount := s.dupAckCount[a % U16 := Count(s.dupAckCount, a % U16) + 1])
  }

  predicate CanRun(s: State, es: seq<Event>)
    decreases |es|
  {
    es == [] || (Enabled(s, es[0]) && CanRun(Apply(s, es[0]), es[1..]))
  }

  function Run(s: State, es: seq<Event>): State
    decreases |es|
  {
    if es == [] then s else Run(Apply(s, es[0]), es[1..])
  }

  const EMPTY := State([], map[], [], [], [])

  predicate Numbered(ps: seq<Packet>, numbers: seq<int>) {
    |ps| == |numbers| && forall i | 0 <= i < |ps| :: ps[i].seqNum == numbers[i] % U16
  }

  /** Nothing is lost, duplicated or reordered. */
  predicate Inv(s: State) {
    Numbered(s.packets, s.numbers) && Increasing(s.numbers) && s.acked + s.packets == s.added
  }

  /** Of increasing numbers, those at most `a` are the first ones. */
  lemma UpToIsExact(numbers: seq<int>, a: int)
    requires Increasing(numbers)
    ensures forall i | 0 <= i < |numbers| :: numbers[i] <= a <==> i < UpTo(numbers, a)
  {
    var k := UpTo(numbers, a);
    assert forall i | k < i < |numbers| :: numbers[k] < numbers[i];
  }

  lemma UpToFront(numbers: seq<int>, last: nat, a: int)
    requires Increasing(numbers) && |numbers| == last + 1
    ensures var k := UpTo(numbers, a);
      UpTo(numbers[..last], a) == (if k <= last then k else last) && (numbers[last] <= a <==> k == last + 1)
  {
    UpToIsExact(numbers, a);
    hide Increasing;
    var front := numbers[..last];
    assert forall i | 0 <= i < last :: front[i] == numbers[i];
  }

  /** An acknowledgement removes exactly the packets numbered at or below it, and they are the oldest ones. */
  lemma {:induction false} AckRemovesAPrefix(ps: seq<Packet>, numbers: seq<int>, a: int)
    requires Numbered(ps, numbers) && Increasing(numbers)
    requires forall i | 0 <= i < |numbers| :: -0x8000 <= numbers[i] - a <= 0x7fff
    ensures var k := UpTo(numbers, a);
      && Acked(ps, a % U16) == ps[..k] && Remaining(ps, a % U16) == ps[k..]
      && forall i | 0 <= i < |numbers| :: numbers[i] <= a <==> i < k
  {
    UpToIsExact(numbers, a);
    if ps != [] {
      var last := |ps| - 1;
      AckRemovesAPrefix(ps[..last], numbers[..last], a);
      UpToFront(numbers, last, a);
      UnwrappedOrder(numbers[last], a);
      hide UpTo, Increasing, SeqLessOrEqual;
      PrefixOrWhole(ps, last, UpTo(numbers[..last], a), UpTo(numbers, a));
    }
  }

  lemma PrefixOrWhole(ps: seq<Packet>, last: nat, k': nat, k: nat)
    requires |ps| == last + 1 && k <= |ps| && k' == if k <= last then k else last
    ensures ps[..last][..k'] + (if k == |ps| then [ps[last]] else []) == ps[..k]
    ensures ps[..last][k'..] + (if k == |ps| then [] else [ps[last]]) == ps[k..]
  {
  }

  lemma DropKeepsInv(s: State, k: nat, counts: map<nat, nat>)
    requires Inv(s) && k <= |s.packets|
    ensures Inv(State(s.packets[k..], counts, s.numbers[k..], s.added, s.acked + s.packets[..k]))
  {
    assert s.acked + s.packets[..k] + s.packets[k..] == s.acked + s.packets by {
      assert s.packets[..k] + s.packets[k..] == s.packets;
    }
  }

  lemma AckKeepsInv(s: State, a: int)
    requires Inv(s) && Enabled(s, AckUpTo(a))
    ensures Inv(Apply(s, AckUpTo(a)))
  {
    AckRemovesAPrefix(s.packets, s.numbers, a);
    DropKeepsInv(s, UpTo(s.numbers, a), Cleared(s.dupAckCount, a % U16));
    hide Inv, Acked, Remaining, UpTo, Cleared;
  }

  lemma EventKeepsInv(s: State, e: Event)
    requires Inv(s) && Enabled(s, e)
    ensures Inv(Apply(s, e))
  {
    match e
    case AckUpTo(a) => AckKeepsInv(s, a);
    case AddPacket(p, u) => assert s.acked + (s.packets + [p]) == s.acked + s.packets + [p];
    case Duplicate(_) =>
  }

  lemma {:induction false} RunKeepsInv(s: State, es: seq<Event>)
    requires Inv(s) && CanRun(s, es)
    ensures Inv(Run(s, es))
    decreases |es|
  {
    if es != [] {
      EventKeepsInv(s, es[0]);
      hide Inv, Enabled, Apply;
      RunKeepsInv(Apply(s, es[0]), es[1..]);
    }
  }

  /** In every run the acknowledged packets followed by the queued ones are the added ones, in order. */
  lemma QueueConservesPackets(es: seq<Event>)
    requires CanRun(EMPTY, es)
    ensures Run(EMPTY, es).acked + Run(EMPTY, es).packets == Run(EMPTY, es).added
  {
    RunKeepsInv(EMPTY, es);
  }

  // ----- Fast retransmit

  predicate Clears(e: Event, s: nat) { e.AckUpTo? && SeqLessOrEqual(s, e.number % U16) }

  /** Calls of HandleDupAck for the number `s`, and those among them that answer true. */
  function Calls(es: seq<Event>, s: nat): nat {
    if es == [] then 0 else (if es[0].Duplicate? && es[0].number % U16 == s then 1 else 0) + Calls(es[1..], s)
  }

  function Fired(q: State, es: seq<Event>, s: nat): nat
    decreases |es|
  {
    if es == [] then 0
    else
      (if es[0].Duplicate? && es[0].number % U16 == s && Count(q.dupAckCount, s) == 2 then 1 else 0)
      + Fired(Apply(q, es[0]), es[1..], s)
  }

  lemma EventCounts(q: State, e: Event, s: nat)
    ensures Count(Apply(q, e).dupAckCount, s) ==
      if Clears(e, s) then 0
      else Count(q.dupAckCount, s) + if e.Duplicate? && e.number % U16 == s then 1 else 0
  {
  }

  /** While nothing clears `s`, exactly the call that brings its count to three answers true. */
  lemma {:induction false} FiresOnTheThird(q: State, es: seq<Event>, s: nat)
    requires forall i | 0 <= i < |es| :: !Clears(es[i], s)
    ensures Fired(q, es, s) == if Count(q.dupAckCount, s) < 3 <= Count(q.dupAckCount, s) + Calls(es, s) then 1 else 0
    decreases |es|
  {
    if es != [] {
      EventCounts(q, es[0], s);
      hide Apply, Clears, Count;
      forall i | 0 <= i < |es[1..]|
        ensures !Clears(es[1..][i], s)
      {
        assert es[1..][i] == es[i + 1];
      }
      FiresOnTheThird(Apply(q, es[0]), es[1..], s);
    }
  }

  /** From an acknowledgement that clears `s` up to the next one: true at most once, and once if called thrice. */
  lemma FiresOnceBetweenClears(q: State, clear: Event, es: seq<Event>, s: nat)
    requires Clears(clear, s) && forall i | 0 <= i < |es| :: !Clears(es[i], s)
    ensures Fired(Apply(q, clear), es, s) == if Calls(es, s) >= 3 then 1 else 0
  {
    EventCounts(q, clear, s);
    FiresOnTheThird(Apply(q, clear), es, s);
  }
}
