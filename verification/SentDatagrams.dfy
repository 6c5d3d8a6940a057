/** What a Write and the answers to packets put on the wire (pkg/utp/conn.go), as the other end's decoder reads it. */
module SentDatagrams {
  import opened Bytes
  import opened UtpPacket
  import opened UtpConn

  // ----- The number that is acknowledged

  function AfterPackets(c: Conn, ps: seq<Packet>): Conn
    decreases |ps|
  {
    if ps == [] then c else AfterPackets(OnPacket(c, ps[0]).0, ps[1..])
  }

  /** Data (0) and FIN (1) are acknowledged. */
  predicate IsNumbered(p: Packet) { p.kind == 0 || p.kind == 1 }

  predicate IsLastNumbered(ps: seq<Packet>, k: nat) {
    k < |ps| && IsNumbered(ps[k]) && forall j | k < j < |ps| :: !IsNumbered(ps[j])
  }

  /** The acknowledgement number is that of the last data or FIN handled. */
  lemma {:induction false} LastNumberIsKept(c: Conn, ps: seq<Packet>, k: nat)
    requires IsLastNumbered(ps, k)
    ensures AfterPackets(c, ps).ackNo == ps[k].seqNum && AfterPackets(c, ps).sendID == c.sendID
    decreases |ps|
  {
    var c', rest := OnPacket(c, ps[0]).0, ps[1..];
    if k > 0 {
      assert forall j | 0 <= j < |rest| :: rest[j] == ps[j + 1];
      LastNumberIsKept(c', rest, k - 1);
    } else {
      assert forall j | 0 <= j < |rest| :: rest[j] == ps[j + 1];
      OthersKeepNumber(c', rest);
    }
  }

  lemma {:induction false} OthersKeepNumber(c: Conn, ps: seq<Packet>)
    requires forall j | 0 <= j < |ps| :: !IsNumbered(ps[j])
    ensures AfterPackets(c, ps).ackNo == c.ackNo && AfterPackets(c, ps).sendID == c.sendID
    decreases |ps|
  {
    if ps != [] {
      OthersKeepNumber(OnPacket(c, ps[0]).0, ps[1..]);
    }
  }

  /** Data and FIN, and nothing else, are answered, with an acknowledgement of their own number. */
  lemma RepliesAcknowledge(c: Conn, p: Packet)
    requires c.sendID < 65536 && p.seqNum < 65536
    ensures OnPacket(c, p).1.Some? <==> IsNumbered(p)
    ensures IsNumbered(p) ==>
      var q := DecodePacket(EncodePacket(OnPacket(c, p).1.value));
      q == Some(Packet(2, 1, 0, c.sendID, 0, 0, 0, 0, p.seqNum, []))
  {
    if IsNumbered(p) {
      PacketRoundTrip(OnPacket(c, p).1.value);
      hide EncodePacket, DecodePacket;
    }
  }

  /** After a FIN was sent, state packets close the connection exactly when one of them acknowledges its number. */
  lemma {:induction false} FinSentEndsExactly(c: Conn, ps: seq<Packet>)
    requires c.state == FinSent && forall i | 0 <= i < |ps| :: ps[i].kind == 2
    ensures var acknowledged := exists i | 0 <= i < |ps| :: ps[i].ackNum == c.seqNo;
      AfterPackets(c, ps).state == if acknowledged then Closed else FinSent
    decreases |ps|
  {
    if ps != [] {
      var c', rest := OnPacket(c, ps[0]).0, ps[1..];
      assert forall i | 0 <= i < |rest| :: rest[i] == ps[i + 1];
      if ps[0].ackNum == c.seqNo {
        ClosedStays(c', rest);
      } else {
        FinSentEndsExactly(c', rest);
        if i :| 0 <= i < |ps| && ps[i].ackNum == c.seqNo {
          assert rest[i - 1].ackNum == c.seqNo;
        }
      }
    }
  }

  lemma {:induction false} ClosedStays(c: Conn, ps: seq<Packet>)
    requires c.state == Closed
    ensures AfterPackets(c, ps).state == Closed
    decreases |ps|
  {
    if ps != [] {
      ClosedStays(OnPacket(c, ps[0]).0, ps[1..]);
    }
  }

  /** A datagram reaches a connection exactly when it is a packet for its identifier without the STUN cookie. */
  lemma RoutedExactly(recvID: nat, raw: Buf, p: Packet)
    ensures Route(recvID, raw) == Some(p) <==>
      Encodable(p) && raw == EncodePacket(p) && p.connID == recvID && raw[4..8] != [0x21, 0x12, 0xA4, 0x42]
  {
    DecodesExactly(raw, p);
    if |raw| >= 8 {
      CookieIs(raw[4..8]);
    }
    hide DecodePacket, EncodePacket, GetBE, Encodable;
  }

  lemma CookieIs(b: Buf)
    requires |b| == 4
    ensures GetBE(b) == 0x2112A442 <==> b == [0x21, 0x12, 0xA4, 0x42]
  {
    PutGetBE(b);
    GetPutBE(0x2112A442, 4);
    Pow256Values();
    PutBEIsBigEndian(0x2112A442);
    assert Be32(0x2112A442) == [0x21, 0x12, 0xA4, 0x42];
    hide PutBE, GetBE;
  }

  // ----- The pieces of a write

  function Smaller(a: nat, b: nat): nat { if a < b then a else b }

  lemma {:induction false} ChunkAt(b: Buf, j: nat)
    ensures |Chunks(b)| == (|b| + 1399) / 1400
    ensures j < |Chunks(b)| ==> 1400 * j < |b| && Chunks(b)[j] == b[1400 * j..Smaller(1400 * (j + 1), |b|)]
    decreases |b|
  {
    if |b| > 1400 {
      var rest := b[1400..];
      ChunkAt(rest, if j > 0 then j - 1 else 0);
      assert Chunks(b) == [b[..1400]] + Chunks(rest);
      if 0 < j < |Chunks(b)| {
        assert Chunks(b)[j] == Chunks(rest)[j - 1];
        SliceOfRest(b, 1400 * (j - 1), Smaller(1400 * j, |rest|));
      }
    }
  }

  lemma SliceOfRest(b: Buf, from: nat, to: nat)
    requires |b| >= 1400 && from <= to <= |b| - 1400
    ensures b[1400..][from..to] == b[1400 + from..1400 + to]
  {
  }

  // ----- The datagrams of a Write

  function Total(times: seq<nat>): nat {
    if times == [] then 0 else times[0] + Total(times[1..])
  }

  /** Which chunk the datagram at this place carries. */
  function PieceOf(times: seq<nat>, at: nat): (j: nat)
    requires at < Total(times)
    ensures j < |times|
  {
    if at < times[0] then 0 else 1 + PieceOf(times[1..], at - times[0])
  }

  /** The copies of chunk `j` are those behind all copies of the chunks before it. */
  lemma {:induction false} PlacesOfPiece(times: seq<nat>, at: nat, j: nat)
    requires at < Total(times) && j < |times|
    ensures PieceOf(times, at) == j <==> Total(times[..j]) <= at < Total(times[..j]) + times[j]
    decreases |times|
  {
    if j == 0 {
      assert times[..0] == [];
    } else {
      assert times[..j][1..] == times[1..][..j - 1];
      assert Total(times[..j]) == times[0] + Total(times[1..][..j - 1]);
      if at >= times[0] {
        PlacesOfPiece(times[1..], at - times[0], j - 1);
      }
    }
  }

  lemma {:induction false} DatagramAt(sendID: nat, ackNo: nat, seqNo: nat, cs: seq<Buf>, times: seq<nat>, at: nat)
    requires |times| <= |cs|
    ensures |Datagrams(sendID, ackNo, seqNo, cs, times)| == Total(times)
    ensures at < Total(times) ==>
      var j := PieceOf(times, at);
      Datagrams(sendID, ackNo, seqNo, cs, times)[at]
        == EncodePacket(DataPacket(sendID, (seqNo + 1 + j) % 65536, ackNo, cs[j]))
    decreases |times|
  {
    hide EncodePacket, DataPacket, Datagrams;
    if times == [] {
      NoDatagrams(sendID, ackNo, seqNo, cs);
    } else {
      var num := (seqNo + 1) % U16;
      DatagramsHead(sendID, ackNo, seqNo, cs, times);
      DatagramAt(sendID, ackNo, num, cs[1..], times[1..], if at >= times[0] then at - times[0] else 0);
      if times[0] <= at < Total(times) {
        NumbersAdd(seqNo, PieceOf(times, at));
      }
    }
  }

  lemma NumbersAdd(seqNo: nat, j: nat)
    requires j > 0
    ensures ((seqNo + 1) % 65536 + 1 + (j - 1)) % 65536 == (seqNo + 1 + j) % 65536
  {
  }

  /** The datagram is read as data with these numbers and piece `j` of the written bytes. */
  predicate IsPiece(d: Buf, sendID: nat, seqNo: nat, ackNo: nat, b: Buf, j: nat) {
    && 1400 * j <= |b|
    && DecodePacket(d) ==
         Some(Packet(0, 1, 0, sendID, 0, 0, 0, (seqNo + 1 + j) % 65536, ackNo,
                     b[1400 * j..Smaller(1400 * (j + 1), |b|)]))
  }

  lemma DataPacketDecodes(sendID: nat, num: nat, ackNo: nat, chunk: Buf)
    requires sendID < 65536 && num < 65536 && ackNo < 65536
    ensures DecodePacket(EncodePacket(DataPacket(sendID, num, ackNo, chunk)))
         == Some(Packet(0, 1, 0, sendID, 0, 0, 0, num, ackNo, chunk))
  {
    PacketRoundTrip(DataPacket(sendID, num, ackNo, chunk));
    hide EncodePacket, DecodePacket;
  }

  /**
   * Whatever packets a connection has handled, the last of them to be acknowledged with number `ps[last].seqNum`: the
   * next Write sends, for its pieces of 1400 bytes in order, `times[j]` copies each of data with the connection's
   * identifier, that acknowledgement number and the consecutive 16-bit numbers, and nothing else.
   */
  lemma WriteSendsItsPieces(c: Conn, ps: seq<Packet>, last: nat, b: Buf, waits: seq<Wait>, before: seq<Buf>,
                            seqNo: nat, n: nat, end: WriteEnd, times: seq<nat>, sent: seq<Buf>)
    requires IsLastNumbered(ps, last) && ps[last].seqNum < 65536 && c.sendID < 65536
    requires var c' := AfterPackets(c, ps);
      WriteDid(Job(c'.sendID, c'.ackNo, c'.seqNo, b, waits, before), seqNo, n, end, times, sent)
    ensures |times| <= (|b| + 1399) / 1400
    ensures |sent| == |before| + Total(times) && sent[..|before|] == before
    ensures forall at | |before| <= at < |sent| ::
      IsPiece(sent[at], c.sendID, AfterPackets(c, ps).seqNo, ps[last].seqNum, b, PieceOf(times, at - |before|))
  {
    hide AfterPackets, WriteDid, IsPiece, Total, PieceOf;
    LastNumberIsKept(c, ps, last);
    PiecesAreSent(c.sendID, ps[last].seqNum, AfterPackets(c, ps).seqNo, b, waits, before, seqNo, n, end, times, sent);
  }

  lemma PiecesAreSent(sendID: nat, ackNo: nat, seqNo0: nat, b: Buf, waits: seq<Wait>, before: seq<Buf>,
                      seqNo: nat, n: nat, end: WriteEnd, times: seq<nat>, sent: seq<Buf>)
    requires WriteDid(Job(sendID, ackNo, seqNo0, b, waits, before), seqNo, n, end, times, sent)
    requires sendID < 65536 && ackNo < 65536
    ensures |times| <= (|b| + 1399) / 1400
    ensures |sent| == |before| + Total(times) && sent[..|before|] == before
    ensures forall at | |before| <= at < |sent| ::
      IsPiece(sent[at], sendID, seqNo0, ackNo, b, PieceOf(times, at - |before|))
  {
    hide Schedule, Chunks, Datagrams, Concat, IsPiece, Total, PieceOf;
    var ds := Datagrams(sendID, ackNo, seqNo0, Chunks(b), times);
    assert sent == before + ds;
    ChunkAt(b, 0);
    DatagramAt(sendID, ackNo, seqNo0, Chunks(b), times, 0);
    forall at | |before| <= at < |sent|
      ensures IsPiece(sent[at], sendID, seqNo0, ackNo, b, PieceOf(times, at - |before|))
    {
      OnePiece(sendID, ackNo, seqNo0, b, times, at - |before|);
      assert sent[at] == ds[at - |before|];
    }
  }

  lemma OnePiece(sendID: nat, ackNo: nat, seqNo0: nat, b: Buf, times: seq<nat>, at: nat)
    requires |times| <= |Chunks(b)| && sendID < 65536 && ackNo < 65536 && at < Total(times)
    ensures |Datagrams(sendID, ackNo, seqNo0, Chunks(b), times)| == Total(times)
    ensures IsPiece(Datagrams(sendID, ackNo, seqNo0, Chunks(b), times)[at],
                    sendID, seqNo0, ackNo, b, PieceOf(times, at))
  {
    hide Datagrams, Chunks, DecodePacket, EncodePacket, Total, PieceOf;
    var j := PieceOf(times, at);
    ChunkAt(b, j);
    DatagramAt(sendID, ackNo, seqNo0, Chunks(b), times, at);
    DataPacketDecodes(sendID, (seqNo0 + 1 + j) % 65536, ackNo, Chunks(b)[j]);
  }

  // ----- How often a chunk is transmitted

  /** This wait ends the loop for the chunk: an error, a passed deadline, its acknowledgement, or a closed state. */
  predicate Decides(w: Wait, num: nat) {
    w == SendFailed || w == Overdue || w == Acked(num) || w == TimedOut(true)
  }

  /**
   * A chunk is transmitted once for every wait up to the first that decides, that one included unless the socket fails
   * then; without such a wait, once more than there are waits.
   */
  lemma {:induction false} TransmissionsExactly(waits: seq<Wait>, num: nat, m: nat)
    requires m <= |waits| && (forall i | 0 <= i < m :: !Decides(waits[i], num))
    requires m < |waits| ==> Decides(waits[m], num)
    ensures var (k, o) := Until(waits, num);
      && (m == |waits| ==> k == m + 1 && o == Ended(StillWaiting))
      && (m < |waits| ==>
            match waits[m]
            case SendFailed => k == m && o == Ended(SocketError)
            case Overdue => k == m + 1 && o == Ended(DeadlinePassed)
            case TimedOut(_) => k == m + 1 && o == Ended(ClosedDuringWrite)
            case Acked(_) => k == m + 1 && o == Got(waits[m + 1..]))
    decreases |waits|
  {
    if m > 0 {
      var rest := waits[1..];
      assert forall i | 0 <= i < m - 1 :: rest[i] == waits[i + 1];
      TransmissionsExactly(rest, num, m - 1);
      assert m < |waits| ==> rest[m - 1] == waits[m] && rest[m..] == waits[m + 1..];
    }
  }
}
