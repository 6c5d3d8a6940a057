/**
 * What a session answers (pkg/hypercore/sync.go), message by message and byte by byte, and where the answers come from
 * over runs in which the block cache is filled (pkg/ipc/socket.go).
 */
module Answers {
  import opened Bytes
  import opened Merkle
  import opened Wire
  import opened BlockRepo
  import opened Session
  import BlockService
  import Replication

  // ----- One block in one message

  /** The value field for a block: as it is, or behind a 0, or compressed behind a 1 when it has more than ten bytes. */
  predicate IsPacked(cfg: Config, packed: Buf, value: Buf) {
    && (!cfg.deflate ==> packed == value)
    && (cfg.deflate && |value| <= 10 ==> packed == [0] + value)
    && (cfg.deflate && |value| > 10 ==>
          match cfg.env.compress(value)
          case Some(c) => packed == [1] + c
          case None => packed == value)
  }

  /** What the cache holds under the session's feed and this index. */
  function Cached(cfg: Config, st: State, i: nat): Option<(Buf, Buf)> {
    if st.repo.Some? && (cfg.feedKey, i) in st.repo.value then DecodeBlock(st.repo.value[(cfg.feedKey, i)]) else None
  }

  predicate HasBlock(cfg: Config, st: State, i: nat) { Cached(cfg, st, i).Some? || i < |st.log| }

  /** Data of block `i`: the cached value and signature, else the log's block, signed on the root up to it. */
  predicate IsDataOf(cfg: Config, st: State, i: nat, m: Msg) {
    && m.Data? && m.index == i && HasBlock(cfg, st, i)
    && match Cached(cfg, st, i)
       case Some((value, sig)) => IsPacked(cfg, m.value, value) && m.signature == sig
       case None =>
         IsPacked(cfg, m.value, st.log[i]) && m.signature == cfg.env.sign(TreeHash(cfg.env.hash, st.log[..i + 1]))
  }

  lemma OneAnswer(cfg: Config, st: State, i: nat)
    ensures HasBlock(cfg, st, i) ==> |DataFor(cfg, st, i)| == 1 && IsDataOf(cfg, st, i, DataFor(cfg, st, i)[0])
    ensures !HasBlock(cfg, st, i) ==> DataFor(cfg, st, i) == []
  {
    hide DecodeBlock, TreeHash;
  }

  lemma {:induction false} RangeAnswers(cfg: Config, st: State, i: nat, end: nat, k: nat)
    requires i <= end <= |st.log|
    ensures |DataForRange(cfg, st, i, end)| == end - i
    ensures k < end - i ==> IsDataOf(cfg, st, i + k, DataForRange(cfg, st, i, end)[k])
    decreases end - i
  {
    hide DataFor, IsDataOf, Cached, DataForRange;
    Replication.RangeHead(cfg, st, i, end);
    if i < end {
      OneAnswer(cfg, st, i);
      RangeAnswers(cfg, st, i + 1, end, if k > 0 then k - 1 else 0);
    }
  }

  predicate Names(ms: seq<Msg>, i: nat) { exists k :: 0 <= k < |ms| && ms[k].Data? && ms[k].index == i }

  /** The messages are the Data of `start`, `start + 1` and so on. */
  predicate Consecutive(cfg: Config, st: State, start: nat, ms: seq<Msg>) {
    forall k | 0 <= k < |ms| :: IsDataOf(cfg, st, start + k, ms[k])
  }

  lemma NamesExactly(cfg: Config, st: State, start: nat, ms: seq<Msg>, i: nat)
    requires Consecutive(cfg, st, start, ms)
    ensures Names(ms, i) <==> start <= i < start + |ms|
  {
    hide HasBlock, Cached, IsPacked;
    if start <= i < start + |ms| {
      assert IsDataOf(cfg, st, start + (i - start), ms[i - start]);
    }
  }

  lemma AnsweredRange(cfg: Config, st: State, start: nat, stop: nat)
    requires stop <= |st.log|
    ensures var o := Writing(cfg, st, DataForRange(cfg, st, start, stop));
      && Consecutive(cfg, st, start, o.sent)
      && (o.alive ==> forall i: nat :: Names(o.sent, i) <==> start <= i < stop)
  {
    hide DataForRange, Accepted, IsDataOf, Names;
    var all := DataForRange(cfg, st, start, stop);
    var sent := Accepted(cfg.frameLimit, all);
    Replication.RangeHead(cfg, st, start, stop);
    if start < stop {
      forall k | 0 <= k < |sent|
        ensures IsDataOf(cfg, st, start + k, sent[k])
      {
        RangeAnswers(cfg, st, start, stop, k);
      }
      RangeAnswers(cfg, st, start, stop, 0);
    }
    forall i: nat
      ensures Names(sent, i) <==> start <= i < start + |sent|
    {
      NamesExactly(cfg, st, start, sent, i);
    }
  }

  /**
   * A Want is answered with Data of consecutive blocks from its start on, each its own; when the connection takes all
   * of them, with exactly those of the wanted range that the log has. The end of the range wraps at 2^64.
   */
  lemma WantIsAnswered(cfg: Config, st: State, start: nat, length: nat)
    requires start < 0x1_0000_0000_0000_0000 && length < 0x1_0000_0000_0000_0000
    ensures var o := OnFrame(cfg, st, Encode(Want(start, length)));
      && o.state == st && Consecutive(cfg, st, start, o.sent)
      && (o.alive && start + length < 0x1_0000_0000_0000_0000 ==>
            forall i: nat :: Names(o.sent, i) <==> start <= i < start + length && i < |st.log|)
      && (o.alive && start + length >= 0x1_0000_0000_0000_0000 ==>
            forall i: nat :: Names(o.sent, i) <==>
              start <= i < start + length - 0x1_0000_0000_0000_0000 && i < |st.log|)
  {
    hide OnFrame, Encode, Consecutive, Names, DataForRange, WantEnd, Writing;
    var stop := WantEnd(start, length, |st.log|);
    WantIsRead(cfg, st, start, length);
    WantEndWraps(start, length, |st.log|);
    AnsweredRange(cfg, st, start, stop);
  }

  lemma WantIsRead(cfg: Config, st: State, start: nat, length: nat)
    requires start < U64 && length < U64
    ensures var o := Writing(cfg, st, DataForRange(cfg, st, start, WantEnd(start, length, |st.log|)));
      OnFrame(cfg, st, Encode(Want(start, length))) == o && o.state == st
  {
    Replication.OnEncoded(cfg, st, Want(start, length));
    hide OnFrame, Encode, DataForRange, WantEnd, Accepted;
  }

  /** A Request is answered with the one block asked for, or with nothing when there is none. */
  lemma RequestIsAnswered(cfg: Config, st: State, i: nat)
    requires i < 0x1_0000_0000_0000_0000
    ensures var o := OnFrame(cfg, st, Encode(Request(i)));
      && o.state == st && |o.sent| <= 1 && (|o.sent| == 1 ==> IsDataOf(cfg, st, i, o.sent[0]))
      && (o.alive ==> (|o.sent| == 1 <==> HasBlock(cfg, st, i)))
      && (!o.alive ==> o.sent == [] && HasBlock(cfg, st, i))
  {
    Replication.OnEncoded(cfg, st, Request(i));
    OneAnswer(cfg, st, i);
    hide OnFrame, Encode, DataFor, IsDataOf, HasBlock;
    AcceptedExactly(cfg.frameLimit, []);
  }

  lemma {:induction false} RequestAt(i: nat, end: nat, k: nat)
    requires i <= end
    ensures |Requests(i, end)| == end - i && (k < end - i ==> Requests(i, end)[k] == Request(i + k))
    decreases end - i
  {
    if i < end {
      RequestAt(i + 1, end, if k > 0 then k - 1 else 0);
    }
  }

  /** A Have is answered with a Request for each block announced and lacking, in order. */
  lemma HaveIsAnswered(cfg: Config, st: State, start: nat, length: nat)
    requires start < 0x1_0000_0000_0000_0000 && length < 0x1_0000_0000_0000_0000
    ensures var o := OnFrame(cfg, st, Encode(Have(start, length)));
      && o.state == st
      && (forall k | 0 <= k < |o.sent| :: o.sent[k] == Request(|st.log| + k))
      && (o.alive ==> |o.sent| == if |st.log| < length then length - |st.log| else 0)
  {
    Replication.OnEncoded(cfg, st, Have(start, length));
    hide OnFrame, Encode, Requests, Accepted;
    var all := Requests(|st.log|, length);
    if |st.log| <= length {
      forall k: nat
        ensures |all| == length - |st.log| && (k < |all| ==> all[k] == Request(|st.log| + k))
      {
        RequestAt(|st.log|, length, k);
      }
    } else {
      NoRequests(|st.log|, length, []);
    }
  }

  // ----- When the read loop ends

  /** The decoder of the frame's type refuses it. */
  predicate Malformed(frame: Buf) {
    && frame != [] && (frame[0] == 2 || frame[0] == 3 || frame[0] == 4 || frame[0] == 5)
    && Decode(frame).None?
  }

  /** What the receiver makes of the value field, tag by tag. */
  lemma TagsAreUndone(cfg: Config, v: Buf)
    ensures !cfg.deflate ==> Unpack(cfg, v) == Some(v)
    ensures cfg.deflate ==>
      && Unpack(cfg, [1] + v) == cfg.env.decompress(v) && Unpack(cfg, [0] + v) == Some(v)
      && Unpack(cfg, []) == Some([]) && (forall t: byte | t > 1 :: Unpack(cfg, [t] + v) == Some([t] + v))
  {
    assert ([1] + v)[1..] == v && ([0] + v)[1..] == v;
  }

  /**
   * A frame over 10 MiB, a malformed one, one whose value does not unpack and one whose signature is bad end the loop
   * and change nothing; empty frames, other types and Data out of turn are passed over.
   */
  lemma LoopEndsExactly(cfg: Config, st: State, frame: Buf)
    ensures var o := OnFrame(cfg, st, frame);
      && (|frame| > 10_485_760 || Malformed(frame) ==> o == Outcome(st, [], false))
      && (|frame| <= 10_485_760 && (frame == [] || frame[0] < 2 || frame[0] > 5) ==> o == Outcome(st, [], true))
    ensures |frame| <= 10_485_760 && frame != [] && frame[0] == 5 && Decode(frame).Some? ==>
      var o, m := OnFrame(cfg, st, frame), Decode(frame).value;
      var v := Unpack(cfg, m.value);
      && m.Data? && o.sent == []
      && (v.None? ==> !o.alive && o.state == st)
      && (v.Some? && m.index != |st.log| ==> o.alive && o.state == st)
      && (v.Some? && m.index == |st.log| ==>
            var good := cfg.env.verify(TreeHash(cfg.env.hash, st.log + [v.value]), m.signature);
            && o.alive == good
            && (good ==> o.state.log == st.log + [v.value])
            && (!good ==> o.state == st))
  {
    hide TreeHash, ReadBytes, ReadInt, ReadTwo, ReadMany, Unpack, Requests, DataForRange, DataFor, Accepted;
  }

  // ----- Where a cached answer comes from

  /**
   * The action stores a block: a frame with Data of the next index is accepted, or append_block appends it under the
   * named feed, where no name stands for "default_feed".
   */
  predicate Stores(st: State, a: BlockService.Action, feed: Buf, value: Buf, sig: Buf) {
    match a
    case Ipc(name, block, s) =>
      && block == value && s == sig
      && feed == if name == [] then [100, 101, 102, 97, 117, 108, 116, 95, 102, 101, 101, 100] else name
    case Replicated(cfg, frame) =>
      && feed == cfg.feedKey && frame != [] && frame[0] == 5
      && Decode(frame).Some? && Decode(frame).value.Data?
      && Unpack(cfg, Decode(frame).value.value) == Some(value) && Decode(frame).value.signature == sig
      && OnFrame(cfg, st, frame).state.log != st.log
  }

  /** The entry of this feed and index decodes to this value and signature, and the log is longer than the index. */
  predicate Entry(st: State, feed: Buf, i: nat, value: Buf, sig: Buf) {
    && st.repo.Some? && i < |st.log| && (feed, i) in st.repo.value
    && DecodeBlock(st.repo.value[(feed, i)]) == Some((value, sig))
  }

  lemma StoredAsEntry(st: State, a: BlockService.Action, feed: Buf, value: Buf, sig: Buf)
    requires Stores(st, a, feed, value, sig) && st.repo.Some? && |value| < U32 && |sig| < U32
    ensures Entry(BlockService.Act(st, a), feed, |st.log|, value, sig)
  {
    BlockRoundTrip(value, sig);
    hide DecodeBlock, EncodeBlock, TreeHash, Unpack, DecodeData, Requests, DataForRange, DataFor, Accepted;
  }

  /** Later actions write behind the entry: the log has grown past its index. */
  lemma ActKeepsEntry(st: State, a: BlockService.Action, feed: Buf, i: nat, value: Buf, sig: Buf)
    requires Entry(st, feed, i, value, sig)
    ensures Entry(BlockService.Act(st, a), feed, i, value, sig)
  {
    hide DecodeBlock, EncodeBlock, TreeHash, Unpack, DecodeData, Requests, DataForRange, DataFor, Accepted;
  }

  lemma {:induction false} RunKeepsEntry(st: State, actions: seq<BlockService.Action>, feed: Buf, i: nat, value: Buf,
                                         sig: Buf)
    requires Entry(st, feed, i, value, sig)
    ensures Entry(BlockService.RunActions(st, actions), feed, i, value, sig)
    decreases |actions|
  {
    hide Entry, BlockService.Act;
    if actions != [] {
      ActKeepsEntry(st, actions[0], feed, i, value, sig);
      RunKeepsEntry(BlockService.Act(st, actions[0]), actions[1..], feed, i, value, sig);
    }
  }

  /** The answer to a Request: the message carries exactly this value and signature, or does not fit. */
  predicate Answered(cfg: Config, i: nat, value: Buf, sig: Buf, o: Outcome) {
    if o.alive then
      && |o.sent| == 1 && o.sent[0].Data? && o.sent[0].index == i && o.sent[0].signature == sig
      && IsPacked(cfg, o.sent[0].value, value)
    else o.sent == []
  }

  lemma EntryIsServed(cfg: Config, st: State, i: nat, value: Buf, sig: Buf)
    requires Entry(st, cfg.feedKey, i, value, sig) && i < U64
    ensures var o := OnFrame(cfg, st, Encode(Request(i)));
      o.state == st && Answered(cfg, i, value, sig, o)
  {
    RequestIsAnswered(cfg, st, i);
    hide OnFrame, Encode, IsPacked, DecodeBlock, TreeHash;
  }

  /**
   * The value and signature that an accepted frame or an append put into the cache are the answer to a Request for the
   * block after any further run, under any session of that feed.
   */
  lemma StoredBlockIsServed(st: State, a: BlockService.Action, actions: seq<BlockService.Action>, cfg: Config,
                            value: Buf, sig: Buf)
    requires Stores(st, a, cfg.feedKey, value, sig) && st.repo.Some? && |value| < U32 && |sig| < U32 && |st.log| < U64
    ensures var t := BlockService.RunActions(st, [a] + actions);
      var o := OnFrame(cfg, t, Encode(Request(|st.log|)));
      o.state == t && Answered(cfg, |st.log|, value, sig, o)
  {
    hide Stores, Entry, OnFrame, Encode, Answered, BlockService.Act;
    StoredAsEntry(st, a, cfg.feedKey, value, sig);
    RunKeepsEntry(BlockService.Act(st, a), actions, cfg.feedKey, |st.log|, value, sig);
    assert ([a] + actions)[1..] == actions;
    EntryIsServed(cfg, BlockService.RunActions(st, [a] + actions), |st.log|, value, sig);
  }

  /** The answer is given whenever its frame is within the limit, and decodes to what was sent. */
  lemma FittingAnswer(cfg: Config, st: State, i: nat, value: Buf, sig: Buf, packed: Buf)
    requires Entry(st, cfg.feedKey, i, value, sig) && i < U64 && IsPacked(cfg, packed, value)
    requires 17 + |packed| + |sig| <= cfg.frameLimit <= MAX_MESSAGE_SIZE
    ensures var o := OnFrame(cfg, st, Encode(Request(i)));
      o.alive && o.sent == [Data(i, packed, sig)] && Decode(Encode(o.sent[0])) == Some(o.sent[0])
  {
    EntryMessage(cfg, st, i, value, sig, packed);
    Replication.OnEncoded(cfg, st, Request(i));
    var m := Data(i, packed, sig);
    assert |Encode(m)| == 17 + |packed| + |sig|;
    RoundTrip(m);
    AcceptedExactly(cfg.frameLimit, [m]);
    hide OnFrame, Encode, Decode, DataFor, IsPacked, Accepted;
  }

  lemma EntryMessage(cfg: Config, st: State, i: nat, value: Buf, sig: Buf, packed: Buf)
    requires Entry(st, cfg.feedKey, i, value, sig) && IsPacked(cfg, packed, value)
    ensures DataFor(cfg, st, i) == [Data(i, packed, sig)]
  {
    OneAnswer(cfg, st, i);
    hide DataFor, DecodeBlock, TreeHash;
    var m := DataFor(cfg, st, i)[0];
    assert m == Data(i, packed, sig);
  }

  // ----- A third session

  lemma PackedOnce(ca: Config, cb: Config, cc: Config, value: Buf)
    requires Replication.Paired(ca, cb) && Replication.Paired(ca, cc)
    ensures IsPacked(cb, Payload(ca, value), value) && Unpack(cc, Payload(ca, value)) == Some(value)
  {
    Replication.UnpackPayload(ca, cb, value);
    Replication.UnpackPayload(ca, cc, value);
  }

  /**
   * B has A's next block from A and keeps it in its cache. C, which trusts A and not B, and has A's log up to that
   * block, takes it from B, whatever has happened to B since.
   */
  lemma ThirdSessionTakesIt(ca: Config, cb: Config, cc: Config, log: seq<Buf>, b: State, m: Msg,
                            actions: seq<BlockService.Action>, c: State)
    requires Replication.Paired(ca, cb) && Replication.Paired(ca, cc)
    requires |log| < Replication.MAX_LOG && Replication.AllFit(ca, log)
    requires m.Data? && Replication.GoodFromA(ca, log, m)
    requires b.log == c.log == log[..m.index] && b.repo.Some? && Replication.CacheFits(cb, b.repo)
    ensures var t := BlockService.RunActions(b, [BlockService.Replicated(cb, Encode(m))] + actions);
      var o := OnFrame(cb, t, Encode(Request(m.index)));
      && o.alive && |o.sent| == 1
      && OnFrame(cc, c, Encode(o.sent[0])).alive
      && OnFrame(cc, c, Encode(o.sent[0])).state.log == log[..m.index + 1]
  {
    var value := log[m.index];
    var a := BlockService.Replicated(cb, Encode(m));
    var t := BlockService.RunActions(b, [a] + actions);
    HonestStore(ca, cb, log, b, m);
    assert |value| < U32 && |m.signature| == 64 && 17 + |m.value| + 64 <= cb.frameLimit <= MAX_MESSAGE_SIZE by {
      assert Replication.Fits(ca, value, 64);
    }
    PackedOnce(ca, cb, cc, value);
    ServedAfterRun(b, a, actions, cb, value, m.signature);
    FittingAnswer(cb, t, m.index, value, m.signature, m.value);
    TakenByC(ca, cc, log, c, m);
    hide *;
  }

  lemma ServedAfterRun(st: State, a: BlockService.Action, actions: seq<BlockService.Action>, cfg: Config,
                       value: Buf, sig: Buf)
    requires Stores(st, a, cfg.feedKey, value, sig) && st.repo.Some? && |value| < U32 && |sig| < U32
    ensures Entry(BlockService.RunActions(st, [a] + actions), cfg.feedKey, |st.log|, value, sig)
  {
    hide Stores, Entry, BlockService.Act;
    StoredAsEntry(st, a, cfg.feedKey, value, sig);
    RunKeepsEntry(BlockService.Act(st, a), actions, cfg.feedKey, |st.log|, value, sig);
    assert ([a] + actions)[1..] == actions;
  }

  /** B accepts the frame and stores what it carries. */
  lemma HonestStore(ca: Config, cb: Config, log: seq<Buf>, b: State, m: Msg)
    requires Replication.Paired(ca, cb) && |log| < Replication.MAX_LOG && Replication.AllFit(ca, log)
    requires m.Data? && Replication.GoodFromA(ca, log, m) && b.log == log[..m.index]
    requires Replication.CacheFits(cb, b.repo)
    ensures Stores(b, BlockService.Replicated(cb, Encode(m)), cb.feedKey, log[m.index], m.signature)
  {
    Replication.FromAIsReadable(ca, cb, log, m);
    Replication.ReadByB(ca, cb, log, b, m);
    Replication.UnpackPayload(ca, cb, log[m.index]);
    RoundTrip(m);
    assert Encode(m)[0] == 5;
    hide OnFrame, Encode, Replication.Paired, Replication.AllFit, Replication.CacheFits, Payload, Unpack, Decode;
  }

  lemma TakenByC(ca: Config, cc: Config, log: seq<Buf>, c: State, m: Msg)
    requires Replication.Paired(ca, cc) && |log| < Replication.MAX_LOG && Replication.AllFit(ca, log)
    requires m.Data? && Replication.GoodFromA(ca, log, m) && c.log == log[..m.index]
    ensures var o := OnFrame(cc, c, Encode(m)); o.alive && o.state.log == log[..m.index + 1]
  {
    hide OnFrame, Encode, Encodable, TreeHash, Unpack, Payload, Replication.Paired, Replication.AllFit;
    Replication.FromAIsReadable(ca, cc, log, m);
    Replication.OnEncoded(cc, c, m);
    Replication.UnpackPayload(ca, cc, log[m.index]);
    assert log[..m.index] + [log[m.index]] == log[..m.index + 1];
    Replication.SignatureIsAccepted(ca, cc, log[..m.index + 1]);
  }

  // ----- The local socket

  /** The log answers first, and the cache of the named feed past its end. */
  lemma CacheAnswersPastTheLog(st: State, repo: Repo, name: Buf, i: nat, value: Buf, sig: Buf)
    requires |value| < U32 && |sig| < U32
    ensures var feed := if name == [] then [100, 101, 102, 97, 117, 108, 116, 95, 102, 101, 101, 100] else name;
      var t := st.(repo := Some(repo[(feed, i) := EncodeBlock(value, sig)]));
      BlockService.Lookup(t, name, i) == Some(if i < |st.log| then st.log[i] else value)
  {
    BlockRoundTrip(value, sig);
    hide DecodeBlock, EncodeBlock;
  }
}
