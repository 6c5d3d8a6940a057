/** One side of a replication session (pkg/hypercore/sync.go). */
module Session {
  import opened Bytes
  import opened Merkle
  import opened Wire
  import opened BlockRepo
  import Storage

  /** The library functions a session calls, kept arbitrary; keys are fixed inside `sign` and `verify`. */
  datatype Env = Env(
    hash: HashFn,
    sign: Digest -> Buf,
    verify: (Digest, Buf) -> bool,
    compress: Buf -> Option<Buf>,
    decompress: Buf -> Option<Buf>)

  /** `frameLimit` is the largest frame the connection takes; writing a larger one fails. */
  datatype Config = Config(env: Env, feedKey: Buf, deflate: bool, frameLimit: nat)

  /** What outlives a frame: the log, and the block cache when there is one. */
  datatype State = State(log: seq<Buf>, repo: Option<Repo>)

  /** The state after a frame, the messages written for it, and whether the read loop goes on. */
  datatype Outcome = Outcome(state: State, sent: seq<Msg>, alive: bool)

  const WANT_WINDOW: nat := 1_000_000

  // ----- Sending

  function Payload(cfg: Config, value: Buf): Buf {
    if cfg.deflate && |value| > 10 then
      match cfg.env.compress(value)
      case Some(c) => [1] + c
      case None => value
    else if cfg.deflate then [0] + value
    else value
  }

  function BlockToSend(cfg: Config, st: State, i: nat): Option<(Buf, Buf)> {
    var cached := if st.repo.Some? then GetBlock(st.repo.value, cfg.feedKey, i) else None;
    if cached.Some? then cached
    else if i < |st.log| then Some((st.log[i], cfg.env.sign(TreeHash(cfg.env.hash, st.log[..i + 1]))))
    else None
  }

  /** The answer to a request for block `i`: one Data message, or nothing. */
  function DataFor(cfg: Config, st: State, i: nat): seq<Msg> {
    match BlockToSend(cfg, st, i)
    case Some((value, sig)) => [Data(i, Payload(cfg, value), sig)]
    case None => []
  }

  function DataForRange(cfg: Config, st: State, i: nat, end: nat): seq<Msg>
    decreases end - i
  {
    if i < end then DataFor(cfg, st, i) + DataForRange(cfg, st, i + 1, end) else []
  }

  function Requests(i: nat, end: nat): seq<Msg>
    decreases end - i
  {
    if i < end then [Request(i)] + Requests(i + 1, end) else []
  }

  /** The end of a wanted range, with the sum wrapping at 64 bits, cut at the local length. */
  function WantEnd(start: nat, length: nat, localLen: nat): nat {
    var end := (start + length) % U64;
    if end < localLen then end else localLen
  }

  /** The messages that the connection takes, up to the first that is too large: its write fails. */
  function Accepted(limit: nat, ms: seq<Msg>): (taken: seq<Msg>)
    ensures taken <= ms
  {
    if ms == [] || |Encode(ms[0])| > limit then [] else [ms[0]] + Accepted(limit, ms[1..])
  }

  lemma AcceptedHead(limit: nat, ms: seq<Msg>)
    requires ms != []
    ensures Accepted(limit, ms) == if |Encode(ms[0])| <= limit then [ms[0]] + Accepted(limit, ms[1..]) else []
  {
    hide Encode;
  }

  lemma AfterHead<T>(a: seq<T>, b: seq<T>, ta: seq<T>, tb: seq<T>)
    requires a != []
    ensures (a + b)[0] == a[0] && (a + b)[1..] == a[1..] + b && a + b != []
    ensures [a[0]] + (a[1..] + tb) == a + tb
    ensures [a[0]] + ta == a <==> ta == a[1..]
  {
    SameFront([a[0]], ta, a[1..]);
  }

  lemma {:induction false} AcceptedConcat(limit: nat, a: seq<Msg>, b: seq<Msg>)
    ensures Accepted(limit, a + b) == if Accepted(limit, a) == a then a + Accepted(limit, b) else Accepted(limit, a)
  {
    if a == [] {
      assert a + b == b;
      assert [] + Accepted(limit, b) == Accepted(limit, b);
    } else {
      hide Encode, Accepted;
      AfterHead(a, b, Accepted(limit, a[1..]), Accepted(limit, b));
      AcceptedHead(limit, a);
      AcceptedHead(limit, a + b);
      AcceptedConcat(limit, a[1..], b);
    }
  }

  /** Nothing is refused exactly when every frame is within the limit. */
  lemma {:induction false} AcceptedExactly(limit: nat, ms: seq<Msg>)
    ensures Accepted(limit, ms) == ms <==> forall i | 0 <= i < |ms| :: |Encode(ms[i])| <= limit
  {
    hide Encode;
    if ms != [] {
      AcceptedExactly(limit, ms[1..]);
      if forall i | 0 <= i < |ms[1..]| :: |Encode(ms[1..][i])| <= limit {
      } else {
        var i :| 0 <= i < |ms[1..]| && |Encode(ms[1..][i])| > limit;
        assert ms[i + 1] == ms[1..][i];
      }
    }
  }

  /** The outcome of answering with `ms`: the read loop ends when one of them is refused. */
  function Writing(cfg: Config, st: State, ms: seq<Msg>): Outcome {
    Outcome(st, Accepted(cfg.frameLimit, ms), Accepted(cfg.frameLimit, ms) == ms)
  }

  /** Below 2^64 each, start and length are added without or with one wrap. */
  lemma WantEndWraps(start: nat, length: nat, localLen: nat)
    requires start < U64 && length < U64
    ensures var end := if start + length < U64 then start + length else start + length - U64;
      WantEnd(start, length, localLen) == if end < localLen then end else localLen
  {
  }

  // ----- Receiving

  function Unpack(cfg: Config, v: Buf): Option<Buf> {
    if cfg.deflate && |v| > 0 then
      if v[0] == 1 then cfg.env.decompress(v[1..])
      else if v[0] == 0 then Some(v[1..])
      else Some(v)
    else Some(v)
  }

  function OnData(cfg: Config, st: State, index: nat, packed: Buf, sig: Buf): Outcome {
    match Unpack(cfg, packed)
    case None => Outcome(st, [], false)
    case Some(value) =>
      if index != |st.log| then Outcome(st, [], true)
      else if !cfg.env.verify(TreeHash(cfg.env.hash, st.log + [value]), sig) then Outcome(st, [], false)
      else Outcome(Accept(cfg, st, index, value, sig), [], true)
  }

  function Accept(cfg: Config, st: State, index: nat, value: Buf, sig: Buf): State {
    State(st.log + [value],
          match st.repo
          case None => None
          case Some(repo) => Some(PutBlock(repo, cfg.feedKey, index, value, sig)))
  }

  /** One turn of the read loop, from the bytes of a frame. */
  function OnFrame(cfg: Config, st: State, frame: Buf): Outcome {
    if |frame| > MAX_MESSAGE_SIZE then Outcome(st, [], false)
    else if |frame| < 1 then Outcome(st, [], true)
    else if frame[0] == 2 then
      match DecodeHave(frame)
      case None => Outcome(st, [], false)
      case Some(m) => Writing(cfg, st, Requests(|st.log|, m.length))
    else if frame[0] == 3 then
      match DecodeWant(frame)
      case None => Outcome(st, [], false)
      case Some(m) => Writing(cfg, st, DataForRange(cfg, st, m.start, WantEnd(m.start, m.length, |st.log|)))
    else if frame[0] == 4 then
      match DecodeRequest(frame)
      case None => Outcome(st, [], false)
      case Some(m) => Writing(cfg, st, DataFor(cfg, st, m.index))
    else if frame[0] == 5 then
      match DecodeData(frame)
      case None => Outcome(st, [], false)
      case Some(m) => OnData(cfg, st, m.index, m.value, m.signature)
    else Outcome(st, [], true)
  }

  /** The opening messages of a session, after the handshake. */
  function Greeting(st: State): seq<Msg> {
    [Have(0, |st.log|), Want(|st.log|, WANT_WINDOW)]
  }

  /** A frame changes the log only by adding one block at its end. */
  lemma LogGrowsByOne(cfg: Config, st: State, frame: Buf)
    ensures var log' := OnFrame(cfg, st, frame).state.log;
      log' == st.log || (|log'| == |st.log| + 1 && st.log <= log')
  {
  }

  // ----- The session object

  function Frames(ms: seq<Msg>): (fs: seq<Buf>)
    ensures |fs| == |ms|
  {
    seq(|ms|, i requires 0 <= i < |ms| => Encode(ms[i]))
  }

  lemma NoFrames()
    ensures Frames([]) == []
  {
  }

  lemma FramesAppend(a: seq<Msg>, b: seq<Msg>)
    ensures Frames(a + b) == Frames(a) + Frames(b)
  {
  }

  /** Writing `ms` adds to the outbox what the connection takes of it, and succeeds if that is all. */
  predicate Wrote(cfg: Config, before: seq<Buf>, after: seq<Buf>, ms: seq<Msg>, ok: bool) {
    var taken := Accepted(cfg.frameLimit, ms);
    after == before + Frames(taken) && ok == (taken == ms)
  }

  /** After all of `sent`, the next piece is written; when it is refused, so is the rest. */
  lemma WroteNext(cfg: Config, start: seq<Buf>, before: seq<Buf>, after: seq<Buf>, sent: seq<Msg>, piece: seq<Msg>,
                  ok: bool, rest: seq<Msg>)
    requires Wrote(cfg, start, before, sent, true) && Wrote(cfg, before, after, piece, ok)
    ensures Wrote(cfg, start, after, sent + piece, ok)
    ensures !ok ==> Wrote(cfg, start, after, sent + piece + rest, false)
  {
    hide Accepted, Frames;
    AcceptedConcat(cfg.frameLimit, sent, piece);
    AcceptedConcat(cfg.frameLimit, sent + piece, rest);
    SameFront(sent, Accepted(cfg.frameLimit, piece), piece);
    FramesAppend(sent, Accepted(cfg.frameLimit, piece));
  }

  lemma WroteNothing(cfg: Config, before: seq<Buf>)
    ensures Wrote(cfg, before, before, [], true)
  {
  }

  /** `sent` answers the part of a wanted range below `i`. */
  ghost predicate SentSoFar(cfg: Config, st: State, start: nat, i: nat, stop: nat, sent: seq<Msg>) {
    sent + DataForRange(cfg, st, i, stop) == DataForRange(cfg, st, start, stop)
  }

  lemma SendStarts(cfg: Config, st: State, start: nat, stop: nat)
    ensures SentSoFar(cfg, st, start, start, stop, [])
  {
  }

  lemma SendEnds(cfg: Config, st: State, start: nat, i: nat, stop: nat, sent: seq<Msg>)
    requires i >= stop && SentSoFar(cfg, st, start, i, stop, sent)
    ensures sent == DataForRange(cfg, st, start, stop)
  {
  }

  lemma SendOneMore(cfg: Config, st: State, start: nat, i: nat, stop: nat, sent: seq<Msg>)
    requires i < stop && SentSoFar(cfg, st, start, i, stop, sent)
    ensures SentSoFar(cfg, st, start, i + 1, stop, sent + DataFor(cfg, st, i))
  {
  }

  lemma RequestsHead(i: nat, end: nat, sent: seq<Msg>)
    requires i < end
    ensures sent + Requests(i, end) == sent + [Request(i)] + Requests(i + 1, end)
  {
  }

  lemma NoRequests(i: nat, end: nat, sent: seq<Msg>)
    requires i >= end
    ensures sent + Requests(i, end) == sent && Requests(i, end) == []
  {
  }

  class SyncSession {
    const cfg: Config
    const store: Storage.Store
    var repo: Option<Repo>
    /** Frames handed to the connection so far. */
    var outbox: seq<Buf>

    ghost predicate Valid()
      reads this, store
    {
      store.Valid()
    }

    ghost function Abstract(): State
      requires Valid()
      reads this, store
    {
      State(store.Contents(), repo)
    }

    constructor (cfg: Config, store: Storage.Store, repo: Option<Repo>)
      requires store.Valid()
      ensures Valid() && this.cfg == cfg && this.store == store && this.repo == repo && outbox == []
    {
      this.cfg, this.store, this.repo, this.outbox := cfg, store, repo, [];
    }

    method WriteFrame(m: Msg) returns (ok: bool)
      modifies this`outbox
      ensures Wrote(cfg, old(outbox), outbox, [m], ok)
    {
      var frame := Encode(m);
      ok := |frame| <= cfg.frameLimit;
      assert Accepted(cfg.frameLimit, [m]) == if ok then [m] else [];
      if ok {
        outbox := outbox + [frame];
      }
    }

    /** The part of Run after the handshake: announce the local length and ask for what is missing. */
    method Greet() returns (ok: bool)
      requires Valid()
      modifies this`outbox
      ensures Valid() && Wrote(cfg, old(outbox), outbox, Greeting(Abstract()), ok)
    {
      var localLen := store.Len();
      ghost var have, want := [Have(0, localLen)], [Want(localLen, WANT_WINDOW)];
      assert have + want == Greeting(Abstract());
      hide Wrote;
      WroteNothing(cfg, outbox);
      ok := WriteFrame(Have(0, localLen));
      ghost var first := outbox;
      if ok {
        ok := WriteFrame(Want(localLen, WANT_WINDOW));
        WroteNext(cfg, old(outbox), first, outbox, have, want, ok, []);
      } else {
        assert [] + have + want == have + want && [] + have == have;
        WroteNext(cfg, old(outbox), old(outbox), outbox, [], have, ok, want);
      }
    }

    method NotifyHave(length: nat) returns (ok: bool)
      modifies this`outbox
      ensures Wrote(cfg, old(outbox), outbox, [Have(0, length)], ok)
    {
      ok := WriteFrame(Have(0, length));
    }

    /** The first `n` blocks of the log, as the program loads them for a root hash. */
    method LoadLeaves(n: nat) returns (leaves: seq<Buf>)
      requires Valid() && n <= |store.Contents()|
      ensures leaves == store.Contents()[..n]
    {
      leaves := [];
      for i := 0 to n
        invariant leaves == store.Contents()[..i]
      {
        var val := store.Get(i);
        leaves := leaves + [val.value];
      }
    }

    method SendBlockData(index: nat) returns (ok: bool)
      requires Valid()
      modifies this`outbox
      ensures Valid() && Wrote(cfg, old(outbox), outbox, DataFor(cfg, Abstract(), index), ok)
    {
      hide GetBlock, TreeHash, Frames, Payload, Encode;
      NoFrames();
      var found: Option<(Buf, Buf)> := None;
      if repo.Some? {
        found := GetBlock(repo.value, cfg.feedKey, index);
      }
      if found.None? {
        var value := store.Get(index);
        if value.None? {
          return true;
        }
        var leaves := LoadLeaves(index + 1);
        var root := ComputeRootHash(cfg.env.hash, leaves);
        found := Some((value.value, cfg.env.sign(root.digest)));
      }
      var (value, sig) := found.value;
      ok := WriteFrame(Data(index, Payload(cfg, value), sig));
    }

    /** Stops at the first block whose frame is refused. */
    method SendWanted(start: nat, length: nat) returns (ok: bool)
      requires Valid()
      modifies this`outbox
      ensures Valid()
      ensures var stop := WantEnd(start, length, |store.Contents()|);
        Wrote(cfg, old(outbox), outbox, DataForRange(cfg, Abstract(), start, stop), ok)
    {
      hide DataFor, DataForRange, SentSoFar, Wrote;
      var localLen := store.Len();
      ghost var st, stop := Abstract(), WantEnd(start, length, localLen);
      ghost var sent: seq<Msg> := [];
      WroteNothing(cfg, outbox);
      SendStarts(cfg, st, start, stop);
      var i, end := start, (start + length) % U64;
      while i < end && i < localLen
        invariant Valid() && Abstract() == st && start <= i
        invariant Wrote(cfg, old(outbox), outbox, sent, true) && SentSoFar(cfg, st, start, i, stop, sent)
        decreases localLen - i
      {
        ghost var answer, before := DataFor(cfg, st, i), outbox;
        ok := SendBlockData(i);
        SendOneMore(cfg, st, start, i, stop, sent);
        WroteNext(cfg, old(outbox), before, outbox, sent, answer, ok, DataForRange(cfg, st, i + 1, stop));
        if !ok {
          return;
        }
        sent := sent + answer;
        i := i + 1;
      }
      SendEnds(cfg, st, start, i, stop, sent);
      return true;
    }

    /** Stops at the first request that is refused. */
    method RequestMissing(length: nat) returns (ok: bool)
      requires Valid()
      modifies this`outbox
      ensures Valid() && Wrote(cfg, old(outbox), outbox, Requests(|store.Contents()|, length), ok)
    {
      hide Wrote, Requests;
      var localLen := store.Len();
      ghost var sent: seq<Msg> := [];
      WroteNothing(cfg, outbox);
      if length > localLen {
        for i := localLen to length
          invariant Valid()
          invariant Wrote(cfg, old(outbox), outbox, sent, true)
          invariant sent + Requests(i, length) == Requests(localLen, length)
        {
          ghost var before := outbox;
          ok := WriteFrame(Request(i));
          RequestsHead(i, length, sent);
          WroteNext(cfg, old(outbox), before, outbox, sent, [Request(i)], ok, Requests(i + 1, length));
          if !ok {
            return;
          }
          sent := sent + [Request(i)];
        }
      }
      NoRequests(if length > localLen then length else localLen, length, sent);
      return true;
    }

    /** The data file has room for whatever this frame may append. */
    ghost predicate RoomFor(frame: Buf)
      requires Valid()
      reads this, store
    {
      var log' := OnFrame(cfg, Abstract(), frame).state.log;
      log' != store.Contents() ==> |store.dataF| + |log'[|log'| - 1]| < Storage.MAX_FILE
    }

    /** The Data branch of the read loop. */
    method ReceiveData(index: nat, packed: Buf, sig: Buf) returns (alive: bool)
      requires Valid()
      requires var log' := OnData(cfg, Abstract(), index, packed, sig).state.log;
        log' != store.Contents() ==> |store.dataF| + |log'[|log'| - 1]| < Storage.MAX_FILE
      modifies this, store
      ensures Valid() && outbox == old(outbox)
      ensures var o := OnData(cfg, old(Abstract()), index, packed, sig);
        Abstract() == o.state && alive == o.alive
    {
      var value := Unpack(cfg, packed);
      if value.None? {
        return false;
      }
      var expectedIndex := store.Len();
      if index != expectedIndex {
        return true;
      }
      var leaves := LoadLeaves(expectedIndex);
      assert leaves == store.Contents();
      leaves := leaves + [value.value];
      var root := ComputeRootHash(cfg.env.hash, leaves);
      if !cfg.env.verify(root.digest, sig) {
        return false;
      }
      assert leaves != store.Contents();
      store.Append(value.value);
      if repo.Some? {
        repo := Some(PutBlock(repo.value, cfg.feedKey, index, value.value, sig));
      }
      return true;
    }

    /** One turn of the read loop. */
    method HandleFrame(frame: Buf) returns (alive: bool)
      requires Valid() && RoomFor(frame)
      modifies this, store
      ensures Valid()
      ensures var o := OnFrame(cfg, old(Abstract()), frame);
        Abstract() == o.state && alive == o.alive && outbox == old(outbox) + Frames(o.sent)
    {
      assert Frames([]) == [];
      if |frame| > MAX_MESSAGE_SIZE {
        return false;
      }
      if |frame| < 1 {
        return true;
      }
      if frame[0] == 2 {
        var have := DecodeHave(frame);
        if have.None? { return false; }
        alive := RequestMissing(have.value.length);
      } else if frame[0] == 3 {
        var want := DecodeWant(frame);
        if want.None? { return false; }
        alive := SendWanted(want.value.start, want.value.length);
      } else if frame[0] == 4 {
        var req := DecodeRequest(frame);
        if req.None? { return false; }
        alive := SendBlockData(req.value.index);
      } else if frame[0] == 5 {
        var data := DecodeData(frame);
        if data.None? { return false; }
        alive := ReceiveData(data.value.index, data.value.value, data.value.signature);
      } else {
        alive := true;
      }
    }
  }
}
