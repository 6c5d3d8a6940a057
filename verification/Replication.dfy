/**
 * Two sessions connected by two FIFO queues (pkg/hypercore/sync.go): A writes the log, B replicates it.
 * Every queued message crosses the wire as the bytes of its frame.
 */
module Replication {
  import opened Bytes
  import opened Merkle
  import opened Wire
  import opened BlockRepo
  import opened Session

  /** Slice lengths are signed 64-bit in the program. */
  const MAX_LOG: nat := 0x8000_0000_0000_0000

  const SIGNATURE_SIZE: nat := 64

  /** The connection takes every message but Data whatever its content, and nothing that the reader would refuse. */
  predicate LimitOk(cfg: Config) { 17 <= cfg.frameLimit <= MAX_MESSAGE_SIZE }

  /** A's and B's keys belong together, zlib is invertible, and both negotiated the same extensions. */
  ghost predicate Paired(ca: Config, cb: Config) {
    && ca.deflate == cb.deflate && ca.frameLimit == cb.frameLimit && LimitOk(ca)
    && (forall x :: ca.env.hash(x) == cb.env.hash(x))
    && (forall d :: cb.env.verify(d, ca.env.sign(d)))
    && (forall d :: |ca.env.sign(d)| == SIGNATURE_SIZE && |cb.env.sign(d)| == SIGNATURE_SIZE)
    && (forall v :: ca.env.compress(v).Some? && ca.env.compress(v) == cb.env.compress(v))
    && (forall v :: ca.env.decompress(ca.env.compress(v).value) == Some(v))
    && (forall v :: cb.env.decompress(ca.env.compress(v).value) == Some(v))
  }

  /** The connection takes the Data frame of this block and signature. */
  predicate Fits(cfg: Config, value: Buf, sigLen: nat) {
    17 + |Payload(cfg, value)| + sigLen <= cfg.frameLimit && |value| < U32
  }

  predicate AllFit(cfg: Config, log: seq<Buf>) {
    forall i | 0 <= i < |log| :: Fits(cfg, log[i], SIGNATURE_SIZE)
  }

  /** Whatever the cache returns for this feed can be sent in one frame. */
  ghost predicate CacheFits(cfg: Config, repo: Option<Repo>) {
    repo.Some? ==>
      forall i: nat | GetBlock(repo.value, cfg.feedKey, i).Some? ::
        var (v, s) := GetBlock(repo.value, cfg.feedKey, i).value; Fits(cfg, v, |s|)
  }

  datatype Net = Net(
    a: State, b: State,
    aUp: bool, bUp: bool,
    aAlive: bool, bAlive: bool,
    ab: seq<Msg>, ba: seq<Msg>,
    announced: nat,  // history: the largest length A has put in a Have
    wanted: nat)     // history: the largest length B has read in one of them

  datatype Event =
    | GreetA | GreetB
    | AppendA(block: Buf)
    | NotifyA(length: nat) | NotifyB(length: nat)
    | DeliverToA | DeliverToB

  predicate Delivery(e: Event) { e.DeliverToA? || e.DeliverToB? }

  function Max(x: nat, y: nat): nat { if x < y then y else x }

  predicate Enabled(ca: Config, s: Net, e: Event) {
    match e
    case GreetA => !s.aUp
    case GreetB => !s.bUp
    case AppendA(block) => |s.a.log| + 1 < MAX_LOG && Fits(ca, block, SIGNATURE_SIZE)
    case NotifyA(n) => n <= |s.a.log|
    case NotifyB(n) => n <= |s.b.log|
    case DeliverToA => s.aUp && s.aAlive && s.ba != []
    case DeliverToB => s.bUp && s.bAlive && s.ab != []
  }

  /** Greetings and announcements are 17 bytes long, which every connection here takes (`LimitOk`). */
  function Apply(ca: Config, cb: Config, s: Net, e: Event): Net
    requires Enabled(ca, s, e)
  {
    match e
    case GreetA => s.(aUp := true, ab := s.ab + Greeting(s.a), announced := Max(s.announced, |s.a.log|))
    case GreetB => s.(bUp := true, ba := s.ba + Greeting(s.b))
    case AppendA(block) => s.(a := s.a.(log := s.a.log + [block]))
    case NotifyA(n) => s.(ab := s.ab + [Have(0, n)], announced := Max(s.announced, n))
    case NotifyB(n) => s.(ba := s.ba + [Have(0, n)])
    case DeliverToA =>
      var o := OnFrame(ca, s.a, Encode(s.ba[0]));
      s.(a := o.state, aAlive := o.alive, ba := s.ba[1..], ab := s.ab + o.sent)
    case DeliverToB =>
      var o := OnFrame(cb, s.b, Encode(s.ab[0]));
      s.(b := o.state, bAlive := o.alive, ab := s.ab[1..], ba := s.ba + o.sent,
         wanted := if s.ab[0].Have? then Max(s.wanted, s.ab[0].length) else s.wanted)
  }

  predicate CanRun(ca: Config, cb: Config, s: Net, es: seq<Event>)
    decreases |es|
  {
    es == [] || (Enabled(ca, s, es[0]) && CanRun(ca, cb, Apply(ca, cb, s, es[0]), es[1..]))
  }

  function Run(ca: Config, cb: Config, s: Net, es: seq<Event>): Net
    requires CanRun(ca, cb, s, es)
    decreases |es|
  {
    if es == [] then s else Run(ca, cb, Apply(ca, cb, s, es[0]), es[1..])
  }

  /** A keeps flat files only; B's log is a prefix of A's; nothing has been sent. */
  ghost predicate Init(ca: Config, cb: Config, s: Net) {
    && s.a.repo.None? && s.b.log <= s.a.log && |s.a.log| < MAX_LOG
    && AllFit(ca, s.a.log) && CacheFits(cb, s.b.repo)
    && !s.aUp && !s.bUp && s.aAlive && s.bAlive
    && s.ab == [] && s.ba == [] && s.announced == 0 && s.wanted == 0
  }

  // ----- What is still on its way to B

  /** Block numbers carried by queued Data messages. */
  function DataIndices(ms: seq<Msg>): seq<nat> {
    if ms == [] then []
    else (if ms[0].Data? then [ms[0].index] else []) + DataIndices(ms[1..])
  }

  /** Block numbers asked for by queued Request messages. */
  function RequestIndices(ms: seq<Msg>): seq<nat> {
    if ms == [] then []
    else (if ms[0].Request? then [ms[0].index] else []) + RequestIndices(ms[1..])
  }

  /** The length a log of length `n` reaches when Data for these block numbers arrives in this order. */
  function Fill(n: nat, indices: seq<nat>): nat
    decreases |indices|
  {
    if indices == [] then n
    else Fill(if indices[0] == n then n + 1 else n, indices[1..])
  }

  function MaxHave(ms: seq<Msg>): nat {
    if ms == [] then 0
    else Max(if ms[0].Have? then ms[0].length else 0, MaxHave(ms[1..]))
  }

  lemma {:induction false} FillConcat(n: nat, p: seq<nat>, q: seq<nat>)
    ensures Fill(n, p + q) == Fill(Fill(n, p), q)
    decreases |p|
  {
    if p == [] {
      assert p + q == q;
    } else {
      assert (p + q)[1..] == p[1..] + q;
      FillConcat(if p[0] == n then n + 1 else n, p[1..], q);
    }
  }

  lemma {:induction false} FillMonotone(n: nat, m: nat, p: seq<nat>)
    requires n <= m
    ensures n <= Fill(n, p) <= Fill(m, p)
    decreases |p|
  {
    if p == [] {
    } else {
      FillMonotone(if p[0] == n then n + 1 else n, if p[0] == m then m + 1 else m, p[1..]);
    }
  }

  /** Extra Data in the middle of the stream never hurts. */
  lemma FillInsert(n: nat, p: seq<nat>, extra: seq<nat>, q: seq<nat>)
    ensures Fill(n, p + q) <= Fill(n, p + extra + q)
  {
    FillConcat(n, p, q);
    FillConcat(n, p + extra, q);
    FillConcat(n, p, extra);
    FillMonotone(Fill(n, p), Fill(n, p), extra);
    FillMonotone(Fill(n, p), Fill(n, p + extra), q);
  }

  lemma {:induction false} DataIndicesConcat(p: seq<Msg>, q: seq<Msg>)
    ensures DataIndices(p + q) == DataIndices(p) + DataIndices(q)
  {
    if p == [] {
      assert p + q == q;
    } else {
      assert (p + q)[0] == p[0] && (p + q)[1..] == p[1..] + q;
      DataIndicesConcat(p[1..], q);
      var head := if p[0].Data? then [p[0].index] else [];
      assert head + DataIndices(p[1..]) + DataIndices(q) == head + (DataIndices(p[1..]) + DataIndices(q));
    }
  }

  lemma {:induction false} RequestIndicesConcat(p: seq<Msg>, q: seq<Msg>)
    ensures RequestIndices(p + q) == RequestIndices(p) + RequestIndices(q)
  {
    if p == [] {
      assert p + q == q;
    } else {
      assert (p + q)[0] == p[0] && (p + q)[1..] == p[1..] + q;
      RequestIndicesConcat(p[1..], q);
      var head := if p[0].Request? then [p[0].index] else [];
      assert head + RequestIndices(p[1..]) + RequestIndices(q) == head + (RequestIndices(p[1..]) + RequestIndices(q));
    }
  }

  lemma {:induction false} MaxHaveConcat(p: seq<Msg>, q: seq<Msg>)
    ensures MaxHave(p + q) == Max(MaxHave(p), MaxHave(q))
  {
    if p == [] {
      assert p + q == q;
    } else {
      assert (p + q)[1..] == p[1..] + q;
      MaxHaveConcat(p[1..], q);
    }
  }

  /** A run of requests for everything from `i` up fills a log of length at least `i` up to `end`. */
  lemma {:induction false} RequestsFill(n: nat, i: nat, end: nat)
    requires i <= n
    ensures end <= Fill(n, RequestIndices(Requests(i, end))) || end <= i
    decreases end - i
  {
    if i < end {
      var rest := Requests(i + 1, end);
      assert Requests(i, end)[1..] == rest;
      var n' := if i == n then n + 1 else n;
      assert RequestIndices(Requests(i, end)) == [i] + RequestIndices(rest);
      assert ([i] + RequestIndices(rest))[1..] == RequestIndices(rest);
      RequestsFill(n', i + 1, end);
      FillMonotone(n', n', RequestIndices(rest));
    }
  }

  // ----- The invariant

  predicate GoodFromA(ca: Config, log: seq<Buf>, m: Msg) {
    match m
    case Have(start, n) => start == 0 && n <= |log|
    case Want(start, n) => start <= |log| && n == WANT_WINDOW
    case Data(i, v, sig) =>
      && i < |log| && v == Payload(ca, log[i])
      && sig == ca.env.sign(TreeHash(ca.env.hash, log[..i + 1]))
    case _ => false
  }

  predicate GoodFromB(ca: Config, log: seq<Buf>, m: Msg) {
    match m
    case Have(start, n) => start == 0 && n <= |log|
    case Want(start, n) => start <= |log| && n == WANT_WINDOW
    case Request(i) => i < |log|
    case Data(i, v, sig) => i < |log| && Unpack(ca, v).Some? && 17 + |v| + |sig| <= ca.frameLimit
    case _ => false
  }

  predicate AllFromA(ca: Config, log: seq<Buf>, ms: seq<Msg>) {
    forall i | 0 <= i < |ms| :: GoodFromA(ca, log, ms[i])
  }

  predicate AllFromB(ca: Config, log: seq<Buf>, ms: seq<Msg>) {
    forall i | 0 <= i < |ms| :: GoodFromB(ca, log, ms[i])
  }

  /** Safety: the logs agree, both sides run, and only well-formed messages travel. */
  ghost predicate Safe(ca: Config, cb: Config, s: Net) {
    && s.a.repo.None? && |s.a.log| < MAX_LOG && AllFit(ca, s.a.log) && CacheFits(cb, s.b.repo)
    && s.b.log <= s.a.log
    && s.aAlive && s.bAlive
    && AllFromA(ca, s.a.log, s.ab)
    && AllFromB(ca, s.a.log, s.ba)
  }

  function Pending(s: Net): seq<nat> { DataIndices(s.ab) + RequestIndices(s.ba) }

  /** Progress: what is under way takes B's log at least as far as B has heard, and the rest is still queued. */
  predicate Supplied(s: Net) {
    && s.wanted <= Fill(|s.b.log|, Pending(s))
    && s.announced <= Max(s.wanted, MaxHave(s.ab))
  }

  ghost predicate Inv(ca: Config, cb: Config, s: Net) { Safe(ca, cb, s) && Supplied(s) }

  // ----- One message at a time

  /** What a session writes for a decoded message, as far as the connection takes it. */
  function Answer(cfg: Config, st: State, m: Msg): seq<Msg> {
    match m
    case Have(_, n) => Requests(|st.log|, n)
    case Want(start, n) => DataForRange(cfg, st, start, WantEnd(start, n, |st.log|))
    case Request(i) => DataFor(cfg, st, i)
    case _ => []
  }

  /** What a session does on a decoded message. */
  function React(cfg: Config, st: State, m: Msg): Outcome {
    if m.Data? then OnData(cfg, st, m.index, m.value, m.signature) else Writing(cfg, st, Answer(cfg, st, m))
  }

  /** Reading the bytes of a well-formed frame acts on the message it encodes. */
  lemma OnEncoded(cfg: Config, st: State, m: Msg)
    requires Encodable(m) && |Encode(m)| <= MAX_MESSAGE_SIZE && !m.Handshake?
    ensures OnFrame(cfg, st, Encode(m)) == React(cfg, st, m)
  {
    RoundTrip(m);
  }

  lemma FromAIsReadable(ca: Config, cb: Config, log: seq<Buf>, m: Msg)
    requires Paired(ca, cb) && |log| < MAX_LOG && AllFit(ca, log) && GoodFromA(ca, log, m)
    ensures Encodable(m) && |Encode(m)| <= ca.frameLimit <= MAX_MESSAGE_SIZE && !m.Handshake?
  {
    if m.Data? {
      assert Fits(ca, log[m.index], SIGNATURE_SIZE);
    }
  }

  lemma FromBIsReadable(ca: Config, log: seq<Buf>, m: Msg)
    requires |log| < MAX_LOG && GoodFromB(ca, log, m) && LimitOk(ca)
    ensures Encodable(m) && |Encode(m)| <= ca.frameLimit <= MAX_MESSAGE_SIZE && !m.Handshake?
  {
  }

  /** Well-formed answers are never refused by the connection. */
  lemma FromAIsAccepted(ca: Config, cb: Config, log: seq<Buf>, ms: seq<Msg>)
    requires Paired(ca, cb) && |log| < MAX_LOG && AllFit(ca, log) && AllFromA(ca, log, ms)
    ensures Accepted(ca.frameLimit, ms) == ms
  {
    hide GoodFromA, AllFit, Encode, Encodable, Paired;
    forall i | 0 <= i < |ms|
      ensures |Encode(ms[i])| <= ca.frameLimit
    {
      FromAIsReadable(ca, cb, log, ms[i]);
    }
    AcceptedExactly(ca.frameLimit, ms);
  }

  lemma FromBIsAccepted(ca: Config, cb: Config, log: seq<Buf>, ms: seq<Msg>)
    requires Paired(ca, cb) && |log| < MAX_LOG && AllFromB(ca, log, ms)
    ensures Accepted(cb.frameLimit, ms) == ms
  {
    assert cb.frameLimit == ca.frameLimit && LimitOk(ca);
    hide GoodFromB, Encode, Encodable, Paired;
    forall i | 0 <= i < |ms|
      ensures |Encode(ms[i])| <= ca.frameLimit
    {
      FromBIsReadable(ca, log, ms[i]);
    }
    AcceptedExactly(ca.frameLimit, ms);
  }

  lemma UnpackPayload(ca: Config, cb: Config, v: Buf)
    requires Paired(ca, cb)
    ensures Unpack(cb, Payload(ca, v)) == Some(v)
    ensures Unpack(ca, Payload(cb, v)) == Some(v)
    ensures Payload(ca, v) == Payload(cb, v)
  {
    if ca.deflate && |v| > 10 {
      var c := ca.env.compress(v).value;
      assert ([1] + c)[1..] == c;
    } else if ca.deflate {
      assert ([0] + v)[1..] == v;
    }
  }

  lemma {:induction false} SameTreeHash(h: HashFn, g: HashFn, leaves: seq<Buf>)
    requires leaves != [] && forall x :: h(x) == g(x)
    ensures TreeHash(h, leaves) == TreeHash(g, leaves)
    decreases |leaves|
  {
    if |leaves| == 1 {
    } else {
      var k := SplitPoint(|leaves|);
      SameTreeHash(h, g, leaves[..k]);
      SameTreeHash(h, g, leaves[k..]);
    }
  }

  predicate OnlyData(ms: seq<Msg>) { forall k | 0 <= k < |ms| :: ms[k].Data? }

  lemma {:induction false} NoDataNoIndices(ms: seq<Msg>)
    requires forall k | 0 <= k < |ms| :: !ms[k].Data?
    ensures DataIndices(ms) == []
  {
    if ms != [] {
      NoDataNoIndices(ms[1..]);
    }
  }

  lemma {:induction false} NoRequestsNoIndices(ms: seq<Msg>)
    requires forall k | 0 <= k < |ms| :: !ms[k].Request?
    ensures RequestIndices(ms) == []
  {
    if ms != [] {
      NoRequestsNoIndices(ms[1..]);
    }
  }

  lemma {:induction false} OnlyDataNoHave(ms: seq<Msg>)
    requires OnlyData(ms)
    ensures MaxHave(ms) == 0
  {
    if ms != [] {
      OnlyDataNoHave(ms[1..]);
    }
  }

  lemma RangeHead(cfg: Config, st: State, i: nat, end: nat)
    ensures DataForRange(cfg, st, i, end) ==
      if i < end then DataFor(cfg, st, i) + DataForRange(cfg, st, i + 1, end) else []
  {
    hide DataFor;
  }

  lemma AnswerFromA(ca: Config, st: State, i: nat)
    requires st.repo.None? && i < |st.log|
    ensures |DataFor(ca, st, i)| == 1 && DataFor(ca, st, i)[0].Data? && GoodFromA(ca, st.log, DataFor(ca, st, i)[0])
  {
  }

  /** What A answers from its flat files is well-formed Data. */
  lemma {:induction false} AnswersFromA(ca: Config, st: State, i: nat, end: nat)
    requires st.repo.None? && end <= |st.log|
    ensures AllFromA(ca, st.log, DataForRange(ca, st, i, end)) && OnlyData(DataForRange(ca, st, i, end))
    ensures |DataForRange(ca, st, i, end)| == if i < end then end - i else 0
    decreases end - i
  {
    hide DataForRange, DataFor, GoodFromA;
    RangeHead(ca, st, i, end);
    if i < end {
      AnswerFromA(ca, st, i);
      AnswersFromA(ca, st, i + 1, end);
    }
  }

  lemma AnswerFromB(ca: Config, cb: Config, st: State, log: seq<Buf>, i: nat)
    requires Paired(ca, cb) && AllFit(ca, log) && CacheFits(cb, st.repo)
    requires st.log <= log && i < |st.log|
    ensures |DataFor(cb, st, i)| == 1 && DataFor(cb, st, i)[0].Data? && GoodFromB(ca, log, DataFor(cb, st, i)[0])
  {
    var (value, sig) := BlockToSend(cb, st, i).value;
    UnpackPayload(ca, cb, value);
    assert Fits(ca, log[i], SIGNATURE_SIZE);
  }

  /** What B answers is well-formed Data. */
  lemma {:induction false} AnswersFromB(ca: Config, cb: Config, st: State, log: seq<Buf>, i: nat, end: nat)
    requires Paired(ca, cb) && AllFit(ca, log) && CacheFits(cb, st.repo)
    requires st.log <= log && end <= |st.log|
    ensures AllFromB(ca, log, DataForRange(cb, st, i, end)) && OnlyData(DataForRange(cb, st, i, end))
    ensures |DataForRange(cb, st, i, end)| == if i < end then end - i else 0
    decreases end - i
  {
    hide DataForRange, DataFor, GoodFromB, AllFit, Paired, CacheFits;
    RangeHead(cb, st, i, end);
    if i < end {
      AnswerFromB(ca, cb, st, log, i);
      AnswersFromB(ca, cb, st, log, i + 1, end);
    }
  }

  lemma {:induction false} RequestsAreGood(ca: Config, log: seq<Buf>, i: nat, end: nat)
    requires end <= |log|
    ensures AllFromB(ca, log, Requests(i, end))
    ensures forall k | 0 <= k < |Requests(i, end)| :: Requests(i, end)[k].Request?
    ensures |Requests(i, end)| == if i < end then end - i else 0
    decreases end - i
  {
    if i < end {
      RequestsAreGood(ca, log, i + 1, end);
    }
  }

  lemma PutKeepsCacheFits(cfg: Config, repo: Repo, index: nat, value: Buf, sig: Buf)
    requires CacheFits(cfg, Some(repo)) && Fits(cfg, value, |sig|) && |sig| < U32
    ensures CacheFits(cfg, Some(PutBlock(repo, cfg.feedKey, index, value, sig)))
  {
    BlockRoundTrip(value, sig);
    var repo' := PutBlock(repo, cfg.feedKey, index, value, sig);
    assert GetBlock(repo', cfg.feedKey, index) == Some((value, sig));
    forall i: nat | GetBlock(repo', cfg.feedKey, i).Some?
      ensures var (v, s) := GetBlock(repo', cfg.feedKey, i).value; Fits(cfg, v, |s|)
    {
      if i != index {
        assert GetBlock(repo', cfg.feedKey, i) == GetBlock(repo, cfg.feedKey, i);
      }
    }
  }

  /** A's signature for a prefix of the log convinces B. */
  lemma SignatureIsAccepted(ca: Config, cb: Config, leaves: seq<Buf>)
    requires Paired(ca, cb) && leaves != []
    ensures cb.env.verify(TreeHash(cb.env.hash, leaves), ca.env.sign(TreeHash(ca.env.hash, leaves)))
  {
    hide TreeHash;
    SameTreeHash(ca.env.hash, cb.env.hash, leaves);
  }

  /** B accepts every Data message of A: it appends A's block when it is the next one, and ignores it otherwise. */
  lemma DataFromAIsAccepted(ca: Config, cb: Config, log: seq<Buf>, st: State, m: Msg)
    requires Paired(ca, cb) && AllFit(ca, log) && CacheFits(cb, st.repo) && st.log <= log
    requires m.Data? && GoodFromA(ca, log, m)
    ensures var o := OnData(cb, st, m.index, m.value, m.signature);
      && o.alive && o.sent == [] && CacheFits(cb, o.state.repo)
      && o.state.log == if m.index == |st.log| then log[..|st.log| + 1] else st.log
  {
    UnpackPayload(ca, cb, log[m.index]);
    assert |m.signature| == SIGNATURE_SIZE;
    assert Fits(cb, log[m.index], SIGNATURE_SIZE);
    hide Paired, CacheFits, TreeHash, Payload, Unpack, Fits, AllFit;
    if m.index == |st.log| {
      var value := log[m.index];
      assert st.log + [value] == log[..m.index + 1];
      SignatureIsAccepted(ca, cb, log[..m.index + 1]);
      match st.repo {
        case None => NoCacheFits(cb);
        case Some(repo) => PutKeepsCacheFits(cb, repo, m.index, value, m.signature);
      }
    }
  }

  lemma NoCacheFits(cfg: Config)
    ensures CacheFits(cfg, None)
  {
  }

  // ----- Deliveries come to an end

  /** How many deliveries a queued message can still cause, itself included. */
  function WeightToB(n: nat, m: Msg): nat {
    match m
    case Have(_, len) => 1 + 2 * len
    case Want(_, _) => 1 + n
    case _ => 1
  }

  function WeightToA(n: nat, m: Msg): nat {
    match m
    case Want(_, _) => 1 + n
    case Request(_) => 2
    case _ => 1
  }

  function SumToB(n: nat, ms: seq<Msg>): nat {
    if ms == [] then 0 else WeightToB(n, ms[0]) + SumToB(n, ms[1..])
  }

  function SumToA(n: nat, ms: seq<Msg>): nat {
    if ms == [] then 0 else WeightToA(n, ms[0]) + SumToA(n, ms[1..])
  }

  /** A bound on the number of deliveries still possible without new local activity. */
  function Work(s: Net): nat { SumToB(|s.a.log|, s.ab) + SumToA(|s.a.log|, s.ba) }

  lemma {:induction false} SumToBConcat(n: nat, p: seq<Msg>, q: seq<Msg>)
    ensures SumToB(n, p + q) == SumToB(n, p) + SumToB(n, q)
  {
    if p == [] {
      assert p + q == q;
    } else {
      assert (p + q)[1..] == p[1..] + q;
      SumToBConcat(n, p[1..], q);
    }
  }

  lemma {:induction false} SumToAConcat(n: nat, p: seq<Msg>, q: seq<Msg>)
    ensures SumToA(n, p + q) == SumToA(n, p) + SumToA(n, q)
  {
    if p == [] {
      assert p + q == q;
    } else {
      assert (p + q)[1..] == p[1..] + q;
      SumToAConcat(n, p[1..], q);
    }
  }

  lemma {:induction false} SumOfData(n: nat, ms: seq<Msg>)
    requires OnlyData(ms)
    ensures SumToA(n, ms) == SumToB(n, ms) == |ms|
  {
    if ms != [] {
      SumOfData(n, ms[1..]);
    }
  }

  lemma {:induction false} SumOfRequests(n: nat, ms: seq<Msg>)
    requires forall k | 0 <= k < |ms| :: ms[k].Request?
    ensures SumToA(n, ms) == 2 * |ms|
  {
    if ms != [] {
      SumOfRequests(n, ms[1..]);
    }
  }

  // ----- Reading one message

  /** A reads a message of B: it keeps its log, and answers a request with the block asked for. */
  lemma ReadByA(ca: Config, cb: Config, st: State, m: Msg)
    requires Paired(ca, cb) && st.repo.None? && |st.log| < MAX_LOG && AllFit(ca, st.log) && GoodFromB(ca, st.log, m)
    ensures var o := OnFrame(ca, st, Encode(m));
      && o.state == st && o.alive
      && AllFromA(ca, st.log, o.sent) && OnlyData(o.sent)
      && (m.Request? ==> DataIndices(o.sent) == [m.index])
      && SumToB(|st.log|, o.sent) < WeightToA(|st.log|, m)
  {
    FromBIsReadable(ca, st.log, m);
    OnEncoded(ca, st, m);
    hide OnFrame, Encode, Encodable, Payload, TreeHash, AllFit, Paired, LimitOk, Accepted, GoodFromA;
    if m.Data? {
    } else {
      var sent := Answer(ca, st, m);
      if m.Want? {
        AnswersFromA(ca, st, m.start, WantEnd(m.start, m.length, |st.log|));
      } else if m.Request? {
        AnswerFromA(ca, st, m.index);
        assert DataIndices(sent[1..]) == [];
      }
      FromAIsAccepted(ca, cb, st.log, sent);
      SumOfData(|st.log|, sent);
    }
  }

  /** B reads a message of A: it takes the next block, and asks for what it has heard of and lacks. */
  lemma ReadByB(ca: Config, cb: Config, log: seq<Buf>, st: State, m: Msg)
    requires Paired(ca, cb) && |log| < MAX_LOG && AllFit(ca, log) && CacheFits(cb, st.repo) && st.log <= log
    requires GoodFromA(ca, log, m)
    ensures var o := OnFrame(cb, st, Encode(m));
      && o.alive && CacheFits(cb, o.state.repo) && AllFromB(ca, log, o.sent)
      && o.state.log == (if m.Data? && m.index == |st.log| then log[..|st.log| + 1] else st.log)
      && (m.Have? ==> o.sent == Requests(|st.log|, m.length))
      && (!m.Have? ==> OnlyData(o.sent))
      && SumToA(|log|, o.sent) < WeightToB(|log|, m)
  {
    FromAIsReadable(ca, cb, log, m);
    OnEncoded(cb, st, m);
    if m.Data? {
      DataFromAIsAccepted(ca, cb, log, st, m);
    } else {
      AnswerFromBIsGood(ca, cb, log, st, m);
      hide OnFrame, Encode, Accepted, AllFit, Paired, CacheFits;
      FromBIsAccepted(ca, cb, log, Answer(cb, st, m));
    }
  }

  lemma AnswerFromBIsGood(ca: Config, cb: Config, log: seq<Buf>, st: State, m: Msg)
    requires Paired(ca, cb) && |log| < MAX_LOG && AllFit(ca, log) && CacheFits(cb, st.repo) && st.log <= log
    requires GoodFromA(ca, log, m) && !m.Data?
    ensures var sent := Answer(cb, st, m);
      AllFromB(ca, log, sent) && (!m.Have? ==> OnlyData(sent)) && SumToA(|log|, sent) < WeightToB(|log|, m)
  {
    var sent := Answer(cb, st, m);
    if m.Have? {
      RequestsAreGood(ca, log, |st.log|, m.length);
      SumOfRequests(|log|, sent);
    } else {
      AnswersFromB(ca, cb, st, log, m.start, WantEnd(m.start, m.length, |st.log|));
      SumOfData(|log|, sent);
    }
  }

  // ----- Every event keeps the supply

  lemma SendingAddsNoIndices(ab: seq<Msg>, ba: seq<Msg>, ab': seq<Msg>, ba': seq<Msg>)
    requires forall k | 0 <= k < |ab'| :: !ab'[k].Data?
    requires forall k | 0 <= k < |ba'| :: !ba'[k].Request?
    ensures DataIndices(ab + ab') == DataIndices(ab)
    ensures RequestIndices(ba + ba') == RequestIndices(ba)
  {
    DataIndicesConcat(ab, ab');
    RequestIndicesConcat(ba, ba');
    NoDataNoIndices(ab');
    NoRequestsNoIndices(ba');
  }

  lemma SupplyAfterSending(s: Net, ab': seq<Msg>, ba': seq<Msg>)
    requires Supplied(s)
    requires forall k | 0 <= k < |ab'| :: !ab'[k].Data?
    requires forall k | 0 <= k < |ba'| :: !ba'[k].Request?
    ensures Supplied(s.(ab := s.ab + ab', ba := s.ba + ba', announced := Max(s.announced, MaxHave(ab'))))
  {
    SendingAddsNoIndices(s.ab, s.ba, ab', ba');
    MaxHaveConcat(s.ab, ab');
  }

  lemma QueueHeads(ms: seq<Msg>)
    requires ms != []
    ensures DataIndices(ms) == (if ms[0].Data? then [ms[0].index] else []) + DataIndices(ms[1..])
    ensures RequestIndices(ms) == (if ms[0].Request? then [ms[0].index] else []) + RequestIndices(ms[1..])
    ensures MaxHave(ms) == Max(if ms[0].Have? then ms[0].length else 0, MaxHave(ms[1..]))
  {
  }

  lemma FillHead(n: nat, i: nat, rest: seq<nat>)
    ensures Fill(n, [i] + rest) == Fill(if i == n then n + 1 else n, rest)
  {
    assert ([i] + rest)[1..] == rest;
  }

  lemma SupplyAfterA(s: Net, sent: seq<Msg>)
    requires Supplied(s) && s.ba != [] && OnlyData(sent)
    requires s.ba[0].Request? ==> DataIndices(sent) == [s.ba[0].index]
    ensures Supplied(s.(ba := s.ba[1..], ab := s.ab + sent))
  {
    hide Fill, DataIndices, RequestIndices, MaxHave, OnlyData;
    var p, x, q := DataIndices(s.ab), DataIndices(sent), RequestIndices(s.ba[1..]);
    QueueHeads(s.ba);
    DataIndicesConcat(s.ab, sent);
    MaxHaveConcat(s.ab, sent);
    OnlyDataNoHave(sent);
    if s.ba[0].Request? {
      assert p + (x + q) == p + x + q;
    } else {
      assert [] + q == q;
      FillInsert(|s.b.log|, p, x, q);
    }
  }

  lemma SupplyAfterHave(s: Net)
    requires Supplied(s) && s.ab != [] && s.ab[0].Have?
    ensures Supplied(s.(ab := s.ab[1..], ba := s.ba + Requests(|s.b.log|, s.ab[0].length),
                        wanted := Max(s.wanted, s.ab[0].length)))
  {
    hide Fill, DataIndices, RequestIndices, MaxHave, Requests;
    var n, len := |s.b.log|, s.ab[0].length;
    var p, q, x := DataIndices(s.ab[1..]), RequestIndices(s.ba), RequestIndices(Requests(n, len));
    QueueHeads(s.ab);
    assert [] + p == p;
    RequestIndicesConcat(s.ba, Requests(n, len));
    assert p + (q + x) == p + q + x;
    FillConcat(n, p + q, x);
    FillMonotone(n, n, p + q);
    RequestsFill(Fill(n, p + q), n, len);
    FillMonotone(Fill(n, p + q), Fill(n, p + q), x);
  }

  lemma SupplyAfterOther(s: Net, b: State, sent: seq<Msg>)
    requires Supplied(s) && s.ab != [] && !s.ab[0].Have? && OnlyData(sent)
    requires |b.log| == if s.ab[0].Data? && s.ab[0].index == |s.b.log| then |s.b.log| + 1 else |s.b.log|
    ensures Supplied(s.(b := b, ab := s.ab[1..], ba := s.ba + sent))
  {
    NoRequestsNoIndices(sent);
    hide Fill, DataIndices, RequestIndices, MaxHave, OnlyData;
    var p, q := DataIndices(s.ab[1..]), RequestIndices(s.ba);
    QueueHeads(s.ab);
    RequestIndicesConcat(s.ba, sent);
    assert q + [] == q;
    if s.ab[0].Data? {
      var i := s.ab[0].index;
      assert [i] + p + q == [i] + (p + q);
      FillHead(|s.b.log|, i, p + q);
    } else {
      assert [] + p == p;
    }
  }

  // ----- Every event keeps the invariant

  lemma FromAMonotone(ca: Config, log: seq<Buf>, log': seq<Buf>, ms: seq<Msg>)
    requires log <= log' && AllFromA(ca, log, ms)
    ensures AllFromA(ca, log', ms)
  {
    forall i | 0 <= i < |ms|
      ensures GoodFromA(ca, log', ms[i])
    {
      assert GoodFromA(ca, log, ms[i]);
      if ms[i].Data? {
        assert log[..ms[i].index + 1] == log'[..ms[i].index + 1];
      }
    }
  }

  lemma FromBMonotone(ca: Config, log: seq<Buf>, log': seq<Buf>, ms: seq<Msg>)
    requires log <= log' && AllFromB(ca, log, ms)
    ensures AllFromB(ca, log', ms)
  {
    forall i | 0 <= i < |ms|
      ensures GoodFromB(ca, log', ms[i])
    {
      assert GoodFromB(ca, log, ms[i]);
    }
  }

  lemma AppendKeepsInv(ca: Config, cb: Config, s: Net, block: Buf)
    requires Inv(ca, cb, s) && Enabled(ca, s, AppendA(block))
    ensures Inv(ca, cb, Apply(ca, cb, s, AppendA(block)))
  {
    var s' := Apply(ca, cb, s, AppendA(block));
    FromAMonotone(ca, s.a.log, s'.a.log, s.ab);
    FromBMonotone(ca, s.a.log, s'.a.log, s.ba);
  }

  /** Greetings and announcements carry no Data and no Request. */
  lemma SendingKeepsInv(ca: Config, cb: Config, s: Net, e: Event)
    requires Inv(ca, cb, s) && Enabled(ca, s, e) && !Delivery(e) && !e.AppendA?
    ensures Inv(ca, cb, Apply(ca, cb, s, e))
  {
    hide AllFit, CacheFits, Payload, OnFrame, TreeHash, Fill, DataIndices, RequestIndices;
    match e
    case GreetA =>
      var ms := Greeting(s.a);
      assert MaxHave(ms) == |s.a.log| by { assert MaxHave(ms[1..]) == Max(0, MaxHave(ms[1..][1..])); }
      SupplyAfterSending(s, ms, []);
      assert s.ba + [] == s.ba;
    case GreetB =>
      SupplyAfterSending(s, [], Greeting(s.b));
      assert s.ab + [] == s.ab;
    case NotifyA(n) =>
      assert MaxHave([Have(0, n)]) == n;
      SupplyAfterSending(s, [Have(0, n)], []);
      assert s.ba + [] == s.ba;
    case NotifyB(n) =>
      SupplyAfterSending(s, [], [Have(0, n)]);
      assert s.ab + [] == s.ab;
  }

  lemma DeliverToAKeepsInv(ca: Config, cb: Config, s: Net)
    requires Paired(ca, cb) && Inv(ca, cb, s) && Enabled(ca, s, DeliverToA)
    ensures Inv(ca, cb, Apply(ca, cb, s, DeliverToA))
    ensures Apply(ca, cb, s, DeliverToA).a == s.a
  {
    hide CacheFits, AllFit, Payload, OnFrame;
    ReadByA(ca, cb, s.a, s.ba[0]);
    SupplyAfterA(s, OnFrame(ca, s.a, Encode(s.ba[0])).sent);
  }

  lemma DeliverToBEffect(ca: Config, cb: Config, s: Net)
    requires Enabled(ca, s, DeliverToB)
    ensures var o := OnFrame(cb, s.b, Encode(s.ab[0]));
      Apply(ca, cb, s, DeliverToB) ==
        s.(b := o.state, bAlive := o.alive, ab := s.ab[1..], ba := s.ba + o.sent,
           wanted := if s.ab[0].Have? then Max(s.wanted, s.ab[0].length) else s.wanted)
  {
    hide OnFrame;
  }

  lemma DeliverToBKeepsSafe(ca: Config, cb: Config, s: Net)
    requires Paired(ca, cb) && Safe(ca, cb, s) && Enabled(ca, s, DeliverToB)
    ensures Safe(ca, cb, Apply(ca, cb, s, DeliverToB))
  {
    hide AllFit, CacheFits, Payload, OnFrame, GoodFromB, Apply;
    DeliverToBEffect(ca, cb, s);
    ReadByB(ca, cb, s.a.log, s.b, s.ab[0]);
  }

  lemma DeliverToBKeepsInv(ca: Config, cb: Config, s: Net)
    requires Paired(ca, cb) && Inv(ca, cb, s) && Enabled(ca, s, DeliverToB)
    ensures Inv(ca, cb, Apply(ca, cb, s, DeliverToB))
  {
    DeliverToBKeepsSafe(ca, cb, s);
    DeliverToBEffect(ca, cb, s);
    ReadByB(ca, cb, s.a.log, s.b, s.ab[0]);
    assert GoodFromA(ca, s.a.log, s.ab[0]);
    hide AllFit, CacheFits, Payload, OnFrame, GoodFromB, Apply, Safe, Supplied;
    var o := OnFrame(cb, s.b, Encode(s.ab[0]));
    if s.ab[0].Have? {
      SupplyAfterHave(s);
    } else {
      SupplyAfterOther(s, o.state, o.sent);
    }
  }

  lemma EventKeepsInv(ca: Config, cb: Config, s: Net, e: Event)
    requires Paired(ca, cb) && Inv(ca, cb, s) && Enabled(ca, s, e)
    ensures Inv(ca, cb, Apply(ca, cb, s, e))
  {
    match e
    case DeliverToA => DeliverToAKeepsInv(ca, cb, s);
    case DeliverToB => DeliverToBKeepsInv(ca, cb, s);
    case AppendA(block) => AppendKeepsInv(ca, cb, s, block);
    case _ => SendingKeepsInv(ca, cb, s, e);
  }

  lemma {:induction false} RunKeepsInv(ca: Config, cb: Config, s: Net, es: seq<Event>)
    requires Paired(ca, cb) && Inv(ca, cb, s) && CanRun(ca, cb, s, es)
    ensures Inv(ca, cb, Run(ca, cb, s, es))
    decreases |es|
  {
    if es == [] {
    } else {
      EventKeepsInv(ca, cb, s, es[0]);
      RunKeepsInv(ca, cb, Apply(ca, cb, s, es[0]), es[1..]);
    }
  }

  // ----- The main results

  /** No side has anything left to read. */
  predicate Quiet(s: Net) { s.ab == [] && s.ba == [] }

  /**
   * In every run B's log is a prefix of A's and neither read loop ever stops; whenever both queues are empty
   * B holds every block A has announced.
   */
  lemma ReplicationIsCorrect(ca: Config, cb: Config, s: Net, es: seq<Event>)
    requires Paired(ca, cb) && Init(ca, cb, s) && CanRun(ca, cb, s, es)
    ensures var t := Run(ca, cb, s, es);
      && t.b.log <= t.a.log
      && t.aAlive && t.bAlive
      && (Quiet(t) ==> t.announced <= |t.b.log|)
      && (Quiet(t) && t.announced == |t.a.log| ==> t.b.log == t.a.log)
  {
    assert Pending(s) == [];
    RunKeepsInv(ca, cb, s, es);
  }

  lemma DeliveryDoesWork(ca: Config, cb: Config, s: Net, e: Event)
    requires Paired(ca, cb) && Inv(ca, cb, s) && Enabled(ca, s, e) && Delivery(e)
    ensures Work(Apply(ca, cb, s, e)) < Work(s)
    ensures Apply(ca, cb, s, e).announced == s.announced && Apply(ca, cb, s, e).a == s.a
  {
    hide CacheFits, AllFit, Payload, OnFrame;
    var n := |s.a.log|;
    if e == DeliverToA {
      ReadByA(ca, cb, s.a, s.ba[0]);
      SumToBConcat(n, s.ab, OnFrame(ca, s.a, Encode(s.ba[0])).sent);
    } else {
      ReadByB(ca, cb, s.a.log, s.b, s.ab[0]);
      SumToAConcat(n, s.ba, OnFrame(cb, s.b, Encode(s.ab[0])).sent);
    }
  }

  /**
   * Once A stops appending and announcing, deliveries run out: any sequence of them is at most `Work` long,
   * and when none is possible any more B holds everything A announced.
   */
  lemma {:induction false} DeliveriesConverge(ca: Config, cb: Config, s: Net, es: seq<Event>)
    requires Paired(ca, cb) && Inv(ca, cb, s) && s.aUp && s.bUp
    requires CanRun(ca, cb, s, es) && forall i | 0 <= i < |es| :: Delivery(es[i])
    ensures |es| <= Work(s)
    ensures var t := Run(ca, cb, s, es);
      && t.announced == s.announced && t.a == s.a
      && (!Enabled(ca, t, DeliverToA) && !Enabled(ca, t, DeliverToB) ==>
            s.announced <= |t.b.log| && t.b.log <= s.a.log)
    decreases |es|
  {
    if es == [] {
    } else {
      EventKeepsInv(ca, cb, s, es[0]);
      DeliveryDoesWork(ca, cb, s, es[0]);
      DeliveriesConverge(ca, cb, Apply(ca, cb, s, es[0]), es[1..]);
    }
  }

  // ----- Blocks over the limit

  /** The connection takes the Data frame of this block from A, whose signatures have one size. */
  predicate FrameFits(cfg: Config, value: Buf) {
    17 + |Payload(cfg, value)| + SIGNATURE_SIZE <= cfg.frameLimit
  }

  lemma BlockTaken(ca: Config, cb: Config, st: State, i: nat)
    requires Paired(ca, cb) && st.repo.None? && i < |st.log|
    ensures |DataFor(ca, st, i)| == 1
    ensures Accepted(ca.frameLimit, DataFor(ca, st, i)) == if FrameFits(ca, st.log[i]) then DataFor(ca, st, i) else []
  {
    var sent := DataFor(ca, st, i);
    assert |sent| == 1 && |Encode(sent[0])| == 17 + |Payload(ca, st.log[i])| + SIGNATURE_SIZE;
    hide Encode, Payload, DataFor;
    AcceptedHead(ca.frameLimit, sent);
    assert sent[1..] == [] && [sent[0]] + [] == sent;
  }

  lemma RangeMore(ca: Config, cb: Config, st: State, i: nat, end: nat)
    requires Paired(ca, cb) && st.repo.None? && i < end
    ensures i < |st.log| && FrameFits(ca, st.log[i]) ==>
      Accepted(ca.frameLimit, DataForRange(ca, st, i, end)) ==
        DataFor(ca, st, i) + Accepted(ca.frameLimit, DataForRange(ca, st, i + 1, end))
    ensures i < |st.log| && !FrameFits(ca, st.log[i]) ==> Accepted(ca.frameLimit, DataForRange(ca, st, i, end)) == []
  {
    hide Paired, DataForRange, DataFor, FrameFits, Accepted;
    RangeHead(ca, st, i, end);
    if i < |st.log| {
      BlockTaken(ca, cb, st, i);
      AcceptedConcat(ca.frameLimit, DataFor(ca, st, i), DataForRange(ca, st, i + 1, end));
    }
  }

  /** Ranges of the same start differ in length. */
  lemma RangeLength(ca: Config, st: State, i: nat, j: nat, end: nat)
    requires st.repo.None? && i <= j <= end <= |st.log|
    ensures DataForRange(ca, st, i, j) == DataForRange(ca, st, i, end) ==> j == end
  {
    hide DataForRange, OnlyData, AllFromA;
    AnswersFromA(ca, st, i, j);
    AnswersFromA(ca, st, i, end);
  }

  /** Of a range of blocks those before the first one over the limit are sent. */
  lemma {:induction false} RangeTaken(ca: Config, cb: Config, st: State, i: nat, end: nat) returns (j: nat)
    requires Paired(ca, cb) && st.repo.None? && i <= end <= |st.log|
    ensures i <= j <= end && (forall k | i <= k < j :: FrameFits(ca, st.log[k]))
    ensures j < end ==> !FrameFits(ca, st.log[j])
    ensures Accepted(ca.frameLimit, DataForRange(ca, st, i, end)) == DataForRange(ca, st, i, j)
    ensures DataForRange(ca, st, i, j) == DataForRange(ca, st, i, end) ==> j == end
    decreases end - i
  {
    hide Paired, DataForRange, DataFor, FrameFits, Accepted;
    j := i;
    RangeHead(ca, st, i, i);
    if i < end {
      RangeMore(ca, cb, st, i, end);
      if FrameFits(ca, st.log[i]) {
        j := RangeTaken(ca, cb, st, i + 1, end);
        RangeHead(ca, st, i, j);
      }
    } else {
      NothingTaken(ca.frameLimit);
    }
    RangeLength(ca, st, i, j, end);
  }

  lemma NothingTaken(limit: nat)
    ensures Accepted(limit, []) == []
  {
  }

  /** A reads a message that asks for something. */
  lemma AskA(ca: Config, cb: Config, s: Net, m: Msg)
    requires Enabled(ca, s, DeliverToA) && s.ba[0] == m && Encodable(m) && (m.Have? || m.Want? || m.Request?)
    ensures var ms := Answer(ca, s.a, m);
      var taken := Accepted(ca.frameLimit, ms);
      Apply(ca, cb, s, DeliverToA) == s.(aAlive := taken == ms, ba := s.ba[1..], ab := s.ab + taken)
  {
    ShortFrame(m);
    hide Apply, OnFrame, Answer, Accepted, Encode, Encodable;
    OnEncoded(ca, s.a, m);
    DeliverToAEffect(ca, cb, s);
  }

  lemma ShortFrame(m: Msg)
    requires m.Have? || m.Want? || m.Request?
    ensures |Encode(m)| <= 17
  {
  }

  lemma DeliverToAEffect(ca: Config, cb: Config, s: Net)
    requires Enabled(ca, s, DeliverToA)
    ensures var o := OnFrame(ca, s.a, Encode(s.ba[0]));
      Apply(ca, cb, s, DeliverToA) == s.(a := o.state, aAlive := o.alive, ba := s.ba[1..], ab := s.ab + o.sent)
  {
    hide OnFrame;
  }

  /**
   * The condition on block sizes is needed: asked for a block, A's read loop goes on if and only if the connection
   * takes the block's frame.
   */
  lemma RequestStopsExactly(ca: Config, cb: Config, s: Net, i: nat)
    requires Paired(ca, cb) && s.aUp && s.aAlive && s.a.repo.None? && i < |s.a.log| && |s.a.log| < MAX_LOG
    requires s.ba != [] && s.ba[0] == Request(i)
    ensures var s' := Apply(ca, cb, s, DeliverToA);
      && (s'.aAlive <==> FrameFits(ca, s.a.log[i]))
      && s'.ab == s.ab + if s'.aAlive then DataFor(ca, s.a, i) else []
  {
    AskA(ca, cb, s, Request(i));
    hide Apply, FrameFits, DataFor, Accepted, Paired;
    BlockTaken(ca, cb, s.a, i);
  }

  /**
   * Asked for a range, by the Want in every greeting, A goes on if and only if the connection takes the frame of each
   * held block in it; the blocks before the first that is refused are sent.
   */
  lemma WantStopsExactly(ca: Config, cb: Config, s: Net, start: nat, length: nat) returns (j: nat)
    requires Paired(ca, cb) && s.aUp && s.aAlive && s.a.repo.None? && start < U64 && length < U64
    requires s.ba != [] && s.ba[0] == Want(start, length)
    ensures var s' := Apply(ca, cb, s, DeliverToA);
      var end := if start + length < U64 then start + length else start + length - U64;
      && (s'.aAlive <==> forall i | start <= i < end && i < |s.a.log| :: FrameFits(ca, s.a.log[i]))
      && start <= j && (start < j ==> j <= |s.a.log|) && (forall i | start <= i < j :: FrameFits(ca, s.a.log[i]))
      && s'.ab == s.ab + DataForRange(ca, s.a, start, j)
      && (!s'.aAlive ==> j < end && j < |s.a.log| && !FrameFits(ca, s.a.log[j]))
  {
    hide Apply, FrameFits, DataForRange, Accepted, Paired, WantEnd, Encode;
    WantEndWraps(start, length, |s.a.log|);
    var end := WantEnd(start, length, |s.a.log|);
    AskA(ca, cb, s, Want(start, length));
    j := start;
    if start <= end {
      j := RangeTaken(ca, cb, s.a, start, end);
    } else {
      RangeHead(ca, s.a, start, end);
      RangeHead(ca, s.a, start, start);
      NothingTaken(ca.frameLimit);
    }
  }

  /** The first four events when B greets A after A has greeted. */
  function Greetings(): seq<Event> { [GreetA, GreetB, DeliverToA, DeliverToA] }

  /** So already B's greeting ends A's session if and only if a block in the wanted window is over the limit. */
  lemma GreetingStopsExactly(ca: Config, cb: Config, s: Net) returns (j: nat)
    requires Paired(ca, cb) && s.a.repo.None? && |s.b.log| <= |s.a.log| < MAX_LOG
    requires !s.aUp && !s.bUp && s.aAlive && s.ab == [] && s.ba == []
    ensures CanRun(ca, cb, s, Greetings())
    ensures var t, start := Run(ca, cb, s, Greetings()), |s.b.log|;
      && (t.aAlive <==> forall i | start <= i < start + 1_000_000 && i < |s.a.log| :: FrameFits(ca, s.a.log[i]))
      && start <= j && (start < j ==> j <= |s.a.log|) && (forall i | start <= i < j :: FrameFits(ca, s.a.log[i]))
      && t.ab == Greeting(s.a) + DataForRange(ca, s.a, start, j)
      && (!t.aAlive ==> j < |s.a.log| && !FrameFits(ca, s.a.log[j]))
  {
    hide Paired, FrameFits, DataForRange, Accepted, Apply, Greeting, LimitOk, Run, CanRun;
    var s2 := Greeted(ca, cb, s);
    var s3 := HaveRead(ca, cb, s2);
    j := WantStopsExactly(ca, cb, s3, |s.b.log|, WANT_WINDOW);
    RunFour(ca, cb, s, GreetA, GreetB, DeliverToA, DeliverToA);
  }

  lemma RunNothing(ca: Config, cb: Config, s: Net)
    ensures CanRun(ca, cb, s, []) && Run(ca, cb, s, []) == s
  {
  }

  lemma RunFour(ca: Config, cb: Config, s: Net, e: Event, f: Event, g: Event, h: Event)
    requires Enabled(ca, s, e) && Enabled(ca, Apply(ca, cb, s, e), f)
    requires var t := Apply(ca, cb, Apply(ca, cb, s, e), f); Enabled(ca, t, g) && Enabled(ca, Apply(ca, cb, t, g), h)
    ensures CanRun(ca, cb, s, [e, f, g, h])
    ensures var t := Apply(ca, cb, Apply(ca, cb, s, e), f);
      Run(ca, cb, s, [e, f, g, h]) == Apply(ca, cb, Apply(ca, cb, t, g), h)
  {
    hide Apply, Enabled, Run, CanRun;
    assert [h] + [] == [h] && [g] + [h] == [g, h] && [f] + [g, h] == [f, g, h] && [e] + [f, g, h] == [e, f, g, h];
    var t := Apply(ca, cb, Apply(ca, cb, s, e), f);
    RunNothing(ca, cb, Apply(ca, cb, Apply(ca, cb, t, g), h));
    RunStep(ca, cb, Apply(ca, cb, t, g), h, []);
    RunStep(ca, cb, t, g, [h]);
    RunStep(ca, cb, Apply(ca, cb, s, e), f, [g, h]);
    RunStep(ca, cb, s, e, [f, g, h]);
  }

  lemma HaveRead(ca: Config, cb: Config, s: Net) returns (s': Net)
    requires s.aUp && s.aAlive && s.ba == Greeting(s.b) && |s.b.log| <= |s.a.log| < MAX_LOG
    ensures Enabled(ca, s, DeliverToA) && s' == Apply(ca, cb, s, DeliverToA)
    ensures s' == s.(ba := [Want(|s.b.log|, 1_000_000)])
  {
    AskA(ca, cb, s, Have(0, |s.b.log|));
    NothingTaken(ca.frameLimit);
    hide Apply, Accepted;
    s' := Apply(ca, cb, s, DeliverToA);
    assert s.ab + [] == s.ab;
  }

  lemma Greeted(ca: Config, cb: Config, s: Net) returns (s2: Net)
    requires !s.aUp && !s.bUp && s.ab == [] && s.ba == []
    ensures Enabled(ca, s, GreetA) && Enabled(ca, Apply(ca, cb, s, GreetA), GreetB)
    ensures s2 == Apply(ca, cb, Apply(ca, cb, s, GreetA), GreetB)
    ensures s2 == s.(aUp := true, bUp := true, announced := s2.announced, ab := Greeting(s.a), ba := Greeting(s.b))
  {
    s2 := Apply(ca, cb, Apply(ca, cb, s, GreetA), GreetB);
    assert [] + Greeting(s.a) == Greeting(s.a) && [] + Greeting(s.b) == Greeting(s.b);
  }

  lemma RunStep(ca: Config, cb: Config, s: Net, e: Event, es: seq<Event>)
    requires Enabled(ca, s, e) && CanRun(ca, cb, Apply(ca, cb, s, e), es)
    ensures CanRun(ca, cb, s, [e] + es) && Run(ca, cb, s, [e] + es) == Run(ca, cb, Apply(ca, cb, s, e), es)
  {
    hide Apply, Enabled;
    assert ([e] + es)[1..] == es;
  }

  /** A 64-byte signature repeats the digest; compression changes nothing. */
  function SampleEnv(): Env {
    Env(_ => seq(32, _ => 0), (d: Digest) => d + d, (d: Digest, sig: Buf) => sig == d + d, v => Some(v), v => Some(v))
  }

  lemma SampleIsPaired()
    ensures var cfg := Config(SampleEnv(), [], true, 65519); Paired(cfg, cfg)
  {
  }

  /**
   * One block of 65438 bytes, whose frame is one byte over the limit of encrypted records: A stops at B's greeting,
   * and has sent nothing but its own.
   */
  lemma LargeBlockIsNotSent()
    ensures var cfg, block := Config(SampleEnv(), [], true, 65519), seq(65438, _ => 0);
      var s := Net(State([block], None), State([], None), false, false, true, true, [], [], 0, 0);
      && Paired(cfg, cfg) && CanRun(cfg, cfg, s, Greetings())
      && !Run(cfg, cfg, s, Greetings()).aAlive && Run(cfg, cfg, s, Greetings()).ab == Greeting(s.a)
  {
    var cfg, block := Config(SampleEnv(), [], true, 65519), seq(65438, _ => 0);
    var s := Net(State([block], None), State([], None), false, false, true, true, [], [], 0, 0);
    assert !FrameFits(cfg, block) && s.a.log[0] == block;
    SampleIsPaired();
    hide FrameFits, Paired, SampleEnv, Run, CanRun, Greetings, DataForRange;
    var j := GreetingStopsExactly(cfg, cfg, s);
    RangeHead(cfg, s.a, 0, 0);
    assert Greeting(s.a) + [] == Greeting(s.a);
  }
}
