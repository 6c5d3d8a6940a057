/** What a session's log can contain when the frames it reads are arbitrary (pkg/hypercore/sync.go). */
module Authenticity {
  import opened Bytes
  import opened Merkle
  import opened Session
  import opened Wire
  import Replication

  /** What happens to the log's owner: a frame arrives, or a block is appended locally. */
  datatype Input = Frame(bytes: Buf) | Local(block: Buf)

  function Next(cfg: Config, st: State, input: Input): State {
    match input
    case Frame(bytes) => OnFrame(cfg, st, bytes).state
    case Local(block) => st.(log := st.log + [block])
  }

  /** The states of a run, the first one included. */
  function Trace(cfg: Config, st: State, inputs: seq<Input>): (t: seq<State>)
    ensures |t| == |inputs| + 1 && t[0] == st
    decreases |inputs|
  {
    if inputs == [] then [st] else [st] + Trace(cfg, Next(cfg, st, inputs[0]), inputs[1..])
  }

  lemma {:induction false} TraceStep(cfg: Config, st: State, inputs: seq<Input>, i: nat)
    requires i < |inputs|
    ensures Trace(cfg, st, inputs)[i + 1] == Next(cfg, Trace(cfg, st, inputs)[i], inputs[i])
    decreases |inputs|
  {
    if i > 0 {
      TraceStep(cfg, Next(cfg, st, inputs[0]), inputs[1..], i - 1);
    }
  }

  ghost predicate IsPrefixRoot(h: HashFn, log: seq<Buf>, d: Digest) {
    exists k: nat :: 0 < k <= |log| && d == TreeHash(h, log[..k])
  }

  /** The root and the signature that handling this frame hands to the signature check, if it gets that far. */
  function Checked(cfg: Config, st: State, frame: Buf): Option<(Digest, Buf)> {
    if |frame| > MAX_MESSAGE_SIZE || frame == [] || frame[0] != 5 then None
    else match DecodeData(frame)
      case None => None
      case Some(m) =>
        match Unpack(cfg, m.value)
        case None => None
        case Some(value) =>
          if m.index != |st.log| then None
          else Some((TreeHash(cfg.env.hash, st.log + [value]), m.signature))
  }

  /** No forgery in this frame: if its signature verifies, then it is on the root of a prefix of the signed log. */
  ghost predicate VouchedFor(cfg: Config, signed: seq<Buf>, st: State, frame: Buf) {
    var c := Checked(cfg, st, frame);
    c.Some? && cfg.env.verify(c.value.0, c.value.1) ==> IsPrefixRoot(cfg.env.hash, signed, c.value.0)
  }

  /** The same of every signature checked in a run. */
  ghost predicate RunIsVouchedFor(cfg: Config, signed: seq<Buf>, st: State, inputs: seq<Input>) {
    forall i | 0 <= i < |inputs| && inputs[i].Frame? ::
      VouchedFor(cfg, signed, Trace(cfg, st, inputs)[i], inputs[i].bytes)
  }

  /** The log changes exactly when a signature is checked and verifies, and then becomes the log of the checked root. */
  lemma ChangeIsChecked(cfg: Config, st: State, frame: Buf)
    ensures var log', c := OnFrame(cfg, st, frame).state.log, Checked(cfg, st, frame);
      && (log' != st.log <==> c.Some? && cfg.env.verify(c.value.0, c.value.1))
      && (log' != st.log ==> c.value.0 == TreeHash(cfg.env.hash, log'))
  {
    hide TreeHash, DecodeData, Unpack, DataForRange, DataFor, Requests;
  }

  /**
   * The log is a prefix of the signed log, or two different strings with one hash can be pointed at: the first
   * is hashed for the root of this log, the second for the root of a prefix of the signed one.
   */
  ghost predicate PrefixOrCollision(h: HashFn, log: seq<Buf>, signed: seq<Buf>) {
    || log <= signed
    || exists k: nat, a, b :: 0 < k <= |signed| && log != [] && CollidesIn(h, log, signed[..k], a, b)
  }

  lemma EqualRootsBind(h: HashFn, log: seq<Buf>, signed: seq<Buf>)
    requires log != [] && IsPrefixRoot(h, signed, TreeHash(h, log))
    ensures PrefixOrCollision(h, log, signed)
  {
    var k: nat :| 0 < k <= |signed| && TreeHash(h, log) == TreeHash(h, signed[..k]);
    if log != signed[..k] {
      var c := Collision(h, log, signed[..k]);
      assert CollidesIn(h, log, signed[..k], c.0, c.1);
    }
  }

  /**
   * A frame that changes the log leaves it authentic as a whole, whatever it was before, unless its signature is a
   * forgery; and a log that is authentic without a collision needs no forgery.
   */
  lemma AcceptedLogIsAuthentic(cfg: Config, signed: seq<Buf>, st: State, frame: Buf)
    requires OnFrame(cfg, st, frame).state.log != st.log
    ensures var log' := OnFrame(cfg, st, frame).state.log;
      && (VouchedFor(cfg, signed, st, frame) ==> PrefixOrCollision(cfg.env.hash, log', signed))
      && (log' <= signed ==> VouchedFor(cfg, signed, st, frame))
  {
    var log' := OnFrame(cfg, st, frame).state.log;
    ChangeIsChecked(cfg, st, frame);
    LogGrowsByOne(cfg, st, frame);
    hide OnFrame, Checked, TreeHash, PrefixOrCollision;
    if IsPrefixRoot(cfg.env.hash, signed, TreeHash(cfg.env.hash, log')) {
      EqualRootsBind(cfg.env.hash, log', signed);
    }
    if log' <= signed {
      assert signed[..|log'|] == log';
    }
  }

  /**
   * Over any run of arbitrary frames and local appends in which no signature was forged, the whole log is authentic
   * right after each accepted Data message.
   */
  lemma RunIsAuthentic(cfg: Config, signed: seq<Buf>, st: State, inputs: seq<Input>, i: nat)
    requires RunIsVouchedFor(cfg, signed, st, inputs) && i < |inputs|
    ensures var t := Trace(cfg, st, inputs);
      inputs[i].Frame? && t[i + 1].log != t[i].log ==> PrefixOrCollision(cfg.env.hash, t[i + 1].log, signed)
  {
    TraceStep(cfg, st, inputs, i);
    hide VouchedFor, PrefixOrCollision, OnFrame, Trace;
    var t := Trace(cfg, st, inputs);
    if inputs[i].Frame? && t[i + 1].log != t[i].log {
      AcceptedLogIsAuthentic(cfg, signed, t[i], inputs[i].bytes);
    }
  }

  /** Without local appends, and from an authentic start, the log is authentic in every state of such a run. */
  lemma {:induction false} ReplicaStaysAuthentic(cfg: Config, signed: seq<Buf>, st: State, inputs: seq<Input>, i: nat)
    requires RunIsVouchedFor(cfg, signed, st, inputs) && st.log <= signed && i <= |inputs|
    requires forall j | 0 <= j < |inputs| :: inputs[j].Frame?
    ensures PrefixOrCollision(cfg.env.hash, Trace(cfg, st, inputs)[i].log, signed)
  {
    hide RunIsVouchedFor, OnFrame;
    if i > 0 {
      ReplicaStaysAuthentic(cfg, signed, st, inputs, i - 1);
      RunIsAuthentic(cfg, signed, st, inputs, i - 1);
    }
  }

  // ----- The hypothesis holds of an honest peer

  function FramesOf(ms: seq<Msg>): (inputs: seq<Input>)
    ensures |inputs| == |ms|
    ensures forall i | 0 <= i < |ms| :: inputs[i] == Frame(Encode(ms[i]))
  {
    seq(|ms|, i requires 0 <= i < |ms| => Frame(Encode(ms[i])))
  }

  /** A log that is a prefix of A's stays one whatever A sends, and takes each next block. */
  lemma {:induction false} HonestRun(ca: Config, cb: Config, log: seq<Buf>, st: State, ms: seq<Msg>, i: nat)
    requires Replication.Paired(ca, cb) && |log| < Replication.MAX_LOG && Replication.AllFit(ca, log)
    requires Replication.CacheFits(cb, st.repo) && st.log <= log && Replication.AllFromA(ca, log, ms) && i <= |ms|
    ensures var t := Trace(cb, st, FramesOf(ms));
      && t[i].log <= log && Replication.CacheFits(cb, t[i].repo)
      && (i < |ms| ==>
            t[i + 1].log == (if ms[i].Data? && ms[i].index == |t[i].log| then log[..|t[i].log| + 1] else t[i].log))
  {
    hide Replication.Paired, Replication.AllFit, Replication.CacheFits, OnFrame, Encode;
    var inputs := FramesOf(ms);
    if i > 0 {
      HonestRun(ca, cb, log, st, ms, i - 1);
      TraceStep(cb, st, inputs, i - 1);
      Replication.ReadByB(ca, cb, log, Trace(cb, st, inputs)[i - 1], ms[i - 1]);
    }
    if i < |ms| {
      TraceStep(cb, st, inputs, i);
      Replication.ReadByB(ca, cb, log, Trace(cb, st, inputs)[i], ms[i]);
    }
  }

  /** Whatever an honest A sends, every signature that B checks verifies only on roots of prefixes of A's log. */
  lemma HonestPeerIsVouchedFor(ca: Config, cb: Config, log: seq<Buf>, st: State, ms: seq<Msg>)
    requires Replication.Paired(ca, cb) && |log| < Replication.MAX_LOG && Replication.AllFit(ca, log)
    requires Replication.CacheFits(cb, st.repo) && st.log <= log && Replication.AllFromA(ca, log, ms)
    ensures RunIsVouchedFor(cb, log, st, FramesOf(ms))
  {
    var inputs, t := FramesOf(ms), Trace(cb, st, FramesOf(ms));
    hide Replication.Paired, Replication.AllFit, Replication.CacheFits, OnFrame, Encode, Trace, VouchedFor;
    forall i | 0 <= i < |inputs|
      ensures VouchedFor(cb, log, t[i], inputs[i].bytes)
    {
      HonestRun(ca, cb, log, st, ms, i + 1);
      TraceStep(cb, st, inputs, i);
      HonestFrame(cb, log, t[i], inputs[i].bytes);
    }
  }

  /** And the check is reached: B takes each next block. */
  lemma HonestBlockIsTaken(ca: Config, cb: Config, log: seq<Buf>, st: State, ms: seq<Msg>, i: nat)
    requires Replication.Paired(ca, cb) && |log| < Replication.MAX_LOG && Replication.AllFit(ca, log)
    requires Replication.CacheFits(cb, st.repo) && st.log <= log && Replication.AllFromA(ca, log, ms) && i < |ms|
    requires ms[i].Data? && ms[i].index == |Trace(cb, st, FramesOf(ms))[i].log|
    ensures var t := Trace(cb, st, FramesOf(ms));
      t[i + 1].log == log[..|t[i].log| + 1] && Checked(cb, t[i], Encode(ms[i])).Some?
  {
    var inputs := FramesOf(ms);
    hide Replication.Paired, Replication.AllFit, Replication.CacheFits, OnFrame, Encode, Trace, Checked;
    HonestRun(ca, cb, log, st, ms, i);
    TraceStep(cb, st, inputs, i);
    ChangeIsChecked(cb, Trace(cb, st, inputs)[i], inputs[i].bytes);
  }

  lemma HonestFrame(cfg: Config, log: seq<Buf>, st: State, frame: Buf)
    requires OnFrame(cfg, st, frame).state.log <= log
    ensures VouchedFor(cfg, log, st, frame)
  {
    ChangeIsChecked(cfg, st, frame);
    hide OnFrame, Checked;
    if OnFrame(cfg, st, frame).state.log != st.log {
      AcceptedLogIsAuthentic(cfg, log, st, frame);
    }
  }

  // ----- A concrete pair of ends

  /** All hypotheses hold together of one concrete session, in which a block is checked and accepted. */
  lemma HypothesesAreConsistent()
    ensures var cfg, log := Config(Replication.SampleEnv(), [], true, 65519), [[1, 2, 3]];
      var m := Data(0, Payload(cfg, log[0]), cfg.env.sign(TreeHash(cfg.env.hash, log[..1])));
      && Replication.Paired(cfg, cfg)
      && RunIsVouchedFor(cfg, log, State([], None), FramesOf([m]))
      && Trace(cfg, State([], None), FramesOf([m]))[1].log == log
  {
    var cfg, log := Config(Replication.SampleEnv(), [], true, 65519), [[1, 2, 3]];
    var sig := cfg.env.sign(TreeHash(cfg.env.hash, log[..1]));
    var m := Data(0, Payload(cfg, log[0]), sig);
    assert |sig| == 64;
    assert Replication.Paired(cfg, cfg);
    assert Replication.AllFit(cfg, log) && Replication.CacheFits(cfg, None);
    assert Replication.GoodFromA(cfg, log, m);
    hide Replication.Paired, Replication.AllFit, Replication.CacheFits, Replication.GoodFromA, Replication.SampleEnv;
    hide TreeHash, Payload;
    HonestPeerIsVouchedFor(cfg, cfg, log, State([], None), [m]);
    HonestRun(cfg, cfg, log, State([], None), [m], 0);
    assert log[..1] == log;
  }

  /** What was accepted is never lost or changed by a frame: earlier logs are prefixes of later ones. */
  lemma {:induction false} LogOnlyGrows(cfg: Config, st: State, inputs: seq<Input>, i: nat, j: nat)
    requires i <= j <= |inputs|
    ensures Trace(cfg, st, inputs)[i].log <= Trace(cfg, st, inputs)[j].log
    decreases j
  {
    if i < j {
      LogOnlyGrows(cfg, st, inputs, i, j - 1);
      TraceStep(cfg, st, inputs, j - 1);
      if inputs[j - 1].Frame? {
        LogGrowsByOne(cfg, Trace(cfg, st, inputs)[j - 1], inputs[j - 1].bytes);
      }
    }
  }
}
