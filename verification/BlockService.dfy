/**
 * The block commands of the local socket (pkg/ipc/socket.go) beside replication, and the agreement of the
 * block cache with the flat-file log.
 */
module BlockService {
  import opened Bytes
  import opened BlockRepo
  import opened Session
  import Storage
  import Wire

  // "default_feed"
  const DEFAULT_FEED: Buf := [100, 101, 102, 97, 117, 108, 116, 95, 102, 101, 101, 100]

  function FeedOrDefault(feed: Buf): Buf { if feed == [] then DEFAULT_FEED else feed }

  /** The state after a successful append_block command. */
  function AfterAppend(st: State, feed: Buf, block: Buf, sig: Buf): State {
    State(st.log + [block],
          match st.repo
          case None => None
          case Some(repo) => Some(PutBlock(repo, FeedOrDefault(feed), |st.log|, block, sig)))
  }

  /** The answer to get_block: the log first, the cache when the log has no such block. */
  function Lookup(st: State, feed: Buf, index: nat): Option<Buf> {
    if index < |st.log| then Some(st.log[index])
    else if st.repo.None? then None
    else match GetBlock(st.repo.value, FeedOrDefault(feed), index)
      case Some((value, _)) => Some(value)
      case None => None
  }

  class Service {
    const store: Storage.Store
    var repo: Option<Repo>

    ghost predicate Valid()
      reads this, store
    {
      store.Valid()
    }

    ghost function Abstract(): State
      requires Valid()
      reads this, store
    {
      State(store.Contents(), repo)
    }

    constructor (store: Storage.Store, repo: Option<Repo>)
      requires store.Valid()
      ensures Valid() && this.store == store && this.repo == repo
    {
      this.store, this.repo := store, repo;
    }

    method AppendBlock(feed: Buf, block: Buf, sig: Buf) returns (index: nat)
      requires Valid() && |store.dataF| + |block| < Storage.MAX_FILE
      modifies this, store
      ensures Valid() && Abstract() == AfterAppend(old(Abstract()), feed, block, sig)
      ensures index == |old(store.Contents())| && store.Contents()[index] == block
    {
      index := store.Len();
      store.Append(block);
      if repo.Some? {
        repo := Some(PutBlock(repo.value, FeedOrDefault(feed), index, block, sig));
      }
    }

    method GetBlockByIndex(feed: Buf, index: nat) returns (block: Option<Buf>)
      requires Valid()
      ensures block == Lookup(Abstract(), feed, index)
    {
      block := store.Get(index);
      if block.None? && repo.Some? {
        var cached := GetBlock(repo.value, FeedOrDefault(feed), index);
        if cached.Some? {
          block := Some(cached.value.0);
        }
      }
    }
  }

  // ----- Agreement over runs

  datatype Action = Ipc(feed: Buf, block: Buf, sig: Buf) | Replicated(cfg: Config, frame: Buf)

  function Act(st: State, a: Action): State {
    match a
    case Ipc(feed, block, sig) => AfterAppend(st, feed, block, sig)
    case Replicated(cfg, frame) => OnFrame(cfg, st, frame).state
  }

  function RunActions(st: State, actions: seq<Action>): State
    decreases |actions|
  {
    if actions == [] then st else RunActions(Act(st, actions[0]), actions[1..])
  }

  /** Every cache entry, of every feed, decodes to the log's block of that index. */
  predicate Agrees(st: State) {
    st.repo.Some? ==>
      forall key | key in st.repo.value ::
        && key.1 < |st.log|
        && DecodeBlock(st.repo.value[key]).Some?
        && DecodeBlock(st.repo.value[key]).value.0 == st.log[key.1]
  }

  /** Lengths are stored in 32 bits. */
  predicate Storable(st: State) { forall i | 0 <= i < |st.log| :: |st.log[i]| < U32 }

  predicate SmallSignatures(actions: seq<Action>) {
    forall i | 0 <= i < |actions| && actions[i].Ipc? :: |actions[i].sig| < U32
  }

  lemma PutKeepsAgreement(st: State, st': State, feed: Buf, value: Buf, sig: Buf)
    requires Agrees(st) && |value| < U32 && |sig| < U32
    requires st'.log == st.log + [value]
    requires st'.repo == match st.repo
                         case None => None
                         case Some(repo) => Some(PutBlock(repo, feed, |st.log|, value, sig))
    ensures Agrees(st')
  {
    BlockRoundTrip(value, sig);
  }

  lemma {:induction false} RunActionsGrows(st: State, actions: seq<Action>)
    ensures st.log <= RunActions(st, actions).log
    decreases |actions|
  {
    if actions != [] {
      RunActionsGrows(Act(st, actions[0]), actions[1..]);
    }
  }

  lemma ActKeepsAgreement(st: State, a: Action)
    requires Agrees(st) && Storable(Act(st, a))
    requires a.Ipc? ==> |a.sig| < U32
    ensures Agrees(Act(st, a))
  {
    var st' := Act(st, a);
    match a
    case Ipc(feed, block, sig) =>
      assert st'.log[|st.log|] == block;
      PutKeepsAgreement(st, st', FeedOrDefault(feed), block, sig);
    case Replicated(cfg, frame) =>
      if st' != st {
        var m := Wire.DecodeData(frame).value;
        var value := Unpack(cfg, m.value).value;
        assert st'.log[|st.log|] == value;
        Wire.DecodeDataSound(frame);
        PutKeepsAgreement(st, st', cfg.feedKey, value, m.signature);
      }
  }

  /**
   * Over any sequential run of socket appends and replicated frames, under any feed names, the cache agrees
   * with the log, so get_block and a replication answer serve the log's block from either source.
   */
  lemma {:induction false} CacheAgreesOverRuns(st: State, actions: seq<Action>)
    requires Agrees(st) && SmallSignatures(actions) && Storable(RunActions(st, actions))
    ensures var t := RunActions(st, actions);
      && Agrees(t)
      && (forall feed, i: nat :: Lookup(t, feed, i) == if i < |t.log| then Some(t.log[i]) else None)
      && (forall cfg, i: nat :: BlockToSend(cfg, t, i).Some? == (i < |t.log|))
      && (forall cfg, i: nat | i < |t.log| :: BlockToSend(cfg, t, i).value.0 == t.log[i])
    decreases |actions|
  {
    if actions == [] {
    } else {
      var st' := Act(st, actions[0]);
      RunActionsGrows(st', actions[1..]);
      forall i | 0 <= i < |st'.log|
        ensures |st'.log[i]| < U32
      {
        assert st'.log[i] == RunActions(st, actions).log[i];
      }
      ActKeepsAgreement(st, actions[0]);
      CacheAgreesOverRuns(st', actions[1..]);
    }
  }
}
