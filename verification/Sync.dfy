/** Reorganisation onto a peer's longer chain: fork search, rollback, re-application (src/full_node/sync.rs). */
module Sync {
  import opened Base
  import opened Types
  import opened Ledgers
  import opened HashLinks
  import opened Blockchains
  import opened BlockStores
  import Difficulty

  const MAX_REORG: nat := 30

  datatype SyncError = PeerError | BlockchainError(chain: ChainError) | NoForkPoint

  /** Some block of the chain carries the hash. */
  predicate Holds(chain: seq<Block>, hash: Hash) {
    exists i | 0 <= i < |chain| :: HashAt(chain, i) == Some(hash)
  }

  function FindByHash(chain: seq<Block>, hash: Hash): (b: Option<Block>)
    ensures b.Some? <==> Holds(chain, hash)
    ensures b.Some? ==> exists i | 0 <= i < |chain| :: HashAt(chain, i) == Some(hash) && b.value == chain[i]
  {
    if chain == [] then None
    else
      var n := |chain| - 1;
      if chain[n].meta.hash == Some(hash) then
        assert HashAt(chain, n) == Some(hash);
        Some(chain[n])
      else
        var b := FindByHash(chain[..n], hash);
        assert forall i | 0 <= i < n :: HashAt(chain[..n], i) == HashAt(chain, i);
        b
  }

  /** It is the last such block. */
  lemma {:induction false} FindsLast(chain: seq<Block>, hash: Hash, i: nat)
    requires i < |chain| && HashAt(chain, i) == Some(hash)
    requires forall j | i < j < |chain| :: HashAt(chain, j) != Some(hash)
    ensures FindByHash(chain, hash) == Some(chain[i])
    decreases |chain|
  {
    var n := |chain| - 1;
    if i < n {
      assert HashAt(chain, n) != Some(hash);
      assert forall j | i < j < n :: HashAt(chain[..n], j) == HashAt(chain, j);
      FindsLast(chain[..n], hash, i);
    }
  }

  /** So a node answers `GetBlock` out of its store: what the hash index finds is that block, whatever was added before,
      and while the indexes are inverse it finds all there is. */
  lemma StoreAnswers(store: BlockStore, hash: Hash)
    requires store.Valid()
    ensures store.GetBlockByHash(hash).Some? ==> store.GetBlockByHash(hash) == FindByHash(store.Chain(), hash)
    ensures store.IndexesAgree() ==> store.GetBlockByHash(hash) == FindByHash(store.Chain(), hash)
  {
    var chain, found := store.Chain(), store.GetBlockHeightByHash(hash);
    if found.Some? {
      forall j | found.value < j < |chain| ensures HashAt(chain, j) != Some(hash) {
        assert HashAt(chain, j) == Some(store.byHeight[j]);
      }
      FindsLast(chain, hash, found.value);
    }
  }

  /** The other end of a link. An honest peer answers from a chain that does not change; any other answers anything.
      On a link that is not reliable any request may fail. */
  class Peer {
    const chain: seq<Block>
    const fullNode: bool
    const honest: bool
    const reliable: bool

    constructor (chain: seq<Block>, fullNode: bool, honest: bool, reliable: bool)
      ensures this.chain == chain && this.fullNode == fullNode && this.honest == honest && this.reliable == reliable
    {
      this.chain, this.fullNode, this.honest, this.reliable := chain, fullNode, honest, reliable;
    }

    /** `GetBlock`: the block with the hash, if the peer has it. */
    method GetBlock(hash: Hash) returns (r: Result<Option<Block>, SyncError>)
      ensures honest && r.Ok? ==> r.value == FindByHash(chain, hash)
      ensures reliable ==> r.Ok?
      ensures !r.Panic? && (r.Err? ==> r.error == PeerError)
    {
      var failed: bool := *;
      if !reliable && failed {
        return Err(PeerError);
      }
      var anything: Option<Block> := *;
      return Ok(if honest then FindByHash(chain, hash) else anything);
    }

    /** `GetBlockHashes` for the single height `h`. */
    method GetBlockHashes(h: nat) returns (r: Result<seq<Hash>, SyncError>)
      ensures honest && r.Ok? ==>
        r.value == if h < |chain| && HashAt(chain, h).Some? then [HashAt(chain, h).value] else []
      ensures reliable ==> r.Ok?
      ensures !r.Panic? && (r.Err? ==> r.error == PeerError)
    {
      var failed: bool := *;
      if !reliable && failed {
        return Err(PeerError);
      }
      var anything: seq<Hash> := *;
      return Ok(
        if !honest then anything
        else if h < |chain| && HashAt(chain, h).Some? then [HashAt(chain, h).value] else []);
    }
  }

  /** The heights the search visits are those of the top 29 local blocks, down to height 1. */
  predicate InWindow(h: nat, localHeight: nat) {
    1 <= h < localHeight && localHeight - h < 30
  }

  /** The search asks for the block at local height, which never exists, and then for the ones below it.
      With an honest peer on a reliable link it finds the highest shared block of the window. */
  method FindFork(peer: Peer, bc: Blockchain) returns (r: Result<Option<nat>, SyncError>)
    requires bc.Valid()
    ensures r.Ok? && r.value.Some? ==> InWindow(r.value.value, bc.store.height)
    ensures r.Ok? && r.value.Some? && peer.honest ==> Holds(peer.chain, bc.store.Chain()[r.value.value].meta.hash.value)
    ensures r.Ok? && peer.honest && peer.reliable ==>
      forall h: nat | InWindow(h, bc.store.height) && (r.value.Some? ==> h > r.value.value) ::
        !Holds(peer.chain, bc.store.Chain()[h].meta.hash.value)
    ensures !r.Err? && (peer.honest ==> r.Ok?) && (bc.store.height <= 1 ==> r == Ok(None))
  {
    var localHeight := bc.store.height;
    var lookback := if MAX_REORG < localHeight then MAX_REORG else localHeight;
    for offset := 0 to lookback
      invariant peer.honest && peer.reliable ==> forall h: nat | InWindow(h, localHeight) && h > localHeight - offset ::
        !Holds(peer.chain, bc.store.Chain()[h].meta.hash.value)
    {
      var heightToCheck: nat := localHeight - offset;
      var localHash := bc.store.GetBlockHashByHeight(heightToCheck);
      if localHash.Some? {
        var response := peer.GetBlock(localHash.value);
        if response.Ok? && response.value.Some? {
          if response.value.value.meta.hash.None? {
            return Panic;
          }
          if response.value.value.meta.hash == localHash {
            return Ok(Some(heightToCheck));
          }
        }
      }
    }
    return Ok(None);
  }

  lemma PrefixOfPrefix<T>(s: seq<T>, n: nat, m: nat)
    requires m <= n <= |s|
    ensures s[..n][..m] == s[..m]
  {
  }

  lemma BelowPrefix<T>(s: seq<T>, t: seq<T>, n: nat)
    requires s <= t && n <= |s|
    ensures s[..n] == t[..n] && (n == |s| ==> s == t[..n])
  {
  }

  /** The steps of a reorganisation: pops, then adds. */
  function Reorg(pops: nat, sent: seq<Block>): seq<Step> {
    seq(pops, _ => Pop) + seq(|sent|, i requires 0 <= i < |sent| => Add(sent[i], false, false))
  }

  lemma OneMorePop(pops: nat)
    ensures Reorg(pops, []) + [Pop] == Reorg(pops + 1, [])
  {
  }

  lemma OneMoreSent(pops: nat, sent: seq<Block>, b: Block)
    ensures Reorg(pops, sent) + [Add(b, false, false)] == Reorg(pops, sent + [b])
  {
  }

  /** The calls that led from `start` to `now` were so many pops, and an add of each block that was sent. */
  ghost predicate Traced(start: Ledger, pops: nat, sent: seq<Block>, now: Ledger, env: Env)
    requires |start.diffs| == |start.chain|
  {
    Follows(start, Reorg(pops, sent), now, env, Difficulty.RULE)
  }

  lemma TracedPop(start: Ledger, pops: nat, mid: Ledger, now: Ledger, env: Env)
    requires |start.diffs| == |start.chain| && |mid.diffs| == |mid.chain| && Traced(start, pops, [], mid, env)
    requires mid.chain != [] && (CanPop(mid) ==> now == Shrink(mid))
    ensures Traced(start, pops + 1, [], now, env)
  {
    FollowsOneMore(start, Reorg(pops, []), mid, Pop, now, env, Difficulty.RULE);
    OneMorePop(pops);
  }

  lemma TracedAdd(start: Ledger, pops: nat, sent: seq<Block>, mid: Ledger, b: Block, now: Ledger, env: Env)
    requires |start.diffs| == |start.chain| && |mid.diffs| == |mid.chain| && Traced(start, pops, sent, mid, env)
    requires Doable(mid, Add(b, false, false), env) ==>
      now == Next(mid, Add(b, false, false), env, Difficulty.RULE)
    ensures Traced(start, pops, sent + [b], now, env)
  {
    FollowsOneMore(start, Reorg(pops, sent), mid, Add(b, false, false), now, env, Difficulty.RULE);
    OneMoreSent(pops, sent, b);
  }

  /** The node is in the state `now`. */
  ghost predicate At(bc: Blockchain, now: Ledger)
    reads bc.utxos, bc.store, bc.difficulty
  {
    bc.Valid() && bc.State() == now
  }

  /** Pop, and what it leaves. */
  method PopBlock(bc: Blockchain, ghost was: Ledger) returns (r: Result<(), SyncError>, ghost now: Ledger)
    requires At(bc, was) && bc.store.height > 0
    modifies bc.utxos, bc.store, bc.difficulty
    ensures At(bc, now) && |now.diffs| == |now.chain|
    ensures now.chain == if r.Ok? then was.chain[..|was.chain| - 1] else was.chain
    ensures CanPop(was) ==> r.Ok? && now == Shrink(was)
    ensures r.Err? ==> r.error.BlockchainError?
  {
    var popped := bc.PopBlock();
    now := bc.State();
    return if popped.Ok? then Ok(()) else if popped.Err? then Err(BlockchainError(popped.error)) else Panic, now;
  }

  /** The same, traced from the start. */
  method PopNext(bc: Blockchain, ghost was: Ledger, ghost start: Ledger, ghost pops: nat)
    returns (r: Result<(), SyncError>, ghost now: Ledger)
    requires At(bc, was) && |was.diffs| == |was.chain| && |start.diffs| == |start.chain| && bc.store.height > 0
    requires Traced(start, pops, [], was, bc.env) && was.chain <= start.chain
    modifies bc.utxos, bc.store, bc.difficulty
    ensures At(bc, now) && |now.diffs| == |now.chain| && Traced(start, pops + 1, [], now, bc.env)
    ensures now.chain <= start.chain && |now.chain| == if r.Ok? then |was.chain| - 1 else |was.chain|
    ensures bc.store.height == |now.chain|
    ensures r.Err? ==> r.error.BlockchainError?
  {
    r, now := PopBlock(bc, was);
    TracedPop(start, pops, was, now, bc.env);
  }

  /** Pop down to `fork`; whatever happens, what lies at or below it stays. */
  method RollBack(bc: Blockchain, fork: nat, ghost start: Ledger)
    returns (r: Result<(), SyncError>, ghost pops: nat, ghost now: Ledger)
    requires At(bc, start) && fork <= |start.chain|
    modifies bc.utxos, bc.store, bc.difficulty
    ensures At(bc, now) && |now.diffs| == |now.chain| && Traced(start, pops, [], now, bc.env)
    ensures fork <= |now.chain| && now.chain <= start.chain
    ensures pops <= |start.chain| - fork
    ensures r.Ok? ==> |now.chain| == fork && pops == |start.chain| - fork
    ensures r.Err? ==> r.error.BlockchainError?
  {
    pops, now := 0, start;
    while bc.store.height > fork
      invariant At(bc, now) && |now.diffs| == |now.chain| && Traced(start, pops, [], now, bc.env)
      invariant fork <= bc.store.height == |now.chain| == |start.chain| - pops && now.chain <= start.chain
      decreases bc.store.height
    {
      r, now := PopNext(bc, now, start, pops);
      pops := pops + 1;
      if !r.Ok? {
        return;
      }
    }
    return Ok(()), pops, now;
  }

  /** The peer's chain is a linked chain of authentic hashes, and long enough. */
  ghost predicate HonestChain(peer: Peer, peerHeight: nat, env: Env) {
    && peer.honest && peerHeight <= |peer.chain|
    && Linked(peer.chain) && AuthenticChain(peer.chain, env) && InjectiveBlockDigest(env)
  }

  lemma FoundIsAt(peer: Peer, peerHeight: nat, h: nat, env: Env)
    requires HonestChain(peer, peerHeight, env) && h < peerHeight
    ensures FindByHash(peer.chain, peer.chain[h].meta.hash.value) == Some(peer.chain[h])
  {
    var hash := peer.chain[h].meta.hash.value;
    assert HashAt(peer.chain, h) == Some(hash);
    var i :| 0 <= i < |peer.chain| && HashAt(peer.chain, i) == Some(hash)
      && FindByHash(peer.chain, hash).value == peer.chain[i];
    HashesDistinct(peer.chain, i, h, env);
  }

  /** What an honest peer serves at height `h`: the block it finds under the hash it has there. */
  function ServedAt(chain: seq<Block>, h: nat): seq<Block> {
    if h < |chain| && HashAt(chain, h).Some? && FindByHash(chain, HashAt(chain, h).value).Some?
    then [FindByHash(chain, HashAt(chain, h).value).value]
    else []
  }

  /** The peer serves every block of its chain below `peerHeight` as it is. */
  ghost predicate ServesAll(peer: Peer, peerHeight: nat) {
    peer.honest && peerHeight <= |peer.chain| &&
    forall h | 0 <= h < peerHeight :: ServedAt(peer.chain, h) == [peer.chain[h]]
  }

  lemma HonestServesAll(peer: Peer, peerHeight: nat, env: Env)
    requires HonestChain(peer, peerHeight, env)
    ensures ServesAll(peer, peerHeight)
  {
    forall h | 0 <= h < peerHeight ensures ServedAt(peer.chain, h) == [peer.chain[h]] {
      FoundIsAt(peer, peerHeight, h, env);
    }
  }

  /** Ask for the hash at a height, then for the block with that hash. */
  method Fetch(peer: Peer, h: nat) returns (r: Result<Option<Block>, SyncError>)
    ensures r.Ok? && peer.honest ==> ServedAt(peer.chain, h) == if r.value.Some? then [r.value.value] else []
    ensures r.Ok? || r == Err(PeerError)
  {
    var response := peer.GetBlockHashes(h);
    if !response.Ok? {
      return Err(PeerError);
    }
    if response.value == [] {
      return Ok(None);
    }
    var block := peer.GetBlock(response.value[0]);
    return if block.Ok? then block else Err(PeerError);
  }

  /** Add a fetched block. */
  method AddFetched(bc: Blockchain, b: Block, ghost was: Ledger) returns (r: Result<(), SyncError>, ghost now: Ledger)
    requires At(bc, was)
    modifies bc.utxos, bc.store, bc.difficulty
    ensures At(bc, now) && |now.diffs| == |now.chain|
    ensures now.chain == if r.Ok? then was.chain + [b] else was.chain
    ensures |was.diffs| == |was.chain| && Doable(was, Add(b, false, false), bc.env) ==>
      now == Next(was, Add(b, false, false), bc.env, Difficulty.RULE)
    ensures r.Err? ==> r.error.BlockchainError?
  {
    var added := bc.AddBlock(b, false, false);
    now := bc.State();
    return if added.Ok? then Ok(()) else if added.Err? then Err(BlockchainError(added.error)) else Panic, now;
  }

  /** Of a peer that serves its chain, what is sent for the heights from `fork` to `h` are its blocks there. */
  ghost predicate Followed(serves: bool, sent: seq<Block>, chain: seq<Block>, fork: nat, h: nat) {
    serves ==> sent == Wanted(chain, fork, h)
  }

  function Wanted(chain: seq<Block>, fork: nat, h: nat): seq<Block> {
    if fork <= h <= |chain| then chain[fork..h] else []
  }

  /** All that such a peer sends are blocks of its chain, in order from `fork` on and below `end`. */
  ghost predicate FromPeer(serves: bool, sent: seq<Block>, chain: seq<Block>, fork: nat, end: nat) {
    serves ==> sent <= Wanted(chain, fork, end)
  }

  lemma FollowedNone(serves: bool, chain: seq<Block>, fork: nat, end: nat)
    ensures Followed(serves, [], chain, fork, fork) && FromPeer(serves, [], chain, fork, end)
  {
  }

  lemma FollowedIsFromPeer(serves: bool, sent: seq<Block>, chain: seq<Block>, fork: nat, h: nat, end: nat)
    requires Followed(serves, sent, chain, fork, h) && fork <= h <= end && (serves ==> end <= |chain|)
    ensures FromPeer(serves, sent, chain, fork, end)
  {
    if serves {
      assert chain[fork..h] == chain[fork..end][..h - fork];
    }
  }

  lemma FollowedOneMore(serves: bool, sent: seq<Block>, more: seq<Block>, chain: seq<Block>, fork: nat, h: nat)
    requires Followed(serves, sent, chain, fork, h) && fork <= h
    requires serves ==> h < |chain| && more == [chain[h]]
    ensures Followed(serves, sent + more, chain, fork, h + 1)
  {
    if serves {
      assert chain[fork..h] + [chain[h]] == chain[fork..h + 1];
    }
  }

  /** The first `added` of the blocks sent are on top of the base: all, or all but the last, which was refused. */
  ghost predicate Kept(chain: seq<Block>, base: seq<Block>, sent: seq<Block>, added: nat) {
    added <= |sent| <= added + 1 && chain == base + sent[..added]
  }

  lemma KeptOneMore(was: seq<Block>, base: seq<Block>, sent: seq<Block>, more: seq<Block>, ok: bool)
    requires was == base + sent && |more| <= 1
    ensures var now, got := if ok then was + more else was, if ok then |more| else 0;
      Kept(now, base, sent + more, |sent| + got) && (ok ==> now == base + (sent + more))
  {
    assert (sent + more)[..|sent|] == sent && (sent + more)[..|sent + more|] == sent + more;
  }

  lemma KeptAll(chain: seq<Block>, base: seq<Block>, sent: seq<Block>)
    requires chain == base + sent
    ensures Kept(chain, base, sent, |sent|)
  {
    AppendNone(sent);
  }

  lemma KeptBelow(chain: seq<Block>, base: seq<Block>, sent: seq<Block>, added: nat)
    requires Kept(chain, base, sent, added)
    ensures |base| <= |chain| && chain[..|base|] == base
  {
  }

  lemma AppendNone<T>(s: seq<T>)
    ensures s + [] == s && s[..|s|] == s
  {
  }

  /** One turn of the download loop: fetch the block at the height, and add it if there is one. */
  method DownloadOne(peer: Peer, bc: Blockchain, h: nat, ghost was: Ledger, ghost start: Ledger, ghost pops: nat,
                     ghost sent: seq<Block>)
    returns (r: Result<(), SyncError>, got: nat, ghost more: seq<Block>, ghost now: Ledger)
    requires At(bc, was) && |was.diffs| == |was.chain| && |start.diffs| == |start.chain|
    requires Traced(start, pops, sent, was, bc.env)
    modifies bc.utxos, bc.store, bc.difficulty
    ensures At(bc, now) && |now.diffs| == |now.chain| && Traced(start, pops, sent + more, now, bc.env)
    ensures |more| <= 1 && got == if r.Ok? then |more| else 0
    ensures now.chain == if r.Ok? then was.chain + more else was.chain
    ensures peer.honest && (r.Ok? || more != []) ==> more == ServedAt(peer.chain, h)
    ensures r.Err? ==> r.error != NoForkPoint
  {
    got, more, now := 0, [], was;
    AppendNone(sent);
    AppendNone(was.chain);
    var block := Fetch(peer, h);
    if !block.Ok? {
      return Err(PeerError), got, more, now;
    }
    if block.value.None? {
      return Ok(()), got, more, now;
    }
    more := [block.value.value];
    r, now := AddFetched(bc, block.value.value, was);
    TracedAdd(start, pops, sent, was, block.value.value, now, bc.env);
    got := if r.Ok? then 1 else 0;
  }

  /** What the download keeps: the node is on top of `base` by what was sent for the heights from `fork` to `h`. */
  ghost predicate Progress(peer: Peer, fork: nat, h: nat, base: seq<Block>, serves: bool, sent: seq<Block>,
                           now: Ledger) {
    now.chain == base + sent && Followed(serves, sent, peer.chain, fork, h)
  }

  /** Where the download ends: nothing is asked for if the peer claims to be below the fork. */
  function End(fork: nat, peerHeight: nat): nat {
    if fork <= peerHeight then peerHeight else fork
  }

  lemma ProgressStart(peer: Peer, fork: nat, serves: bool, now: Ledger)
    ensures Progress(peer, fork, fork, now.chain, serves, [], now)
  {
    AppendNone(now.chain);
  }

  lemma ProgressDone(peer: Peer, fork: nat, base: seq<Block>, serves: bool, sent: seq<Block>, now: Ledger,
                     peerHeight: nat)
    requires Progress(peer, fork, End(fork, peerHeight), base, serves, sent, now)
    requires serves ==> ServesAll(peer, peerHeight)
    ensures Kept(now.chain, base, sent, |sent|) && FromPeer(serves, sent, peer.chain, fork, peerHeight)
  {
    KeptAll(now.chain, base, sent);
  }

  lemma ProgressOneMore(peer: Peer, fork: nat, h: nat, base: seq<Block>, serves: bool, sent: seq<Block>, was: Ledger,
                        more: seq<Block>, now: Ledger, ok: bool, end: nat, added: nat)
    requires Progress(peer, fork, h, base, serves, sent, was) && fork <= h < end && |more| <= 1
    requires serves ==> ServesAll(peer, end)
    requires now.chain == if ok then was.chain + more else was.chain
    requires added == |sent| + if ok then |more| else 0
    requires peer.honest && (ok || more != []) ==> more == ServedAt(peer.chain, h)
    ensures ok ==> Progress(peer, fork, h + 1, base, serves, sent + more, now) && added == |sent + more|
    ensures Kept(now.chain, base, sent + more, added)
    ensures FromPeer(serves, sent + more, peer.chain, fork, end)
  {
    KeptOneMore(was.chain, base, sent, more, ok);
    if ok || more != [] {
      FollowedOneMore(serves, sent, more, peer.chain, fork, h);
      FollowedIsFromPeer(serves, sent + more, peer.chain, fork, h + 1, end);
    } else {
      AppendNone(sent);
      FollowedIsFromPeer(serves, sent, peer.chain, fork, h, end);
    }
  }

  /** The same turn, told from the fork. */
  method DownloadNext(peer: Peer, bc: Blockchain, fork: nat, h: nat, peerHeight: nat, added: nat,
                      ghost base: seq<Block>, ghost serves: bool, ghost was: Ledger, ghost start: Ledger,
                      ghost pops: nat, ghost sent: seq<Block>)
    returns (r: Result<(), SyncError>, total: nat, ghost all: seq<Block>, ghost now: Ledger)
    requires serves ==> ServesAll(peer, peerHeight)
    requires At(bc, was) && |was.diffs| == |was.chain| && |start.diffs| == |start.chain|
    requires Traced(start, pops, sent, was, bc.env) && added == |sent|
    requires fork <= h < peerHeight && Progress(peer, fork, h, base, serves, sent, was)
    modifies bc.utxos, bc.store, bc.difficulty
    ensures At(bc, now) && |now.diffs| == |now.chain| && Traced(start, pops, all, now, bc.env)
    ensures r.Ok? ==> Progress(peer, fork, h + 1, base, serves, all, now) && total == |all|
    ensures Kept(now.chain, base, all, total) && FromPeer(serves, all, peer.chain, fork, peerHeight)
    ensures r.Err? ==> r.error != NoForkPoint
  {
    ghost var more;
    var got;
    r, got, more, now := DownloadOne(peer, bc, h, was, start, pops, sent);
    all, total := sent + more, added + got;
    ProgressOneMore(peer, fork, h, base, serves, sent, was, more, now, r.Ok?, peerHeight, total);
  }

  /** Whatever the peer sends goes on top of what is there; of one that serves its chain, all up to `peerHeight`. */
  method Download(peer: Peer, bc: Blockchain, fork: nat, peerHeight: nat, ghost serves: bool, ghost was: Ledger,
                  ghost start: Ledger, ghost pops: nat)
    returns (r: Result<(), SyncError>, added: nat, ghost sent: seq<Block>, ghost now: Ledger)
    requires serves ==> ServesAll(peer, peerHeight)
    requires At(bc, was) && |was.diffs| == |was.chain| && |start.diffs| == |start.chain|
    requires Traced(start, pops, [], was, bc.env)
    modifies bc.utxos, bc.store, bc.difficulty
    ensures At(bc, now) && |now.diffs| == |now.chain| && Traced(start, pops, sent, now, bc.env)
    ensures Kept(now.chain, was.chain, sent, added) && FromPeer(serves, sent, peer.chain, fork, peerHeight)
    ensures r.Ok? ==>
      Progress(peer, fork, End(fork, peerHeight), was.chain, serves, sent, now)
    ensures r.Err? ==> r.error != NoForkPoint
  {
    var currentHeight := fork;
    added, sent, now := 0, [], was;
    ProgressStart(peer, fork, serves, was);
    while currentHeight < peerHeight
      invariant At(bc, now) && |now.diffs| == |now.chain| && Traced(start, pops, sent, now, bc.env) && added == |sent|
      invariant fork <= currentHeight <= End(fork, peerHeight)
      invariant Progress(peer, fork, currentHeight, was.chain, serves, sent, now)
      decreases peerHeight - currentHeight
    {
      r, added, sent, now := DownloadNext(peer, bc, fork, currentHeight, peerHeight, added, was.chain, serves, now,
                                          start, pops, sent);
      if !r.Ok? {
        return;
      }
      currentHeight := currentHeight + 1;
    }
    assert currentHeight == End(fork, peerHeight);
    ProgressDone(peer, fork, was.chain, serves, sent, now, peerHeight);
    return Ok(()), added, sent, now;
  }

  lemma ForkIsShared(local: seq<Block>, peer: Peer, peerHeight: nat, fork: nat, env: Env)
    requires HonestChain(peer, peerHeight, env) && Linked(local) && AuthenticChain(local, env)
    requires fork < |local| && Holds(peer.chain, local[fork].meta.hash.value)
    ensures fork < |peer.chain| && SameHashes(local[..fork], peer.chain, fork)
  {
    var j :| 0 <= j < |peer.chain| && HashAt(peer.chain, j) == Some(local[fork].meta.hash.value);
    assert HashAt(local, fork) == HashAt(peer.chain, j);
    CommonPrefix(local, peer.chain, fork, j, env);
    forall k | 0 <= k < fork ensures HashAt(local[..fork], k) == HashAt(peer.chain, k) {
      assert HashAt(local, k) == HashAt(peer.chain, k);
    }
  }

  /** What is needed, beside an honest peer, for equal hashes to be equal blocks. */
  ghost predicate AllAuthentic(chain: seq<Block>, env: Env) {
    AuthenticChain(chain, env) && forall i | 0 <= i < |chain| :: IdsAuthentic(chain[i], env)
  }

  /** Equal hashes are equal blocks once both chains' transaction ids are digests too. */
  lemma SyncedChainsEqual(a: seq<Block>, b: seq<Block>, n: nat, env: Env)
    requires InjectiveBlockDigest(env) && InjectiveTxDigest(env)
    requires n == |a| <= |b| && SameHashes(a, b, n) && AuthenticChain(a, env) && AuthenticChain(b, env)
    requires forall i | 0 <= i < n :: IdsAuthentic(a[i], env) && IdsAuthentic(b[i], env)
    ensures a == b[..n]
  {
    forall i | 0 <= i < n ensures a[i] == b[i] {
      assert HashAt(a, i) == HashAt(b, i);
      BlockHashBindsBlock(a[i], b[i], env);
    }
  }

  /** Below a shared block two authentic chains have the same blocks. */
  lemma SharedBlocks(local: seq<Block>, peer: Peer, peerHeight: nat, fork: nat, env: Env)
    requires HonestChain(peer, peerHeight, env) && InjectiveTxDigest(env) && Linked(local)
    requires AllAuthentic(local, env) && AllAuthentic(peer.chain[..peerHeight], env)
    requires fork < |local| && fork <= peerHeight && Holds(peer.chain, local[fork].meta.hash.value)
    ensures local[..fork] == peer.chain[..fork]
  {
    ForkIsShared(local, peer, peerHeight, fork, env);
    var a, b := local[..fork], peer.chain[..peerHeight];
    forall i | 0 <= i < fork
      ensures HashAt(a, i) == HashAt(b, i) && IdsAuthentic(a[i], env) && IdsAuthentic(b[i], env)
    {
      assert HashAt(local[..fork], i) == HashAt(peer.chain, i) && a[i] == local[i];
    }
    forall i | 0 <= i < fork ensures Authentic(a[i], env) {
      assert a[i] == local[i];
    }
    SyncedChainsEqual(a, b, fork, env);
    PrefixOfPrefix(peer.chain, peerHeight, fork);
  }

  lemma Completed(local: seq<Block>, now: seq<Block>, b: seq<Block>, fork: nat, n: nat)
    requires fork <= |local| && fork <= n <= |b| && now == local[..fork] + b[fork..n] && local[..fork] == b[..fork]
    ensures now == b[..n]
  {
  }

  // ---------- A reorganisation keeps the state a replay ----------

  /** Each block has ids that are fresh for the chain below it. */
  ghost predicate FreshOn(chain: seq<Block>, blocks: seq<Block>)
    decreases |blocks|
  {
    blocks == [] || (FreshFor(chain, blocks[0]) && FreshOn(chain + [blocks[0]], blocks[1..]))
  }

  lemma IdsOnTop(chain: seq<Block>, above: seq<Block>, b: Block)
    requires IdsOf(chain) <= IdsOf(above)
    ensures IdsOf(chain) <= IdsOf(above + [b]) && IdsOf(chain + [b]) <= IdsOf(above + [b])
  {
    assert (above + [b])[..|above|] == above;
    IdsGrow(above + [b]);
    forall id | id in IdsOf(chain + [b]) ensures id in IdsOf(above + [b]) {
      var c, t :| c in chain + [b] && t in c.txs && id == t.id;
      assert c in chain ==> id in IdsOf(chain);
      assert c == b ==> b in above + [b];
    }
  }

  /** Refusing some of the blocks only leaves fewer ids to clash with. */
  lemma {:induction false} AddsFresh(l: Ledger, above: seq<Block>, blocks: seq<Block>, env: Env, rule: Difficulty.Rule)
    requires |l.diffs| == |l.chain| && IdsOf(l.chain) <= IdsOf(above) && FreshOn(above, blocks)
    ensures FreshRun(l, Reorg(0, blocks), env, rule) && NeverEmptied(l, Reorg(0, blocks), env, rule)
    decreases |blocks|
  {
    if blocks != [] {
      var s := Add(blocks[0], false, false);
      assert Reorg(0, blocks) == [s] + Reorg(0, blocks[1..]);
      IdsOnTop(l.chain, above, blocks[0]);
      AddsFresh(Next(l, s, env, rule), above + [blocks[0]], blocks[1..], env, rule);
    }
  }

  lemma {:induction false} ReorgFresh(l: Ledger, pops: nat, blocks: seq<Block>, env: Env, rule: Difficulty.Rule)
    requires |l.diffs| == |l.chain| && pops < |l.chain| && FreshOn(l.chain[..|l.chain| - pops], blocks)
    ensures FreshRun(l, Reorg(pops, blocks), env, rule) && NeverEmptied(l, Reorg(pops, blocks), env, rule)
    decreases pops
  {
    if pops == 0 {
      assert l.chain[..|l.chain|] == l.chain;
      AddsFresh(l, l.chain, blocks, env, rule);
    } else {
      assert Reorg(pops, blocks) == [Pop] + Reorg(pops - 1, blocks);
      PrefixOfPrefix(l.chain, |l.chain| - 1, |l.chain| - pops);
      ReorgFresh(Shrink(l), pops - 1, blocks, env, rule);
    }
  }

  /** With fresh ids on top of the fork the state is a replay again, and all of it if all of it was. */
  ghost predicate Stays(l: Ledger, fork: nat, sent: seq<Block>, now: Ledger)
    requires fork <= |l.chain|
  {
    FreshOn(l.chain[..fork], sent) ==>
      && Consistent(now, Difficulty.RULE)
      && (FullyConsistent(l, Difficulty.RULE) ==> FullyConsistent(now, Difficulty.RULE))
  }

  /** A traced reorganisation that leaves a block keeps the state a replay of the active blocks. */
  lemma ReorgStays(l: Ledger, fork: nat, pops: nat, sent: seq<Block>, now: Ledger, env: Env)
    requires |l.diffs| == |l.chain| && 0 < fork < |l.chain| && Consistent(l, Difficulty.RULE)
    requires pops <= |l.chain| - fork && (sent != [] ==> pops == |l.chain| - fork)
    requires Follows(l, Reorg(pops, sent), now, env, Difficulty.RULE)
    ensures Stays(l, fork, sent, now)
  {
    if FreshOn(l.chain[..fork], sent) {
      ReorgFresh(l, pops, sent, env, Difficulty.RULE);
      FreshExecutes(l, Reorg(pops, sent), env, Difficulty.RULE);
      HistoryIndependence(l, Reorg(pops, sent), env, Difficulty.RULE);
    }
  }

  /** Synchronise to a peer. Whatever the peer answers, at most 29 blocks are popped, height 1 is kept, nothing below
      `fork` changes, errors included, and the calls are pops and then an add of each block that was sent. If it returns
      Ok against an honest full node that is ahead, the local chain is exactly the peer's first `peerHeight` blocks. An
      honest peer on a reliable link is refused as having no fork point exactly if it holds no block of the window. */
  method SyncToPeer(peer: Peer, bc: Blockchain, peerHeight: nat)
    returns (r: Result<(), SyncError>, added: nat, ghost fork: nat, ghost pops: nat, ghost sent: seq<Block>)
    requires bc.Valid()
    modifies bc.utxos, bc.store, bc.difficulty
    ensures bc.Valid()
    ensures fork <= old(bc.store.height) && fork <= bc.store.height
    ensures bc.store.Chain()[..fork] == old(bc.store.Chain())[..fork]
    ensures fork == old(bc.store.height) || InWindow(fork, old(bc.store.height))
    ensures fork == old(bc.store.height) ==> unchanged(bc.utxos) && unchanged(bc.store) && unchanged(bc.difficulty)
    ensures r.Ok? && peer.fullNode ==> fork < old(bc.store.height)
    ensures peer.fullNode && peer.honest && peer.reliable ==>
      (r == Err(NoForkPoint) <==> forall h: nat | InWindow(h, old(bc.store.height)) ::
        !Holds(peer.chain, old(bc.store.Chain())[h].meta.hash.value))
    ensures peer.fullNode && old(bc.store.height) <= 1 ==> r == Err(NoForkPoint)
    ensures (r.Ok? && peer.fullNode && fork <= peerHeight && HonestChain(peer, peerHeight, bc.env)
             && InjectiveTxDigest(bc.env) && AllAuthentic(old(bc.store.Chain()), bc.env)
             && AllAuthentic(peer.chain[..peerHeight], bc.env)) ==>
        bc.store.Chain() == peer.chain[..peerHeight]
    ensures FromPeer(ServesAll(peer, peerHeight), sent, peer.chain, fork, peerHeight)
    ensures r.Ok? ==> bc.store.Chain() == old(bc.store.Chain())[..fork] + sent
    ensures if sent == [] then added == 0 else Kept(bc.store.Chain(), old(bc.store.Chain())[..fork], sent, added)
    ensures Traced(old(bc.State()), pops, sent, bc.State(), bc.env)
    ensures pops <= old(bc.store.height) - fork && (r.Ok? || sent != [] ==> pops == old(bc.store.height) - fork)
  {
    added, fork, pops, sent := 0, bc.store.height, 0, [];
    AppendNone(bc.store.Chain());
    if !peer.fullNode {
      return Ok(()), added, fork, pops, sent;
    }
    var found := FindFork(peer, bc);
    if !found.Ok? {
      return Panic, added, fork, pops, sent;
    }
    if found.value.None? {
      return Err(NoForkPoint), added, fork, pops, sent;
    }
    var forkHeight := found.value.value;
    ghost var start, now := bc.State(), bc.State();
    fork := forkHeight;
    r, added, pops, sent, now := Reorganise(peer, bc, forkHeight, peerHeight, ServesAll(peer, peerHeight), start);
    if r.Ok? && fork <= peerHeight && HonestChain(peer, peerHeight, bc.env) && InjectiveTxDigest(bc.env)
       && AllAuthentic(start.chain, bc.env) && AllAuthentic(peer.chain[..peerHeight], bc.env) {
      HonestServesAll(peer, peerHeight, bc.env);
      SharedBlocks(start.chain, peer, peerHeight, fork, bc.env);
      Completed(start.chain, now.chain, peer.chain, fork, peerHeight);
    }
  }

  /** What a reorganisation leaves: the chain up to the fork, and on it what was added of what was sent. */
  ghost predicate Reorganised(chain: seq<Block>, now: seq<Block>, fork: nat, pops: nat, sent: seq<Block>, added: nat,
                              ok: bool)
    requires fork <= |chain|
  {
    && fork <= |now| && now[..fork] == chain[..fork]
    && pops <= |chain| - fork && (ok || sent != [] ==> pops == |chain| - fork)
    && (ok ==> now == chain[..fork] + sent)
    && if sent == [] then added == 0 else Kept(now, chain[..fork], sent, added)
  }

  /** Roll back to the fork, then download. */
  method Reorganise(peer: Peer, bc: Blockchain, fork: nat, peerHeight: nat, ghost serves: bool, ghost start: Ledger)
    returns (r: Result<(), SyncError>, added: nat, ghost pops: nat, ghost sent: seq<Block>, ghost now: Ledger)
    requires serves ==> ServesAll(peer, peerHeight)
    requires At(bc, start) && |start.diffs| == |start.chain| && fork < |start.chain|
    modifies bc.utxos, bc.store, bc.difficulty
    ensures At(bc, now) && |now.diffs| == |now.chain| && Traced(start, pops, sent, now, bc.env)
    ensures Reorganised(start.chain, now.chain, fork, pops, sent, added, r.Ok?)
    ensures FromPeer(serves, sent, peer.chain, fork, peerHeight)
    ensures r.Ok? && fork <= peerHeight ==> Followed(serves, sent, peer.chain, fork, peerHeight)
    ensures r.Err? ==> r.error != NoForkPoint
  {
    added, sent := 0, [];
    r, pops, now := RollBack(bc, fork, start);
    BelowPrefix(now.chain, start.chain, fork);
    AppendNone(now.chain);
    FollowedNone(serves, peer.chain, fork, peerHeight);
    if r.Ok? {
      r, added, sent, now := Download(peer, bc, fork, peerHeight, serves, now, start, pops);
      KeptBelow(now.chain, start.chain[..fork], sent, added);
    }
  }

  /** If what is sent has fresh ids, synchronising keeps the state a replay of the active blocks, all of it. */
  method SyncAndStay(peer: Peer, bc: Blockchain, peerHeight: nat)
    returns (r: Result<(), SyncError>, ghost fork: nat, ghost sent: seq<Block>)
    requires bc.Valid() && Consistent(bc.State(), Difficulty.RULE)
    modifies bc.utxos, bc.store, bc.difficulty
    ensures bc.Valid() && fork <= old(bc.store.height)
    ensures FromPeer(ServesAll(peer, peerHeight), sent, peer.chain, fork, peerHeight)
    ensures Stays(old(bc.State()), fork, sent, bc.State())
  {
    ghost var pops, start := 0, bc.State();
    var added;
    r, added, fork, pops, sent := SyncToPeer(peer, bc, peerHeight);
    if fork < |start.chain| {
      ReorgStays(start, fork, pops, sent, bc.State(), bc.env);
    }
  }
}
