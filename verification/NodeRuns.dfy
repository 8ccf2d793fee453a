/** Runs of a full node: transactions, blocks, expiry and reorganisations in any order (src/full_node/mod.rs:162-280,
    src/node/mempool.rs:23-49, src/full_node/behavior.rs:57-85). */
module NodeRuns {
  import opened Base
  import opened Types
  import opened Utxos
  import opened Blocks
  import opened Ledgers
  import opened Blockchains
  import opened MemPools
  import opened FullNodes
  import opened Sync
  import Difficulty
  import Bytes
  import BlockBuilding

  /** All a node knows, as a value. */
  datatype NodeState = NodeState(ledger: Ledger, pending: Buckets, lastBlock: Hash, lastTxs: seq<Hash>)

  const FIRST: NodeState := NodeState(GENESIS, map[], 0, [])

  /** What reaches the node, and the clock when it does. A ping that claims a chain longer by two or more starts a
      reorganisation; the event says how many blocks that pops and which are sent. */
  datatype Event =
    | Submitted(tx: Transaction, now: nat) | Announced(block: Block, now: nat) | Expiry(now: nat)
    | Pinged(height: nat, pops: nat, sent: seq<Block>)

  ghost predicate Aligned(s: NodeState) {
    |s.ledger.diffs| == |s.ledger.chain|
  }

  /** The transaction is new to the node and enters the pool. */
  ghost predicate Enters(s: NodeState, tx: Transaction, now: nat, env: Env) {
    Complete(tx) && tx.id.value !in s.lastTxs && Admissible(s.ledger, Listing(s.pending), tx, now, env)
  }

  /** The block is not the one just seen and enters the chain. */
  ghost predicate Joins(s: NodeState, b: Block, now: nat, env: Env) {
    b.meta.hash.Some? && b.meta.hash.value != s.lastBlock && Timely(b.timestamp, now)
    && Acceptable(s.ledger, b, false, false, env)
  }

  ghost function AfterTransaction(s: NodeState, tx: Transaction, now: nat, env: Env): NodeState {
    NodeState(
      s.ledger,
      if Enters(s, tx, now, env) then Added(s.pending, now + EXPIRATION_TIME, tx) else s.pending,
      s.lastBlock,
      if Complete(tx) then Remembered(s.lastTxs, tx.id.value) else s.lastTxs)
  }

  ghost function AfterBlock(s: NodeState, b: Block, now: nat, env: Env): NodeState {
    AcceptableHasIds(s.ledger, b, env);
    NodeState(
      if Joins(s, b, now, env) then Extend(s.ledger, b, Difficulty.RULE) else s.ledger,
      if Joins(s, b, now, env) then Unspent(s.pending, TxIds(b.txs)) else s.pending,
      if b.meta.hash.Some? then b.meta.hash.value else s.lastBlock,
      s.lastTxs)
  }

  /** A reorganisation starts from an empty pool, and the last block it adds is the last one seen. */
  ghost function AfterResync(s: NodeState, pops: nat, sent: seq<Block>, env: Env): NodeState
    requires Aligned(s)
  {
    var now := Run(s.ledger, Reorg(pops, sent), env, Difficulty.RULE);
    NodeState(
      now,
      map[],
      if |now.chain| > |s.ledger.chain| - pops then LastHash(now.chain) else s.lastBlock,
      s.lastTxs)
  }

  ghost function NodeNext(s: NodeState, e: Event, env: Env): (r: NodeState)
    requires Aligned(s)
    ensures Aligned(r)
  {
    match e
    case Submitted(tx, now) => AfterTransaction(s, tx, now, env)
    case Announced(b, now) => AfterBlock(s, b, now, env)
    case Expiry(now) => s.(pending := Unexpired(s.pending, now))
    case Pinged(height, pops, sent) => if |s.ledger.chain| + 1 < height then AfterResync(s, pops, sent, env) else s
  }

  ghost function NodeRun(s: NodeState, events: seq<Event>, env: Env): NodeState
    requires Aligned(s)
    decreases |events|
  {
    if events == [] then s else NodeRun(NodeNext(s, events[0], env), events[1..], env)
  }

  /** Every block that joins the chain has fresh ids at that moment. */
  ghost predicate FreshEvent(s: NodeState, e: Event, env: Env)
    requires Aligned(s)
  {
    FreshRun(s.ledger, StepsOfOne(s, e, env), env, Difficulty.RULE)
  }

  ghost predicate FreshEvents(s: NodeState, events: seq<Event>, env: Env)
    requires Aligned(s)
    decreases |events|
  {
    events == [] || (FreshEvent(s, events[0], env) && FreshEvents(NodeNext(s, events[0], env), events[1..], env))
  }

  /** The calls on the blockchain that an event makes, but for a block that is refused. */
  ghost function StepsOfOne(s: NodeState, e: Event, env: Env): seq<Step> {
    match e
    case Announced(b, now) => if Joins(s, b, now, env) then [Add(b, false, false)] else []
    case Pinged(height, pops, sent) => if |s.ledger.chain| + 1 < height then Reorg(pops, sent) else []
    case _ => []
  }

  ghost function StepsOf(s: NodeState, events: seq<Event>, env: Env): seq<Step>
    requires Aligned(s)
    decreases |events|
  {
    if events == [] then []
    else StepsOfOne(s, events[0], env) + StepsOf(NodeNext(s, events[0], env), events[1..], env)
  }

  /** An event is those calls on the ledger. */
  lemma EventIsSteps(s: NodeState, e: Event, env: Env)
    requires Aligned(s)
    ensures NodeNext(s, e, env).ledger == Run(s.ledger, StepsOfOne(s, e, env), env, Difficulty.RULE)
  {
    if e.Announced? && Joins(s, e.block, e.now, env) {
      RunOneMore(s.ledger, [], Add(e.block, false, false), env, Difficulty.RULE);
      assert [] + [Add(e.block, false, false)] == [Add(e.block, false, false)];
    }
  }

  ghost predicate SaneLedger(l: Ledger) {
    |l.diffs| == |l.chain| && Consistent(l, Difficulty.RULE)
  }

  /** Chain consistent, pool conflict-free, memory bounded. */
  ghost predicate Sane(s: NodeState) {
    SaneLedger(s.ledger) && NoConflicts(Listing(s.pending)) && |s.lastTxs| <= LAST_SEEN_TRANSACTIONS
  }

  lemma TransactionKeeps(s: NodeState, tx: Transaction, now: nat, env: Env)
    requires NoConflicts(Listing(s.pending)) && |s.lastTxs| <= LAST_SEEN_TRANSACTIONS
    ensures var after := AfterTransaction(s, tx, now, env);
      NoConflicts(Listing(after.pending)) && |after.lastTxs| <= LAST_SEEN_TRANSACTIONS
  {
    if Complete(tx) {
      RememberedHolds(s.lastTxs, tx.id.value);
    }
    if Enters(s, tx, now, env) {
      MemPools.AddKeeps(s.pending, now + EXPIRATION_TIME, tx);
    }
  }

  lemma BlockKeepsPool(s: NodeState, b: Block, now: nat, env: Env)
    requires NoConflicts(Listing(s.pending))
    ensures NoConflicts(Listing(AfterBlock(s, b, now, env).pending))
  {
    AcceptableHasIds(s.ledger, b, env);
    if Joins(s, b, now, env) {
      PoolStepKeeps(s.pending, Spend(TxIds(b.txs)));
    }
  }

  lemma EventKeeps(s: NodeState, e: Event, env: Env)
    requires Sane(s) && FreshEvent(s, e, env)
    ensures Sane(NodeNext(s, e, env))
  {
    EventKeepsLedger(s, e, env);
    EventKeepsPool(s, e, env);
  }

  lemma EventKeepsLedger(s: NodeState, e: Event, env: Env)
    requires SaneLedger(s.ledger) && FreshEvent(s, e, env)
    ensures SaneLedger(NodeNext(s, e, env).ledger)
  {
    EventIsSteps(s, e, env);
    HistoryIndependence(s.ledger, StepsOfOne(s, e, env), env, Difficulty.RULE);
  }

  lemma EventKeepsPool(s: NodeState, e: Event, env: Env)
    requires Aligned(s) && NoConflicts(Listing(s.pending)) && |s.lastTxs| <= LAST_SEEN_TRANSACTIONS
    ensures var next := NodeNext(s, e, env);
      NoConflicts(Listing(next.pending)) && |next.lastTxs| <= LAST_SEEN_TRANSACTIONS
  {
    match e {
      case Submitted(tx, now) => TransactionKeeps(s, tx, now, env);
      case Announced(b, now) => BlockKeepsPool(s, b, now, env);
      case Expiry(now) => PoolStepKeeps(s.pending, Expire(now));
      case Pinged(height, pops, sent) =>
    }
  }

  lemma {:induction false} RunStaysSane(s: NodeState, events: seq<Event>, env: Env)
    requires Sane(s) && FreshEvents(s, events, env)
    ensures Sane(NodeRun(s, events, env))
    decreases |events|
  {
    if events != [] {
      EventKeeps(s, events[0], env);
      RunStaysSane(NodeNext(s, events[0], env), events[1..], env);
    }
  }

  lemma {:induction false} RunOn(l: Ledger, steps: seq<Step>, more: seq<Step>, env: Env, rule: Difficulty.Rule)
    requires |l.diffs| == |l.chain|
    ensures Run(l, steps + more, env, rule) == Run(Run(l, steps, env, rule), more, env, rule)
    ensures FreshRun(l, steps + more, env, rule)
      <==> FreshRun(l, steps, env, rule) && FreshRun(Run(l, steps, env, rule), more, env, rule)
    decreases |steps|
  {
    if steps == [] {
      assert steps + more == more;
    } else {
      assert (steps + more)[0] == steps[0] && (steps + more)[1..] == steps[1..] + more;
      RunOn(Next(l, steps[0], env, rule), steps[1..], more, env, rule);
    }
  }

  /** Over every run of the node, whatever arrives: its chain state is a run of the ledger, so that every theorem about
      those holds of it. */
  lemma {:induction false} NodeRunIsRun(s: NodeState, events: seq<Event>, env: Env)
    requires Aligned(s)
    ensures FreshEvents(s, events, env) ==> FreshRun(s.ledger, StepsOf(s, events, env), env, Difficulty.RULE)
    ensures NodeRun(s, events, env).ledger == Run(s.ledger, StepsOf(s, events, env), env, Difficulty.RULE)
    decreases |events|
  {
    if events != [] {
      var next := NodeNext(s, events[0], env);
      EventIsSteps(s, events[0], env);
      NodeRunIsRun(next, events[1..], env);
      RunOn(s.ledger, StepsOfOne(s, events[0], env), StepsOf(next, events[1..], env), env, Difficulty.RULE);
    }
  }

  /** And from genesis it stays consistent, with a pool free of conflicts and a bounded memory. */
  lemma {:induction false} NodeRunKeeps(events: seq<Event>, env: Env)
    requires FreshEvents(FIRST, events, env)
    ensures Sane(NodeRun(FIRST, events, env))
    ensures FreshRun(GENESIS, StepsOf(FIRST, events, env), env, Difficulty.RULE)
    ensures NodeRun(FIRST, events, env).ledger == Run(GENESIS, StepsOf(FIRST, events, env), env, Difficulty.RULE)
  {
    GenesisConsistent(Difficulty.RULE);
    RunStaysSane(FIRST, events, env);
    NodeRunIsRun(FIRST, events, env);
  }

  /** At any time of any run a miner may take pending transactions as it likes: what is valid alone and timely passes
      the checks of a block together. */
  lemma {:induction false} PicksAtAnyTime(events: seq<Event>, env: Env, chosen: seq<Transaction>, at: seq<nat>,
                                          now: nat)
    requires FreshEvents(FIRST, events, env)
    requires BlockBuilding.Picks(chosen, Listing(NodeRun(FIRST, events, env).pending), at)
    requires var l := NodeRun(FIRST, events, env).ledger;
      forall i | 0 <= i < |chosen| :: ValidTx(l.unspent, chosen[i], Bytes.FromBytes(l.targets.tx), false, env)
    requires forall i | 0 <= i < |chosen| :: chosen[i].timestamp <= now <= chosen[i].timestamp + EXPIRATION_TIME
    ensures BlockBuilding.Choosable(NodeRun(FIRST, events, env).ledger, chosen, now, false, env)
  {
    NodeRunKeeps(events, env);
    BlockBuilding.PicksKeep(chosen, Listing(NodeRun(FIRST, events, env).pending), at);
  }

  /** A transaction that was valid before a block joined is valid after it exactly if the block spends none of its
      inputs and its id still meets the transaction target. */
  lemma ValidAfterBlock(l: Ledger, b: Block, t: Transaction, env: Env, rule: Difficulty.Rule)
    requires Consistent(l, rule) && Acceptable(l, b, false, false, env) && FreshFor(l.chain, b)
    requires ValidTx(l.unspent, t, Bytes.FromBytes(l.targets.tx), false, env)
    ensures var after := Extend(l, b, rule);
      ValidTx(after.unspent, t, Bytes.FromBytes(after.targets.tx), false, env)
      <==> PointSet(t.inputs) !! AllInputs(b.txs) && t.id.value <= Bytes.FromBytes(after.targets.tx)
  {
    AcceptedExecutes(l, b, false, false, env, rule);
    StaysFunded(l.unspent, |l.chain|, b.txs, t);
    InputsAfter(l.unspent, |l.chain|, b.txs, t);
    SealedAfter(l.unspent, ExecTxs(l.unspent, b.txs), t, Bytes.FromBytes(l.targets.tx),
                Bytes.FromBytes(Extend(l, b, rule).targets.tx), false, env);
  }

  lemma InputsAfter(u: View, height: nat, txs: seq<Transaction>, t: Transaction)
    requires SoundTxs(u, height, txs) && FreshIds(u, txs) && Funded(u, t)
    ensures forall i <- t.inputs :: Point(i) in ExecTxs(u, txs) ==>
      Point(i) in u && ExecTxs(u, txs)[Point(i)] == u[Point(i)]
  {
    forall i | i in t.inputs && Point(i) in ExecTxs(u, txs)
      ensures Point(i) in u && ExecTxs(u, txs)[Point(i)] == u[Point(i)]
    {
      UnspentAfter(u, height, txs, Point(i));
    }
  }

  /** Valid on the unspent outputs and at the transaction target of the ledger. */
  ghost predicate ValidOn(l: Ledger, t: Transaction, env: Env) {
    ValidTx(l.unspent, t, Bytes.FromBytes(l.targets.tx), false, env)
  }

  lemma PoolAfterJoin(s: NodeState, b: Block, now: nat, t: Transaction, env: Env)
    requires Joins(s, b, now, env)
    ensures t in Listing(AfterBlock(s, b, now, env).pending)
      <==> t in Listing(s.pending) && forall i | 0 <= i < |b.txs| :: b.txs[i].id != t.id
  {
    AcceptableHasIds(s.ledger, b, env);
    PoolAfterBlock(s.pending, b);
  }

  /** What a block does to the pool: its own transactions leave, nothing else does; of what was valid and stays, exactly
      those have gone stale that it conflicts with, or that the new transaction target rules out. */
  lemma PendingAfterBlock(s: NodeState, b: Block, now: nat, t: Transaction, env: Env, after: NodeState)
    requires SaneLedger(s.ledger) && Joins(s, b, now, env) && FreshFor(s.ledger.chain, b)
    requires ValidOn(s.ledger, t, env) && after == AfterBlock(s, b, now, env)
    ensures t in Listing(after.pending)
      <==> t in Listing(s.pending) && forall i | 0 <= i < |b.txs| :: b.txs[i].id != t.id
    ensures ValidOn(after.ledger, t, env)
      <==> PointSet(t.inputs) !! AllInputs(b.txs) && t.id.value <= Bytes.FromBytes(after.ledger.targets.tx)
  {
    PoolAfterJoin(s, b, now, t, env);
    ValidAfterBlock(s.ledger, b, t, env, Difficulty.RULE);
  }

  // ---------- The node object takes these steps ----------

  ghost function StateOf(node: Node): NodeState
    requires node.Valid()
    reads node, node.mempool, node.blockchain.utxos, node.blockchain.store, node.blockchain.difficulty
  {
    NodeState(node.blockchain.State(), node.mempool.pending, node.lastSeenBlock, node.lastSeenTransactions)
  }

  /** What the event does to the blockchain goes through. */
  ghost predicate GoesThrough(s: NodeState, e: Event, env: Env)
    requires Aligned(s)
  {
    Executes(s.ledger, StepsOfOne(s, e, env), env, Difficulty.RULE)
  }

  /** If so, `now` is the state after the event. */
  ghost predicate Went(s: NodeState, e: Event, now: NodeState, env: Env)
    requires Aligned(s)
  {
    GoesThrough(s, e, env) ==> now == NodeNext(s, e, env)
  }

  /** What reaches the node object: the same, with the peer that pings. */
  datatype Arrival =
    | Transaction(tx: Transaction, now: nat) | NewBlock(block: Block, now: nat) | Tick(now: nat)
    | Ping(peer: Peer, height: nat)

  /** The event that an arrival turned out to be. */
  ghost predicate Matches(a: Arrival, e: Event) {
    match a
    case Transaction(tx, now) => e == Submitted(tx, now)
    case NewBlock(b, now) => e == Announced(b, now)
    case Tick(now) => e == Expiry(now)
    case Ping(peer, height) => e.Pinged? && e.height == height
  }

  method HandleTransaction(node: Node, tx: Transaction, now: nat) returns (r: Result<(), NodeError>)
    requires node.Valid()
    modifies node, node.mempool
    ensures node.Valid() && StateOf(node) == NodeNext(old(StateOf(node)), Submitted(tx, now), node.blockchain.env)
  {
    r := node.AcceptTransaction(tx, now);
  }

  lemma BlockGoesThrough(s: NodeState, b: Block, now: nat, env: Env)
    requires Aligned(s) && GoesThrough(s, Announced(b, now), env) && Joins(s, b, now, env)
    ensures ExecutableTxs(s.ledger.unspent, b.txs)
  {
    assert Doable(s.ledger, Add(b, false, false), env);
  }

  /** `AcceptBlock`, component by component. */
  method HandleBlock(node: Node, b: Block, now: nat) returns (r: Result<(), NodeError>)
    requires node.Valid()
    modifies node, node.mempool, node.blockchain.utxos, node.blockchain.store, node.blockchain.difficulty
    ensures node.Valid()
    ensures Went(old(StateOf(node)), Announced(b, now), StateOf(node), node.blockchain.env)
  {
    ghost var s, env := StateOf(node), node.blockchain.env;
    ghost var joins := Joins(s, b, now, env);
    if joins && GoesThrough(s, Announced(b, now), env) {
      BlockGoesThrough(s, b, now, env);
    }
    r := node.AcceptBlock(b, now);
  }

  method HandleExpiry(node: Node, now: nat)
    requires node.Valid()
    modifies node.mempool
    ensures node.Valid() && StateOf(node) == NodeNext(old(StateOf(node)), Expiry(now), node.blockchain.env)
  {
    PoolStepKeeps(node.mempool.pending, Expire(now));
    node.mempool.RemoveExpired(now);
  }

  lemma AfterSync(s: NodeState, height: nat, pops: nat, sent: seq<Block>, now: Ledger, added: nat, env: Env)
    requires Aligned(s) && |s.ledger.chain| + 1 < height && pops <= |s.ledger.chain|
    requires Traced(s.ledger, pops, sent, now, env) && |now.diffs| == |now.chain|
    requires if sent == [] then added == 0 else |now.chain| == |s.ledger.chain| - pops + added
    ensures Went(s, Pinged(height, pops, sent),
                 NodeState(now, map[], if added > 0 then LastHash(now.chain) else s.lastBlock, s.lastTxs), env)
  {
    if sent == [] {
      PopsShorten(s.ledger, pops, env, Difficulty.RULE);
    }
  }

  lemma {:induction false} PopsShorten(l: Ledger, pops: nat, env: Env, rule: Difficulty.Rule)
    requires |l.diffs| == |l.chain| && pops <= |l.chain|
    ensures |Run(l, Reorg(pops, []), env, rule).chain| == |l.chain| - pops
    decreases pops
  {
    if pops > 0 {
      assert Reorg(pops, []) == [Pop] + Reorg(pops - 1, []);
      PopsShorten(Shrink(l), pops - 1, env, rule);
    }
  }

  method Resync(peer: Peer, bc: Blockchain, height: nat, ghost start: Ledger)
    returns (added: nat, ghost pops: nat, ghost sent: seq<Block>, ghost now: Ledger)
    requires At(bc, start) && |start.diffs| == |start.chain|
    modifies bc.utxos, bc.store, bc.difficulty
    ensures At(bc, now) && |now.diffs| == |now.chain|
    ensures Traced(start, pops, sent, now, bc.env) && pops <= |start.chain|
    ensures if sent == [] then added == 0 else |now.chain| == |start.chain| - pops + added
  {
    var r;
    ghost var fork;
    r, added, fork, pops, sent := SyncToPeer(peer, bc, height);
    now := bc.State();
    if sent != [] {
      KeptLength(now.chain, start.chain, fork, sent, added);
    }
  }

  lemma KeptLength(now: seq<Block>, chain: seq<Block>, fork: nat, sent: seq<Block>, added: nat)
    requires fork <= |chain| && Kept(now, chain[..fork], sent, added)
    ensures |now| == fork + added
  {
  }

  lemma LastBlockIs(bc: Blockchain)
    requires bc.Valid()
    ensures bc.store.lastBlock == LastHash(bc.State().chain)
  {
  }

  /** A ping of a peer that claims to be ahead: clear the pool, and synchronise. */
  method HandlePing(node: Node, peer: Peer, height: nat) returns (ghost pops: nat, ghost sent: seq<Block>)
    requires node.Valid()
    modifies node, node.mempool, node.blockchain.utxos, node.blockchain.store, node.blockchain.difficulty
    ensures node.Valid()
    ensures Went(old(StateOf(node)), Pinged(height, pops, sent), StateOf(node), node.blockchain.env)
    ensures if old(node.blockchain.store.height) + 1 < height then node.mempool.pending == map[]
            else StateOf(node) == old(StateOf(node))
    ensures node.lastSeenTransactions == old(node.lastSeenTransactions)
  {
    pops, sent := 0, [];
    if node.blockchain.store.height + 1 < height {
      ghost var s, now := StateOf(node), node.blockchain.State();
      var added;
      PoolStepKeeps(node.mempool.pending, Clear);
      node.mempool.ClearAll();
      added, pops, sent, now := Resync(peer, node.blockchain, height, now);
      LastBlockIs(node.blockchain);
      if added > 0 {
        node.lastSeenBlock := node.blockchain.store.lastBlock;
      }
      AfterSync(s, height, pops, sent, now, added, node.blockchain.env);
    }
  }

  method Handle(node: Node, a: Arrival) returns (ghost e: Event)
    requires node.Valid()
    modifies node, node.mempool, node.blockchain.utxos, node.blockchain.store, node.blockchain.difficulty
    ensures node.Valid() && Matches(a, e) && Went(old(StateOf(node)), e, StateOf(node), node.blockchain.env)
  {
    match a {
      case Transaction(tx, now) =>
        e := Submitted(tx, now);
        var r := HandleTransaction(node, tx, now);
      case NewBlock(b, now) =>
        e := Announced(b, now);
        var r := HandleBlock(node, b, now);
      case Tick(now) =>
        e := Expiry(now);
        HandleExpiry(node, now);
      case Ping(peer, height) =>
        ghost var pops, sent := HandlePing(node, peer, height);
        e := Pinged(height, pops, sent);
    }
  }

  ghost predicate AllGoThrough(s: NodeState, events: seq<Event>, env: Env)
    requires Aligned(s)
    decreases |events|
  {
    events == [] || (GoesThrough(s, events[0], env) && AllGoThrough(NodeNext(s, events[0], env), events[1..], env))
  }

  lemma {:induction false} FreshGoThrough(s: NodeState, events: seq<Event>, env: Env)
    requires Sane(s) && FreshEvents(s, events, env)
    ensures AllGoThrough(s, events, env)
    decreases |events|
  {
    if events != [] {
      FreshExecutes(s.ledger, StepsOfOne(s, events[0], env), env, Difficulty.RULE);
      EventKeeps(s, events[0], env);
      FreshGoThrough(NodeNext(s, events[0], env), events[1..], env);
    }
  }

  /** If all goes through, `now` is the state after the events. */
  ghost predicate WentAll(s: NodeState, events: seq<Event>, now: NodeState, env: Env)
    requires Aligned(s)
  {
    AllGoThrough(s, events, env) ==> now == NodeRun(s, events, env)
  }

  lemma WentFirst(s: NodeState, e: Event, mid: NodeState, rest: seq<Event>, now: NodeState, env: Env)
    requires Aligned(s) && Aligned(mid) && Went(s, e, mid, env) && WentAll(mid, rest, now, env)
    ensures WentAll(s, [e] + rest, now, env)
  {
    assert ([e] + rest)[0] == e && ([e] + rest)[1..] == rest;
  }

  ghost predicate AllMatch(arrivals: seq<Arrival>, events: seq<Event>) {
    |events| == |arrivals| && forall i | 0 <= i < |events| :: Matches(arrivals[i], events[i])
  }

  lemma MatchFirst(arrivals: seq<Arrival>, e: Event, rest: seq<Event>)
    requires arrivals != [] && Matches(arrivals[0], e) && AllMatch(arrivals[1..], rest)
    ensures AllMatch(arrivals, [e] + rest)
  {
  }

  method HandleEach(node: Node, arrivals: seq<Arrival>) returns (ghost events: seq<Event>)
    requires node.Valid()
    modifies node, node.mempool, node.blockchain.utxos, node.blockchain.store, node.blockchain.difficulty
    ensures node.Valid() && AllMatch(arrivals, events)
    ensures WentAll(old(StateOf(node)), events, StateOf(node), node.blockchain.env)
    decreases |arrivals|
  {
    events := [];
    if arrivals != [] {
      ghost var s := StateOf(node);
      ghost var e := Handle(node, arrivals[0]);
      ghost var mid := StateOf(node);
      ghost var rest := HandleEach(node, arrivals[1..]);
      events := [e] + rest;
      WentFirst(s, e, mid, rest, StateOf(node), node.blockchain.env);
      MatchFirst(arrivals, e, rest);
    }
  }

  /** Whatever arrives, the object stays valid; and from a sane state and with fresh ids it goes through the run. */
  method HandleAll(node: Node, arrivals: seq<Arrival>) returns (ghost events: seq<Event>)
    requires node.Valid()
    modifies node, node.mempool, node.blockchain.utxos, node.blockchain.store, node.blockchain.difficulty
    ensures node.Valid() && AllMatch(arrivals, events)
    ensures Sane(old(StateOf(node))) && FreshEvents(old(StateOf(node)), events, node.blockchain.env) ==>
      StateOf(node) == NodeRun(old(StateOf(node)), events, node.blockchain.env)
  {
    ghost var s := StateOf(node);
    events := HandleEach(node, arrivals);
    if Sane(s) && FreshEvents(s, events, node.blockchain.env) {
      FreshGoThrough(s, events, node.blockchain.env);
    }
  }
}
