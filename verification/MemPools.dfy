/** The pool of pending transactions, bucketed by expiry time (src/node/mempool.rs). */
module MemPools {
  import opened Base
  import opened Types
  import opened Utxos

  type Buckets = map<nat, seq<Transaction>>

  lemma {:induction false} HasLeast(keys: set<nat>)
    requires keys != {}
    ensures exists k :: k in keys && forall j <- keys :: k <= j
  {
    var k := SomeKey(keys);
    if keys - {k} != {} {
      HasLeast(keys - {k});
      var m :| m in keys - {k} && forall j <- keys - {k} :: m <= j;
      assert forall j <- keys :: j == k || j in keys - {k};
      var least := if k <= m then k else m;
      assert least in keys && forall j <- keys :: least <= j;
    } else {
      assert k in keys && forall j <- keys :: j == k || j in keys - {k};
    }
  }

  lemma SomeKey(keys: set<nat>) returns (k: nat)
    requires keys != {}
    ensures k in keys
  {
    k :| k in keys;
  }

  ghost function Least(keys: set<nat>): (k: nat)
    requires keys != {}
    ensures k in keys && forall j <- keys :: k <= j
  {
    HasLeast(keys);
    var k :| k in keys && forall j <- keys :: k <= j;
    k
  }

  /** The pending transactions in the order `get_mempool` lists them: bucket by bucket, earliest expiry first. */
  ghost function Listing(pending: Buckets): seq<Transaction>
    decreases |pending|
  {
    if pending == map[] then []
    else
      var k := Least(pending.Keys);
      pending[k] + Listing(pending - {k})
  }

  /** The transactions whose id is not among `ids`; one without an id stays. */
  function Without(txs: seq<Transaction>, ids: seq<Hash>): seq<Transaction> {
    if txs == [] then []
    else
      var init, tx := Without(txs[..|txs| - 1], ids), txs[|txs| - 1];
      if tx.id.Some? && tx.id.value in ids then init else init + [tx]
  }

  lemma {:induction false} WithoutConcat(a: seq<Transaction>, b: seq<Transaction>, ids: seq<Hash>)
    ensures Without(a + b, ids) == Without(a, ids) + Without(b, ids)
  {
    if b == [] {
      assert a + b == a;
    } else {
      assert (a + b)[..|a + b| - 1] == a + b[..|b| - 1];
      WithoutConcat(a, b[..|b| - 1], ids);
    }
  }

  function Bucket(pending: Buckets, k: nat): seq<Transaction> {
    if k in pending then pending[k] else []
  }

  // ---------- What the operations do to the buckets ----------

  function Added(pending: Buckets, expiry: nat, tx: Transaction): Buckets {
    pending[expiry := Bucket(pending, expiry) + [tx]]
  }

  function Unexpired(pending: Buckets, now: nat): Buckets {
    map k | k in pending && k > now :: pending[k]
  }

  function Unspent(pending: Buckets, ids: seq<Hash>): Buckets {
    map k | k in pending && Without(pending[k], ids) != [] :: Without(pending[k], ids)
  }

  lemma LeastIs(pending: Buckets, k: nat)
    requires k in pending && forall j <- pending :: k <= j
    ensures Listing(pending) == pending[k] + Listing(pending - {k})
  {
    assert Least(pending.Keys) == k;
  }

  ghost predicate Inserts(before: seq<Transaction>, i: nat, tx: Transaction, after: seq<Transaction>) {
    i <= |before| && after == before[..i] + [tx] + before[i..]
  }

  lemma InsertsLater(front: seq<Transaction>, before: seq<Transaction>, i: nat, tx: Transaction,
                     after: seq<Transaction>)
    requires Inserts(before, i, tx, after)
    ensures Inserts(front + before, |front| + i, tx, front + after)
  {
    var all := front + before;
    assert all[..|front| + i] == front + before[..i] && all[|front| + i..] == before[i..];
  }

  /** The buckets that expire at `now` or before. */
  function Expired(pending: Buckets, now: nat): Buckets {
    map k | k in pending && k <= now :: pending[k]
  }

  lemma {:induction false} MembersListed(pending: Buckets, tx: Transaction)
    ensures tx in Listing(pending) <==> exists k :: k in pending && tx in pending[k]
    decreases |pending|
  {
    if pending != map[] {
      var k := Least(pending.Keys);
      MembersListed(pending - {k}, tx);
      forall j | j in pending && j != k ensures j in pending - {k} {
      }
    }
  }

  /** The listing is what expires by `now` and then the rest. */
  lemma {:induction false} ListedByExpiry(pending: Buckets, now: nat)
    ensures Listing(pending) == Listing(Expired(pending, now)) + Listing(Unexpired(pending, now))
    decreases |pending|
  {
    if forall j <- pending :: j > now {
      assert Unexpired(pending, now) == pending && Expired(pending, now) == map[];
    } else {
      var k := Least(pending.Keys);
      ListedByExpiry(pending - {k}, now);
      assert Unexpired(pending - {k}, now) == Unexpired(pending, now);
      assert Expired(pending - {k}, now) == Expired(pending, now) - {k};
      LeastIs(Expired(pending, now), k);
    }
  }

  lemma AddedParts(pending: Buckets, expiry: nat, tx: Transaction)
    ensures Unexpired(Added(pending, expiry, tx), expiry) == Unexpired(pending, expiry)
    ensures Expired(Added(pending, expiry, tx), expiry) == Added(Expired(pending, expiry), expiry, tx)
  {
  }

  /** Where a transaction is added: behind all that expire no later than it, before all that expire later. */
  lemma AddedByExpiry(pending: Buckets, expiry: nat, tx: Transaction)
    ensures Listing(Added(pending, expiry, tx))
         == Listing(Expired(pending, expiry)) + [tx] + Listing(Unexpired(pending, expiry))
  {
    var now := Added(pending, expiry, tx);
    ListedByExpiry(now, expiry);
    AddedParts(pending, expiry, tx);
    AddedLast(Expired(pending, expiry), expiry, tx);
  }

  lemma OneBucket(pending: Buckets, k: nat)
    requires pending.Keys == {k}
    ensures Listing(pending) == pending[k]
  {
    LeastIs(pending, k);
    assert pending - {k} == map[];
  }

  lemma AddedAlone(pending: Buckets, expiry: nat, tx: Transaction)
    requires pending.Keys <= {expiry}
    ensures Listing(Added(pending, expiry, tx)) == Listing(pending) + [tx]
  {
    OneBucket(Added(pending, expiry, tx), expiry);
    if expiry in pending {
      OneBucket(pending, expiry);
    } else {
      assert pending.Keys == {};
      assert Listing(pending) == [];
    }
  }

  lemma {:induction false} AddedLast(pending: Buckets, expiry: nat, tx: Transaction)
    requires forall j <- pending :: j <= expiry
    ensures Listing(Added(pending, expiry, tx)) == Listing(pending) + [tx]
    decreases |pending|
  {
    if pending.Keys <= {expiry} {
      AddedAlone(pending, expiry, tx);
    } else {
      var k := Least(pending.Keys);
      assert k < expiry by {
        var j :| j in pending && j != expiry;
      }
      AddedRest(pending, k, expiry, tx);
      AddedLast(pending - {k}, expiry, tx);
      assert (pending[k] + Listing(pending - {k})) + [tx] == pending[k] + (Listing(pending - {k}) + [tx]);
    }
  }

  lemma AddedRest(pending: Buckets, k: nat, expiry: nat, tx: Transaction)
    requires k in pending && k < expiry && forall j <- pending :: k <= j
    ensures var now := Added(pending, expiry, tx);
      Listing(now) == pending[k] + Listing(Added(pending - {k}, expiry, tx))
  {
    var now := Added(pending, expiry, tx);
    LeastIs(now, k);
    assert now - {k} == Added(pending - {k}, expiry, tx);
  }

  /** An admitted transaction is pending exactly until its 350 seconds are over, and expires nothing else. */
  lemma ExpiresOnTime(pending: Buckets, admitted: nat, tx: Transaction, now: nat)
    requires tx !in Listing(pending)
    ensures tx in Listing(Unexpired(Added(pending, admitted + EXPIRATION_TIME, tx), now)) <==> now < admitted + 350
  {
    var e := admitted + EXPIRATION_TIME;
    var after := Unexpired(Added(pending, e, tx), now);
    MembersListed(after, tx);
    if now < e {
      assert e in after && tx in after[e];
    } else {
      forall k | k in after ensures tx !in after[k] {
        assert k in pending && after[k] == pending[k];
        MembersListed(pending, tx);
      }
    }
  }

  /** Adding inserts the transaction once and moves nothing else. */
  lemma {:induction false} AddInserts(pending: Buckets, expiry: nat, tx: Transaction)
    ensures exists i: nat :: Inserts(Listing(pending), i, tx, Listing(Added(pending, expiry, tx)))
    decreases |pending|
  {
    if forall j <- pending :: expiry < j {
      AddsFirst(pending, expiry, tx);
    } else {
      var k, now := Least(pending.Keys), Added(pending, expiry, tx);
      if expiry == k {
        AddsHere(pending, expiry, tx);
      } else {
        assert now - {k} == Added(pending - {k}, expiry, tx);
        AddInserts(pending - {k}, expiry, tx);
        var i: nat :| Inserts(Listing(pending - {k}), i, tx, Listing(now - {k}));
        LeastIs(pending, k);
        LeastIs(now, k);
        assert now[k] == pending[k];
        InsertsLater(pending[k], Listing(pending - {k}), i, tx, Listing(now - {k}));
      }
    }
  }

  lemma AddsFirst(pending: Buckets, expiry: nat, tx: Transaction)
    requires forall j <- pending :: expiry < j
    ensures Inserts(Listing(pending), 0, tx, Listing(Added(pending, expiry, tx)))
  {
    var now := Added(pending, expiry, tx);
    LeastIs(now, expiry);
    assert now - {expiry} == pending;
  }

  lemma AddsHere(pending: Buckets, k: nat, tx: Transaction)
    requires k in pending && forall j <- pending :: k <= j
    ensures Inserts(Listing(pending), |pending[k]|, tx, Listing(Added(pending, k, tx)))
  {
    var now: Buckets, rest := Added(pending, k, tx), Listing(pending - {k});
    LeastIs(pending, k);
    LeastIs(now, k);
    assert now - {k} == pending - {k};
    InsertsLater(pending[k], rest, 0, tx, [tx] + rest);
    assert now[k] + rest == pending[k] + ([tx] + rest);
  }

  lemma ExpireFirst(pending: Buckets, now: nat)
    requires pending != map[] && Least(pending.Keys) <= now
    ensures Unexpired(pending, now) == Unexpired(pending - {Least(pending.Keys)}, now)
  {
  }

  /** Expiry drops the front of the listing. */
  lemma {:induction false} ExpiryDropsFront(pending: Buckets, now: nat)
    ensures exists front :: Listing(pending) == front + Listing(Unexpired(pending, now))
    decreases |pending|
  {
    if forall j <- pending :: j > now {
      assert Unexpired(pending, now) == pending;
      assert Listing(pending) == [] + Listing(Unexpired(pending, now));
    } else {
      var k := Least(pending.Keys);
      ExpireFirst(pending, now);
      ExpiryDropsFront(pending - {k}, now);
      var front :| Listing(pending - {k}) == front + Listing(Unexpired(pending, now));
      assert Listing(pending) == (pending[k] + front) + Listing(Unexpired(pending, now));
    }
  }

  lemma UnspentFirst(pending: Buckets, ids: seq<Hash>, k: nat)
    requires k in pending && forall j <- pending :: k <= j
    ensures Listing(Unspent(pending, ids)) == Without(pending[k], ids) + Listing(Unspent(pending - {k}, ids))
  {
    var now := Unspent(pending, ids);
    if Without(pending[k], ids) == [] {
      assert now == Unspent(pending - {k}, ids);
    } else {
      assert now - {k} == Unspent(pending - {k}, ids);
      LeastIs(now, k);
    }
  }

  /** Spending filters the listing. */
  lemma {:induction false} SpendFilters(pending: Buckets, ids: seq<Hash>)
    ensures Listing(Unspent(pending, ids)) == Without(Listing(pending), ids)
    decreases |pending|
  {
    if pending != map[] {
      var k := Least(pending.Keys);
      SpendFilters(pending - {k}, ids);
      WithoutConcat(pending[k], Listing(pending - {k}), ids);
      UnspentFirst(pending, ids, k);
    }
  }

  /** Whichever bucket goes first, the sizes add up. */
  lemma {:induction false} SizeWithout(pending: Buckets, k: nat)
    requires k in pending
    ensures |Listing(pending)| == |pending[k]| + |Listing(pending - {k})|
    decreases |pending|
  {
    var m := Least(pending.Keys);
    if k != m {
      SizeWithout(pending - {m}, k);
      LeastIs(pending - {k}, m);
      assert pending - {m} - {k} == pending - {k} - {m};
    }
  }

  // ---------- Freedom from conflicts ----------

  ghost predicate NoConflicts(txs: seq<Transaction>) {
    forall i, j | 0 <= i < j < |txs| :: PointSet(txs[i].inputs) !! PointSet(txs[j].inputs)
  }

  ghost predicate ConflictsWithNone(txs: seq<Transaction>, tx: Transaction) {
    forall i | 0 <= i < |txs| :: PointSet(txs[i].inputs) !! PointSet(tx.inputs)
  }

  lemma {:induction false} WithoutMembers(txs: seq<Transaction>, ids: seq<Hash>)
    ensures forall t :: t in Without(txs, ids) <==> t in txs && (t.id.None? || t.id.value !in ids)
  {
    if txs != [] {
      WithoutMembers(txs[..|txs| - 1], ids);
      assert txs == txs[..|txs| - 1] + [txs[|txs| - 1]];
    }
  }

  lemma {:induction false} WithoutKeeps(txs: seq<Transaction>, ids: seq<Hash>)
    requires NoConflicts(txs)
    ensures NoConflicts(Without(txs, ids))
  {
    if txs != [] {
      var init, tx := txs[..|txs| - 1], txs[|txs| - 1];
      var kept := Without(init, ids);
      WithoutKeeps(init, ids);
      WithoutMembers(init, ids);
      assert ConflictsWithNone(init, tx);
      forall i | 0 <= i < |kept| ensures PointSet(kept[i].inputs) !! PointSet(tx.inputs) {
        assert kept[i] in init;
      }
    }
  }

  lemma InsertKeeps(txs: seq<Transaction>, i: nat, tx: Transaction)
    requires i <= |txs| && NoConflicts(txs) && ConflictsWithNone(txs, tx)
    ensures NoConflicts(txs[..i] + [tx] + txs[i..])
  {
  }

  lemma DropKeeps(front: seq<Transaction>, rest: seq<Transaction>)
    requires NoConflicts(front + rest)
    ensures NoConflicts(rest)
  {
    forall i, j | 0 <= i < j < |rest| ensures PointSet(rest[i].inputs) !! PointSet(rest[j].inputs) {
      assert (front + rest)[|front| + i] == rest[i] && (front + rest)[|front| + j] == rest[j];
    }
  }

  lemma AddKeeps(pending: Buckets, expiry: nat, tx: Transaction)
    requires NoConflicts(Listing(pending)) && ConflictsWithNone(Listing(pending), tx)
    ensures NoConflicts(Listing(Added(pending, expiry, tx)))
  {
    var all := Listing(pending);
    AddInserts(pending, expiry, tx);
    var i: nat :| Inserts(all, i, tx, Listing(Added(pending, expiry, tx)));
    assert i <= |all|;
    InsertKeeps(all, i, tx);
  }

  // ---------- Runs ----------

  datatype PoolStep = Admit(tx: Transaction, now: nat) | Expire(now: nat) | Spend(ids: seq<Hash>) | Clear

  /** One atomic step: admission checks for conflicts and adds in one go. */
  ghost function PoolNext(pending: Buckets, s: PoolStep): Buckets {
    match s
    case Admit(tx, now) =>
      if ConflictsWithNone(Listing(pending), tx) then Added(pending, now + EXPIRATION_TIME, tx) else pending
    case Expire(now) => Unexpired(pending, now)
    case Spend(ids) => Unspent(pending, ids)
    case Clear => map[]
  }

  ghost function PoolRun(pending: Buckets, steps: seq<PoolStep>): Buckets
    decreases |steps|
  {
    if steps == [] then pending else PoolRun(PoolNext(pending, steps[0]), steps[1..])
  }

  lemma PoolStepKeeps(pending: Buckets, s: PoolStep)
    requires NoConflicts(Listing(pending))
    ensures NoConflicts(Listing(PoolNext(pending, s)))
  {
    match s {
      case Admit(tx, now) =>
        if ConflictsWithNone(Listing(pending), tx) {
          AddKeeps(pending, now + EXPIRATION_TIME, tx);
        }
      case Expire(now) =>
        ExpiryDropsFront(pending, now);
        var front :| Listing(pending) == front + Listing(Unexpired(pending, now));
        DropKeeps(front, Listing(Unexpired(pending, now)));
      case Spend(ids) =>
        SpendFilters(pending, ids);
        WithoutKeeps(Listing(pending), ids);
      case Clear =>
    }
  }

  /** No two pending transactions ever spend the same output. */
  lemma {:induction false} NeverConflicting(pending: Buckets, steps: seq<PoolStep>)
    requires NoConflicts(Listing(pending))
    ensures NoConflicts(Listing(PoolRun(pending, steps)))
    decreases |steps|
  {
    if steps != [] {
      PoolStepKeeps(pending, steps[0]);
      NeverConflicting(PoolNext(pending, steps[0]), steps[1..]);
    }
  }

  // ---------- Admissions that interleave ----------

  /** The pool, and the transactions that passed its check and are not added yet, in the order of their checks. */
  datatype Admissions = Admissions(pending: Buckets, checked: seq<Transaction>)

  /** `accept_transaction` of several tasks: the check and the addition are two steps, and others may come between. */
  datatype TaskStep = Check(tx: Transaction) | Put(k: nat, now: nat) | Other(step: PoolStep)

  ghost predicate PassesCheck(s: Admissions, t: TaskStep) {
    t.Check? && ConflictsWithNone(Listing(s.pending), t.tx)
  }

  function Removed<T>(s: seq<T>, k: nat): seq<T>
    requires k < |s|
  {
    s[..k] + s[k + 1..]
  }

  ghost function TaskNext(s: Admissions, t: TaskStep): Admissions {
    match t
    case Check(tx) => if PassesCheck(s, t) then s.(checked := s.checked + [tx]) else s
    case Put(k, now) =>
      if k < |s.checked|
      then Admissions(Added(s.pending, now + EXPIRATION_TIME, s.checked[k]), Removed(s.checked, k))
      else s
    case Other(step) => if step.Admit? then s else s.(pending := PoolNext(s.pending, step))
  }

  /** No two transactions, pending or checked, spend the same output. */
  ghost predicate AllFree(s: Admissions) {
    NoConflicts(Listing(s.pending) + s.checked)
  }

  /** No conflict arises at any time of the run. */
  ghost predicate StaysFree(s: Admissions, steps: seq<TaskStep>)
    decreases |steps|
  {
    AllFree(s) && (steps == [] || StaysFree(TaskNext(s, steps[0]), steps[1..]))
  }

  /** Every check that passes concerns a transaction that also conflicts with none that is checked and not yet added. */
  ghost predicate ChecksApart(s: Admissions, steps: seq<TaskStep>)
    decreases |steps|
  {
    steps == [] || (
      && (PassesCheck(s, steps[0]) ==> ConflictsWithNone(s.checked, steps[0].tx))
      && ChecksApart(TaskNext(s, steps[0]), steps[1..]))
  }

  lemma JoinedOne(txs: seq<Transaction>, more: seq<Transaction>, tx: Transaction)
    ensures NoConflicts(txs + (more + [tx])) <==>
      (NoConflicts(txs + more) && ConflictsWithNone(txs, tx) && ConflictsWithNone(more, tx))
  {
    var all, now := txs + more, txs + (more + [tx]);
    assert now == all + [tx] && now[|all|] == tx;
    assert forall i | 0 <= i < |all| :: now[i] == all[i];
    assert forall i | 0 <= i < |txs| :: all[i] == txs[i];
    assert forall i | 0 <= i < |more| :: all[|txs| + i] == more[i];
  }

  /** Conflict-freedom does not depend on the order. */
  lemma SameUpToPlaces(p: seq<Transaction>, q: seq<Transaction>, at: seq<nat>)
    requires |at| == |p| && forall i | 0 <= i < |p| :: at[i] < |q| && p[i] == q[at[i]]
    requires forall i, j | 0 <= i < j < |p| :: at[i] != at[j]
    ensures NoConflicts(q) ==> NoConflicts(p)
  {
    forall i, j | NoConflicts(q) && 0 <= i < j < |p| ensures PointSet(p[i].inputs) !! PointSet(p[j].inputs) {
      assert at[i] < at[j] || at[j] < at[i];
    }
  }

  /** Moving a transaction from the checked ones into the pool changes nothing about conflicts. */
  lemma AddFrees(pending: Buckets, checked: seq<Transaction>, expiry: nat, tx: Transaction)
    ensures NoConflicts(Listing(Added(pending, expiry, tx)) + checked) <==>
            NoConflicts(Listing(pending) + ([tx] + checked))
  {
    AddInserts(pending, expiry, tx);
    var all := Listing(pending);
    var i: nat :| Inserts(all, i, tx, Listing(Added(pending, expiry, tx)));
    MovedKeeps(all[..i], tx, all[i..], checked);
    assert all[..i] + all[i..] == all;
  }

  lemma MovedKeeps(a: seq<Transaction>, tx: Transaction, b: seq<Transaction>, c: seq<Transaction>)
    ensures NoConflicts(a + [tx] + b + c) <==> NoConflicts(a + b + ([tx] + c))
  {
    MovedUp(a, tx, b, c);
    MovedDown(a, tx, b, c);
  }

  lemma MovedUp(a: seq<Transaction>, tx: Transaction, b: seq<Transaction>, c: seq<Transaction>)
    ensures NoConflicts(a + b + ([tx] + c)) ==> NoConflicts(a + [tx] + b + c)
  {
    var p, n, m := a + [tx] + b + c, |a|, |a| + |b|;
    SameUpToPlaces(p, a + b + ([tx] + c), seq(|p|, i requires 0 <= i < |p| =>
      if i < n || i > m then i else if i == n then m else i - 1));
  }

  lemma MovedDown(a: seq<Transaction>, tx: Transaction, b: seq<Transaction>, c: seq<Transaction>)
    ensures NoConflicts(a + [tx] + b + c) ==> NoConflicts(a + b + ([tx] + c))
  {
    var q, n, m := a + b + ([tx] + c), |a|, |a| + |b|;
    SameUpToPlaces(q, a + [tx] + b + c, seq(|q|, i requires 0 <= i < |q| =>
      if i < n || i > m then i else if i == m then n else i + 1));
  }

  lemma AddedFree(pending: Buckets, expiry: nat, tx: Transaction)
    ensures NoConflicts(Listing(Added(pending, expiry, tx)))
      <==> NoConflicts(Listing(pending)) && ConflictsWithNone(Listing(pending), tx)
  {
    var now := Listing(Added(pending, expiry, tx));
    AddFrees(pending, [], expiry, tx);
    JoinedOne(Listing(pending), [], tx);
    assert now + [] == now && [tx] + [] == [tx] && [] + [tx] == [tx] && Listing(pending) + [] == Listing(pending);
  }

  lemma ConflictsAfter(pending: Buckets, expiry: nat, a: Transaction, b: Transaction)
    ensures ConflictsWithNone(Listing(Added(pending, expiry, a)), b)
      <==> ConflictsWithNone(Listing(pending), b) && PointSet(a.inputs) !! PointSet(b.inputs)
  {
    AddInserts(pending, expiry, a);
    var i: nat :| Inserts(Listing(pending), i, a, Listing(Added(pending, expiry, a)));
    InsertedConflicts(Listing(pending), i, a, b);
  }

  lemma InsertedConflicts(all: seq<Transaction>, i: nat, a: Transaction, b: Transaction)
    requires i <= |all|
    ensures ConflictsWithNone(all[..i] + [a] + all[i..], b)
      <==> ConflictsWithNone(all, b) && PointSet(a.inputs) !! PointSet(b.inputs)
  {
    var now := all[..i] + [a] + all[i..];
    if ConflictsWithNone(now, b) {
      assert now[i] == a;
      forall j | 0 <= j < |all| ensures PointSet(all[j].inputs) !! PointSet(b.inputs) {
        assert all[j] == now[if j < i then j else j + 1];
      }
    }
    if ConflictsWithNone(all, b) && PointSet(a.inputs) !! PointSet(b.inputs) {
      forall j | 0 <= j < |now| ensures PointSet(now[j].inputs) !! PointSet(b.inputs) {
        assert now[j] == if j < i then all[j] else if j == i then a else all[j - 1];
      }
    }
  }

  /** Whatever the conflict-free pool, adding two transactions that each passed its check leaves it conflict-free
      exactly if they do not conflict with each other, whenever they expire. */
  lemma SplitAdmissionConflicts(pending: Buckets, a: Transaction, b: Transaction, e: nat, e': nat)
    requires NoConflicts(Listing(pending))
    requires ConflictsWithNone(Listing(pending), a) && ConflictsWithNone(Listing(pending), b)
    ensures NoConflicts(Listing(Added(Added(pending, e, a), e', b))) <==> PointSet(a.inputs) !! PointSet(b.inputs)
  {
    AddedFree(pending, e, a);
    AddedFree(Added(pending, e, a), e', b);
    ConflictsAfter(pending, e, a, b);
  }

  lemma PutFree(s: Admissions, k: nat, now: nat)
    requires AllFree(s) && k < |s.checked|
    ensures AllFree(TaskNext(s, Put(k, now)))
  {
    var tx, rest, all := s.checked[k], Removed(s.checked, k), Listing(s.pending);
    assert all + s.checked == (all + s.checked[..k]) + [tx] + s.checked[k + 1..] + [];
    assert NoConflicts(all + ([tx] + rest)) by {
      var p, q := all + ([tx] + rest), all + s.checked;
      SameUpToPlaces(p, q, seq(|p|, i requires 0 <= i < |p| =>
        if i < |all| then i else if i == |all| then |all| + k else if i <= |all| + k then i - 1 else i));
    }
    AddFrees(s.pending, rest, now + EXPIRATION_TIME, tx);
  }

  lemma DropFront(all: seq<Transaction>, front: seq<Transaction>, rest: seq<Transaction>, checked: seq<Transaction>)
    requires NoConflicts(all + checked) && all == front + rest
    ensures NoConflicts(rest + checked)
  {
    assert front + (rest + checked) == all + checked;
    DropKeeps(front, rest + checked);
  }

  lemma OtherFree(s: Admissions, step: PoolStep)
    requires AllFree(s) && !step.Admit?
    ensures NoConflicts(Listing(PoolNext(s.pending, step)) + s.checked)
  {
    match step {
      case Expire(now) =>
        ExpiryDropsFront(s.pending, now);
        var front :| Listing(s.pending) == front + Listing(Unexpired(s.pending, now));
        DropFront(Listing(s.pending), front, Listing(Unexpired(s.pending, now)), s.checked);
      case Spend(ids) =>
        SpendFilters(s.pending, ids);
        WithoutFree(Listing(s.pending), s.checked, ids);
      case Clear =>
        assert Listing(s.pending) == Listing(s.pending) + [];
        DropFront(Listing(s.pending), Listing(s.pending), [], s.checked);
    }
  }

  lemma {:induction false} WithoutFree(txs: seq<Transaction>, checked: seq<Transaction>, ids: seq<Hash>)
    requires NoConflicts(txs + checked)
    ensures NoConflicts(Without(txs, ids) + checked)
  {
    var all := txs + checked;
    assert all[..|txs|] == txs && all[|txs|..] == checked;
    assert forall i | 0 <= i < |txs| :: all[i] == txs[i];
    assert NoConflicts(txs);
    DropKeeps(txs, checked);
    WithoutKeeps(txs, ids);
    WithoutMembers(txs, ids);
    var kept := Without(txs, ids);
    forall i, j | 0 <= i < |kept| && 0 <= j < |checked|
      ensures PointSet(kept[i].inputs) !! PointSet(checked[j].inputs)
    {
      assert kept[i] in txs;
      var k :| 0 <= k < |txs| && txs[k] == kept[i];
      assert all[k] == txs[k] && all[|txs| + j] == checked[j];
    }
    FreeTogether(kept, checked);
  }

  lemma FreeTogether(a: seq<Transaction>, b: seq<Transaction>)
    requires NoConflicts(a) && NoConflicts(b)
    requires forall i, j | 0 <= i < |a| && 0 <= j < |b| :: PointSet(a[i].inputs) !! PointSet(b[j].inputs)
    ensures NoConflicts(a + b)
  {
  }

  /** With tasks that interleave, pool and checked transactions stay free of conflicts throughout a run exactly if every
      transaction that passes its check conflicts with none that is checked and not yet added. */
  lemma {:induction false} InterleavedAdmissions(s: Admissions, steps: seq<TaskStep>)
    requires AllFree(s)
    ensures StaysFree(s, steps) <==> ChecksApart(s, steps)
    decreases |steps|
  {
    if steps != [] {
      TaskStepFree(s, steps[0]);
      if AllFree(TaskNext(s, steps[0])) {
        InterleavedAdmissions(TaskNext(s, steps[0]), steps[1..]);
      }
    }
  }

  lemma TaskStepFree(s: Admissions, t: TaskStep)
    requires AllFree(s)
    ensures AllFree(TaskNext(s, t)) <==> (PassesCheck(s, t) ==> ConflictsWithNone(s.checked, t.tx))
  {
    match t {
      case Check(tx) => JoinedOne(Listing(s.pending), s.checked, tx);
      case Put(k, now) =>
        if k < |s.checked| {
          PutFree(s, k, now);
        }
      case Other(step) =>
        if !step.Admit? {
          OtherFree(s, step);
        }
    }
  }

  /** A check followed at once by the addition is the atomic admission. */
  lemma AtomicAdmission(s: Admissions, tx: Transaction, now: nat)
    requires s.checked == []
    ensures var mid := TaskNext(s, Check(tx));
      TaskNext(mid, Put(0, now)) == Admissions(PoolNext(s.pending, Admit(tx, now)), [])
  {
    assert Removed([tx], 0) == [];
  }

  // ---------- The pool ----------

  /** The bucket that expires first, and the others. */
  method TakeFirst(pending: Buckets) returns (first: seq<Transaction>, others: Buckets)
    requires pending != map[]
    ensures Listing(pending) == first + Listing(others) && |others| < |pending|
  {
    HasLeast(pending.Keys);
    var k: nat :| k in pending.Keys && forall j <- pending.Keys :: k <= j;
    LeastIs(pending, k);
    first, others := pending[k], pending - {k};
  }

  method Flattened(pending: Buckets) returns (all: seq<Transaction>)
    ensures all == Listing(pending)
    decreases |pending|
  {
    if pending == map[] {
      return [];
    }
    var first, others := TakeFirst(pending);
    var rest := Flattened(others);
    return first + rest;
  }

  class MemPool {
    var pending: Buckets

    constructor ()
      ensures pending == map[] && Listing(pending) == []
    {
      pending := map[];
    }

    method GetMempool() returns (all: seq<Transaction>)
      ensures all == Listing(pending)
    {
      all := Flattened(pending);
    }

    method AddTransaction(tx: Transaction, now: nat)
      modifies this
      ensures pending == Added(old(pending), now + EXPIRATION_TIME, tx)
    {
      var expiry := now + EXPIRATION_TIME;
      pending := pending[expiry := Bucket(pending, expiry) + [tx]];
    }

    /** Valid means: spends nothing that a pending transaction spends. */
    method ValidateTransaction(tx: Transaction) returns (valid: bool)
      ensures valid <==> ConflictsWithNone(Listing(pending), tx)
    {
      var all := GetMempool();
      for n := 0 to |all|
        invariant ConflictsWithNone(all[..n], tx)
      {
        if exists i <- tx.inputs :: exists mi <- all[n].inputs :: mi.index == i.index && mi.txId == i.txId {
          var i :| i in tx.inputs && exists mi <- all[n].inputs :: mi.index == i.index && mi.txId == i.txId;
          assert Point(i) in PointSet(tx.inputs) && Point(i) in PointSet(all[n].inputs);
          return false;
        }
        assert PointSet(all[n].inputs) !! PointSet(tx.inputs);
      }
      return true;
    }

    method SpendTransactions(ids: seq<Hash>)
      modifies this
      ensures pending == Unspent(old(pending), ids)
    {
      var kept: Buckets := map[];
      var seen: set<nat> := {};
      while seen != pending.Keys
        invariant pending == old(pending) && seen <= pending.Keys
        invariant kept == UnspentAmong(pending, seen, ids)
        decreases |pending.Keys - seen|
      {
        ghost var some := SomeKey(pending.Keys - seen);
        assert some in pending.Keys && some !in seen;
        var k: nat :| k in pending.Keys && k !in seen;
        UnspentAmongMore(pending, seen, k, ids);
        var txs := Retain(pending[k], ids);
        if txs != [] {
          kept := kept[k := txs];
        }
        assert pending.Keys - (seen + {k}) == (pending.Keys - seen) - {k};
        seen := seen + {k};
      }
      pending := kept;
    }

    /** One round of the expiry watchdog. */
    method RemoveExpired(now: nat)
      modifies this
      ensures pending == Unexpired(old(pending), now)
    {
      var expiredKeys := set k | k in pending && k <= now;
      pending := pending - expiredKeys;
    }

    method MempoolSize() returns (size: nat)
      ensures size == |Listing(pending)|
    {
      size := 0;
      var seen: set<nat> := {};
      assert pending - seen == pending;
      while seen != pending.Keys
        invariant seen <= pending.Keys && size + |Listing(pending - seen)| == |Listing(pending)|
        decreases |pending.Keys - seen|
      {
        ghost var some := SomeKey(pending.Keys - seen);
        assert some in pending.Keys && some !in seen;
        var k: nat :| k in pending.Keys && k !in seen;
        SizeWithout(pending - seen, k);
        assert pending - (seen + {k}) == (pending - seen) - {k};
        size := size + |pending[k]|;
        assert pending.Keys - (seen + {k}) == (pending.Keys - seen) - {k};
        seen := seen + {k};
      }
      assert pending - seen == map[];
    }

    method ClearAll()
      modifies this
      ensures pending == map[]
    {
      pending := map[];
    }
  }

  ghost function UnspentAmong(pending: Buckets, seen: set<nat>, ids: seq<Hash>): Buckets {
    map k | k in seen && k in pending && Without(pending[k], ids) != [] :: Without(pending[k], ids)
  }

  lemma UnspentAmongMore(pending: Buckets, seen: set<nat>, k: nat, ids: seq<Hash>)
    requires k in pending && k !in seen
    ensures var some, kept := UnspentAmong(pending, seen, ids), Without(pending[k], ids);
      UnspentAmong(pending, seen + {k}, ids) == if kept == [] then some else some[k := kept]
  {
  }

  method Retain(txs: seq<Transaction>, ids: seq<Hash>) returns (kept: seq<Transaction>)
    ensures kept == Without(txs, ids)
  {
    kept := [];
    for i := 0 to |txs|
      invariant kept == Without(txs[..i], ids)
    {
      assert txs[..i + 1][..i] == txs[..i];
      if !(txs[i].id.Some? && txs[i].id.value in ids) {
        kept := kept + [txs[i]];
      }
    }
    assert txs[..|txs|] == txs;
  }
}
