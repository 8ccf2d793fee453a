/** What a block does to the unspent outputs: execution of all its transactions, its undo record,
    and the money it creates (src/core/utxo.rs:171-242, src/core/blockchain.rs:208-292). */
module Blocks {
  import opened Base
  import opened Types
  import opened Utxos
  import opened Economics

  // ---------- Execution, transaction by transaction ----------

  ghost function ExecTxs(u: View, txs: seq<Transaction>): View {
    if txs == [] then u
    else
      var before, tx := ExecTxs(u, txs[..|txs| - 1]), txs[|txs| - 1];
      if tx.id.Some? then ExecView(before, tx) else before
  }

  ghost predicate ExecutableTxs(u: View, txs: seq<Transaction>) {
    txs == [] || (ExecutableTxs(u, txs[..|txs| - 1]) && Executable(ExecTxs(u, txs[..|txs| - 1]), txs[|txs| - 1]))
  }

  ghost function DiffTxs(u: View, txs: seq<Transaction>): UTXODiff {
    if txs == [] then UTXODiff([], [])
    else
      var before, tx := ExecTxs(u, txs[..|txs| - 1]), txs[|txs| - 1];
      var diff := DiffTxs(u, txs[..|txs| - 1]);
      if Executable(before, tx) then Joined(diff, TxDiff(before, tx)) else diff
  }

  // ---------- Execution, all at once ----------

  ghost function AllInputs(txs: seq<Transaction>): set<OutPoint> {
    set t, i | t in txs && i in t.inputs :: Point(i)
  }

  ghost function AllCreated(txs: seq<Transaction>): View {
    if txs == [] then map[]
    else
      var tx := txs[|txs| - 1];
      AllCreated(txs[..|txs| - 1]) + (if tx.id.Some? then Created(tx.id.value, tx.outputs) else map[])
  }

  ghost function ApplyAll(u: View, txs: seq<Transaction>): View {
    (u - AllInputs(txs)) + AllCreated(txs)
  }

  // ---------- The checks of a block that concern money ----------

  /** Ids are present and pairwise distinct, and none has an unspent output already. */
  ghost predicate FreshIds(u: View, txs: seq<Transaction>) {
    && (forall i | 0 <= i < |txs| :: txs[i].id.Some?)
    && (forall i, j | 0 <= i < j < |txs| :: txs[i].id != txs[j].id)
    && (forall i, p | 0 <= i < |txs| && p in u :: Some(p.tx) != txs[i].id)
  }

  predicate IsReward(tx: Transaction) {
    tx.inputs == []
  }

  /** Every ordinary transaction is funded by the outputs unspent before the block, no output is spent twice
      in it, and at most one transaction mints, exactly the reward of the height. */
  ghost predicate SoundTxs(u: View, height: nat, txs: seq<Transaction>) {
    && (forall i | 0 <= i < |txs| :: txs[i].id.Some?)
    && (forall i | 0 <= i < |txs| :: !IsReward(txs[i]) ==> Funded(u, txs[i]))
    && (forall i | 0 <= i < |txs| :: IsReward(txs[i]) ==> OutputSum(txs[i].outputs) == GetBlockReward(height))
    && (forall i, j | 0 <= i < j < |txs| :: PointSet(txs[i].inputs) !! PointSet(txs[j].inputs))
    && (forall i, j | 0 <= i < j < |txs| :: !(IsReward(txs[i]) && IsReward(txs[j])))
  }

  predicate HasReward(txs: seq<Transaction>) {
    exists i :: 0 <= i < |txs| && IsReward(txs[i])
  }

  /** What a block mints at its height. */
  function Minted(height: nat, txs: seq<Transaction>): nat {
    if HasReward(txs) then GetBlockReward(height) else 0
  }

  lemma PrefixSound(u: View, height: nat, txs: seq<Transaction>, k: nat)
    requires k <= |txs| && SoundTxs(u, height, txs) && FreshIds(u, txs)
    ensures SoundTxs(u, height, txs[..k]) && FreshIds(u, txs[..k])
  {
  }

  // ---------- A sound block executes fully ----------

  lemma OneMoreTx(txs: seq<Transaction>)
    requires txs != []
    ensures AllInputs(txs) == AllInputs(txs[..|txs| - 1]) + PointSet(txs[|txs| - 1].inputs)
  {
    var init, tx := txs[..|txs| - 1], txs[|txs| - 1];
    assert txs == init + [tx];
    forall p | p in AllInputs(txs) ensures p in AllInputs(init) + PointSet(tx.inputs) {
      var t, i :| t in txs && i in t.inputs && p == Point(i);
      assert t in init || t == tx;
    }
    forall p | p in AllInputs(init) + PointSet(tx.inputs) ensures p in AllInputs(txs) {
      if p in AllInputs(init) {
        var t, i :| t in init && i in t.inputs && p == Point(i);
        assert t in txs;
      } else {
        var i :| i in tx.inputs && p == Point(i);
        assert tx in txs;
      }
    }
  }

  /** The created outputs are those of the listed transactions, slot by slot. */
  lemma {:induction false} InAllCreated(txs: seq<Transaction>, p: OutPoint)
    requires forall i, j | 0 <= i < j < |txs| :: txs[i].id != txs[j].id
    ensures p in AllCreated(txs) <==> exists t <- txs :: t.id == Some(p.tx) && p.index < |t.outputs|
    ensures forall t <- txs | t.id == Some(p.tx) && p.index < |t.outputs| ::
      p in AllCreated(txs) && AllCreated(txs)[p] == t.outputs[p.index]
  {
    if txs != [] {
      var init, tx := txs[..|txs| - 1], txs[|txs| - 1];
      assert txs == init + [tx];
      forall t | t in init ensures t.id != tx.id {
        var i :| 0 <= i < |init| && init[i] == t;
        assert txs[i].id != txs[|txs| - 1].id;
      }
      InAllCreated(init, p);
      assert p in AllCreated(txs) <==> p in AllCreated(init) || (tx.id == Some(p.tx) && p.index < |tx.outputs|);
    }
  }

  lemma InputsOf(txs: seq<Transaction>, k: nat)
    requires k < |txs|
    requires forall i, j | 0 <= i < j < |txs| :: PointSet(txs[i].inputs) !! PointSet(txs[j].inputs)
    ensures PointSet(txs[k].inputs) !! AllInputs(txs[..k])
  {
    forall p | p in AllInputs(txs[..k]) ensures p !in PointSet(txs[k].inputs) {
      var t, i :| t in txs[..k] && i in t.inputs && p == Point(i);
      var j :| 0 <= j < k && txs[j] == t;
      assert p in PointSet(txs[j].inputs);
    }
  }

  /** The last id of a block belongs to nothing unspent before it or created earlier in it. */
  lemma LastIdFresh(u: View, txs: seq<Transaction>)
    requires txs != [] && FreshIds(u, txs)
    ensures forall p | p in u || p in AllCreated(txs[..|txs| - 1]) :: Some(p.tx) != txs[|txs| - 1].id
  {
    var k := |txs| - 1;
    forall p | p in AllCreated(txs[..k]) ensures Some(p.tx) != txs[k].id {
      InAllCreated(txs[..k], p);
      var t :| t in txs[..k] && t.id == Some(p.tx);
      var i :| 0 <= i < k && txs[i] == t;
    }
  }

  lemma FundedIsSpendable(u: View, tx: Transaction)
    requires IsReward(tx) || Funded(u, tx)
    ensures Spendable(u, tx.inputs)
  {
  }

  /** One transaction on top of the ones before it: still executable, though it was checked against
      the outputs unspent before the block. */
  lemma NextTxExecutes(u: View, done: set<OutPoint>, made: View, tx: Transaction)
    requires tx.id.Some? && Spendable(u, tx.inputs)
    requires PointSet(tx.inputs) !! done && done <= u.Keys && made.Keys !! u.Keys
    requires forall p | p in u || p in made :: p.tx != tx.id.value
    ensures Executable((u - done) + made, tx)
    ensures ExecView((u - done) + made, tx)
         == (u - (done + PointSet(tx.inputs))) + (made + Created(tx.id.value, tx.outputs))
    ensures SpentEntries((u - done) + made, tx.inputs) == SpentEntries(u, tx.inputs)
  {
    var cur, ps := (u - done) + made, PointSet(tx.inputs);
    forall i | i in tx.inputs ensures Point(i) in cur && cur[Point(i)] == u[Point(i)] {
      assert Point(i) in ps && Point(i) in u;
    }
    var left := cur - ps;
    assert ps <= u.Keys;
    assert left == (u - (done + ps)) + made;
    assert PointsOf(left, tx.id.value) == {};
    assert left - {} == left;
  }

  /** Every block that passes the checks executes fully, and its effect is the order-free one. */
  lemma {:induction false} SoundExecutes(u: View, height: nat, txs: seq<Transaction>)
    requires SoundTxs(u, height, txs) && FreshIds(u, txs)
    ensures ExecutableTxs(u, txs)
    ensures ExecTxs(u, txs) == ApplyAll(u, txs)
    ensures AllInputs(txs) <= u.Keys && AllCreated(txs).Keys !! u.Keys
    decreases |txs|
  {
    if txs != [] {
      var k := |txs| - 1;
      var init, tx := txs[..k], txs[k];
      PrefixSound(u, height, txs, k);
      SoundExecutes(u, height, init);
      OneMoreTx(txs);
      InputsOf(txs, k);
      FundedIsSpendable(u, tx);
      LastIdFresh(u, txs);
      NextTxExecutes(u, AllInputs(init), AllCreated(init), tx);
    }
  }

  // ---------- Order of transactions ----------

  lemma MultisetMembers<T>(a: seq<T>, b: seq<T>)
    requires multiset(a) == multiset(b)
    ensures forall x :: x in a <==> x in b
  {
    assert forall x :: x in a <==> x in multiset(a);
    assert forall x :: x in b <==> x in multiset(b);
  }

  lemma AllCreatedSameMembers(a: seq<Transaction>, b: seq<Transaction>)
    requires forall t :: t in a <==> t in b
    requires forall i, j | 0 <= i < j < |a| :: a[i].id != a[j].id
    requires forall i, j | 0 <= i < j < |b| :: b[i].id != b[j].id
    ensures AllCreated(a) == AllCreated(b)
  {
    forall p ensures p in AllCreated(a) <==> p in AllCreated(b) {
      InAllCreated(a, p);
      InAllCreated(b, p);
    }
    forall p | p in AllCreated(a) ensures AllCreated(a)[p] == AllCreated(b)[p] {
      InAllCreated(a, p);
      InAllCreated(b, p);
      var t :| t in a && t.id == Some(p.tx) && p.index < |t.outputs|;
      assert t in b;
    }
  }

  lemma {:induction false} OccursOnce(a: seq<Transaction>, x: Transaction)
    requires forall i, j | 0 <= i < j < |a| :: a[i].id != a[j].id
    ensures multiset(a)[x] <= 1
  {
    if a != [] {
      var init, last := a[..|a| - 1], a[|a| - 1];
      assert a == init + [last];
      OccursOnce(init, x);
      assert last !in init;
    }
  }

  lemma OccursTwice<T>(a: seq<T>, i: nat, j: nat)
    requires i < j < |a|
    ensures a[i] == a[j] ==> multiset(a)[a[i]] >= 2
  {
    var front, back := a[..j], a[j..];
    assert a == front + back && a[i] == front[i] && a[j] == back[0];
    assert multiset(a)[a[i]] == multiset(front)[a[i]] + multiset(back)[a[i]];
  }

  /** The transactions at two places of a permutation come from two places of the original. */
  lemma PermutedPlaces(txs: seq<Transaction>, txs': seq<Transaction>, i: nat, j: nat) returns (p: nat, q: nat)
    requires multiset(txs) == multiset(txs') && forall i, j | 0 <= i < j < |txs| :: txs[i].id != txs[j].id
    requires i < j < |txs'|
    ensures p < |txs| && q < |txs| && p != q && txs[p] == txs'[i] && txs[q] == txs'[j]
  {
    MultisetMembers(txs, txs');
    assert txs'[i] in txs && txs'[j] in txs;
    p :| 0 <= p < |txs| && txs[p] == txs'[i];
    q :| 0 <= q < |txs| && txs[q] == txs'[j];
    OccursOnce(txs, txs'[i]);
    OccursTwice(txs', i, j);
  }

  /** Whatever passes the checks in one order passes them in every order. */
  lemma PermutationSound(u: View, height: nat, txs: seq<Transaction>, txs': seq<Transaction>)
    requires SoundTxs(u, height, txs) && FreshIds(u, txs) && multiset(txs) == multiset(txs')
    ensures SoundTxs(u, height, txs') && FreshIds(u, txs')
  {
    MultisetMembers(txs, txs');
    forall i | 0 <= i < |txs'|
      ensures txs'[i].id.Some? && (forall p <- u :: Some(p.tx) != txs'[i].id)
      ensures if IsReward(txs'[i]) then OutputSum(txs'[i].outputs) == GetBlockReward(height) else Funded(u, txs'[i])
    {
      assert txs'[i] in txs;
      var p :| 0 <= p < |txs| && txs[p] == txs'[i];
    }
    forall i, j | 0 <= i < j < |txs'|
      ensures txs'[i].id != txs'[j].id && !(IsReward(txs'[i]) && IsReward(txs'[j]))
      ensures PointSet(txs'[i].inputs) !! PointSet(txs'[j].inputs)
    {
      var p, q := PermutedPlaces(txs, txs', i, j);
      assert p < q || q < p;
    }
  }

  /** A block that passes the checks also executes in every other order of its transactions, and leaves the same
      unspent outputs. */
  lemma {:induction false} OrderIrrelevant(u: View, height: nat, txs: seq<Transaction>, txs': seq<Transaction>)
    requires SoundTxs(u, height, txs) && FreshIds(u, txs) && multiset(txs) == multiset(txs')
    ensures ExecutableTxs(u, txs') && ExecTxs(u, txs) == ExecTxs(u, txs')
  {
    PermutationSound(u, height, txs, txs');
    MultisetMembers(txs, txs');
    SoundExecutes(u, height, txs);
    SoundExecutes(u, height, txs');
    AllCreatedSameMembers(txs, txs');
    assert AllInputs(txs) == AllInputs(txs');
  }

  lemma {:induction false} SumUnchanged(u: View, v: View, inputs: seq<Input>)
    requires forall i <- inputs :: Point(i) in u && Point(i) in v && u[Point(i)] == v[Point(i)]
    ensures InputSum(u, inputs) == InputSum(v, inputs)
    decreases |inputs|
  {
    if inputs != [] {
      var init := inputs[..|inputs| - 1];
      assert forall i <- init :: i in inputs;
      SumUnchanged(u, v, init);
      assert inputs[|inputs| - 1] in inputs;
    }
  }

  /** What a sound block leaves of an output that was there before: the same, unless the block spends it. */
  lemma UnspentAfter(u: View, height: nat, txs: seq<Transaction>, p: OutPoint)
    requires SoundTxs(u, height, txs) && FreshIds(u, txs) && p in u
    ensures p in ExecTxs(u, txs) <==> p !in AllInputs(txs)
    ensures p in ExecTxs(u, txs) ==> ExecTxs(u, txs)[p] == u[p]
  {
    SoundExecutes(u, height, txs);
    assert p !in AllCreated(txs);
  }

  /** A transaction that was funded before a sound block is funded after it exactly if the block spends none of its
      inputs. */
  lemma StaysFunded(u: View, height: nat, txs: seq<Transaction>, t: Transaction)
    requires SoundTxs(u, height, txs) && FreshIds(u, txs) && Funded(u, t)
    ensures Funded(ExecTxs(u, txs), t) <==> PointSet(t.inputs) !! AllInputs(txs)
  {
    var v := ExecTxs(u, txs);
    forall i | i in t.inputs
      ensures Point(i) in v <==> Point(i) !in AllInputs(txs)
      ensures Point(i) in v ==> v[Point(i)] == u[Point(i)]
    {
      UnspentAfter(u, height, txs, Point(i));
    }
    if PointSet(t.inputs) !! AllInputs(txs) {
      forall i | i in t.inputs ensures Point(i) in v {
        assert Point(i) in PointSet(t.inputs);
      }
      SumUnchanged(u, v, t.inputs);
    }
    if Funded(v, t) {
      forall p | p in PointSet(t.inputs) ensures p !in AllInputs(txs) {
        var i :| i in t.inputs && p == Point(i);
      }
    }
  }

  // ---------- The undo record ----------

  /** The record lists what was spent, with the values it had, and what was created. */
  ghost predicate Records(u: View, spent: set<OutPoint>, created: View, diff: UTXODiff) {
    && EntryPoints(diff.spent) == spent && DistinctPoints(diff.spent)
    && (forall e <- diff.spent :: e.point in u && u[e.point] == e.output)
    && EntryPoints(diff.created) == created.Keys && DistinctPoints(diff.created)
    && (forall e <- diff.created :: e.point in created && created[e.point] == e.output)
  }

  lemma JoinEntries(a: seq<DiffEntry>, b: seq<DiffEntry>)
    requires DistinctPoints(a) && DistinctPoints(b) && EntryPoints(a) !! EntryPoints(b)
    ensures DistinctPoints(a + b) && EntryPoints(a + b) == EntryPoints(a) + EntryPoints(b)
  {
    var s := a + b;
    forall i, j | 0 <= i < j < |s| ensures s[i].point != s[j].point {
      if i < |a| <= j {
        assert s[i] in a && s[j] in b;
        assert s[i].point in EntryPoints(a) && s[j].point in EntryPoints(b);
      }
    }
    assert forall e :: e in s <==> e in a || e in b;
  }

  lemma SpentRecorded(u: View, inputs: seq<Input>)
    requires Spendable(u, inputs)
    ensures EntryPoints(SpentEntries(u, inputs)) == PointSet(inputs) && DistinctPoints(SpentEntries(u, inputs))
    ensures forall e <- SpentEntries(u, inputs) :: e.point in u && u[e.point] == e.output
  {
    var s := SpentEntries(u, inputs);
    forall p | p in PointSet(inputs) ensures p in EntryPoints(s) {
      var i :| 0 <= i < |inputs| && Point(inputs[i]) == p;
      assert s[i] in s;
    }
    forall e | e in s ensures e.point in PointSet(inputs) && u[e.point] == e.output {
      var i :| 0 <= i < |s| && s[i] == e;
      assert inputs[i] in inputs;
    }
  }

  lemma CreatedRecorded(id: Hash, outputs: seq<Output>)
    ensures EntryPoints(CreatedEntries(id, outputs)) == Created(id, outputs).Keys
    ensures DistinctPoints(CreatedEntries(id, outputs))
    ensures forall e <- CreatedEntries(id, outputs) ::
      e.point in Created(id, outputs) && Created(id, outputs)[e.point] == e.output
  {
    var s := CreatedEntries(id, outputs);
    forall p | p in Created(id, outputs) ensures p in EntryPoints(s) {
      assert s[p.index].point == p;
    }
  }

  lemma {:induction false} DiffRecords(u: View, height: nat, txs: seq<Transaction>)
    requires SoundTxs(u, height, txs) && FreshIds(u, txs)
    ensures Records(u, AllInputs(txs), AllCreated(txs), DiffTxs(u, txs))
    decreases |txs|
  {
    if txs != [] {
      var k := |txs| - 1;
      var init, tx := txs[..k], txs[k];
      PrefixSound(u, height, txs, k);
      DiffRecords(u, height, init);
      SoundExecutes(u, height, init);
      SoundExecutes(u, height, txs);
      OneMoreTx(txs);
      InputsOf(txs, k);
      FundedIsSpendable(u, tx);
      NextTxRecorded(u, height, txs);
    }
  }

  lemma NextTxRecorded(u: View, height: nat, txs: seq<Transaction>)
    requires txs != [] && SoundTxs(u, height, txs) && FreshIds(u, txs)
    requires Records(u, AllInputs(txs[..|txs| - 1]), AllCreated(txs[..|txs| - 1]), DiffTxs(u, txs[..|txs| - 1]))
    ensures Records(u, AllInputs(txs), AllCreated(txs), DiffTxs(u, txs))
  {
    var k := |txs| - 1;
    var init, tx := txs[..k], txs[k];
    PrefixSound(u, height, txs, k);
    SoundExecutes(u, height, init);
    OneMoreTx(txs);
    InputsOf(txs, k);
    FundedIsSpendable(u, tx);
    var made, more := AllCreated(init), Created(tx.id.value, tx.outputs);
    LastIdFresh(u, txs);
    NextTxExecutes(u, AllInputs(init), made, tx);
    SpentRecorded(u, tx.inputs);
    CreatedRecorded(tx.id.value, tx.outputs);
    var diff, last := DiffTxs(u, init), UTXODiff(SpentEntries(u, tx.inputs), CreatedEntries(tx.id.value, tx.outputs));
    assert DiffTxs(u, txs) == Joined(diff, last);
    JoinEntries(diff.spent, last.spent);
    JoinEntries(diff.created, last.created);
  }

  lemma {:induction false} PutBackShape(v: View, u: View, spent: seq<DiffEntry>)
    requires forall e <- spent :: e.point in u && u[e.point] == e.output
    ensures PutBack(v, spent).Keys == v.Keys + EntryPoints(spent)
    ensures forall p <- PutBack(v, spent) ::
      PutBack(v, spent)[p] == if p in EntryPoints(spent) then u[p] else v[p]
  {
    if spent != [] {
      var init, e := spent[..|spent| - 1], spent[|spent| - 1];
      PutBackShape(v, u, init);
      assert spent == init + [e];
      assert EntryPoints(spent) == EntryPoints(init) + {e.point};
    }
  }

  lemma UndoShape(u: View, spent: set<OutPoint>, made: View, w: View)
    requires spent <= u.Keys && made.Keys !! u.Keys
    requires w.Keys == ((u - spent) + made).Keys + spent
    requires forall p <- w :: w[p] == if p in spent then u[p] else ((u - spent) + made)[p]
    ensures made.Keys <= w.Keys && w - made.Keys == u
  {
  }

  /** Recalling the record of a block restores the unspent set exactly, and never misses an entry. */
  lemma ExactUndo(u: View, height: nat, txs: seq<Transaction>)
    requires SoundTxs(u, height, txs) && FreshIds(u, txs)
    ensures Undoable(ExecTxs(u, txs), DiffTxs(u, txs))
    ensures UndoView(ExecTxs(u, txs), DiffTxs(u, txs)) == u
  {
    SoundExecutes(u, height, txs);
    DiffRecords(u, height, txs);
    var diff := DiffTxs(u, txs);
    PutBackShape(ExecTxs(u, txs), u, diff.spent);
    UndoShape(u, AllInputs(txs), AllCreated(txs), PutBack(ExecTxs(u, txs), diff.spent));
  }

  // ---------- Conservation ----------

  lemma {:induction false} TotalWithout(u: View, inputs: seq<Input>)
    requires Spendable(u, inputs)
    ensures Total(u - PointSet(inputs)) + InputSum(u, inputs) == Total(u)
    decreases |inputs|
  {
    if inputs == [] {
      assert u - PointSet(inputs) == u;
    } else {
      var k := |inputs| - 1;
      SpendOneMore(u, inputs, k);
      assert inputs[..k + 1] == inputs;
      TotalWithout(u, inputs[..k]);
      MinusOneMore(u, PointSet(inputs[..k]), Point(inputs[k]));
      TotalMinus(u - PointSet(inputs[..k]), Point(inputs[k]));
    }
  }

  lemma CreatedOneMore(u: View, id: Hash, outputs: seq<Output>)
    requires outputs != []
    ensures var k := |outputs| - 1;
      u + Created(id, outputs) == (u + Created(id, outputs[..k]))[OutPoint(id, k) := outputs[k]]
  {
    var p := OutPoint(id, |outputs| - 1);
    assert forall q: OutPoint :: q.tx == id && q.index == p.index ==> q == p;
  }

  lemma {:induction false} TotalWith(u: View, id: Hash, outputs: seq<Output>)
    requires forall p <- u :: p.tx != id
    ensures Total(u + Created(id, outputs)) == Total(u) + OutputSum(outputs)
    decreases |outputs|
  {
    if outputs == [] {
      assert u + Created(id, outputs) == u;
    } else {
      var k := |outputs| - 1;
      TotalWith(u, id, outputs[..k]);
      CreatedOneMore(u, id, outputs);
      TotalPlus(u + Created(id, outputs[..k]), OutPoint(id, k), outputs[k]);
    }
  }

  lemma {:induction false} InputSumSame(u: View, v: View, inputs: seq<Input>)
    requires forall i <- inputs :: Point(i) in u && Point(i) in v && u[Point(i)] == v[Point(i)]
    ensures InputSum(u, inputs) == InputSum(v, inputs)
    decreases |inputs|
  {
    if inputs != [] {
      InputSumSame(u, v, inputs[..|inputs| - 1]);
    }
  }

  lemma TotalOfTx(v: View, tx: Transaction)
    requires Executable(v, tx) && forall p <- v :: p.tx != tx.id.value
    ensures Total(ExecView(v, tx)) + InputSum(v, tx.inputs) == Total(v) + OutputSum(tx.outputs)
  {
    var left := v - PointSet(tx.inputs);
    assert PointsOf(left, tx.id.value) == {};
    assert left - {} == left;
    TotalWithout(v, tx.inputs);
    TotalWith(left, tx.id.value, tx.outputs);
  }

  /** The last transaction of a sound block changes the total by its outputs less its inputs. */
  lemma LastTxTotal(u: View, height: nat, txs: seq<Transaction>)
    requires txs != [] && SoundTxs(u, height, txs) && FreshIds(u, txs)
    ensures var init, tx := txs[..|txs| - 1], txs[|txs| - 1];
      Total(ExecTxs(u, txs)) + InputSum(u, tx.inputs) == Total(ExecTxs(u, init)) + OutputSum(tx.outputs)
  {
    var k := |txs| - 1;
    var init, tx := txs[..k], txs[k];
    PrefixSound(u, height, txs, k);
    SoundExecutes(u, height, init);
    InputsOf(txs, k);
    FundedIsSpendable(u, tx);
    LastIdFresh(u, txs);
    var v := ExecTxs(u, init);
    NextTxExecutes(u, AllInputs(init), AllCreated(init), tx);
    TotalOfTx(v, tx);
    forall i | i in tx.inputs ensures Point(i) in u && Point(i) in v && u[Point(i)] == v[Point(i)] {
      assert Point(i) in PointSet(tx.inputs);
    }
    InputSumSame(u, v, tx.inputs);
  }

  /** A block changes the total of all unspent outputs by exactly what it mints. */
  lemma {:induction false} BlockConserves(u: View, height: nat, txs: seq<Transaction>)
    requires SoundTxs(u, height, txs) && FreshIds(u, txs)
    ensures Total(ExecTxs(u, txs)) == Total(u) + Minted(height, txs)
    decreases |txs|
  {
    if txs != [] {
      var k := |txs| - 1;
      PrefixSound(u, height, txs, k);
      BlockConserves(u, height, txs[..k]);
      LastTxTotal(u, height, txs);
      MintedStep(height, txs);
      assert IsReward(txs[k]) ==> InputSum(u, txs[k].inputs) == 0;
    }
  }

  lemma MintedStep(height: nat, txs: seq<Transaction>)
    requires txs != []
    requires forall i, j | 0 <= i < j < |txs| :: !(IsReward(txs[i]) && IsReward(txs[j]))
    ensures Minted(height, txs)
         == Minted(height, txs[..|txs| - 1]) + if IsReward(txs[|txs| - 1]) then GetBlockReward(height) else 0
  {
    var init := txs[..|txs| - 1];
    if i :| 0 <= i < |init| && IsReward(init[i]) {
      assert IsReward(txs[i]);
    }
    if i :| 0 <= i < |txs| && IsReward(txs[i]) {
      assert i == |txs| - 1 || IsReward(init[i]);
    }
  }
}
