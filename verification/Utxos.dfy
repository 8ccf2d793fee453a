/** The unspent-output store: validation, execution and undo over a key-value database
    (src/core/utxo.rs). All results are stated on the set of unspent outputs the database shows. */
module Utxos {
  import opened Base
  import opened Types

  /** One entry per transaction id: its outputs by index, `None` where spent. */
  type Db = map<Hash, seq<Option<Output>>>

  /** The unspent outputs by place, as `get_all_utxos` lists them. */
  type View = map<OutPoint, Output>

  datatype TxError =
    | MissingId | MissingSignatures | InvalidHash | InsufficientDifficulty | NoInputs | InputNotFound
    | InvalidInputIndex | SpentInputIndex | InvalidSignature | IncorrectOutputOwner | DoubleSpend
    | ZeroOutput | SumMismatch | TooMuchIO | OverflowError | MissingCreated

  // ---------- The view of a database ----------

  predicate Shows(db: Db, p: OutPoint) {
    p.tx in db && p.index < |db[p.tx]| && db[p.tx][p.index].Some?
  }

  ghost function Points(db: Db): (s: set<OutPoint>)
    ensures forall p {:trigger p in s} :: p in s <==> Shows(db, p)
  {
    set t, i | t in db && 0 <= i < |db[t]| && db[t][i].Some? :: OutPoint(t, i)
  }

  function OutputAt(db: Db, p: OutPoint): Output
    requires Shows(db, p)
  {
    db[p.tx][p.index].value
  }

  ghost function ViewOf(db: Db): (u: View)
    ensures forall p {:trigger p in u} {:trigger Shows(db, p)} :: p in u <==> Shows(db, p)
    ensures forall p {:trigger u[p]} | Shows(db, p) :: u[p] == db[p.tx][p.index].value
  {
    map p | p in Points(db) :: OutputAt(db, p)
  }

  /** The database after one slot has been emptied, as both `execute_transaction` and `recall_block_utxos`
      write it back: an entry with nothing left in it is deleted. */
  function Emptied(db: Db, p: OutPoint): Db
    requires p.tx in db && p.index < |db[p.tx]|
  {
    var outputs := db[p.tx][p.index := None];
    if forall o <- outputs :: o.None? then db - {p.tx} else db[p.tx := outputs]
  }

  lemma EmptiedShows(db: Db, p: OutPoint, q: OutPoint)
    requires p.tx in db && p.index < |db[p.tx]|
    ensures Shows(Emptied(db, p), q) <==> Shows(db, q) && q != p
    ensures Shows(Emptied(db, p), q) ==> Emptied(db, p)[q.tx][q.index] == db[q.tx][q.index]
  {
    var outputs := db[p.tx][p.index := None];
    if q.tx == p.tx && q.index < |outputs| {
      assert outputs[q.index] in outputs;
    }
  }

  lemma EmptiedView(db: Db, p: OutPoint)
    requires p.tx in db && p.index < |db[p.tx]|
    ensures ViewOf(Emptied(db, p)) == ViewOf(db) - {p}
  {
    var u, v := ViewOf(db), ViewOf(Emptied(db, p));
    forall q ensures q in v <==> q in u && q != p {
      EmptiedShows(db, p, q);
    }
    forall q | q in v ensures v[q] == u[q] {
      EmptiedShows(db, p, q);
    }
  }

  function Nones(n: nat): seq<Option<Output>> {
    seq(n, _ => None)
  }

  /** The database after `output` has been put back at `p`, lengthening or recreating the entry as needed. */
  function Restored(db: Db, p: OutPoint, output: Output): Db {
    var outputs := if p.tx in db then db[p.tx] else Nones(p.index + 1);
    var padded := if |outputs| <= p.index then outputs + Nones(p.index + 1 - |outputs|) else outputs;
    db[p.tx := padded[p.index := Some(output)]]
  }

  lemma RestoredShows(db: Db, p: OutPoint, output: Output, q: OutPoint)
    ensures Shows(Restored(db, p, output), q) <==> Shows(db, q) || q == p
    ensures Shows(Restored(db, p, output), q) ==>
      Restored(db, p, output)[q.tx][q.index] == if q == p then Some(output) else db[q.tx][q.index]
  {
  }

  lemma PointwisePut(u: View, v: View, p: OutPoint, output: Output)
    requires forall q :: q in v <==> q in u || q == p
    requires forall q | q in v :: v[q] == if q == p then output else u[q]
    ensures v == u[p := output]
  {
  }

  lemma RestoredView(db: Db, p: OutPoint, output: Output)
    ensures ViewOf(Restored(db, p, output)) == ViewOf(db)[p := output]
  {
    var u, v := ViewOf(db), ViewOf(Restored(db, p, output));
    forall q ensures q in v <==> q in u || q == p {
      RestoredShows(db, p, output, q);
    }
    forall q | q in v ensures v[q] == if q == p then output else u[q] {
      RestoredShows(db, p, output, q);
    }
    PointwisePut(u, v, p, output);
  }

  // ---------- Meaning of a transaction on the view ----------

  ghost function PointSet(inputs: seq<Input>): set<OutPoint> {
    set i | i in inputs :: Point(i)
  }

  ghost predicate DistinctInputs(inputs: seq<Input>) {
    forall i, j | 0 <= i < j < |inputs| :: Point(inputs[i]) != Point(inputs[j])
  }

  /** Every input refers to an unspent output, and no two to the same. */
  ghost predicate Spendable(u: View, inputs: seq<Input>) {
    DistinctInputs(inputs) && forall i <- inputs :: Point(i) in u
  }

  /** The places below `n` of transaction `id`. */
  ghost function Slots(id: Hash, n: nat): set<OutPoint> {
    set i | 0 <= i < n :: OutPoint(id, i)
  }

  ghost function Created(id: Hash, outputs: seq<Output>): (u: View)
    ensures forall p {:trigger p in u} :: p in u <==> p.tx == id && p.index < |outputs|
    ensures forall p {:trigger u[p]} | p in u :: u[p] == outputs[p.index]
  {
    assert forall p :: p in Slots(id, |outputs|) <==> p.tx == id && p.index < |outputs| by {
      forall p: OutPoint | p.tx == id && p.index < |outputs| ensures p in Slots(id, |outputs|) {
        assert p == OutPoint(id, p.index);
      }
    }
    map p | p in Slots(id, |outputs|) :: outputs[p.index]
  }

  ghost function PointsOf(u: View, id: Hash): set<OutPoint> {
    set p | p in u && p.tx == id
  }

  function AllSome(outputs: seq<Output>): seq<Option<Output>> {
    seq(|outputs|, i requires 0 <= i < |outputs| => Some(outputs[i]))
  }

  lemma ReplacedEntry(u: View, v: View, id: Hash, outputs: seq<Output>)
    requires forall p :: p in v <==> if p.tx == id then p.index < |outputs| else p in u
    requires forall p <- v :: v[p] == if p.tx == id then outputs[p.index] else u[p]
    ensures v == (u - PointsOf(u, id)) + Created(id, outputs)
  {
  }

  lemma PutShows(db: Db, id: Hash, outputs: seq<Output>, p: OutPoint)
    ensures Shows(db[id := AllSome(outputs)], p) <==> if p.tx == id then p.index < |outputs| else Shows(db, p)
    ensures Shows(db[id := AllSome(outputs)], p) ==>
      db[id := AllSome(outputs)][p.tx][p.index] == if p.tx == id then Some(outputs[p.index]) else db[p.tx][p.index]
  {
  }

  lemma PutView(db: Db, id: Hash, outputs: seq<Output>)
    ensures ViewOf(db[id := AllSome(outputs)]) == (ViewOf(db) - PointsOf(ViewOf(db), id)) + Created(id, outputs)
  {
    var u, v := ViewOf(db), ViewOf(db[id := AllSome(outputs)]);
    forall p ensures p in v <==> if p.tx == id then p.index < |outputs| else p in u {
      PutShows(db, id, outputs, p);
    }
    forall p | p in v ensures v[p] == if p.tx == id then outputs[p.index] else u[p] {
      PutShows(db, id, outputs, p);
    }
    ReplacedEntry(u, v, id, outputs);
  }

  /** Spend the inputs, then let the outputs of `tx` replace whatever stood under its id. */
  ghost function ExecView(u: View, tx: Transaction): View
    requires tx.id.Some?
  {
    var left := u - PointSet(tx.inputs);
    (left - PointsOf(left, tx.id.value)) + Created(tx.id.value, tx.outputs)
  }

  ghost predicate Executable(u: View, tx: Transaction) {
    tx.id.Some? && Spendable(u, tx.inputs)
  }

  ghost function SpentEntries(u: View, inputs: seq<Input>): (s: seq<DiffEntry>)
    requires Spendable(u, inputs)
  {
    seq(|inputs|, i requires 0 <= i < |inputs| => DiffEntry(Point(inputs[i]), u[Point(inputs[i])]))
  }

  lemma SpendOneMore(u: View, inputs: seq<Input>, k: nat)
    requires k < |inputs|
    ensures PointSet(inputs[..k + 1]) == PointSet(inputs[..k]) + {Point(inputs[k])}
    ensures Spendable(u, inputs[..k + 1])
       <==> Spendable(u, inputs[..k]) && Point(inputs[k]) in u && Point(inputs[k]) !in PointSet(inputs[..k])
    ensures Spendable(u, inputs[..k + 1]) ==>
      SpentEntries(u, inputs[..k + 1]) ==
      SpentEntries(u, inputs[..k]) + [DiffEntry(Point(inputs[k]), u[Point(inputs[k])])]
    ensures Spendable(u, inputs) ==> Spendable(u, inputs[..k + 1])
  {
    var now, before, last := inputs[..k + 1], inputs[..k], inputs[k];
    assert now == before + [last];
    if Point(last) in PointSet(before) {
      var i :| 0 <= i < k && Point(before[i]) == Point(last);
      assert Point(now[i]) == Point(now[k]);
    }
    if Spendable(u, before) && Point(last) !in PointSet(before) {
      forall i, j | 0 <= i < j < |now| ensures Point(now[i]) != Point(now[j]) {
        assert now[i] in before;
      }
    }
    if Spendable(u, now) {
      forall i, j | 0 <= i < j < k ensures Point(before[i]) != Point(before[j]) {
        assert now[i] == before[i] && now[j] == before[j];
      }
    }
  }

  function CreatedEntries(id: Hash, outputs: seq<Output>): seq<DiffEntry> {
    seq(|outputs|, i requires 0 <= i < |outputs| => DiffEntry(OutPoint(id, i), outputs[i]))
  }

  ghost function TxDiff(u: View, tx: Transaction): UTXODiff
    requires Executable(u, tx)
  {
    UTXODiff(SpentEntries(u, tx.inputs), CreatedEntries(tx.id.value, tx.outputs))
  }

  function Joined(a: UTXODiff, b: UTXODiff): UTXODiff {
    UTXODiff(a.spent + b.spent, a.created + b.created)
  }

  // ---------- Validity ----------

  ghost function Worth(u: View, p: OutPoint): nat {
    if p in u then u[p].amount else 0
  }

  ghost function InputSum(u: View, inputs: seq<Input>): nat {
    if inputs == [] then 0
    else InputSum(u, inputs[..|inputs| - 1]) + Worth(u, Point(inputs[|inputs| - 1]))
  }

  function OutputSum(outputs: seq<Output>): nat {
    if outputs == [] then 0 else OutputSum(outputs[..|outputs| - 1]) + outputs[|outputs| - 1].amount
  }

  lemma {:induction false} InputSumPrefix(u: View, inputs: seq<Input>, i: nat)
    requires i <= |inputs|
    ensures InputSum(u, inputs[..i]) <= InputSum(u, inputs)
  {
    if i < |inputs| {
      var init := inputs[..|inputs| - 1];
      InputSumPrefix(u, init, i);
      assert init[..i] == inputs[..i];
    } else {
      assert inputs[..i] == inputs;
    }
  }

  lemma {:induction false} OutputSumPrefix(outputs: seq<Output>, i: nat)
    requires i <= |outputs|
    ensures OutputSum(outputs[..i]) <= OutputSum(outputs)
  {
    if i < |outputs| {
      var init := outputs[..|outputs| - 1];
      OutputSumPrefix(init, i);
      assert init[..i] == outputs[..i];
    } else {
      assert outputs[..i] == outputs;
    }
  }

  /** The part of validity that concerns money: what is spent exists, is spent once, and balances. */
  ghost predicate Funded(u: View, tx: Transaction) {
    && tx.inputs != [] && |tx.inputs| + |tx.outputs| <= MAX_TRANSACTION_IO
    && Complete(tx)
    && Spendable(u, tx.inputs)
    && (forall i <- tx.inputs :: u[Point(i)].receiver == i.owner)
    && (forall o <- tx.outputs :: o.amount > 0)
    && InputSum(u, tx.inputs) == OutputSum(tx.outputs) < U64_LIMIT
  }

  /** The part that concerns cryptography: the id is the digest, below the target, and each owner signed. */
  ghost predicate Sealed(u: View, tx: Transaction, target: int, isIbd: bool, env: Env) {
    && tx.id.Some?
    && (!isIbd ==> tx.id.value == env.txDigest(TxBuf(tx)))
    && tx.id.value <= target
    && forall i <- tx.inputs :: i.signature.Some? && Point(i) in u ==>
         env.verify(i.signature.value, u[Point(i)].receiver, SigningBuf(tx))
  }

  /** What seals a transaction survives a change of the unspent outputs that leaves those it spends or removes them. */
  lemma SealedAfter(u: View, v: View, tx: Transaction, before: int, after: int, isIbd: bool, env: Env)
    requires Sealed(u, tx, before, isIbd, env)
    requires forall i <- tx.inputs :: Point(i) in v ==> Point(i) in u && v[Point(i)] == u[Point(i)]
    ensures Sealed(v, tx, after, isIbd, env) <==> tx.id.value <= after
  {
  }

  ghost predicate ValidTx(u: View, tx: Transaction, target: int, isIbd: bool, env: Env) {
    Sealed(u, tx, target, isIbd, env) && Funded(u, tx)
  }

  lemma SameBuffer(s: Signature, owner: Address, p: Transaction, q: Transaction, env: Env)
    requires SignsOnce(env) && env.verify(s, owner, p) && env.verify(s, owner, q)
    ensures p == q
  {
  }

  /** A signed input carries its whole transaction: two valid transactions that share one, signature included, on
      whatever unspent outputs, agree in everything that is signed. */
  lemma SignatureBinds(u: View, a: Transaction, t: int, ibd: bool, v: View, b: Transaction, t': int, ibd': bool,
                       i: Input, env: Env)
    requires SignsOnce(env) && ValidTx(u, a, t, ibd, env) && ValidTx(v, b, t', ibd', env)
    requires i in a.inputs && i in b.inputs
    ensures SameSigned(a, b)
  {
    assert Point(i) in u && Point(i) in v && i.signature.Some?;
    SameBuffer(i.signature.value, i.owner, SigningBuf(a), SigningBuf(b), env);
    SigningCovers(a, b);
  }

  /** So, whoever takes the signed inputs of a valid transaction, the result is valid exactly if outputs and time are
      the same and a new id is the digest and meets the target. */
  lemma OnlyAsSigned(u: View, a: Transaction, b: Transaction, target: int, isIbd: bool, env: Env)
    requires SignsOnce(env) && ValidTx(u, a, target, isIbd, env) && a.inputs == b.inputs
    ensures ValidTx(u, b, target, isIbd, env) <==>
      && b.outputs == a.outputs && b.timestamp == a.timestamp
      && b.id.Some? && (!isIbd ==> b.id.value == env.txDigest(TxBuf(b))) && b.id.value <= target
  {
    if ValidTx(u, b, target, isIbd, env) {
      assert a.inputs[0] in a.inputs;
      SignatureBinds(u, a, target, isIbd, u, b, target, isIbd, a.inputs[0], env);
    }
    if SameSigned(a, b) {
      SigningCovers(a, b);
    }
  }

  /** What each rejection tells the caller about the transaction. */
  ghost predicate TxErrorMeans(e: TxError, db: Db, tx: Transaction, target: int, isIbd: bool, env: Env) {
    match e
    case MissingId => tx.id.None?
    case InvalidHash => !isIbd && tx.id.Some? && tx.id.value != env.txDigest(TxBuf(tx))
    case InsufficientDifficulty => tx.id.Some? && tx.id.value > target
    case NoInputs => tx.inputs == []
    case TooMuchIO => |tx.inputs| + |tx.outputs| > MAX_TRANSACTION_IO
    case MissingSignatures => exists i <- tx.inputs :: i.signature.None?
    case InputNotFound => exists i <- tx.inputs :: i.txId !in db
    case InvalidInputIndex => exists i <- tx.inputs :: i.txId in db && i.index >= |db[i.txId]|
    case SpentInputIndex => exists i <- tx.inputs :: i.txId in db && i.index < |db[i.txId]| && db[i.txId][i.index].None?
    case InvalidSignature => exists i <- tx.inputs ::
      i.signature.Some? && Shows(db, Point(i)) &&
      !env.verify(i.signature.value, ViewOf(db)[Point(i)].receiver, SigningBuf(tx))
    case IncorrectOutputOwner =>
      exists i <- tx.inputs :: Shows(db, Point(i)) && ViewOf(db)[Point(i)].receiver != i.owner
    case DoubleSpend => !DistinctInputs(tx.inputs)
    case ZeroOutput => exists o <- tx.outputs :: o.amount == 0
    case SumMismatch => InputSum(ViewOf(db), tx.inputs) != OutputSum(tx.outputs)
    case OverflowError => InputSum(ViewOf(db), tx.inputs) >= U64_LIMIT || OutputSum(tx.outputs) >= U64_LIMIT
    case MissingCreated => false
  }

  /** Input `k`, as far as it is unspent, belongs to the stated owner and carries that owner's signature. */
  ghost predicate InputProper(u: View, tx: Transaction, k: nat, env: Env)
    requires k < |tx.inputs| && tx.inputs[k].signature.Some?
  {
    var i := tx.inputs[k];
    Point(i) in u ==>
      u[Point(i)].receiver == i.owner && env.verify(i.signature.value, u[Point(i)].receiver, SigningBuf(tx))
  }

  /** What the validation loop has established after `k` inputs. */
  ghost predicate InputsPass(u: View, tx: Transaction, k: nat, env: Env, used: set<OutPoint>, sum: nat)
    requires k <= |tx.inputs| && forall i <- tx.inputs :: i.signature.Some?
  {
    && used == PointSet(tx.inputs[..k]) && Spendable(u, tx.inputs[..k])
    && (forall j | 0 <= j < k :: InputProper(u, tx, j, env))
    && sum == InputSum(u, tx.inputs[..k]) < U64_LIMIT
  }

  ghost predicate AllPass(u: View, tx: Transaction, env: Env)
    requires forall i <- tx.inputs :: i.signature.Some?
  {
    && Spendable(u, tx.inputs) && (forall j | 0 <= j < |tx.inputs| :: InputProper(u, tx, j, env))
    && InputSum(u, tx.inputs) < U64_LIMIT
  }

  lemma UsedTwice(inputs: seq<Input>, k: nat)
    requires k < |inputs| && Point(inputs[k]) in PointSet(inputs[..k])
    ensures !DistinctInputs(inputs)
  {
    var i :| 0 <= i < k && Point(inputs[..k][i]) == Point(inputs[k]);
    assert Point(inputs[i]) == Point(inputs[k]);
  }

  lemma PassOneMore(u: View, tx: Transaction, k: nat, env: Env, used: set<OutPoint>, sum: nat)
    requires k < |tx.inputs| && (forall i <- tx.inputs :: i.signature.Some?)
    requires InputsPass(u, tx, k, env, used, sum)
    ensures var p := Point(tx.inputs[k]);
      && (p in used ==> !DistinctInputs(tx.inputs))
      && (sum + Worth(u, p) >= U64_LIMIT ==> InputSum(u, tx.inputs) >= U64_LIMIT)
      && (p in u && p !in used && InputProper(u, tx, k, env) && sum + Worth(u, p) < U64_LIMIT ==>
            InputsPass(u, tx, k + 1, env, used + {p}, sum + Worth(u, p)))
  {
    SpendOneMore(u, tx.inputs, k);
    if Point(tx.inputs[k]) in used {
      UsedTwice(tx.inputs, k);
    }
    assert tx.inputs[..k + 1][..k] == tx.inputs[..k];
    assert InputSum(u, tx.inputs[..k + 1]) == sum + Worth(u, Point(tx.inputs[k]));
    InputSumPrefix(u, tx.inputs, k + 1);
  }

  lemma ProperInputs(u: View, tx: Transaction, env: Env)
    requires forall i <- tx.inputs :: i.signature.Some?
    ensures (forall j | 0 <= j < |tx.inputs| :: InputProper(u, tx, j, env))
       <==> (forall i <- tx.inputs | Point(i) in u ::
               u[Point(i)].receiver == i.owner && env.verify(i.signature.value, u[Point(i)].receiver, SigningBuf(tx)))
  {
    if forall j | 0 <= j < |tx.inputs| :: InputProper(u, tx, j, env) {
      forall i | i in tx.inputs && Point(i) in u
        ensures u[Point(i)].receiver == i.owner && env.verify(i.signature.value, u[Point(i)].receiver, SigningBuf(tx))
      {
        var j :| 0 <= j < |tx.inputs| && tx.inputs[j] == i;
        assert InputProper(u, tx, j, env);
      }
    }
  }

  // ---------- Undo on the view ----------

  ghost function PutBack(u: View, spent: seq<DiffEntry>): View {
    if spent == [] then u
    else PutBack(u, spent[..|spent| - 1])[spent[|spent| - 1].point := spent[|spent| - 1].output]
  }

  ghost function EntryPoints(entries: seq<DiffEntry>): set<OutPoint> {
    set e | e in entries :: e.point
  }

  ghost predicate DistinctPoints(entries: seq<DiffEntry>) {
    forall i, j | 0 <= i < j < |entries| :: entries[i].point != entries[j].point
  }

  ghost function UndoView(u: View, diff: UTXODiff): View {
    PutBack(u, diff.spent) - EntryPoints(diff.created)
  }

  /** When undo meets every created output: all are there once the spent ones are back. */
  ghost predicate Undoable(u: View, diff: UTXODiff) {
    && DistinctPoints(diff.created)
    && EntryPoints(diff.created) <= PutBack(u, diff.spent).Keys
  }

  lemma MinusOneMore(u: View, gone: set<OutPoint>, p: OutPoint)
    ensures (u - gone) - {p} == u - (gone + {p})
    ensures p in u - gone <==> p in u && p !in gone
  {
  }

  lemma OneMoreEntry(entries: seq<DiffEntry>, k: nat)
    requires k < |entries|
    ensures EntryPoints(entries[..k + 1]) == EntryPoints(entries[..k]) + {entries[k].point}
  {
    assert entries[..k + 1] == entries[..k] + [entries[k]];
  }

  lemma NotYetRemoved(created: seq<DiffEntry>, k: nat)
    requires k < |created| && DistinctPoints(created)
    ensures created[k].point in EntryPoints(created)
    ensures created[k].point !in EntryPoints(created[..k])
  {
    assert created[k] in created;
  }

  // ---------- Sums over a view ----------

  ghost function Total(u: View): nat {
    if u == map[] then 0 else var p :| p in u; u[p].amount + Total(u - {p})
  }

  lemma {:induction false} TotalMinus(u: View, p: OutPoint)
    requires p in u
    ensures Total(u) == u[p].amount + Total(u - {p})
    decreases |u|
  {
    var q :| q in u && Total(u) == u[q].amount + Total(u - {q});
    if q != p {
      TotalMinus(u - {q}, p);
      TotalMinus(u - {p}, q);
      assert u - {q} - {p} == u - {p} - {q};
    }
  }

  lemma TotalPlus(u: View, p: OutPoint, o: Output)
    requires p !in u
    ensures Total(u[p := o]) == Total(u) + o.amount
  {
    TotalMinus(u[p := o], p);
    assert u[p := o] - {p} == u;
  }

  /** The outputs that belong to an address. */
  ghost function Owned(u: View, address: Address): View {
    map p | p in u && u[p].receiver == address :: u[p]
  }

  lemma {:induction false} TotalOfPart(part: View, u: View)
    requires part.Keys <= u.Keys && forall p <- part :: part[p] == u[p]
    ensures Total(part) <= Total(u)
    decreases |u|
  {
    if part != map[] {
      var p :| p in part;
      TotalMinus(part, p);
      TotalMinus(u, p);
      TotalOfPart(part - {p}, u - {p});
    }
  }

  lemma SomeMember<T>(s: set<T>) returns (x: T)
    requires s != {}
    ensures x in s
  {
    x :| x in s;
  }

  /** The part of `mine` met once the entries `seen` and the first `n` slots of entry `id` were walked. */
  ghost function Met(mine: View, seen: set<Hash>, id: Hash, n: nat): View {
    map p | p in mine && (p.tx in seen || (p.tx == id && p.index < n)) :: mine[p]
  }

  lemma MeetOne(mine: View, seen: set<Hash>, id: Hash, n: nat)
    requires id !in seen
    ensures var p := OutPoint(id, n);
      p !in Met(mine, seen, id, n) &&
      Met(mine, seen, id, n + 1) == if p in mine then Met(mine, seen, id, n)[p := mine[p]] else Met(mine, seen, id, n)
  {
    var p := OutPoint(id, n);
    var a, b := Met(mine, seen, id, n + 1), Met(mine, seen, id, n);
    assert forall q: OutPoint :: q.tx == id && q.index == n ==> q == p;
    assert a.Keys == if p in mine then b.Keys + {p} else b.Keys;
  }

  lemma MeetEntry(mine: View, seen: set<Hash>, id: Hash, n: nat)
    requires forall p <- mine :: p.tx == id ==> p.index < n
    ensures Met(mine, seen, id, n) == Met(mine, seen + {id}, id, 0)
  {
  }

  lemma MeetNone(mine: View, seen: set<Hash>, id: Hash, id': Hash)
    ensures Met(mine, seen, id, 0) == Met(mine, seen, id', 0)
    ensures (forall p <- mine :: p.tx in seen) ==> Met(mine, seen, id, 0) == mine
    ensures seen == {} ==> Met(mine, seen, id, 0) == map[]
  {
  }

  // ---------- The store ----------

  class UTXOs {
    var db: Db

    ghost function View(): View
      reads this
    {
      ViewOf(db)
    }

    constructor ()
      ensures db == map[] && View() == map[]
    {
      db := map[];
    }

    /** One input in isolation: unspent, signed, and owned as claimed. */
    method ValidateInput(tx: Transaction, k: nat, target: int, isIbd: bool, env: Env) returns (r: Result<nat, TxError>)
      requires k < |tx.inputs| && tx.inputs[k].signature.Some?
      ensures r.Ok? <==> Point(tx.inputs[k]) in View() && InputProper(View(), tx, k, env)
      ensures r.Ok? ==> r.value == Worth(View(), Point(tx.inputs[k]))
      ensures r.Err? ==> TxErrorMeans(r.error, db, tx, target, isIbd, env)
      ensures !r.Panic?
    {
      var input := tx.inputs[k];
      assert input in tx.inputs;
      if input.txId !in db {
        return Err(InputNotFound);
      }
      var prevOutputs := db[input.txId];
      if input.index >= |prevOutputs| {
        return Err(InvalidInputIndex);
      }
      var output := prevOutputs[input.index];
      if output.None? {
        return Err(SpentInputIndex);
      }
      if !env.verify(input.signature.value, output.value.receiver, SigningBuf(tx)) {
        return Err(InvalidSignature);
      }
      if output.value.receiver != input.owner {
        return Err(IncorrectOutputOwner);
      }
      return Ok(output.value.amount);
    }

    /** Input `k` after the ones before it passed: found, its owner's, not used by them, and still within a u64. */
    method PassInput(tx: Transaction, k: nat, target: int, isIbd: bool, env: Env, usedUtxos: set<OutPoint>,
                     inputSum: nat)
      returns (r: Result<nat, TxError>)
      requires k < |tx.inputs| && forall i <- tx.inputs :: i.signature.Some?
      requires InputsPass(View(), tx, k, env, usedUtxos, inputSum)
      ensures r.Ok? ==> InputsPass(View(), tx, k + 1, env, usedUtxos + {Point(tx.inputs[k])}, r.value)
      ensures r.Err? ==> !AllPass(View(), tx, env)
      ensures r.Err? ==> TxErrorMeans(r.error, db, tx, target, isIbd, env)
      ensures !r.Panic?
    {
      PassOneMore(View(), tx, k, env, usedUtxos, inputSum);
      assert tx.inputs[k] in tx.inputs;
      var amount := ValidateInput(tx, k, target, isIbd, env);
      if !amount.Ok? {
        return Err(amount.error);
      }
      if Point(tx.inputs[k]) in usedUtxos {
        return Err(DoubleSpend);
      }
      if inputSum + amount.value >= U64_LIMIT {
        return Err(OverflowError);
      }
      return Ok(inputSum + amount.value);
    }

    /** The loop over the inputs: each passes on its own, none is used twice, and their sum fits. */
    method ValidateInputs(tx: Transaction, target: int, isIbd: bool, env: Env) returns (r: Result<nat, TxError>)
      requires forall i <- tx.inputs :: i.signature.Some?
      ensures r.Ok? <==> AllPass(View(), tx, env)
      ensures r.Ok? ==> r.value == InputSum(View(), tx.inputs)
      ensures r.Err? ==> TxErrorMeans(r.error, db, tx, target, isIbd, env)
      ensures !r.Panic?
    {
      ghost var u := View();
      var usedUtxos: set<OutPoint> := {};
      var inputSum: nat := 0;
      for k := 0 to |tx.inputs|
        invariant InputsPass(u, tx, k, env, usedUtxos, inputSum)
      {
        var sum := PassInput(tx, k, target, isIbd, env, usedUtxos, inputSum);
        if !sum.Ok? {
          return Err(sum.error);
        }
        usedUtxos := usedUtxos + {Point(tx.inputs[k])};
        inputSum := sum.value;
      }
      assert tx.inputs[..|tx.inputs|] == tx.inputs;
      return Ok(inputSum);
    }

    /** The loop over the outputs: none is zero and their sum fits. */
    method ValidateOutputs(tx: Transaction) returns (r: Result<nat, TxError>)
      ensures r.Ok? <==> (forall o <- tx.outputs :: o.amount > 0) && OutputSum(tx.outputs) < U64_LIMIT
      ensures r.Ok? ==> r.value == OutputSum(tx.outputs)
      ensures r.Err? ==> r.error == ZeroOutput || r.error == OverflowError
      ensures r == Err(ZeroOutput) ==> exists o <- tx.outputs :: o.amount == 0
      ensures r == Err(OverflowError) ==> OutputSum(tx.outputs) >= U64_LIMIT
      ensures !r.Panic?
    {
      var outputSum := 0;
      for k := 0 to |tx.outputs|
        invariant forall i | 0 <= i < k :: tx.outputs[i].amount > 0
        invariant outputSum == OutputSum(tx.outputs[..k]) < U64_LIMIT
      {
        if tx.outputs[k].amount == 0 {
          assert tx.outputs[k] in tx.outputs;
          return Err(ZeroOutput);
        }
        assert tx.outputs[..k + 1][..k] == tx.outputs[..k];
        OutputSumPrefix(tx.outputs, k + 1);
        if outputSum + tx.outputs[k].amount >= U64_LIMIT {
          return Err(OverflowError);
        }
        outputSum := outputSum + tx.outputs[k].amount;
      }
      assert tx.outputs[..|tx.outputs|] == tx.outputs;
      return Ok(outputSum);
    }

    /** The checks that need no lookup. */
    method ValidateHead(tx: Transaction, target: int, isIbd: bool, env: Env) returns (r: Result<(), TxError>)
      ensures r.Ok? <==>
        && tx.id.Some? && (!isIbd ==> tx.id.value == env.txDigest(TxBuf(tx))) && tx.id.value <= target
        && tx.inputs != [] && |tx.inputs| + |tx.outputs| <= MAX_TRANSACTION_IO
        && forall i <- tx.inputs :: i.signature.Some?
      ensures r.Err? ==> TxErrorMeans(r.error, db, tx, target, isIbd, env)
      ensures !r.Panic?
    {
      if tx.id.None? {
        return Err(MissingId);
      }
      if !isIbd && tx.id.value != env.txDigest(TxBuf(tx)) {
        return Err(InvalidHash);
      }
      if tx.id.value > target {
        return Err(InsufficientDifficulty);
      }
      if tx.inputs == [] {
        return Err(NoInputs);
      }
      if |tx.inputs| + |tx.outputs| > MAX_TRANSACTION_IO {
        return Err(TooMuchIO);
      }
      if exists i <- tx.inputs :: i.signature.None? {
        return Err(MissingSignatures);
      }
      return Ok(());
    }

    method ValidateTransaction(tx: Transaction, target: int, isIbd: bool, env: Env)
      returns (r: Result<(), TxError>)
      ensures r.Ok? <==> ValidTx(View(), tx, target, isIbd, env)
      ensures r.Err? ==> TxErrorMeans(r.error, db, tx, target, isIbd, env)
      ensures !r.Panic?
    {
      var head := ValidateHead(tx, target, isIbd, env);
      if !head.Ok? {
        return Err(head.error);
      }
      ProperInputs(View(), tx, env);
      var inputSum := ValidateInputs(tx, target, isIbd, env);
      if !inputSum.Ok? {
        return Err(inputSum.error);
      }
      var outputSum := ValidateOutputs(tx);
      if !outputSum.Ok? {
        return Err(outputSum.error);
      }
      if inputSum.value != outputSum.value {
        return Err(SumMismatch);
      }
      return Ok(());
    }

    /** Empty one slot: written back, or deleted with its entry when nothing is left there. */
    method EmptySlot(p: OutPoint)
      requires p.tx in db && p.index < |db[p.tx]|
      modifies this
      ensures View() == old(View()) - {p}
    {
      EmptiedView(db, p);
      var outputs := db[p.tx][p.index := None];
      if forall o <- outputs :: o.None? {
        db := db - {p.tx};
      } else {
        db := db[p.tx := outputs];
      }
    }

    /** Take the output at `p`, as spending does. */
    method TakeSlot(p: OutPoint) returns (r: Result<Output, TxError>)
      modifies this
      ensures r.Ok? <==> p in old(View())
      ensures r.Ok? ==> r.value == old(View())[p] && View() == old(View()) - {p}
      ensures r.Err? ==> r.error == InputNotFound
    {
      if p.tx !in db {
        return Err(InputNotFound);
      }
      var prevOutputs := db[p.tx];
      if p.index >= |prevOutputs| || prevOutputs[p.index].None? {
        return Panic;
      }
      EmptySlot(p);
      return Ok(prevOutputs[p.index].value);
    }

    /** Put an output back, lengthening or recreating its entry as needed. */
    method RestoreSlot(p: OutPoint, output: Output)
      modifies this
      ensures View() == old(View())[p := output]
    {
      RestoredView(db, p, output);
      var outputs := if p.tx in db then db[p.tx] else Nones(p.index + 1);
      if |outputs| <= p.index {
        outputs := outputs + Nones(p.index + 1 - |outputs|);
      }
      db := db[p.tx := outputs[p.index := Some(output)]];
      assert db == Restored(old(db), p, output);
    }

    /** Write the outputs of a new transaction. */
    method SetTxOutputs(id: Hash, outputs: seq<Output>)
      modifies this
      ensures View() == (old(View()) - PointsOf(old(View()), id)) + Created(id, outputs)
    {
      PutView(db, id, outputs);
      db := db[id := AllSome(outputs)];
    }

    /** The loop over the inputs, taking each from its entry. */
    method SpendInputs(inputs: seq<Input>) returns (r: Result<seq<DiffEntry>, TxError>)
      modifies this
      ensures r.Ok? <==> Spendable(old(View()), inputs)
      ensures r.Ok? ==> View() == old(View()) - PointSet(inputs) && r.value == SpentEntries(old(View()), inputs)
      ensures r.Err? ==> r.error == InputNotFound
    {
      ghost var u := View();
      var spent: seq<DiffEntry> := [];
      for k := 0 to |inputs|
        invariant Spendable(u, inputs[..k])
        invariant View() == u - PointSet(inputs[..k])
        invariant spent == SpentEntries(u, inputs[..k])
      {
        SpendOneMore(u, inputs, k);
        MinusOneMore(u, PointSet(inputs[..k]), Point(inputs[k]));
        var output := TakeSlot(Point(inputs[k]));
        if !output.Ok? {
          return if output.Err? then Err(output.error) else Panic;
        }
        spent := spent + [DiffEntry(Point(inputs[k]), output.value)];
      }
      assert inputs[..|inputs|] == inputs;
      return Ok(spent);
    }

    /** Execution succeeds exactly on transactions whose inputs are distinct and unspent. */
    method ExecuteTransaction(tx: Transaction) returns (r: Result<UTXODiff, TxError>)
      modifies this
      ensures r.Ok? <==> Executable(old(View()), tx)
      ensures r.Ok? ==> View() == ExecView(old(View()), tx) && r.value == TxDiff(old(View()), tx)
      ensures r.Err? ==> r.error == InputNotFound
    {
      if tx.id.None? {
        return Panic;
      }
      var created: seq<DiffEntry> := [];
      for index := 0 to |tx.outputs|
        invariant created == CreatedEntries(tx.id.value, tx.outputs)[..index] && db == old(db)
      {
        created := created + [DiffEntry(OutPoint(tx.id.value, index), tx.outputs[index])];
      }
      var spent := SpendInputs(tx.inputs);
      if !spent.Ok? {
        return if spent.Err? then Err(spent.error) else Panic;
      }
      SetTxOutputs(tx.id.value, tx.outputs);
      return Ok(UTXODiff(spent.value, created));
    }

    /** The loop that puts spent outputs back. */
    method RestoreSpent(spent: seq<DiffEntry>)
      modifies this
      ensures View() == PutBack(old(View()), spent)
    {
      ghost var u := View();
      for k := 0 to |spent|
        invariant View() == PutBack(u, spent[..k])
      {
        RestoreSlot(spent[k].point, spent[k].output);
        assert spent[..k + 1][..k] == spent[..k];
      }
      assert spent[..|spent|] == spent;
    }

    /** The loop that removes created outputs. */
    method RemoveCreated(created: seq<DiffEntry>) returns (r: Result<(), TxError>)
      modifies this
      ensures r.Ok? ==> View() == old(View()) - EntryPoints(created)
      ensures DistinctPoints(created) && EntryPoints(created) <= old(View()).Keys ==> r.Ok?
      ensures r.Err? ==> r.error == MissingCreated
    {
      ghost var u := View();
      for k := 0 to |created|
        invariant View() == u - EntryPoints(created[..k])
      {
        var point := created[k].point;
        OneMoreEntry(created, k);
        MinusOneMore(u, EntryPoints(created[..k]), point);
        if DistinctPoints(created) {
          NotYetRemoved(created, k);
        }
        if point.tx !in db {
          return Err(MissingCreated);
        }
        if point.index >= |db[point.tx]| {
          return Panic;
        }
        EmptySlot(point);
      }
      assert created[..|created|] == created;
      return Ok(());
    }

    method RecallBlockUtxos(diff: UTXODiff) returns (r: Result<(), TxError>)
      modifies this
      ensures r.Ok? ==> View() == UndoView(old(View()), diff)
      ensures Undoable(old(View()), diff) ==> r.Ok?
      ensures r.Err? ==> r.error == MissingCreated
    {
      RestoreSpent(diff.spent);
      r := RemoveCreated(diff.created);
    }

    /** `sum` is what the entries `seen` hold for the address. */
    ghost predicate Counted(address: Address, seen: set<Hash>, sum: nat)
      reads this
    {
      sum == Total(Met(Owned(View(), address), seen, 0, 0)) < U64_LIMIT
    }

    /** Add what one entry holds for the address to a running balance. */
    method AddEntry(key: Hash, address: Address, start: nat, ghost seen: set<Hash>) returns (r: Result<nat, TxError>)
      requires key in db && key !in seen && Counted(address, seen, start)
      ensures r.Ok? ==> Counted(address, seen + {key}, r.value)
      ensures r.Panic? ==> Total(Owned(View(), address)) >= U64_LIMIT
      ensures !r.Err?
    {
      ghost var mine := Owned(View(), address);
      var balance := start;
      MeetNone(mine, seen, 0, key);
      for i := 0 to |db[key]|
        invariant balance == Total(Met(mine, seen, key, i)) < U64_LIMIT
      {
        MeetOne(mine, seen, key, i);
        if db[key][i].Some? && db[key][i].value.receiver == address {
          TotalPlus(Met(mine, seen, key, i), OutPoint(key, i), db[key][i].value);
          TotalOfPart(Met(mine, seen, key, i + 1), mine);
          if balance + db[key][i].value.amount >= U64_LIMIT {
            return Panic;
          }
          balance := balance + db[key][i].value.amount;
        }
      }
      MeetEntry(mine, seen, key, |db[key]|);
      MeetNone(mine, seen + {key}, key, 0);
      return Ok(balance);
    }

    lemma CountedEnds(address: Address)
      ensures Counted(address, {}, 0)
      ensures forall sum :: Counted(address, db.Keys, sum) <==> sum == Total(Owned(View(), address)) < U64_LIMIT
    {
      MeetNone(Owned(View(), address), {}, 0, 0);
      MeetNone(Owned(View(), address), db.Keys, 0, 0);
    }

    /** The balance is the sum of the address's unspent outputs, provided it fits a `u64`. */
    method CalculateConfirmedBalance(address: Address) returns (r: Result<U64, TxError>)
      ensures r.Ok? <==> Total(Owned(View(), address)) < U64_LIMIT
      ensures r.Ok? ==> r.value == Total(Owned(View(), address))
      ensures !r.Err?
    {
      CountedEnds(address);
      var balance: nat := 0;
      var seen: set<Hash> := {};
      while seen != db.Keys
        invariant seen <= db.Keys && Counted(address, seen, balance)
        decreases |db.Keys - seen|
      {
        ghost var some := SomeMember(db.Keys - seen);
        assert some in db.Keys && some !in seen;
        var key: Hash :| key in db.Keys && key !in seen;
        var sum := AddEntry(key, address, balance, seen);
        if !sum.Ok? {
          return Panic;
        }
        balance := sum.value;
        assert db.Keys - (seen + {key}) == (db.Keys - seen) - {key};
        seen := seen + {key};
      }
      return Ok(balance);
    }
  }
}
