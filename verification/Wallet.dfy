/** Coin selection: building a transaction from a sender's unspent outputs (src/lib.rs:94-165). */
module Wallet {
  import opened Base
  import opened Types
  import opened Utxos

  datatype WalletError = InsufficientFunds | TooMuchIO

  /** An unspent output as a data provider lists it. */
  datatype Coin = Coin(point: OutPoint, output: Output)

  function Sum(coins: seq<Coin>): nat {
    if coins == [] then 0 else Sum(coins[..|coins| - 1]) + coins[|coins| - 1].output.amount
  }

  predicate Ignored(c: Coin, ignore: seq<Input>) {
    exists i <- ignore :: Point(i) == c.point
  }

  /** The coins the caller did not ask to ignore, in the provider's order. */
  function Kept(coins: seq<Coin>, ignore: seq<Input>): seq<Coin> {
    if coins == [] then []
    else
      var init, c := Kept(coins[..|coins| - 1], ignore), coins[|coins| - 1];
      if Ignored(c, ignore) then init else init + [c]
  }

  ghost predicate DistinctPoints(coins: seq<Coin>) {
    forall i, j | 0 <= i < j < |coins| :: coins[i].point != coins[j].point
  }

  /** The coins are outputs of `u` that belong to the sender, each once. */
  ghost predicate Lists(coins: seq<Coin>, u: View, sender: Address) {
    && (forall c <- coins :: c.point in u && u[c.point] == c.output && c.output.receiver == sender)
    && DistinctPoints(coins)
  }

  // ---------- Listing the coins of an address (src/core/blockchain_ext.rs:66-102) ----------

  /** The coins as a view. */
  function Pictured(coins: seq<Coin>): View {
    if coins == [] then map[]
    else Pictured(coins[..|coins| - 1])[coins[|coins| - 1].point := coins[|coins| - 1].output]
  }

  /** The coins are exactly the outputs in `part`, each once. */
  ghost predicate ListsExactly(coins: seq<Coin>, part: View) {
    DistinctPoints(coins) && Pictured(coins) == part
  }

  lemma {:induction false} PicturedPoints(coins: seq<Coin>)
    ensures forall p :: p in Pictured(coins) <==> exists c <- coins :: c.point == p
    ensures DistinctPoints(coins) ==> forall c <- coins :: Pictured(coins)[c.point] == c.output
  {
    if coins != [] {
      var init, last := coins[..|coins| - 1], coins[|coins| - 1];
      assert coins == init + [last];
      PicturedPoints(init);
      forall c | c in init && DistinctPoints(coins) ensures c.point != last.point {
        var i :| 0 <= i < |init| && init[i] == c;
        assert coins[i] == c;
      }
    }
  }

  lemma ListsExactlyOne(coins: seq<Coin>, part: View, c: Coin)
    requires ListsExactly(coins, part) && c.point !in part
    ensures ListsExactly(coins + [c], part[c.point := c.output])
  {
    PicturedPoints(coins);
    var all := coins + [c];
    assert all[..|all| - 1] == coins;
    forall i | 0 <= i < |coins| ensures all[i].point != c.point {
      assert coins[i] in coins;
    }
  }

  lemma {:induction false} SumOfAll(coins: seq<Coin>, part: View)
    requires ListsExactly(coins, part)
    ensures Sum(coins) == Total(part)
  {
    if coins != [] {
      var init, last := coins[..|coins| - 1], coins[|coins| - 1];
      SumOfAll(init, Pictured(init));
      PicturedPoints(init);
      forall c | c in init ensures c.point != last.point {
        var i :| 0 <= i < |init| && init[i] == c;
      }
      TotalPlus(Pictured(init), last.point, last.output);
    }
  }

  lemma ListsOwned(coins: seq<Coin>, u: View, sender: Address)
    requires ListsExactly(coins, Owned(u, sender))
    ensures Lists(coins, u, sender)
  {
    PicturedPoints(coins);
  }

  /** Append the address's outputs in one entry of the store. */
  method ListEntry(utxos: UTXOs, key: Hash, address: Address, before: seq<Coin>, ghost seen: set<Hash>)
    returns (coins: seq<Coin>)
    requires key in utxos.db && key !in seen && ListsExactly(before, Met(Owned(utxos.View(), address), seen, 0, 0))
    ensures ListsExactly(coins, Met(Owned(utxos.View(), address), seen + {key}, 0, 0))
  {
    ghost var mine := Owned(utxos.View(), address);
    coins := before;
    MeetNone(mine, seen, 0, key);
    for i := 0 to |utxos.db[key]|
      invariant ListsExactly(coins, Met(mine, seen, key, i))
    {
      MeetOne(mine, seen, key, i);
      if utxos.db[key][i].Some? && utxos.db[key][i].value.receiver == address {
        ListsExactlyOne(coins, Met(mine, seen, key, i), Coin(OutPoint(key, i), utxos.db[key][i].value));
        coins := coins + [Coin(OutPoint(key, i), utxos.db[key][i].value)];
      }
    }
    MeetEntry(mine, seen, key, |utxos.db[key]|);
    MeetNone(mine, seen + {key}, key, 0);
  }

  /** Exactly the unspent outputs of the address are listed, each once. */
  method GetAvailableTransactionOutputs(utxos: UTXOs, address: Address) returns (coins: seq<Coin>)
    ensures ListsExactly(coins, Owned(utxos.View(), address))
  {
    coins := [];
    var seen: set<Hash> := {};
    MeetNone(Owned(utxos.View(), address), {}, 0, 0);
    while seen != utxos.db.Keys
      invariant seen <= utxos.db.Keys && ListsExactly(coins, Met(Owned(utxos.View(), address), seen, 0, 0))
      decreases |utxos.db.Keys - seen|
    {
      ghost var some := SomeMember(utxos.db.Keys - seen);
      assert some in utxos.db.Keys && some !in seen;
      var key: Hash :| key in utxos.db.Keys && key !in seen;
      coins := ListEntry(utxos, key, address, coins, seen);
      assert utxos.db.Keys - (seen + {key}) == (utxos.db.Keys - seen) - {key};
      seen := seen + {key};
    }
    MeetNone(Owned(utxos.View(), address), utxos.db.Keys, 0, 0);
  }

  // ---------- Sorting by amount, smallest first, equal amounts in their order ----------

  function Insert(c: Coin, coins: seq<Coin>): seq<Coin> {
    if coins == [] || c.output.amount <= coins[0].output.amount then [c] + coins
    else [coins[0]] + Insert(c, coins[1..])
  }

  function SortByAmount(coins: seq<Coin>): seq<Coin> {
    if coins == [] then [] else Insert(coins[0], SortByAmount(coins[1..]))
  }

  ghost predicate SortedByAmount(coins: seq<Coin>) {
    forall i, j | 0 <= i < j < |coins| :: coins[i].output.amount <= coins[j].output.amount
  }

  lemma {:induction false} SumFront(c: Coin, coins: seq<Coin>)
    ensures Sum([c] + coins) == c.output.amount + Sum(coins)
  {
    var all := [c] + coins;
    if coins == [] {
      assert all[..0] == [];
    } else {
      SumFront(c, coins[..|coins| - 1]);
      assert all[..|all| - 1] == [c] + coins[..|coins| - 1];
    }
  }

  lemma {:induction false} InsertFacts(c: Coin, coins: seq<Coin>)
    ensures multiset(Insert(c, coins)) == multiset{c} + multiset(coins)
    ensures Sum(Insert(c, coins)) == c.output.amount + Sum(coins)
  {
    SumFront(c, coins);
    if coins != [] && c.output.amount > coins[0].output.amount {
      var head, tail := coins[0], coins[1..];
      assert coins == [head] + tail;
      InsertFacts(c, tail);
      SumFront(head, tail);
      SumFront(head, Insert(c, tail));
    }
  }

  lemma InsertMembers(c: Coin, coins: seq<Coin>)
    ensures forall d <- Insert(c, coins) :: d == c || d in coins
  {
    InsertFacts(c, coins);
    forall d | d in Insert(c, coins) ensures d == c || d in coins {
      assert d in multiset(Insert(c, coins));
    }
  }

  lemma {:induction false} InsertSorted(c: Coin, coins: seq<Coin>)
    requires SortedByAmount(coins)
    ensures SortedByAmount(Insert(c, coins))
  {
    if coins != [] && c.output.amount > coins[0].output.amount {
      var head, tail := coins[0], coins[1..];
      InsertSorted(c, tail);
      InsertMembers(c, tail);
      forall k | 0 <= k < |Insert(c, tail)| ensures head.output.amount <= Insert(c, tail)[k].output.amount {
        assert Insert(c, tail)[k] in Insert(c, tail);
      }
    }
  }

  lemma {:induction false} SortFacts(coins: seq<Coin>)
    ensures multiset(SortByAmount(coins)) == multiset(coins)
    ensures Sum(SortByAmount(coins)) == Sum(coins)
    ensures SortedByAmount(SortByAmount(coins))
  {
    if coins != [] {
      assert coins == [coins[0]] + coins[1..];
      SortFacts(coins[1..]);
      InsertFacts(coins[0], SortByAmount(coins[1..]));
      InsertSorted(coins[0], SortByAmount(coins[1..]));
      SumFront(coins[0], coins[1..]);
    }
  }

  lemma {:induction false} InsertDistinct(c: Coin, coins: seq<Coin>)
    requires DistinctPoints(coins) && forall d <- coins :: d.point != c.point
    ensures DistinctPoints(Insert(c, coins))
  {
    if coins != [] && c.output.amount > coins[0].output.amount {
      var head, tail := coins[0], coins[1..];
      assert forall d <- tail :: d in coins;
      InsertDistinct(c, tail);
      InsertMembers(c, tail);
      forall k | 0 <= k < |Insert(c, tail)| ensures Insert(c, tail)[k].point != head.point {
        assert Insert(c, tail)[k] in Insert(c, tail);
      }
    }
  }

  lemma {:induction false} SortDistinct(coins: seq<Coin>)
    requires DistinctPoints(coins)
    ensures DistinctPoints(SortByAmount(coins))
  {
    if coins != [] {
      var tail, sorted := coins[1..], SortByAmount(coins[1..]);
      SortDistinct(tail);
      SortFacts(tail);
      forall d | d in sorted ensures d.point != coins[0].point {
        assert d in multiset(sorted) && d in multiset(tail);
        var i :| 0 <= i < |tail| && tail[i] == d;
        assert coins[i + 1] == d;
      }
      InsertDistinct(coins[0], sorted);
    }
  }

  lemma SortLists(coins: seq<Coin>, u: View, sender: Address)
    requires Lists(coins, u, sender)
    ensures Lists(SortByAmount(coins), u, sender)
  {
    SortDistinct(coins);
    SortFacts(coins);
    forall c | c in SortByAmount(coins) ensures c in coins {
      assert c in multiset(SortByAmount(coins));
    }
  }

  // ---------- Building ----------

  function Unsigned(coins: seq<Coin>, sender: Address): seq<Input> {
    seq(|coins|, i requires 0 <= i < |coins| => Input(coins[i].point.tx, coins[i].point.index, None, sender))
  }

  function WithSignature(inputs: seq<Input>, signature: Signature): seq<Input> {
    seq(|inputs|, i requires 0 <= i < |inputs| => inputs[i].(signature := Some(signature)))
  }

  /** `new_transaction_now`: every input signed by the sender over the signing buffer. */
  function NewTransactionNow(inputs: seq<Input>, outputs: seq<Output>, now: nat,
                             sign: Transaction -> Signature): Transaction {
    var tx := Transaction(inputs, outputs, None, 0, now);
    tx.(inputs := WithSignature(inputs, sign(SigningBuf(tx))))
  }

  method TargetBalance(receivers: seq<Output>) returns (r: Result<U64, WalletError>)
    ensures r.Ok? <==> OutputSum(receivers) < U64_LIMIT
    ensures r.Ok? ==> r.value == OutputSum(receivers)
    ensures !r.Err?
  {
    var total := 0;
    for i := 0 to |receivers|
      invariant total == OutputSum(receivers[..i]) < U64_LIMIT
    {
      assert receivers[..i + 1][..i] == receivers[..i];
      OutputSumPrefix(receivers, i + 1);
      if total + receivers[i].amount >= U64_LIMIT {
        return Panic;
      }
      total := total + receivers[i].amount;
    }
    assert receivers[..|receivers|] == receivers;
    return Ok(total);
  }

  method Retain(coins: seq<Coin>, ignore: seq<Input>) returns (kept: seq<Coin>)
    ensures kept == Kept(coins, ignore)
  {
    kept := [];
    for i := 0 to |coins|
      invariant kept == Kept(coins[..i], ignore)
    {
      assert coins[..i + 1][..i] == coins[..i];
      if !Ignored(coins[i], ignore) {
        kept := kept + [coins[i]];
      }
    }
    assert coins[..|coins|] == coins;
  }

  lemma {:induction false} SumPrefix(coins: seq<Coin>, i: nat)
    requires i <= |coins|
    ensures Sum(coins[..i]) <= Sum(coins)
  {
    if i < |coins| {
      var init := coins[..|coins| - 1];
      SumPrefix(init, i);
      assert init[..i] == coins[..i];
    } else {
      assert coins[..i] == coins;
    }
  }

  /** Take coins from the front until the target is covered: no proper prefix of what is taken, the
      empty one aside, would do. */
  method TakeCoins(coins: seq<Coin>, target: nat) returns (used: nat, r: Result<U64, WalletError>)
    ensures used <= |coins| && !r.Err? && (Sum(coins) < U64_LIMIT ==> r.Ok?)
    ensures r.Ok? ==> r.value == Sum(coins[..used])
    ensures r.Ok? ==> (r.value >= target || used == |coins|)
    ensures forall k | 0 < k < used :: Sum(coins[..k]) < target
    ensures coins != [] && r.Ok? ==> used > 0
  {
    var currentFunds := 0;
    used := 0;
    while used < |coins|
      invariant used <= |coins| && currentFunds == Sum(coins[..used]) < U64_LIMIT
      invariant forall k | 0 < k <= used :: Sum(coins[..k]) < target
    {
      assert coins[..used + 1][..used] == coins[..used];
      SumPrefix(coins, used + 1);
      if currentFunds + coins[used].output.amount >= U64_LIMIT {
        return used, Panic;
      }
      currentFunds := currentFunds + coins[used].output.amount;
      used := used + 1;
      if currentFunds >= target {
        return used, Ok(currentFunds);
      }
    }
    return used, Ok(currentFunds);
  }

  /** The coins a transaction is built from: the shortest covering prefix of the kept ones. */
  ghost predicate Selected(used: seq<Coin>, kept: seq<Coin>, target: nat) {
    && used <= kept && target <= Sum(used) < U64_LIMIT
    && (forall k | 0 < k < |used| :: Sum(used[..k]) < target)
    && (kept != [] ==> used != [])
  }

  // ---------- Whether the biggest coins are taken first ----------

  /** No coin left out is bigger than one that is used. */
  ghost predicate BiggestFirst(used: seq<Coin>, kept: seq<Coin>)
    requires |used| <= |kept|
  {
    forall i, j | 0 <= i < |used| <= j < |kept| :: kept[j].output.amount <= kept[i].output.amount
  }

  ghost predicate Descending(coins: seq<Coin>) {
    forall i, j | 0 <= i < j < |coins| :: coins[j].output.amount <= coins[i].output.amount
  }

  ghost predicate AlwaysBiggestFirst(kept: seq<Coin>) {
    forall used, target :: Selected(used, kept, target) ==> BiggestFirst(used, kept)
  }

  /** Every front part can be what is selected. */
  lemma FrontIsSelected(kept: seq<Coin>, i: nat)
    requires i < |kept| && Sum(kept) < U64_LIMIT && forall c <- kept :: c.output.amount > 0
    ensures Selected(kept[..i + 1], kept, Sum(kept[..i + 1]))
  {
    var used := kept[..i + 1];
    assert used[..i] == kept[..i] && kept[i] in kept;
    SumPrefix(kept, i + 1);
    assert Sum(used) == Sum(kept[..i]) + kept[i].output.amount;
    forall k | 0 < k < |used| ensures Sum(used[..k]) < Sum(used) {
      SumPrefix(kept[..i], k);
      assert kept[..i][..k] == used[..k];
    }
  }

  /** The biggest coins come first, whatever is paid, exactly if they are listed in that order. */
  lemma BiggestFirstIfListed(kept: seq<Coin>)
    requires Sum(kept) < U64_LIMIT && forall c <- kept :: c.output.amount > 0
    ensures AlwaysBiggestFirst(kept) <==> Descending(kept)
  {
    if !Descending(kept) {
      var i: nat, j: nat :| i < j < |kept| && kept[j].output.amount > kept[i].output.amount;
      FrontIsSelected(kept, i);
      NotBiggestFirst(kept, i, j);
    }
  }

  lemma NotBiggestFirst(kept: seq<Coin>, i: nat, j: nat)
    requires i < j < |kept| && kept[j].output.amount > kept[i].output.amount
    ensures !BiggestFirst(kept[..i + 1], kept)
  {
  }

  /** A coin of 1 listed before one of 2, and 1 to pay: the smaller coin is used, the bigger one is not. */
  lemma SmallCoinFirst(p: OutPoint, q: OutPoint, owner: Address)
    ensures var small, big := Coin(p, Output(1, owner)), Coin(q, Output(2, owner));
      Selected([small], [small, big], 1) && !BiggestFirst([small], [small, big])
  {
    var small, big := Coin(p, Output(1, owner)), Coin(q, Output(2, owner));
    assert Sum([small][..0]) == 0 && Sum([small]) == 1;
    NotBiggestFirst([small, big], 0, 1);
    assert [small, big][..1] == [small];
  }

  method Select(kept: seq<Coin>, target: nat) returns (used: seq<Coin>, r: Result<U64, WalletError>)
    ensures Sum(kept) < U64_LIMIT ==> !r.Panic?
    ensures !r.Panic? ==> (r == Err(InsufficientFunds) <==> Sum(kept) < target)
    ensures r.Err? ==> r.error == InsufficientFunds
    ensures used <= kept
    ensures r.Ok? ==> Selected(used, kept, target) && r.value == Sum(used)
  {
    var n, funds := TakeCoins(kept, target);
    used := kept[..n];
    if funds.Panic? {
      return used, Panic;
    }
    SumPrefix(kept, n);
    if target > funds.value {
      assert used == kept;
      return used, Err(InsufficientFunds);
    }
    forall k | 0 < k < n ensures kept[..k] == used[..k] {}
    return used, Ok(funds.value);
  }

  /** The receivers, and the change back to the sender if there is any. */
  function Payments(receivers: seq<Output>, sender: Address, used: seq<Coin>): seq<Output>
    requires OutputSum(receivers) <= Sum(used) < U64_LIMIT
  {
    var change := Sum(used) - OutputSum(receivers);
    if change > 0 then receivers + [Output(change, sender)] else receivers
  }

  /** The transaction made of the coins `used`. */
  function Built(used: seq<Coin>, sender: Address, receivers: seq<Output>, now: nat,
                 sign: Transaction -> Signature): Transaction
    requires OutputSum(receivers) <= Sum(used) < U64_LIMIT
  {
    NewTransactionNow(Unsigned(SortByAmount(used), sender), Payments(receivers, sender, used), now, sign)
  }

  /** What is kept are the listed coins that are not ignored, in the order of the list. */
  lemma {:induction false} KeptMembers(coins: seq<Coin>, ignore: seq<Input>, c: Coin)
    ensures c in Kept(coins, ignore) <==> c in coins && forall i <- ignore :: Point(i) != c.point
  {
    if coins != [] {
      var init := coins[..|coins| - 1];
      assert coins == init + [coins[|coins| - 1]];
      KeptMembers(init, ignore, c);
    }
  }

  lemma {:induction false} KeptConcat(a: seq<Coin>, b: seq<Coin>, ignore: seq<Input>)
    ensures Kept(a + b, ignore) == Kept(a, ignore) + Kept(b, ignore)
  {
    if b == [] {
      assert a + b == a;
    } else {
      assert (a + b)[..|a + b| - 1] == a + b[..|b| - 1];
      KeptConcat(a, b[..|b| - 1], ignore);
    }
  }

  lemma UsedAreKept(coins: seq<Coin>, ignore: seq<Input>, used: seq<Coin>)
    requires used <= Kept(coins, ignore)
    ensures forall c <- used :: c in coins && forall i <- ignore :: Point(i) != c.point
  {
    forall c | c in used ensures c in coins && forall i <- ignore :: Point(i) != c.point {
      assert c in Kept(coins, ignore);
      KeptMembers(coins, ignore, c);
    }
  }

  /** Each used coin is spent once and signed for by the sender, smaller amounts first. */
  ghost predicate Spends(tx: Transaction, used: seq<Coin>, sender: Address) {
    exists sorted: seq<Coin> ::
      multiset(sorted) == multiset(used) && SortedByAmount(sorted) && Lines(tx, sorted, sender)
  }

  ghost predicate Lines(tx: Transaction, coins: seq<Coin>, sender: Address) {
    && |tx.inputs| == |coins|
    && forall i | 0 <= i < |coins| ::
      Point(tx.inputs[i]) == coins[i].point && tx.inputs[i].owner == sender && tx.inputs[i].signature.Some?
  }

  /** The receivers are paid as asked, and whatever comes after them goes back to the sender: the rest of the funds. */
  ghost predicate Pays(tx: Transaction, receivers: seq<Output>, sender: Address, funds: nat) {
    && receivers <= tx.outputs && |tx.outputs| <= |receivers| + 1 && OutputSum(tx.outputs) == funds
    && forall i | |receivers| <= i < |tx.outputs| :: tx.outputs[i].receiver == sender && tx.outputs[i].amount > 0
  }

  lemma BuiltPays(used: seq<Coin>, sender: Address, receivers: seq<Output>, now: nat, sign: Transaction -> Signature)
    requires OutputSum(receivers) <= Sum(used) < U64_LIMIT
    ensures Pays(Built(used, sender, receivers, now, sign), receivers, sender, Sum(used))
  {
    var outputs := Built(used, sender, receivers, now, sign).outputs;
    assert outputs != receivers ==> outputs[..|outputs| - 1] == receivers;
  }

  lemma BuiltSpends(used: seq<Coin>, sender: Address, receivers: seq<Output>, now: nat, sign: Transaction -> Signature)
    requires OutputSum(receivers) <= Sum(used) < U64_LIMIT
    ensures Spends(Built(used, sender, receivers, now, sign), used, sender)
  {
    SortFacts(used);
    assert Lines(Built(used, sender, receivers, now, sign), SortByAmount(used), sender);
  }

  method BuildTransaction(coins: seq<Coin>, sender: Address, receivers: seq<Output>, ignore: seq<Input>,
                          now: nat, sign: Transaction -> Signature)
    returns (r: Result<Transaction, WalletError>, used: seq<Coin>)
    ensures OutputSum(receivers) < U64_LIMIT && Sum(Kept(coins, ignore)) < U64_LIMIT ==> !r.Panic?
    ensures !r.Panic? ==> (r == Err(InsufficientFunds) <==> Sum(Kept(coins, ignore)) < OutputSum(receivers))
    ensures (r.Ok? || r == Err(WalletError.TooMuchIO)) ==> Selected(used, Kept(coins, ignore), OutputSum(receivers))
    ensures r == Err(WalletError.TooMuchIO) ==> |used| + |Payments(receivers, sender, used)| > MAX_TRANSACTION_IO
    ensures r.Ok? ==> |used| + |Payments(receivers, sender, used)| <= MAX_TRANSACTION_IO
    ensures r.Ok? ==> r.value == Built(used, sender, receivers, now, sign)
    ensures r.Ok? ==> Pays(r.value, receivers, sender, Sum(used)) && Spends(r.value, used, sender)
    ensures r.Ok? ==> r.value.timestamp == now && r.value.nonce == 0 && r.value.id.None?
    ensures forall c <- used :: c in coins && forall i <- ignore :: Point(i) != c.point
  {
    used := [];
    var target := TargetBalance(receivers);
    if target.Panic? {
      return Panic, used;
    }
    var kept := Retain(coins, ignore);
    var funds;
    used, funds := Select(kept, target.value);
    UsedAreKept(coins, ignore, used);
    if !funds.Ok? {
      return if funds.Err? then Err(InsufficientFunds) else Panic, used;
    }
    r := Assemble(used, funds.value, sender, receivers, target.value, now, sign);
    BuiltPays(used, sender, receivers, now, sign);
    BuiltSpends(used, sender, receivers, now, sign);
  }

  /** Pay out what was selected, unless that takes too many inputs and outputs. */
  method Assemble(used: seq<Coin>, funds: U64, sender: Address, receivers: seq<Output>, target: U64,
                  now: nat, sign: Transaction -> Signature)
    returns (r: Result<Transaction, WalletError>)
    requires OutputSum(receivers) == target <= Sum(used) == funds
    ensures !r.Panic?
    ensures r.Ok? <==> |used| + |Payments(receivers, sender, used)| <= MAX_TRANSACTION_IO
    ensures r.Ok? ==> r.value == Built(used, sender, receivers, now, sign)
    ensures r.Err? ==> r.error == WalletError.TooMuchIO
  {
    var outputs := receivers;
    if target < funds {
      outputs := outputs + [Output(funds - target, sender)];
    }
    if |used| + |outputs| > MAX_TRANSACTION_IO {
      return Err(WalletError.TooMuchIO);
    }
    var inputs := Unsigned(SortByAmount(used), sender);
    return Ok(NewTransactionNow(inputs, outputs, now, sign));
  }

  // ---------- What is built is valid ----------

  lemma {:induction false} KeptLists(coins: seq<Coin>, ignore: seq<Input>, u: View, sender: Address)
    requires Lists(coins, u, sender)
    ensures Lists(Kept(coins, ignore), u, sender)
    ensures forall c <- Kept(coins, ignore) :: c in coins
  {
    if coins != [] {
      var init, c := coins[..|coins| - 1], coins[|coins| - 1];
      KeptLists(init, ignore, u, sender);
      forall d | d in Kept(init, ignore) ensures d in coins && d.point != c.point {
        var i :| 0 <= i < |init| && init[i] == d;
        assert coins[i] == d;
      }
    }
  }

  lemma {:induction false} InputSumOfCoins(coins: seq<Coin>, inputs: seq<Input>, u: View)
    requires |inputs| == |coins|
    requires forall i | 0 <= i < |coins| :: Point(inputs[i]) == coins[i].point
    requires forall c <- coins :: c.point in u && u[c.point] == c.output
    ensures InputSum(u, inputs) == Sum(coins)
  {
    if coins != [] {
      InputSumOfCoins(coins[..|coins| - 1], inputs[..|inputs| - 1], u);
    }
  }

  /** The inputs of a built transaction are the sender's own unspent outputs, each once. */
  lemma BuiltInputs(coins: seq<Coin>, u: View, sender: Address, signature: Signature)
    requires Lists(coins, u, sender)
    ensures var inputs := WithSignature(Unsigned(coins, sender), signature);
      && Spendable(u, inputs) && InputSum(u, inputs) == Sum(coins) && |inputs| == |coins|
      && (forall i <- inputs :: u[Point(i)].receiver == i.owner == sender && i.signature == Some(signature))
  {
    var inputs := WithSignature(Unsigned(coins, sender), signature);
    assert forall i | 0 <= i < |coins| :: Point(inputs[i]) == coins[i].point;
    InputSumOfCoins(coins, inputs, u);
    forall i | i in inputs
      ensures Point(i) in u && u[Point(i)].receiver == i.owner == sender && i.signature == Some(signature)
    {
      var k :| 0 <= k < |inputs| && inputs[k] == i;
      assert coins[k] in coins;
    }
  }

  lemma SigningIgnoresSignatures(inputs: seq<Input>, tx: Transaction, signature: Signature, h: Hash, nonce: nat)
    requires forall i <- inputs :: i.signature.None?
    requires tx.inputs == inputs && tx.nonce == 0 && tx.id.None?
    ensures SigningBuf(tx.(inputs := WithSignature(inputs, signature), id := Some(h), nonce := nonce)) == SigningBuf(tx)
  {
    var signed := tx.(inputs := WithSignature(inputs, signature), id := Some(h), nonce := nonce);
    assert SigningBuf(signed).inputs == SigningBuf(tx).inputs;
  }

  lemma PayOut(receivers: seq<Output>, sender: Address, used: seq<Coin>)
    requires receivers != [] && forall o <- receivers :: o.amount > 0
    requires OutputSum(receivers) <= Sum(used) < U64_LIMIT
    ensures OutputSum(Payments(receivers, sender, used)) == Sum(used) > 0
    ensures forall o <- Payments(receivers, sender, used) :: o.amount > 0
  {
    var outputs := Payments(receivers, sender, used);
    assert outputs != receivers ==> outputs[..|outputs| - 1] == receivers;
    assert receivers[|receivers| - 1] in receivers;
  }

  lemma BuiltIsFunded(used: seq<Coin>, u: View, sender: Address, receivers: seq<Output>, now: nat,
                      sign: Transaction -> Signature, h: Hash, nonce: nat)
    requires Lists(used, u, sender) && receivers != [] && forall o <- receivers :: o.amount > 0
    requires OutputSum(receivers) <= Sum(used) < U64_LIMIT
    requires |used| + |Payments(receivers, sender, used)| <= MAX_TRANSACTION_IO
    ensures Funded(u, Built(used, sender, receivers, now, sign).(id := Some(h), nonce := nonce))
  {
    var sorted := SortByAmount(used);
    var draft := Transaction(Unsigned(sorted, sender), Payments(receivers, sender, used), None, 0, now);
    SortLists(used, u, sender);
    SortFacts(used);
    assert |sorted| == |multiset(sorted)| == |used|;
    BuiltInputs(sorted, u, sender, sign(SigningBuf(draft)));
    PayOut(receivers, sender, used);
  }

  lemma BuiltIsSigned(used: seq<Coin>, u: View, sender: Address, receivers: seq<Output>, now: nat,
                      sign: Transaction -> Signature, h: Hash, nonce: nat, env: Env)
    requires Lists(used, u, sender)
    requires OutputSum(receivers) <= Sum(used) < U64_LIMIT
    requires forall buf :: env.verify(sign(buf), sender, buf)
    ensures var mined := Built(used, sender, receivers, now, sign).(id := Some(h), nonce := nonce);
      forall i <- mined.inputs :: i.signature.Some? && Point(i) in u &&
        env.verify(i.signature.value, u[Point(i)].receiver, SigningBuf(mined))
  {
    var inputs := Unsigned(SortByAmount(used), sender);
    var draft := Transaction(inputs, Payments(receivers, sender, used), None, 0, now);
    var signature := sign(SigningBuf(draft));
    SortLists(used, u, sender);
    BuiltInputs(SortByAmount(used), u, sender, signature);
    SigningIgnoresSignatures(inputs, draft, signature, h, nonce);
  }

  /** Coin selection meets validation: for positive amounts to at least one receiver, what is built is, once its
      nonce is found, valid on the same unspent outputs exactly when its id is its digest and meets the target. */
  lemma BuiltIsValid(coins: seq<Coin>, ignore: seq<Input>, used: seq<Coin>, u: View, sender: Address,
                     receivers: seq<Output>, now: nat, sign: Transaction -> Signature,
                     h: Hash, nonce: nat, target: int, isIbd: bool, env: Env)
    requires Lists(coins, u, sender) && receivers != [] && forall o <- receivers :: o.amount > 0
    requires Selected(used, Kept(coins, ignore), OutputSum(receivers))
    requires |used| + |Payments(receivers, sender, used)| <= MAX_TRANSACTION_IO
    requires forall buf :: env.verify(sign(buf), sender, buf)
    ensures var mined := Built(used, sender, receivers, now, sign).(id := Some(h), nonce := nonce);
      ValidTx(u, mined, target, isIbd, env) <==> ((!isIbd ==> h == env.txDigest(TxBuf(mined))) && h <= target)
  {
    KeptLists(coins, ignore, u, sender);
    BuiltIsFunded(used, u, sender, receivers, now, sign, h, nonce);
    BuiltIsSigned(used, u, sender, receivers, now, sign, h, nonce, env);
  }

  lemma {:induction false} KeptOfNone(coins: seq<Coin>)
    ensures Kept(coins, []) == coins
  {
    if coins != [] {
      KeptOfNone(coins[..|coins| - 1]);
    }
  }

  /** With nothing ignored, a sender can always raise what its confirmed balance covers, and no more. */
  lemma FundsAreTheBalance(coins: seq<Coin>, u: View, sender: Address)
    requires ListsExactly(coins, Owned(u, sender))
    ensures Sum(Kept(coins, [])) == Total(Owned(u, sender)) && Lists(coins, u, sender)
  {
    KeptOfNone(coins);
    SumOfAll(coins, Owned(u, sender));
    ListsOwned(coins, u, sender);
  }
}
