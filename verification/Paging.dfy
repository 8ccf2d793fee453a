/** Paged answers of the API server and the client loops that join them
    (src/full_node/api_server.rs:76-177, src/client.rs:84-221 and 431-461, src/core/utils.rs:23-30). */
module Paging {
  import opened Base
  import opened Types

  const PAGE_SIZE := 200
  const U32_LIMIT := 0x1_0000_0000

  datatype ApiError = MissingId

  datatype Page<T> = Page(items: seq<T>, next: Option<nat>)

  function SliceVec<T>(v: seq<T>, start: nat, end: nat): seq<T>
    requires start <= end
  {
    if start >= |v| then [] else v[start..if end < |v| then end else |v|]
  }

  // ---------- Lists that are sliced: the mempool and the unspent outputs of an address ----------

  /** One page of a list. The page bounds are computed in `u32`. */
  function SlicePage<T>(v: seq<T>, page: nat): Result<Page<T>, ApiError> {
    if (page + 1) * PAGE_SIZE >= U32_LIMIT then Panic
    else
      var items := SliceVec(v, page * PAGE_SIZE, (page + 1) * PAGE_SIZE);
      Ok(Page(items, if |items| != PAGE_SIZE then None else Some(page + 1)))
  }

  /** The client's loop over a sliced list gathers the list itself, each item once and in order, as long as the
      last page asked for, the one that is not full, is within the server's arithmetic. */
  method CollectPages<T>(v: seq<T>) returns (r: Result<seq<T>, ApiError>)
    ensures r.Ok? <==> (|v| / PAGE_SIZE + 1) * PAGE_SIZE < U32_LIMIT
    ensures r.Ok? ==> r.value == v
  {
    var collected, page := [], 0;
    while true
      invariant page * PAGE_SIZE <= |v| && collected == v[..page * PAGE_SIZE]
      decreases |v| - page * PAGE_SIZE
    {
      var answer := SlicePage(v, page);
      if !answer.Ok? {
        return Panic;
      }
      collected := collected + answer.value.items;
      if answer.value.next.None? {
        return Ok(collected);
      }
      page := answer.value.next.value;
    }
  }

  // ---------- The transactions of an address, scanned newest block first ----------

  predicate ContainsAddress(tx: Transaction, address: Address) {
    (exists i <- tx.inputs :: i.owner == address) || (exists o <- tx.outputs :: o.receiver == address)
  }

  /** All transactions, those of the newest block first. */
  function NewestFirst(blocks: seq<Block>): seq<Transaction> {
    if blocks == [] then [] else blocks[|blocks| - 1].txs + NewestFirst(blocks[..|blocks| - 1])
  }

  function Mentioning(txs: seq<Transaction>, address: Address): seq<Transaction> {
    if txs == [] then []
    else
      var init := Mentioning(txs[..|txs| - 1], address);
      if ContainsAddress(txs[|txs| - 1], address) then init + [txs[|txs| - 1]] else init
  }

  predicate AllHaveIds(txs: seq<Transaction>) {
    forall i | 0 <= i < |txs| :: txs[i].id.Some?
  }

  lemma {:induction false} MentioningConcat(a: seq<Transaction>, b: seq<Transaction>, address: Address)
    ensures Mentioning(a + b, address) == Mentioning(a, address) + Mentioning(b, address)
  {
    if b == [] {
      assert a + b == a;
    } else {
      MentioningConcat(a, b[..|b| - 1], address);
      assert (a + b)[..|a + b| - 1] == a + b[..|b| - 1];
    }
  }

  /** What a scan that met the transactions `met`, fewer than `end` of them, has gathered. */
  ghost predicate Gathered(met: seq<Transaction>, start: nat, end: nat, ids: seq<Hash>) {
    start <= end && AllHaveIds(SliceVec(met, start, end)) && ids == TxIds(SliceVec(met, start, end))
  }

  lemma GatherOne(met: seq<Transaction>, tx: Transaction, start: nat, end: nat, ids: seq<Hash>)
    requires |met| < end && Gathered(met, start, end, ids)
    ensures |met| < start ==> Gathered(met + [tx], start, end, ids)
    ensures |met| >= start ==> SliceVec(met + [tx], start, end) == SliceVec(met, start, end) + [tx]
    ensures |met| >= start && tx.id.Some? ==> Gathered(met + [tx], start, end, ids + [tx.id.value])
  {
    if |met| >= start {
      assert SliceVec(met + [tx], start, end) == SliceVec(met, start, end) + [tx];
    }
  }

  datatype Scan = Scan(ids: seq<Hash>, seen: nat, hasMore: bool)

  /** Scan one block. Stop at a missing id on the page, or when the page's end is reached. */
  method ScanBlock(txs: seq<Transaction>, address: Address, start: nat, end: nat, before: Scan,
                   ghost met: seq<Transaction>)
    returns (r: Result<Scan, ApiError>, ghost n: nat)
    requires before.seen == |met| < end && Gathered(met, start, end, before.ids)
    ensures !r.Panic? && n <= |txs|
    ensures var now := met + Mentioning(txs[..n], address);
      (r.Ok? ==> r.value.seen == |now| && Gathered(now, start, end, r.value.ids) && r.value.hasMore == (|now| == end)
                 && (|now| < end ==> n == |txs|) && |now| <= end) &&
      (r.Err? ==> !AllHaveIds(SliceVec(now, start, end)) && |now| <= end)
  {
    var ids, seen := before.ids, before.seen;
    assert txs[..0] == [];
    for i := 0 to |txs|
      invariant var now := met + Mentioning(txs[..i], address);
        seen == |now| < end && Gathered(now, start, end, ids)
    {
      ghost var now := met + Mentioning(txs[..i], address);
      assert txs[..i + 1][..i] == txs[..i];
      n := i + 1;
      if ContainsAddress(txs[i], address) {
        assert met + Mentioning(txs[..n], address) == now + [txs[i]];
        GatherOne(now, txs[i], start, end, ids);
        if start <= seen < end {
          if txs[i].id.None? {
            assert SliceVec(now + [txs[i]], start, end)[|SliceVec(now, start, end)|] == txs[i];
            return Err(MissingId), n;
          }
          ids := ids + [txs[i].id.value];
        }
        seen := seen + 1;
        if seen >= end {
          return Ok(Scan(ids, seen, true)), n;
        }
      }
    }
    n := |txs|;
    return Ok(Scan(ids, seen, false)), n;
  }

  lemma SlicePrefix<T>(v: seq<T>, w: seq<T>, start: nat, end: nat)
    requires start <= end <= |v|
    ensures SliceVec(v + w, start, end) == SliceVec(v, start, end)
  {
  }

  /** Scan one block of a chain, knowing what older blocks hold. */
  method ScanNext(txs: seq<Transaction>, address: Address, start: nat, end: nat, before: Scan,
                  ghost met: seq<Transaction>, ghost older: seq<Transaction>)
    returns (r: Result<Scan, ApiError>)
    requires before.seen == |met| < end && Gathered(met, start, end, before.ids)
    ensures !r.Panic?
    ensures var now, all := met + Mentioning(txs, address), met + Mentioning(txs + older, address);
      && (r.Err? ==> !AllHaveIds(SliceVec(all, start, end)))
      && (r.Ok? && r.value.hasMore ==> |all| >= end && Gathered(all, start, end, r.value.ids))
      && (r.Ok? && !r.value.hasMore ==>
            r.value.seen == |now| < end && Gathered(now, start, end, r.value.ids)
            && all == now + Mentioning(older, address))
  {
    ghost var n;
    r, n := ScanBlock(txs, address, start, end, before, met);
    ghost var now, rest := met + Mentioning(txs[..n], address), Mentioning(txs[n..] + older, address);
    SplitScan(met, txs, n, older, address);
    if r.Err? {
      SliceOfPrefixLacksId(now, rest, start, end);
    } else if r.value.hasMore {
      SlicePrefix(now, rest, start, end);
    }
  }

  lemma SplitScan(met: seq<Transaction>, txs: seq<Transaction>, n: nat, older: seq<Transaction>, address: Address)
    requires n <= |txs|
    ensures met + Mentioning(txs + older, address)
            == met + Mentioning(txs[..n], address) + Mentioning(txs[n..] + older, address)
    ensures n == |txs| ==> txs[..n] == txs && txs[n..] + older == older
  {
    assert txs + older == txs[..n] + (txs[n..] + older);
    MentioningConcat(txs[..n], txs[n..] + older, address);
  }

  lemma NextOlder(blocks: seq<Block>, h: nat)
    requires h < |blocks|
    ensures NewestFirst(blocks[..h + 1]) == blocks[h].txs + NewestFirst(blocks[..h])
  {
    assert blocks[..h + 1][..h] == blocks[..h];
  }

  lemma NoneOlder(met: seq<Transaction>, blocks: seq<Block>, address: Address)
    ensures met + Mentioning(NewestFirst(blocks[..0]), address) == met
  {
  }

  /** Scan the whole chain, newest block first, stopping early. */
  method ScanChain(blocks: seq<Block>, address: Address, start: nat, end: nat) returns (r: Result<Scan, ApiError>)
    requires start < end
    ensures !r.Panic?
    ensures var all := Mentioning(NewestFirst(blocks), address);
      && (r.Err? ==> !AllHaveIds(SliceVec(all, start, end)))
      && (r.Ok? ==> Gathered(all, start, end, r.value.ids) && (r.value.hasMore <==> |all| >= end))
  {
    var scan := Scan([], 0, false);
    var h := |blocks|;
    ghost var all := Mentioning(NewestFirst(blocks), address);
    ghost var met: seq<Transaction> := [];
    assert blocks[..h] == blocks;
    while h > 0
      invariant h <= |blocks| && all == met + Mentioning(NewestFirst(blocks[..h]), address)
      invariant scan.seen == |met| < end && Gathered(met, start, end, scan.ids) && !scan.hasMore
    {
      h := h - 1;
      NextOlder(blocks, h);
      r := ScanNext(blocks[h].txs, address, start, end, scan, met, NewestFirst(blocks[..h]));
      if r.Err? || r.value.hasMore {
        return r;
      }
      scan := r.value;
      met := met + Mentioning(blocks[h].txs, address);
    }
    NoneOlder(met, blocks, address);
    return Ok(scan);
  }

  /** The answer is page `page` of the ids of `all`, and announces another exactly when this one is full; or it is
      an error, exactly when a transaction on the page lacks its id. */
  ghost predicate AnswersPage(r: Result<Page<Hash>, ApiError>, all: seq<Transaction>, page: nat) {
    var window := SliceVec(all, page * PAGE_SIZE, (page + 1) * PAGE_SIZE);
    && !r.Panic?
    && (r.Ok? <==> AllHaveIds(window))
    && (r.Ok? ==> r.value.items == TxIds(window))
    && (r.Ok? ==> r.value.next == if |all| >= (page + 1) * PAGE_SIZE then Some(page + 1) else None)
  }

  /** The scan with its early exit answers the page that filtering the whole chain and slicing gives. A next page is
      announced exactly when the page is filled, also when nothing is left for it. */
  method TransactionsOfAddress(blocks: seq<Block>, address: Address, page: nat)
    returns (r: Result<Page<Hash>, ApiError>)
    ensures r.Panic? <==> page * PAGE_SIZE >= U32_LIMIT
    ensures !r.Panic? ==> AnswersPage(r, Mentioning(NewestFirst(blocks), address), page)
  {
    if page * PAGE_SIZE >= U32_LIMIT {
      return Panic;
    }
    var start := page * PAGE_SIZE;
    var scan := ScanChain(blocks, address, start, start + PAGE_SIZE);
    if scan.Err? {
      return Err(scan.error);
    }
    return Ok(Page(scan.value.ids, if scan.value.hasMore then Some(page + 1) else None));
  }

  lemma SliceOfPrefixLacksId(now: seq<Transaction>, rest: seq<Transaction>, start: nat, end: nat)
    requires start <= end && |now| <= end && !AllHaveIds(SliceVec(now, start, end))
    ensures !AllHaveIds(SliceVec(now + rest, start, end))
  {
    var i :| 0 <= i < |SliceVec(now, start, end)| && SliceVec(now, start, end)[i].id.None?;
    assert SliceVec(now + rest, start, end)[i] == SliceVec(now, start, end)[i];
  }

  /** How many of `n` transactions a client that stops after `maxPages` pages asks for; it always asks for one page. */
  function Asked(n: nat, maxPages: Option<nat>): nat {
    if maxPages.None? then n
    else
      var limit := (if maxPages.value == 0 then 1 else maxPages.value) * PAGE_SIZE;
      if n < limit then n else limit
  }

  /** A limit of so many pages asks for no more than these, one at least, and for all that is on them. */
  lemma AskedPages(n: nat, maxPages: Option<nat>, k: nat)
    ensures k < Asked(n, maxPages) <==>
      k < n && match maxPages case None => true case Some(pages) => k / PAGE_SIZE < pages || k < PAGE_SIZE
  {
  }

  /** The client's loop gathers the ids of all transactions of the address once, newest block first, up to the
      page limit. It fails only on a missing id among those, or past four billion transactions. */
  method GetTransactionsOfAddress(blocks: seq<Block>, address: Address, maxPages: Option<nat>)
    returns (r: Result<seq<Hash>, ApiError>)
    ensures var all := Mentioning(NewestFirst(blocks), address);
      var asked := all[..Asked(|all|, maxPages)];
      && (|asked| < U32_LIMIT ==> !r.Panic?)
      && (!r.Panic? ==> (r.Ok? <==> AllHaveIds(asked)))
      && (r.Ok? ==> r.value == TxIds(asked))
  {
    var ids, page := [], 0;
    ghost var all := Mentioning(NewestFirst(blocks), address);
    ghost var asked := Asked(|all|, maxPages);
    while true
      invariant page * PAGE_SIZE <= asked && (maxPages.Some? && page > 0 ==> page < maxPages.value)
      invariant AllHaveIds(all[..page * PAGE_SIZE]) && ids == TxIds(all[..page * PAGE_SIZE])
      decreases |all| - page * PAGE_SIZE
    {
      var answer := TransactionsOfAddress(blocks, address, page);
      if answer.Panic? {
        return Panic;
      }
      ghost var window := SliceVec(all, page * PAGE_SIZE, (page + 1) * PAGE_SIZE);
      ghost var done := all[..page * PAGE_SIZE] + window;
      assert done == all[..|done|] && |done| <= asked;
      if answer.Err? {
        LacksId(all, window, page * PAGE_SIZE, asked);
        return Err(answer.error);
      }
      ids := ids + answer.value.items;
      assert AllHaveIds(done) && ids == TxIds(done);
      if answer.value.next.None? {
        assert done == all[..asked];
        return Ok(ids);
      }
      if maxPages.Some? && answer.value.next.value >= maxPages.value {
        assert done == all[..asked];
        return Ok(ids);
      }
      page := answer.value.next.value;
      assert done == all[..page * PAGE_SIZE];
    }
  }

  lemma LacksId(all: seq<Transaction>, window: seq<Transaction>, start: nat, asked: nat)
    requires start + |window| <= asked <= |all| && window == all[start..start + |window|]
    requires !AllHaveIds(window)
    ensures !AllHaveIds(all[..asked])
  {
    var i :| 0 <= i < |window| && window[i].id.None?;
    assert all[..asked][start + i] == window[i];
  }

  // ---------- What the filtered chain is ----------

  lemma {:induction false} MentioningMembers(txs: seq<Transaction>, address: Address)
    ensures forall tx :: tx in Mentioning(txs, address) <==> tx in txs && ContainsAddress(tx, address)
  {
    if txs != [] {
      MentioningMembers(txs[..|txs| - 1], address);
      assert txs == txs[..|txs| - 1] + [txs[|txs| - 1]];
    }
  }

  /** The list that is paged holds the address's transactions of the chain, and those of newer blocks come first. */
  lemma PagedHistory(blocks: seq<Block>, address: Address, h: nat)
    requires h <= |blocks|
    ensures Mentioning(NewestFirst(blocks), address)
            == Mentioning(NewestFirst(blocks[h..]), address) + Mentioning(NewestFirst(blocks[..h]), address)
    ensures forall tx ::
      tx in Mentioning(NewestFirst(blocks), address) <==>
      (ContainsAddress(tx, address) && exists b <- blocks :: tx in b.txs)
  {
    NewestFirstSplits(blocks, h);
    MentioningConcat(NewestFirst(blocks[h..]), NewestFirst(blocks[..h]), address);
    MentioningMembers(NewestFirst(blocks), address);
    NewestFirstMembers(blocks);
  }

  lemma WithoutLast<T>(s: seq<T>, h: nat)
    requires h < |s|
    ensures s[..|s| - 1][h..] == s[h..][..|s| - h - 1] && s[..|s| - 1][..h] == s[..h]
  {
  }

  lemma {:induction false} NewestFirstSplits(blocks: seq<Block>, h: nat)
    requires h <= |blocks|
    ensures NewestFirst(blocks) == NewestFirst(blocks[h..]) + NewestFirst(blocks[..h])
    decreases |blocks|
  {
    if h == |blocks| {
      assert blocks[..h] == blocks && blocks[h..] == [];
    } else {
      var init := blocks[..|blocks| - 1];
      NewestFirstSplits(init, h);
      WithoutLast(blocks, h);
    }
  }

  lemma {:induction false} NewestFirstMembers(blocks: seq<Block>)
    ensures forall tx :: tx in NewestFirst(blocks) <==> exists b <- blocks :: tx in b.txs
  {
    if blocks != [] {
      var init, last := blocks[..|blocks| - 1], blocks[|blocks| - 1];
      NewestFirstMembers(init);
      assert blocks == init + [last];
    }
  }
}
