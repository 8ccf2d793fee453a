/** The address inclusion filter of a block: a Bloom filter over the addresses of its transactions
    (src/crypto/address_inclusion_filter.rs). */
module Filter {
  import opened Base
  import opened Types
  import opened Paging

  /** The `i`-th hash of an address. */
  type AddressHash = (Address, nat) -> U64

  predicate BitOf(byte: bv8, j: nat)
    requires j < 8
  {
    byte & ((1 as bv8) << j) != 0
  }

  lemma OrSetsBit(byte: bv8, j: nat, k: nat)
    requires j < 8 && k < 8
    ensures BitOf(byte | ((1 as bv8) << j), k) <==> BitOf(byte, k) || j == k
  {
    var b: bv8 := (1 as bv8) << j;
    if j == 0 { assert b == 1; } else if j == 1 { assert b == 2; } else if j == 2 { assert b == 4; }
    else if j == 3 { assert b == 8; } else if j == 4 { assert b == 16; } else if j == 5 { assert b == 32; }
    else if j == 6 { assert b == 64; } else { assert b == 128; }
  }

  /** Where an address leaves its marks in a filter of `numBits` bits. */
  ghost function Positions(hash: AddressHash, numBits: nat, numHashes: nat, address: Address): set<nat>
    requires numBits > 0
  {
    set i: nat | i < numHashes :: hash(address, i) % numBits
  }

  /** All addresses of a list of transactions, in the order they are inserted. */
  function Addresses(txs: seq<Transaction>): seq<Address> {
    if txs == [] then [] else Addresses(txs[..|txs| - 1]) + AddressesOf(txs[|txs| - 1])
  }

  function AddressesOf(tx: Transaction): seq<Address> {
    Owners(tx.inputs) + Receivers(tx.outputs)
  }

  function Owners(inputs: seq<Input>): seq<Address> {
    seq(|inputs|, i requires 0 <= i < |inputs| => inputs[i].owner)
  }

  function Receivers(outputs: seq<Output>): seq<Address> {
    seq(|outputs|, i requires 0 <= i < |outputs| => outputs[i].receiver)
  }

  lemma OneMoreOwner(before: seq<Address>, inputs: seq<Input>, i: nat)
    requires i < |inputs|
    ensures before + Owners(inputs[..i]) + [inputs[i].owner] == before + Owners(inputs[..i + 1])
  {
  }

  lemma OneMoreReceiver(before: seq<Address>, outputs: seq<Output>, i: nat)
    requires i < |outputs|
    ensures before + Receivers(outputs[..i]) + [outputs[i].receiver] == before + Receivers(outputs[..i + 1])
  {
  }

  lemma AllOwners(before: seq<Address>, tx: Transaction)
    ensures before + Owners(tx.inputs[..|tx.inputs|]) == before + Owners(tx.inputs) + Receivers(tx.outputs[..0])
  {
    assert tx.inputs[..|tx.inputs|] == tx.inputs;
  }

  lemma AllReceivers(before: seq<Address>, tx: Transaction)
    ensures before + Owners(tx.inputs) + Receivers(tx.outputs[..|tx.outputs|]) == before + AddressesOf(tx)
  {
    assert tx.outputs[..|tx.outputs|] == tx.outputs;
  }

  lemma {:induction false} AddressesMembers(txs: seq<Transaction>, address: Address)
    ensures address in Addresses(txs) <==> exists tx <- txs :: ContainsAddress(tx, address)
  {
    if txs != [] {
      var init, last := txs[..|txs| - 1], txs[|txs| - 1];
      AddressesMembers(init, address);
      assert txs == init + [last];
      AddressOfMembers(last, address);
    }
  }

  lemma AddressOfMembers(tx: Transaction, address: Address)
    ensures address in AddressesOf(tx) <==> ContainsAddress(tx, address)
  {
    forall i | 0 <= i < |tx.inputs| ensures AddressesOf(tx)[i] == tx.inputs[i].owner {}
    forall i | 0 <= i < |tx.outputs| ensures AddressesOf(tx)[|tx.inputs| + i] == tx.outputs[i].receiver {}
  }

  ghost function Marks(hash: AddressHash, numBits: nat, numHashes: nat, addresses: seq<Address>): set<nat>
    requires numBits > 0
  {
    if addresses == [] then {}
    else Marks(hash, numBits, numHashes, addresses[..|addresses| - 1])
         + Positions(hash, numBits, numHashes, addresses[|addresses| - 1])
  }

  lemma {:induction false} MarksContain(hash: AddressHash, numBits: nat, numHashes: nat, addresses: seq<Address>)
    requires numBits > 0
    ensures forall b ::
      b in Marks(hash, numBits, numHashes, addresses) <==>
      (exists a <- addresses :: b in Positions(hash, numBits, numHashes, a))
  {
    if addresses != [] {
      MarksContain(hash, numBits, numHashes, addresses[..|addresses| - 1]);
      assert addresses == addresses[..|addresses| - 1] + [addresses[|addresses| - 1]];
    }
  }

  class AddressInclusionFilter {
    const bits: array<bv8>
    const numBits: nat
    const numHashes: nat
    const hash: AddressHash

    ghost predicate Valid()
      reads this
    {
      bits.Length == (numBits + 7) / 8
    }

    /** The bits that are set, by number. */
    ghost function Marked(): set<nat>
      reads this, bits
      requires Valid()
    {
      set b: nat | b < numBits && BitOf(bits[b / 8], b % 8)
    }

    constructor (numBits: nat, numHashes: nat, hash: AddressHash)
      ensures Valid() && fresh(bits) && Marked() == {}
      ensures this.numBits == numBits && this.numHashes == numHashes && this.hash == hash
    {
      this.numBits := numBits;
      this.numHashes := numHashes;
      this.hash := hash;
      bits := new bv8[(numBits + 7) / 8](_ => 0);
    }

    method SetBit(bit: nat)
      requires Valid() && bit < numBits
      modifies bits
      ensures Marked() == old(Marked()) + {bit}
    {
      ghost var was := bits[..];
      bits[bit / 8] := bits[bit / 8] | ((1 as bv8) << (bit % 8));
      forall b: nat | b < numBits ensures BitOf(bits[b / 8], b % 8) <==> BitOf(was[b / 8], b % 8) || b == bit {
        if b / 8 == bit / 8 {
          OrSetsBit(was[b / 8], bit % 8, b % 8);
        }
      }
    }

    method Insert(address: Address)
      requires Valid()
      modifies bits
      ensures numBits == 0 ==> Marked() == old(Marked())
      ensures numBits > 0 ==> Marked() == old(Marked()) + Positions(hash, numBits, numHashes, address)
    {
      if numBits == 0 {
        return;
      }
      for i := 0 to numHashes
        invariant Marked() == old(Marked()) + Positions(hash, numBits, i, address)
      {
        SetBit(hash(address, i) % numBits);
      }
    }

    /** Found exactly if every position of the address is marked; never in an empty filter. */
    method Contains(address: Address) returns (found: bool)
      requires Valid()
      ensures found <==> numBits > 0 && Positions(hash, numBits, numHashes, address) <= Marked()
    {
      if numBits == 0 {
        return false;
      }
      for i := 0 to numHashes
        invariant Positions(hash, numBits, i, address) <= Marked()
      {
        var bit := hash(address, i) % numBits;
        if bits[bit / 8] & ((1 as bv8) << (bit % 8)) == 0 {
          assert bit in Positions(hash, numBits, numHashes, address) && bit !in Marked();
          return false;
        }
      }
      return true;
    }

    /** The marks are those of these addresses. */
    ghost predicate Holds(addresses: seq<Address>)
      reads this, bits
      requires Valid() && numBits > 0
    {
      Marked() == Marks(hash, numBits, numHashes, addresses)
    }

    method InsertNext(address: Address, ghost before: seq<Address>)
      requires Valid() && numBits > 0 && Holds(before)
      modifies bits
      ensures Holds(before + [address])
    {
      Insert(address);
      assert (before + [address])[..|before|] == before;
    }

    method InsertTransaction(tx: Transaction, ghost before: seq<Address>)
      requires Valid() && numBits > 0 && Holds(before)
      modifies bits
      ensures Holds(before + AddressesOf(tx))
    {
      ghost var now := before;
      assert before == before + Owners(tx.inputs[..0]);
      for i := 0 to |tx.inputs|
        invariant Holds(now) && now == before + Owners(tx.inputs[..i])
      {
        OneMoreOwner(before, tx.inputs, i);
        InsertNext(tx.inputs[i].owner, now);
        now := now + [tx.inputs[i].owner];
      }
      AllOwners(before, tx);
      for i := 0 to |tx.outputs|
        invariant Holds(now) && now == before + Owners(tx.inputs) + Receivers(tx.outputs[..i])
      {
        OneMoreReceiver(before + Owners(tx.inputs), tx.outputs, i);
        InsertNext(tx.outputs[i].receiver, now);
        now := now + [tx.outputs[i].receiver];
      }
      AllReceivers(before, tx);
    }
  }

  function AddressCount(txs: seq<Transaction>): nat {
    if txs == [] then 0
    else AddressCount(txs[..|txs| - 1]) + |txs[|txs| - 1].inputs| + |txs[|txs| - 1].outputs|
  }

  lemma {:induction false} CountsAddresses(txs: seq<Transaction>)
    ensures AddressCount(txs) == |Addresses(txs)|
  {
    if txs != [] {
      CountsAddresses(txs[..|txs| - 1]);
    }
  }

  /** The marks of a filter are those of the addresses it was made of, no more. The size and the number of hashes
      are arguments, the source computes them from the number of addresses in floating point. */
  method CreateFilter(txs: seq<Transaction>, numBits: nat, numHashes: nat, hash: AddressHash)
    returns (filter: AddressInclusionFilter)
    requires numBits > 0
    ensures filter.Valid() && fresh(filter) && fresh(filter.bits) && filter.hash == hash
    ensures filter.numBits == if Addresses(txs) == [] then 0 else numBits
    ensures Addresses(txs) != [] ==> filter.numHashes == numHashes
    ensures Addresses(txs) != [] ==> filter.Marked() == Marks(hash, numBits, numHashes, Addresses(txs))
  {
    CountsAddresses(txs);
    if AddressCount(txs) == 0 {
      filter := new AddressInclusionFilter(0, 0, hash);
      return;
    }
    filter := new AddressInclusionFilter(numBits, numHashes, hash);
    for i := 0 to |txs|
      invariant filter.Holds(Addresses(txs[..i]))
    {
      assert txs[..i + 1][..i] == txs[..i];
      filter.InsertTransaction(txs[i], Addresses(txs[..i]));
    }
    assert txs[..|txs|] == txs;
  }

  /** Another address, or this one, of the list marks the `i`-th position of `address`. */
  ghost predicate Covered(hash: AddressHash, numBits: nat, numHashes: nat, addresses: seq<Address>, address: Address,
                          i: nat)
    requires numBits > 0
  {
    exists a <- addresses :: hash(address, i) % numBits in Positions(hash, numBits, numHashes, a)
  }

  /** No false negatives, whatever the size and the hash; and an address is found by mistake only if others cover all
      its positions. */
  lemma WhatIsFound(hash: AddressHash, numBits: nat, numHashes: nat, addresses: seq<Address>, address: Address)
    requires numBits > 0
    ensures address in addresses ==>
      Positions(hash, numBits, numHashes, address) <= Marks(hash, numBits, numHashes, addresses)
    ensures Positions(hash, numBits, numHashes, address) <= Marks(hash, numBits, numHashes, addresses) <==>
      (forall i: nat | i < numHashes :: Covered(hash, numBits, numHashes, addresses, address, i))
  {
    MarksContain(hash, numBits, numHashes, addresses);
    var marks, own := Marks(hash, numBits, numHashes, addresses), Positions(hash, numBits, numHashes, address);
    forall i: nat | i < numHashes
      ensures Covered(hash, numBits, numHashes, addresses, address, i) <==> hash(address, i) % numBits in marks
      ensures hash(address, i) % numBits in own
    {
    }
    if forall i: nat | i < numHashes :: Covered(hash, numBits, numHashes, addresses, address, i) {
      forall b | b in own ensures b in marks {
        var i: nat :| i < numHashes && hash(address, i) % numBits == b;
        assert Covered(hash, numBits, numHashes, addresses, address, i);
      }
    }
  }

  /** `create_filter`, then `search_filter`. */
  method SearchBlock(txs: seq<Transaction>, numBits: nat, numHashes: nat, hash: AddressHash, address: Address)
    returns (found: bool)
    requires numBits > 0
    ensures (exists tx <- txs :: ContainsAddress(tx, address)) ==> found
    ensures found <==> (Addresses(txs) != [] &&
      forall i: nat | i < numHashes :: Covered(hash, numBits, numHashes, Addresses(txs), address, i))
  {
    var filter := CreateFilter(txs, numBits, numHashes, hash);
    found := filter.Contains(address);
    AddressesMembers(txs, address);
    WhatIsFound(hash, numBits, numHashes, Addresses(txs), address);
  }
}
