/** Which candidate src/kernel.cpp selects, in the hashes alone: what "proof-of-stake block is
    always favored over proof-of-work block" comes to, and exactly when it is so. */
module StakeFavour {
  import opened Kernel

  const TWO32: nat := 0x1_0000_0000
  const TWO224: nat := TWO32 * TWO32 * TWO32 * TWO32 * TWO32 * TWO32 * TWO32

  /** The candidates of a round: `hash` is the hash of a proof and the previous modifier. */
  datatype Round = Round(hash: (nat, nat) -> nat, previous: nat, upgradeHeight: nat, items: seq<Item>,
                         index: map<nat, Block>, selected: set<nat>, stop: int)
  {
    predicate Valid() {
      Indexed(items, index) && Keyed(index)
    }

    predicate Waits(i: int) {
      0 <= i < |items| && items[i].hash !in selected && items[i].nTime <= stop
    }

    predicate Stake(i: int)
      requires Valid()
    {
      Waits(i) && index[items[i].hash].fProofOfStake
    }

    predicate Work(i: int)
      requires Valid()
    {
      Waits(i) && !index[items[i].hash].fProofOfStake
    }

    /** The first candidate is at the height from which the new calculation is used. */
    predicate New()
      requires Valid()
    {
      items != [] && index[items[0].hash].nHeight >= upgradeHeight
    }

    predicate Picks(k: nat)
      requires Valid()
    {
      Waits(k) && IsPick(RuleFor(hash, previous, upgradeHeight, items, index), items, index, selected, stop, k)
    }

    /** The hash with the block's own hash as its proof. */
    function Own(i: int): nat
      requires Waits(i)
    {
      hash(items[i].hash, previous)
    }
  }

  lemma HashIs(r: Round, i: nat)
    requires r.Valid() && r.Waits(i)
    ensures var h := HashAt(RuleFor(r.hash, r.previous, r.upgradeHeight, r.items, r.index), r.items, r.index, i);
            && (r.Work(i) ==> h == r.Own(i))
            && (r.Stake(i) && r.New() ==> h == r.Own(i) / TWO32)
            && (r.Stake(i) && !r.New() ==> h == r.hash(0, r.previous) / TWO32)
  {
  }

  /** What a waiting proof-of-stake candidate is compared by. */
  function Quotient(r: Round, i: int): nat
    requires r.Valid() && r.Stake(i)
  {
    (if r.New() then r.Own(i) else r.hash(0, r.previous)) / TWO32
  }

  /** A proof-of-stake candidate is picked if and only if one of them has a hash whose quotient
      by 2^32 is below the hash of every proof-of-work candidate, or equal to it and earlier. */
  lemma StakePicked(r: Round, k: nat)
    requires r.Valid() && r.Picks(k)
    ensures r.Stake(k) <==>
            exists j :: 0 <= j < |r.items| && r.Stake(j) && forall i :: 0 <= i < |r.items| && r.Work(i) ==>
              Quotient(r, j) < r.Own(i) || (Quotient(r, j) == r.Own(i) && j < i)
  {
    hide HashAt, RuleFor;
    forall i | 0 <= i < |r.items| && r.Waits(i)
      ensures HashAt(RuleFor(r.hash, r.previous, r.upgradeHeight, r.items, r.index), r.items, r.index, i)
           == if r.Stake(i) then Quotient(r, i) else r.Own(i)
    {
      HashIs(r, i);
    }
  }

  /** So proof-of-stake is favoured as long as no proof-of-work candidate hashes to less than 2^224. */
  lemma StakeFavoured(r: Round, k: nat, j: nat)
    requires r.Valid() && r.Picks(k) && r.Stake(j)
    requires forall proof: nat :: r.hash(proof, r.previous) < TWO224 * TWO32
    requires forall i :: 0 <= i < |r.items| && r.Work(i) ==> r.Own(i) >= TWO224
    ensures r.Stake(k)
  {
    StakePicked(r, k);
    var h := if r.New() then r.Own(j) else r.hash(0, r.previous);
    assert h < TWO224 * TWO32;
    assert h / TWO32 < TWO224;
  }

  /** Among proof-of-work candidates the least hash wins, and the first that has it. */
  lemma WorkLeast(r: Round, k: nat, j: nat)
    requires r.Valid() && r.Picks(k) && r.Work(k) && r.Work(j)
    ensures r.Own(k) <= r.Own(j) && (j < k ==> r.Own(k) < r.Own(j))
  {
    HashIs(r, k);
    HashIs(r, j);
    hide HashAt, RuleFor;
  }

  /** Among proof-of-stake candidates the least quotient wins under the new calculation, and the
      first that has it; under the old one they all tie, and the first of them wins. */
  lemma StakeLeast(r: Round, k: nat, j: nat)
    requires r.Valid() && r.Picks(k) && r.Stake(k) && r.Stake(j)
    ensures r.New() ==> r.Own(k) / TWO32 <= r.Own(j) / TWO32 && (j < k ==> r.Own(k) / TWO32 < r.Own(j) / TWO32)
    ensures !r.New() ==> k <= j
  {
    HashIs(r, k);
    HashIs(r, j);
    hide HashAt, RuleFor;
  }

  /** It is not always favoured: a proof-of-work block that hashes to 1 is picked before a
      proof-of-stake block that hashes to 2^34. */
  lemma NotAlways(hash: (nat, nat) -> nat, previous: nat, k: nat)
    requires hash(8, previous) == 1 && hash(9, previous) == 0x4_0000_0000
    ensures var index := map[8 := Block(8, 0, 0, false, true, 0), 9 := Block(9, 0, 1, true, false, 0)];
            var r := Round(hash, previous, 0, [Item(0, 8), Item(0, 9)], index, {}, 0);
            r.Valid() && r.Work(0) && r.Stake(1) && (r.Picks(k) <==> k == 0)
  {
    var index := map[8 := Block(8, 0, 0, false, true, 0), 9 := Block(9, 0, 1, true, false, 0)];
    var r := Round(hash, previous, 0, [Item(0, 8), Item(0, 9)], index, {}, 0);
    HashIs(r, 0);
    HashIs(r, 1);
    hide HashAt, RuleFor;
  }
}
