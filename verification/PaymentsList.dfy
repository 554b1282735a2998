/** CMasternodePayments as an object, and the loops over the tally of a block. */
module PaymentsList {
  import opened Payments

  method AddPayee(vec: seq<Payee>, payeeIn: Script, nIncrement: int) returns (r: seq<Payee>)
    ensures r == WithVote(vec, payeeIn, nIncrement)
  {
    for i := 0 to |vec|
      invariant forall j :: 0 <= j < i ==> vec[j].script != payeeIn
    {
      if vec[i].script == payeeIn {
        return vec[i := vec[i].(nVotes := vec[i].nVotes + nIncrement)];
      }
    }
    r := vec + [Payee(payeeIn, nIncrement)];
  }

  /** Payee `i` has more votes than those before it, and none after it has more. */
  predicate IsTop(vec: seq<Payee>, payee: Script, i: nat) {
    && i < |vec| && payee == vec[i].script
    && (forall j :: 0 <= j < |vec| ==> vec[j].nVotes <= vec[i].nVotes && (j < i ==> vec[j].nVotes < vec[i].nVotes))
  }

  /** The first payee with the most votes; when every payee has votes there is one unless the
      tally is empty. */
  method GetPayee(vec: seq<Payee>) returns (found: bool, payee: Script)
    ensures found <==> exists i :: 0 <= i < |vec| && vec[i].nVotes >= 0
    ensures found ==> exists i :: IsTop(vec, payee, i)
  {
    var nVotes := -1;
    payee := 0;
    ghost var best: nat := 0;
    for i := 0 to |vec|
      invariant nVotes >= -1 && (forall j :: 0 <= j < i ==> vec[j].nVotes <= nVotes)
      invariant nVotes > -1 ==>
        && 0 <= best < i && payee == vec[best].script && nVotes == vec[best].nVotes
        && (forall j :: 0 <= j < best ==> vec[j].nVotes < nVotes)
    {
      if vec[i].nVotes > nVotes {
        payee, nVotes, best := vec[i].script, vec[i].nVotes, i;
      }
    }
    found := nVotes > -1;
    if found { assert IsTop(vec, payee, best); }
  }

  method HasPayeeWithVotes(vec: seq<Payee>, payee: Script, nVotesReq: int) returns (has: bool)
    ensures has <==> exists i :: 0 <= i < |vec| && vec[i].script == payee && vec[i].nVotes >= nVotesReq
  {
    for i := 0 to |vec|
      invariant forall j :: 0 <= j < i ==> !(vec[j].script == payee && vec[j].nVotes >= nVotesReq)
    {
      if vec[i].nVotes >= nVotesReq && vec[i].script == payee { return true; }
    }
    has := false;
  }

  /** CMasternodeBlockPayees::IsTransactionValid. */
  method IsPaymentValid(vec: seq<Payee>, outs: seq<Out>, required: int) returns (valid: bool)
    ensures valid <==> Accepts(vec, outs, required)
  {
    var nMaxSignatures: int := 0;
    for i := 0 to |vec|
      invariant nMaxSignatures >= SIGNATURES_REQUIRED || nMaxSignatures == 0
      invariant nMaxSignatures >= SIGNATURES_REQUIRED <==>
                exists j :: 0 <= j < i && vec[j].nVotes >= SIGNATURES_REQUIRED
    {
      if vec[i].nVotes >= nMaxSignatures && vec[i].nVotes >= SIGNATURES_REQUIRED {
        nMaxSignatures := vec[i].nVotes;
      }
    }
    if nMaxSignatures < SIGNATURES_REQUIRED { return true; }
    for i := 0 to |vec|
      invariant forall j :: 0 <= j < i && vec[j].nVotes >= SIGNATURES_REQUIRED ==> !Paid(outs, vec[j].script, required)
    {
      var found := false;
      for o := 0 to |outs|
        invariant found <==> exists j :: 0 <= j < o && outs[j].script == vec[i].script && outs[j].nValue >= required
      {
        if vec[i].script == outs[o].script {
          if outs[o].nValue >= required { found := true; }
        }
      }
      if vec[i].nVotes >= SIGNATURES_REQUIRED {
        if found { return true; }
      }
    }
    valid := false;
  }

  class CMasternodePayments {
    var mapMasternodePayeeVotes: map<nat, Winner>
    var mapMasternodeBlocks: map<int, BlockPayees>
    const hash: Hash

    function S(): State
      reads this
    {
      State(mapMasternodePayeeVotes, mapMasternodeBlocks)
    }

    constructor (hash: Hash)
      ensures this.hash == hash && S() == EMPTY
    {
      this.hash := hash;
      mapMasternodePayeeVotes, mapMasternodeBlocks := map[], map[];
    }

    method Clear()
      modifies this
      ensures S() == EMPTY
    {
      mapMasternodeBlocks := map[];
      mapMasternodePayeeVotes := map[];
    }

    /** `known`: the hash of the block a hundred below is found. */
    method AddWinningMasternode(winner: Winner, known: bool) returns (added: bool)
      requires Inv(hash, S())
      modifies this
      ensures (S(), added) == Add(hash, old(S()), winner, known)
      ensures Inv(hash, S())
      ensures added <==> known && hash(winner) !in old(S().votes)
      ensures forall h: int, p: Script ::
                Tally(S().votes, h, p)
                    == old(Tally(S().votes, h, p))
                       + if added && h == winner.nBlockHeight && p == winner.payee then 1 else 0
    {
      hide Inv, WithVote, Tally;
      forall h: int, p: Script
        ensures Tally(Add(hash, S(), winner, known).0.votes, h, p)
             == Tally(S().votes, h, p)
                + if Add(hash, S(), winner, known).1 && h == winner.nBlockHeight && p == winner.payee then 1 else 0
      {
        AddOutcome(hash, S(), winner, known, h, p);
      }
      AddKeeps(hash, S(), winner, known);
      if !known { return false; }
      if hash(winner) in mapMasternodePayeeVotes { return false; }
      mapMasternodePayeeVotes := mapMasternodePayeeVotes[hash(winner) := winner];
      var h := winner.nBlockHeight;
      if h !in mapMasternodeBlocks {
        mapMasternodeBlocks := mapMasternodeBlocks[h := BlockPayees(h, [])];
      }
      var b := mapMasternodeBlocks[h];
      var vec := AddPayee(b.vecPayments, winner.payee, 1);
      mapMasternodeBlocks := mapMasternodeBlocks[h := b.(vecPayments := vec)];
      assert mapMasternodeBlocks == Add(hash, old(S()), winner, known).0.blocks;
      added := true;
    }

    /** `tip` is the height of the active chain; the code returns at once when it cannot be
        had, and `nLimit` is the larger of 1000 and five quarters of the masternodes. */
    method CleanPaymentList(hasTip: bool, tip: int, nLimit: int)
      requires Inv(hash, S())
      modifies this
      ensures S() == if hasTip then Clean(old(S()), tip, nLimit) else old(S())
      ensures Inv(hash, S())
      ensures hasTip ==>
                forall k :: k in S().votes <==> k in old(S().votes) && old(S().votes[k].nBlockHeight) >= tip - nLimit
      ensures hasTip ==>
                forall h: int, p: Script ::
                  Tally(S().votes, h, p) == if tip - h <= nLimit then old(Tally(S().votes, h, p)) else 0
    {
      hide Inv, Tally;
      if !hasTip { return; }
      CleanKeeps(hash, S(), tip, nLimit);
      CleanOutcome(S(), tip, nLimit);
      hide Cleaning;
      ghost var votes, blocks := mapMasternodePayeeVotes, mapMasternodeBlocks;
      var left := mapMasternodePayeeVotes.Keys;
      CleaningStarts(S(), tip, nLimit);
      while left != {}
        invariant left <= mapMasternodePayeeVotes.Keys
        invariant Cleaning(State(votes, blocks), left, S(), tip, nLimit)
        decreases |left|
      {
        var it :| it in left;
        var winner := mapMasternodePayeeVotes[it];
        CleaningNext(State(votes, blocks), left, S(), tip, nLimit, it);
        left := left - {it};
        if tip - winner.nBlockHeight > nLimit {
          mapMasternodePayeeVotes := mapMasternodePayeeVotes - {it};
          mapMasternodeBlocks := mapMasternodeBlocks - {winner.nBlockHeight};
        }
      }
      CleaningEnds(State(votes, blocks), S(), tip, nLimit);
    }

    method IsTransactionValid(outs: seq<Out>, nBlockHeight: int, required: int) returns (valid: bool)
      requires Inv(hash, S())
      ensures valid <==>
                || (forall p: Script :: Tally(mapMasternodePayeeVotes, nBlockHeight, p) < 6)
                || (exists i :: 0 <= i < |outs| && Tally(mapMasternodePayeeVotes, nBlockHeight, outs[i].script) >= 6
                                && outs[i].nValue >= required)
    {
      hide Inv, Accepts, Paid, Tally;
      ValidIff(hash, mapMasternodePayeeVotes, mapMasternodeBlocks, nBlockHeight, outs, required);
      if nBlockHeight in mapMasternodeBlocks {
        valid := IsPaymentValid(mapMasternodeBlocks[nBlockHeight].vecPayments, outs, required);
      } else {
        valid := true;
      }
    }

    /** The payee with the most recorded votes; there is one when any vote is recorded. */
    method GetBlockPayee(nBlockHeight: int) returns (found: bool, payee: Script)
      requires Inv(hash, S())
      ensures found <==> HasVote(S().votes, nBlockHeight)
      ensures found ==> forall p: Script :: Tally(S().votes, nBlockHeight, p) <= Tally(S().votes, nBlockHeight, payee)
    {
      hide Tally, HasVote;
      found, payee := false, 0;
      TrackedIff(hash, S(), nBlockHeight);
      if nBlockHeight in mapMasternodeBlocks {
        var vec := mapMasternodeBlocks[nBlockHeight].vecPayments;
        found, payee := GetPayee(vec);
        assert vec[0].nVotes >= 0;
        MostVotes(hash, S(), nBlockHeight, payee);
      }
    }
  }

  lemma ValidIff(hash: Hash, votes: map<nat, Winner>, blocks: map<int, BlockPayees>, h: int, outs: seq<Out>,
                 required: int)
    requires Inv(hash, State(votes, blocks))
    ensures (h in blocks ==> Accepts(blocks[h].vecPayments, outs, required)) <==>
              || (forall p: Script :: Tally(votes, h, p) < 6)
              || (exists i :: 0 <= i < |outs| && Tally(votes, h, outs[i].script) >= 6 && outs[i].nValue >= required)
  {
    hide Inv, Accepts, Tally;
    AcceptedIff(hash, State(votes, blocks), h, outs, required);
  }

  predicate Dropped(votes: map<nat, Winner>, k: nat, h: int, tip: int, nLimit: int) {
    k in votes && votes[k].nBlockHeight == h && TooOld(tip, nLimit, h)
  }

  /** `now` is `s` cleaned of what the votes outside `left` drop. */
  ghost predicate Cleaning(s: State, left: set<nat>, now: State, tip: int, nLimit: int) {
    && (forall k :: k in now.votes <==> k in s.votes && (k in left || !TooOld(tip, nLimit, s.votes[k].nBlockHeight)))
    && (forall k :: k in now.votes ==> now.votes[k] == s.votes[k])
    && (forall h :: h in now.blocks <==>
          h in s.blocks && !(exists k :: k in s.votes && k !in left && Dropped(s.votes, k, h, tip, nLimit)))
    && (forall h :: h in now.blocks ==> now.blocks[h] == s.blocks[h])
  }

  lemma CleaningStarts(s: State, tip: int, nLimit: int)
    ensures Cleaning(s, s.votes.Keys, s, tip, nLimit)
  {
  }

  lemma CleaningNext(s: State, left: set<nat>, now: State, tip: int, nLimit: int, it: nat)
    requires Cleaning(s, left, now, tip, nLimit) && it in left && it in now.votes
    ensures var h := now.votes[it].nBlockHeight;
            if TooOld(tip, nLimit, h) then
              Cleaning(s, left - {it}, State(now.votes - {it}, now.blocks - {h}), tip, nLimit)
            else Cleaning(s, left - {it}, now, tip, nLimit)
  {
    var h := now.votes[it].nBlockHeight;
    if TooOld(tip, nLimit, h) { assert Dropped(s.votes, it, h, tip, nLimit); }
  }

  lemma CleaningEnds(s: State, now: State, tip: int, nLimit: int)
    requires Cleaning(s, {}, now, tip, nLimit)
    ensures now == Clean(s, tip, nLimit)
  {
    var t := Clean(s, tip, nLimit);
    forall h ensures h in now.blocks <==> h in t.blocks {
      if h in s.blocks && TooOld(tip, nLimit, h) && HasVote(s.votes, h) {
        var k :| k in s.votes && s.votes[k].nBlockHeight == h;
        assert Dropped(s.votes, k, h, tip, nLimit);
      }
    }
    assert now.blocks == t.blocks && now.votes == t.votes;
  }

  lemma MostVotes(hash: Hash, s: State, h: int, payee: Script)
    requires Inv(hash, s) && h in s.blocks
    requires exists i :: IsTop(s.blocks[h].vecPayments, payee, i)
    ensures forall p: Script :: Tally(s.votes, h, p) <= Tally(s.votes, h, payee)
  {
    hide Tally, Position;
    var vec := s.blocks[h].vecPayments;
    var i :| IsTop(vec, payee, i);
    PositionIs(vec, i);
    assert VotesAt(s, h, payee) == Tally(s.votes, h, payee);
    forall p: Script ensures Tally(s.votes, h, p) <= Tally(s.votes, h, payee) {
      assert VotesAt(s, h, p) == Tally(s.votes, h, p);
    }
  }
}
