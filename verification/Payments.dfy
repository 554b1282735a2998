/** The votes of src/masternode-payments.h and src/masternode-payments.cpp on values: recorded
    votes, the tally that is kept beside them, and what blocks the tally accepts. */
module Payments {
  const SIGNATURES_REQUIRED: nat := 6

  /** A script to pay to, as a number. */
  type Script = nat

  datatype Payee = Payee(script: Script, nVotes: int)
  datatype Winner = Winner(masternode: nat, nBlockHeight: int, payee: Script)
  datatype BlockPayees = BlockPayees(nBlockHeight: int, vecPayments: seq<Payee>)
  datatype Out = Out(nValue: int, script: Script)

  /** The recorded votes by their hash, and the tally for each height. */
  datatype State = State(votes: map<nat, Winner>, blocks: map<int, BlockPayees>)

  // ------------------------------------------------------------- the tally of a block

  /** The position of a payee in the tally; the length when there is none. */
  function Position(vec: seq<Payee>, p: Script): (i: nat)
    ensures i <= |vec| && (i < |vec| ==> vec[i].script == p)
    ensures forall j :: 0 <= j < i ==> vec[j].script != p
  {
    if vec == [] || vec[0].script == p then 0 else Position(vec[1..], p) + 1
  }

  function VotesFor(vec: seq<Payee>, p: Script): int {
    var i := Position(vec, p);
    if i < |vec| then vec[i].nVotes else 0
  }

  function WithVote(vec: seq<Payee>, p: Script, n: int): (r: seq<Payee>) {
    var i := Position(vec, p);
    if i < |vec| then vec[i := vec[i].(nVotes := vec[i].nVotes + n)] else vec + [Payee(p, n)]
  }

  /** Every payee once, each with votes. */
  predicate Tidy(vec: seq<Payee>) {
    && (forall i, j :: 0 <= i < j < |vec| ==> vec[i].script != vec[j].script)
    && (forall i :: 0 <= i < |vec| ==> vec[i].nVotes > 0)
  }

  lemma PositionIs(vec: seq<Payee>, i: nat)
    requires i < |vec| && forall i, j :: 0 <= i < j < |vec| ==> vec[i].script != vec[j].script
    ensures Position(vec, vec[i].script) == i && VotesFor(vec, vec[i].script) == vec[i].nVotes
  {
    var p := vec[i].script;
    assert vec[i].script == p;
  }

  lemma WithVoteTidy(vec: seq<Payee>, p: Script)
    requires Tidy(vec)
    ensures Tidy(WithVote(vec, p, 1))
  {
  }

  lemma WithVoteCounts(vec: seq<Payee>, p: Script, q: Script)
    requires Tidy(vec)
    ensures VotesFor(WithVote(vec, p, 1), q) == VotesFor(vec, q) + if p == q then 1 else 0
  {
    hide Position;
    var r := WithVote(vec, p, 1);
    WithVoteTidy(vec, p);
    var i := Position(r, q);
    if i < |r| { PositionIs(r, i); }
    var k := Position(vec, q);
    if k < |vec| {
      PositionIs(vec, k);
      assert r[k].script == q;
      PositionIs(r, k);
    } else if p == q {
      assert r[|vec|].script == q;
      PositionIs(r, |vec|);
    } else {
      assert forall j :: 0 <= j < |r| ==> r[j].script != q;
    }
  }

  // ------------------------------------------------------------------ the invariant

  /** The hash that a vote is recorded under is of the masternode, the height and the payee. */
  type Hash = Winner -> nat

  /** The recorded votes for a payee at a height. */
  function Voters(votes: map<nat, Winner>, h: int, p: Script): set<nat> {
    set k | k in votes && votes[k].nBlockHeight == h && votes[k].payee == p
  }

  function Tally(votes: map<nat, Winner>, h: int, p: Script): nat {
    |Voters(votes, h, p)|
  }

  function VotesAt(s: State, h: int, p: Script): int {
    if h in s.blocks then VotesFor(s.blocks[h].vecPayments, p) else 0
  }

  predicate Recorded(hash: Hash, votes: map<nat, Winner>) {
    forall k :: k in votes ==> k == hash(votes[k])
  }

  predicate AllTidy(blocks: map<int, BlockPayees>) {
    forall h :: h in blocks ==>
        blocks[h].nBlockHeight == h && blocks[h].vecPayments != [] && Tidy(blocks[h].vecPayments)
  }

  /** The tally is the number of recorded votes, for every height and payee. */
  ghost predicate Tallied(s: State) {
    forall h: int, p: Script :: VotesAt(s, h, p) == Tally(s.votes, h, p)
  }

  ghost predicate Inv(hash: Hash, s: State) {
    Recorded(hash, s.votes) && AllTidy(s.blocks) && Tallied(s)
  }

  // ------------------------------------------------------------------ the operations

  /** `known` says that there is a block a hundred below. */
  function Add(hash: Hash, s: State, w: Winner, known: bool): (State, bool) {
    if !known || hash(w) in s.votes then (s, false) else
      var h := w.nBlockHeight;
      var b := if h in s.blocks then s.blocks[h] else BlockPayees(h, []);
      (State(s.votes[hash(w) := w], s.blocks[h := b.(vecPayments := WithVote(b.vecPayments, w.payee, 1))]), true)
  }

  predicate TooOld(nHeight: int, nLimit: int, h: int) {
    nHeight - h > nLimit
  }

  /** The heights that are dropped are those of the dropped votes. */
  function Clean(s: State, nHeight: int, nLimit: int): State {
    State(map k | k in s.votes && !TooOld(nHeight, nLimit, s.votes[k].nBlockHeight) :: s.votes[k],
          map h | h in s.blocks && (TooOld(nHeight, nLimit, h) ==> !HasVote(s.votes, h)) :: s.blocks[h])
  }

  predicate HasVote(votes: map<nat, Winner>, h: int) {
    exists k :: k in votes && votes[k].nBlockHeight == h
  }

  const EMPTY: State := State(map[], map[])

  lemma AddTallied(hash: Hash, s: State, w: Winner, h: int, p: Script)
    requires Inv(hash, s) && hash(w) !in s.votes
    ensures VotesAt(Add(hash, s, w, true).0, h, p) == Tally(Add(hash, s, w, true).0.votes, h, p)
  {
    hide Tidy, Position, WithVote, VotesFor;
    var t := Add(hash, s, w, true).0;
    assert VotesAt(s, h, p) == Tally(s.votes, h, p);
    if h == w.nBlockHeight {
      var vec := if h in s.blocks then s.blocks[h].vecPayments else [];
      EmptyTally(p);
      WithVoteCounts(vec, w.payee, p);
    }
    if h == w.nBlockHeight && p == w.payee {
      assert Voters(t.votes, h, p) == Voters(s.votes, h, p) + {hash(w)};
    } else {
      assert Voters(t.votes, h, p) == Voters(s.votes, h, p);
    }
  }

  lemma EmptyTally(p: Script)
    ensures Tidy([]) && VotesFor([], p) == 0
  {
  }

  lemma AddKeeps(hash: Hash, s: State, w: Winner, known: bool)
    requires Inv(hash, s)
    ensures Inv(hash, Add(hash, s, w, known).0)
  {
    if known && hash(w) !in s.votes {
      var t := Add(hash, s, w, known).0;
      forall h: int, p: Script ensures VotesAt(t, h, p) == Tally(t.votes, h, p) {
        AddTallied(hash, s, w, h, p);
      }
      var h := w.nBlockHeight;
      WithVoteTidy(if h in s.blocks then s.blocks[h].vecPayments else [], w.payee);
      hide Tallied;
    }
  }

  /** A height is tracked exactly when there is a recorded vote for it. */
  lemma TrackedIff(hash: Hash, s: State, h: int)
    requires Inv(hash, s)
    ensures h in s.blocks <==> HasVote(s.votes, h)
  {
    if HasVote(s.votes, h) {
      var k :| k in s.votes && s.votes[k].nBlockHeight == h;
      assert k in Voters(s.votes, h, s.votes[k].payee);
      assert VotesAt(s, h, s.votes[k].payee) == Tally(s.votes, h, s.votes[k].payee);
    }
    if h in s.blocks {
      var p := s.blocks[h].vecPayments[0].script;
      PositionIs(s.blocks[h].vecPayments, 0);
      assert VotesAt(s, h, p) == Tally(s.votes, h, p);
      var k := Member(Voters(s.votes, h, p));
    }
  }

  lemma Member(s: set<nat>) returns (x: nat)
    requires |s| > 0
    ensures x in s
  {
    x :| x in s;
  }

  lemma CleanKeeps(hash: Hash, s: State, nHeight: int, nLimit: int)
    requires Inv(hash, s)
    ensures Inv(hash, Clean(s, nHeight, nLimit))
  {
    var t := Clean(s, nHeight, nLimit);
    hide Position;
    forall h: int, p: Script ensures VotesAt(t, h, p) == Tally(t.votes, h, p) {
      TrackedIff(hash, s, h);
      assert VotesAt(s, h, p) == Tally(s.votes, h, p);
      if TooOld(nHeight, nLimit, h) {
        assert Voters(t.votes, h, p) == {};
      } else {
        assert Voters(t.votes, h, p) == Voters(s.votes, h, p);
      }
    }
  }

  /** Cleaning forgets the votes for heights that are more than the limit below the tip, keeps all
      others, and with them the tally of every height that is kept. */
  lemma CleanOutcome(s: State, tip: int, nLimit: int)
    ensures var t := Clean(s, tip, nLimit);
            && (forall k :: k in t.votes <==> k in s.votes && s.votes[k].nBlockHeight >= tip - nLimit)
            && (forall k :: k in t.votes ==> t.votes[k] == s.votes[k])
            && forall h: int, p: Script ::
                 Tally(t.votes, h, p) == if tip - h <= nLimit then Tally(s.votes, h, p) else 0
  {
    var t := Clean(s, tip, nLimit);
    forall h: int, p: Script
      ensures Tally(t.votes, h, p) == if tip - h <= nLimit then Tally(s.votes, h, p) else 0
    {
      assert Voters(t.votes, h, p) == if tip - h <= nLimit then Voters(s.votes, h, p) else {};
    }
  }

  /** What is accepted at a height that is kept stays so; at one that is dropped every block is
      accepted. */
  lemma CleanAccepts(hash: Hash, s: State, tip: int, nLimit: int, h: int, outs: seq<Out>, required: int)
    requires Inv(hash, s)
    ensures AcceptsAt(Clean(s, tip, nLimit), h, outs, required)
       <==> tip - h > nLimit || AcceptsAt(s, h, outs, required)
  {
    var t := Clean(s, tip, nLimit);
    CleanOutcome(s, tip, nLimit);
    CleanKeeps(hash, s, tip, nLimit);
    TrackedIff(hash, s, h);
    TrackedIff(hash, t, h);
    hide Inv, Accepts, Tally;
  }

  lemma OneMore(votes: map<nat, Winner>, k: nat, w: Winner, h: int, p: Script)
    requires k !in votes
    ensures Tally(votes[k := w], h, p) == Tally(votes, h, p) + if h == w.nBlockHeight && p == w.payee then 1 else 0
  {
    if h == w.nBlockHeight && p == w.payee {
      assert Voters(votes[k := w], h, p) == Voters(votes, h, p) + {k};
    } else {
      assert Voters(votes[k := w], h, p) == Voters(votes, h, p);
    }
  }

  /** One more vote for a payee at a height, and none for others, exactly when the vote is new. */
  lemma AddOutcome(hash: Hash, s: State, w: Winner, known: bool, h: int, p: Script)
    ensures var (t, added) := Add(hash, s, w, known);
            && (added <==> known && hash(w) !in s.votes) && (!added ==> t == s)
            && Tally(t.votes, h, p)
               == Tally(s.votes, h, p) + if added && h == w.nBlockHeight && p == w.payee then 1 else 0
  {
    hide Tally, WithVote;
    if hash(w) !in s.votes { OneMore(s.votes, hash(w), w, h, p); }
  }

  datatype Op = AddWinning(w: Winner, known: bool) | CleanList(nHeight: int, nLimit: int) | Clear

  function After(hash: Hash, s: State, op: Op): State {
    match op
    case AddWinning(w, known) => Add(hash, s, w, known).0
    case CleanList(nHeight, nLimit) => Clean(s, nHeight, nLimit)
    case Clear => EMPTY
  }

  function Run(hash: Hash, s: State, ops: seq<Op>): State {
    if ops == [] then s else After(hash, Run(hash, s, ops[..|ops| - 1]), ops[|ops| - 1])
  }

  lemma EmptyInv(hash: Hash)
    ensures Inv(hash, EMPTY)
  {
    forall h: int, p: Script ensures VotesAt(EMPTY, h, p) == Tally(EMPTY.votes, h, p) {
      assert Voters(EMPTY.votes, h, p) == {};
    }
  }

  /** In every reachable state the tally is right. */
  lemma {:induction false} RunKeeps(hash: Hash, ops: seq<Op>)
    ensures Inv(hash, Run(hash, EMPTY, ops))
  {
    hide Inv;
    EmptyInv(hash);
    if ops != [] {
      var n := |ops| - 1;
      RunKeeps(hash, ops[..n]);
      var s := Run(hash, EMPTY, ops[..n]);
      match ops[n]
      case AddWinning(w, known) => AddKeeps(hash, s, w, known);
      case CleanList(nHeight, nLimit) => CleanKeeps(hash, s, nHeight, nLimit);
      case Clear =>
    }
  }

  /** A masternode has one vote at most for a payee at a height. */
  lemma OneVoteEach(hash: Hash, s: State, k: nat, l: nat)
    requires Inv(hash, s) && k in s.votes && l in s.votes && k != l
    requires s.votes[k].nBlockHeight == s.votes[l].nBlockHeight && s.votes[k].payee == s.votes[l].payee
    ensures s.votes[k].masternode != s.votes[l].masternode
  {
    hide Tallied, AllTidy;
    assert k == hash(s.votes[k]) && l == hash(s.votes[l]);
  }

  // ----------------------------------------------------------------- what is accepted

  predicate Paid(outs: seq<Out>, p: Script, required: int) {
    exists i :: 0 <= i < |outs| && outs[i].script == p && outs[i].nValue >= required
  }

  /** What the loops over the tally decide. */
  predicate Accepts(vec: seq<Payee>, outs: seq<Out>, required: int) {
    || (forall i :: 0 <= i < |vec| ==> vec[i].nVotes < SIGNATURES_REQUIRED)
    || (exists i :: 0 <= i < |vec| && vec[i].nVotes >= SIGNATURES_REQUIRED && Paid(outs, vec[i].script, required))
  }

  predicate AcceptsAt(s: State, h: int, outs: seq<Out>, required: int) {
    h in s.blocks ==> Accepts(s.blocks[h].vecPayments, outs, required)
  }

  /** A block is accepted, at any height, exactly when no payee has six recorded votes or some
      payee that has is paid enough. */
  lemma AcceptedIff(hash: Hash, s: State, h: int, outs: seq<Out>, required: int)
    requires Inv(hash, s)
    ensures AcceptsAt(s, h, outs, required) <==>
              || (forall p: Script :: Tally(s.votes, h, p) < 6)
              || (exists i :: 0 <= i < |outs| && Tally(s.votes, h, outs[i].script) >= 6 && outs[i].nValue >= required)
  {
    hide Tally, Position;
    if h in s.blocks {
      var vec := s.blocks[h].vecPayments;
      forall i | 0 <= i < |vec| ensures vec[i].nVotes == Tally(s.votes, h, vec[i].script) {
        PositionIs(vec, i);
        assert VotesAt(s, h, vec[i].script) == Tally(s.votes, h, vec[i].script);
      }
      forall p: Script ensures Tally(s.votes, h, p) > 0 ==> exists i :: 0 <= i < |vec| && vec[i].script == p {
        assert VotesAt(s, h, p) == Tally(s.votes, h, p);
        assert Position(vec, p) < |vec| ==> vec[Position(vec, p)].script == p;
      }
    } else {
      forall p: Script ensures Tally(s.votes, h, p) < SIGNATURES_REQUIRED {
        assert VotesAt(s, h, p) == Tally(s.votes, h, p);
      }
    }
  }
}
