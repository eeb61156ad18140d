/**
 Events on which the indexer goes wrong, outside the conditions that are proved to be exactly what it
 needs. The token contract emits some of them: a transfer to the owner, a change to the same delegate,
 and the delegation of an account without nouns. `ContractRuns` has one more, an account that comes back.
 */
module Failures {
  import opened ContractRuns
  import opened DelegatedVotes
  import opened Entities
  import opened Events
  import opened Governor
  import opened TokenIndex
  import opened Verdict
  import opened Wrappers

  /** A noun is minted to an account. */
  function Minted(a: Address, n: NounId): Store {
    AfterTransfer(EMPTY_STORE, ZERO_ADDRESS, a, n)
  }

  function MintedTruth(a: Address, n: NounId): Truth {
    TruthTransfer(NO_NOUNS, ZERO_ADDRESS, a, n)
  }

  lemma MintedIsRight(a: Address, n: NounId)
    requires a != ZERO_ADDRESS
    ensures Right(Minted(a, n), MintedTruth(a, n))
    ensures NounsOf(Minted(a, n), a) == [n] && RepresentedBy(Minted(a, n), a) == [n] && MintedTruth(a, n).delegate == map[a := a]
  {
    EmptyIsSound();
    TransferExact(EMPTY_STORE, NO_NOUNS, ZERO_ADDRESS, a, n);
    TransferAccounts(EMPTY_STORE, ZERO_ADDRESS, a, n, a);
    TransferLists(EMPTY_STORE, ZERO_ADDRESS, a, n, a);
  }

  /** Sent to its owner, as in a mint to the owner of the contract, a noun is listed twice. */
  lemma SelfTransfer(a: Address, n: NounId)
    requires a != ZERO_ADDRESS
    ensures var s, t := Minted(a, n), MintedTruth(a, n);
            && Right(s, t) && Emitted(t, map[], Transfer(a, a, n))
            && !Right(AfterTransfer(s, a, a, n), TruthTransfer(t, a, a, n))
            && NounsOf(AfterTransfer(s, a, a, n), a) == [n, n]
  {
    MintedIsRight(a, n);
    TransferExact(Minted(a, n), MintedTruth(a, n), a, a, n);
    TransferAccounts(Minted(a, n), a, a, n, a);
  }

  /** A noun that is minted again is listed for both its owners. */
  lemma MintedAgain(a: Address, b: Address, n: NounId)
    requires a != ZERO_ADDRESS && a != b
    ensures var s, t := Minted(a, n), MintedTruth(a, n);
            && Right(s, t) && !Right(AfterTransfer(s, ZERO_ADDRESS, b, n), TruthTransfer(t, ZERO_ADDRESS, b, n))
            && NounsOf(AfterTransfer(s, ZERO_ADDRESS, b, n), a) == [n]
  {
    MintedIsRight(a, n);
    TransferExact(Minted(a, n), MintedTruth(a, n), ZERO_ADDRESS, b, n);
    TransferAccounts(Minted(a, n), ZERO_ADDRESS, b, n, a);
  }

  /** A sender that does not own the noun gets a negative balance. */
  lemma NotTheOwner(a: Address, b: Address, n: NounId)
    requires a != ZERO_ADDRESS && a != b
    ensures Right(EMPTY_STORE, NO_NOUNS)
    ensures !Right(AfterTransfer(EMPTY_STORE, a, b, n), TruthTransfer(NO_NOUNS, a, b, n))
    ensures AccountOf(AfterTransfer(EMPTY_STORE, a, b, n), a).tokenBalance == -1
  {
    EmptyIsSound();
    TransferExact(EMPTY_STORE, NO_NOUNS, a, b, n);
    TransferAccounts(EMPTY_STORE, a, b, n, a);
  }

  /** A delegate changed to itself represents the noun twice. */
  lemma SameDelegate(a: Address, n: NounId)
    requires a != ZERO_ADDRESS
    ensures var s, t := Minted(a, n), MintedTruth(a, n);
            && Right(s, t) && Emitted(t, map[], DelegateChanged(a, a, a))
            && !Right(AfterDelegateChanged(s, a, a, a), TruthDelegateChanged(t, a, a))
            && RepresentedBy(AfterDelegateChanged(s, a, a, a), a) == [n, n]
  {
    MintedIsRight(a, n);
    DelegationExact(Minted(a, n), MintedTruth(a, n), a, a, a);
    DelegationLists(Minted(a, n), a, a, a, a);
  }

  /** An account without nouns delegates, for the first time: it has a delegate and no balance. */
  lemma IdleAccountDelegates(a: Address, d: Address)
    requires a != ZERO_ADDRESS
    ensures Right(EMPTY_STORE, NO_NOUNS) && Emitted(NO_NOUNS, map[], DelegateChanged(a, a, d))
    ensures !Right(AfterDelegateChanged(EMPTY_STORE, a, a, d), TruthDelegateChanged(NO_NOUNS, a, d))
    ensures AccountOf(AfterDelegateChanged(EMPTY_STORE, a, a, d), a) == NEW_ACCOUNT.(delegate := Some(d))
  {
    EmptyIsSound();
    DelegationExact(EMPTY_STORE, NO_NOUNS, a, a, d);
    DelegationAccounts(EMPTY_STORE, a, a, d, a);
  }

  /** A balance that stays 0 makes the number of delegates negative. */
  lemma ZeroToZero(d: Address)
    ensures VotesRight(EMPTY_STORE) && !VotesRight(AfterVotesChanged(EMPTY_STORE, d, 0, 0))
    ensures GovernanceOf(AfterVotesChanged(EMPTY_STORE, d, 0, 0)).currentDelegates == -1
  {
    EmptyIsSound();
    VotesChangedExact(EMPTY_STORE, d, 0, 0);
    VotesChangedDelegates(EMPTY_STORE, d, 0, 0);
  }

  /** An event that names another balance than the recorded one makes the total differ from the sum. */
  lemma WrongPrevious(d: Address)
    ensures VotesRight(EMPTY_STORE) && !VotesRight(AfterVotesChanged(EMPTY_STORE, d, 1, 3))
    ensures var after := AfterVotesChanged(EMPTY_STORE, d, 1, 3);
            GovernanceOf(after).delegatedVotes == 2 && DelegateOf(after, d).delegatedVotes == 3
  {
    EmptyIsSound();
    VotesChangedExact(EMPTY_STORE, d, 1, 3);
    VotesChangedDelegates(EMPTY_STORE, d, 1, 3);
  }

  /** A proposal, number 1, created in block 10 and voted on from block 20 to block 30, without a quorum. */
  function Created(s: Store): Store {
    AfterProposalCreated(s, 10, 1, 5, 20, 30, 0)
  }

  /** Account 5 votes for it with 3 votes. */
  function VotedFor(s: Store): Option<Store> {
    AfterVoteCast(s, 25, 1, 5, 1, 3)
  }

  lemma NotDynamic(s: Store)
    requires s.params == None
    ensures var after := Created(s);
            1 in after.proposals && after.params == Some(QuorumParams(0, 0, 0, None)) && after.votes == s.votes &&
            var p := after.proposals[1];
            p.forVotes == p.againstVotes == p.quorumVotes == 0 && p.status == PENDING && p.startBlock == 20 && p.endBlock == 30
  {
    var s1 := CountProposal(s, 1);
    assert s1.params == s.params && s1.votes == s.votes;
    assert EnsureDelegate(s1, 5).params == s.params && EnsureDelegate(s1, 5).votes == s.votes;
  }

  lemma OneVote(s: Store)
    requires 1 in s.proposals && s.params == Some(QuorumParams(0, 0, 0, None))
    ensures VotedFor(s).Some?
    ensures var after := VotedFor(s).value;
            && after.params == s.params && VoteId(5, 1) in after.votes
            && after.votes[VoteId(5, 1)].votes == 3 && after.votes[VoteId(5, 1)].supportDetailed == 1
            && after.proposals == s.proposals[1 := Counted(s.proposals[1], 1, 3).(status := after.proposals[1].status)]
            && after.proposals[1].status == (if s.proposals[1].status == PENDING then ACTIVE else s.proposals[1].status)
  {
    assert EnsureDelegate(s, 5).params == s.params && EnsureDelegate(s, 5).proposals == s.proposals;
  }

  /** A voter who votes twice is tallied twice and stored once. */
  lemma Revote()
    ensures var once := VotedFor(Created(EMPTY_STORE));
            && once.Some? && Conserved(once.value)
            && VotedFor(once.value).Some? && !Conserved(VotedFor(once.value).value)
            && VotedFor(once.value).value.proposals[1].forVotes == 6
  {
    NotDynamic(EMPTY_STORE);
    CreatedConserves(EMPTY_STORE, 10, 1, 5, 20, 30, 0);
    OneVote(Created(EMPTY_STORE));
    VoteCastExact(Created(EMPTY_STORE), 25, 1, 5, 1, 3);
    var once := VotedFor(Created(EMPTY_STORE)).value;
    OneVote(once);
    VoteCastExact(once, 25, 1, 5, 1, 3);
  }

  /** A proposal that was queued and is created again keeps its ETA, so that it stays active when its vote is over. */
  lemma CreatedAgain(blockTime: Option<int>)
    ensures var queued := AfterQueued(Created(EMPTY_STORE), 1, 100);
            && queued.Some? && VotedFor(Created(queued.value)).Some?
            && var p := VotedFor(Created(queued.value)).value.proposals[1];
            Carried(p) && p.status == ACTIVE && GetProposalState(Some(1000), blockTime, p) == Active
  {
    NotDynamic(EMPTY_STORE);
    var queued := AfterQueued(Created(EMPTY_STORE), 1, 100).value;
    CreatedETAExact(queued, 10, 1, 5, 20, 30, 0);
    OneVote(Created(queued));
    VerdictExact(VotedFor(Created(queued)).value.proposals[1], 1000, blockTime);
  }
}
