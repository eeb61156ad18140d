/** The proposal, vote and quorum-parameter handlers; `None` is an aborted handler. */
module Governor {
  import opened Entities
  import opened Quorum
  import opened Sums
  import opened Wrappers

  // ---------- the handlers ----------

  /** The start block is written once: with the first block number the parameters are loaded with. */
  function EnsureParams(s: Store, block: Option<nat>): Store {
    var params := s.params.GetOr(QuorumParams(0, 0, 0, block));
    s.(params := Some(if params.dynamicQuorumStartBlock.None? then params.(dynamicQuorumStartBlock := block) else params))
  }

  /** A new proposal is counted, on the stored governance entity; it is not saved yet. */
  function CountProposal(s: Store, id: ProposalId): Store {
    if id in s.proposals then s
    else SaveGovernance(s, GovernanceOf(s).(proposals := GovernanceOf(s).proposals + 1))
  }

  function SaveProposal(s: Store, id: ProposalId, p: Proposal): Store {
    s.(proposals := s.proposals[id := p])
  }

  /** A proposal that exists is overwritten, but for its execution ETA. */
  function AfterProposalCreated(s: Store, block: nat, id: ProposalId, proposer: Address, startBlock: nat, endBlock: nat, quorumVotes: nat): Store {
    var s1 := EnsureParams(EnsureDelegate(CountProposal(s, id), proposer), None);
    var params := s1.params.value;
    var eta := if id in s.proposals then s.proposals[id].executionETA else None;
    SaveProposal(s1, id, Proposal(proposer, block, startBlock, endBlock, quorumVotes, 0, 0, 0,
                                  if block >= startBlock then ACTIVE else PENDING, eta,
                                  GovernanceOf(s1).totalTokenHolders,
                                  params.minQuorumVotesBPS, params.maxQuorumVotesBPS, params.quorumCoefficient))
  }

  /** `handleProposalCanceled` and `handleProposalVetoed`: a proposal that was never created cannot be saved. */
  function AfterStatus(s: Store, id: ProposalId, status: Status): Option<Store> {
    if id !in s.proposals then None else Some(SaveProposal(s, id, s.proposals[id].(status := status)))
  }

  function AfterQueued(s: Store, id: ProposalId, eta: nat): Option<Store> {
    if id !in s.proposals then None
    else
      var g := GovernanceOf(s);
      var s1 := SaveProposal(s, id, s.proposals[id].(status := QUEUED, executionETA := Some(eta)));
      Some(SaveGovernance(s1, g.(proposalsQueued := g.proposalsQueued + 1)))
  }

  function AfterExecuted(s: Store, id: ProposalId): Option<Store> {
    if id !in s.proposals then None
    else
      var g := GovernanceOf(s);
      var s1 := SaveProposal(s, id, s.proposals[id].(status := EXECUTED, executionETA := None));
      Some(SaveGovernance(s1, g.(proposalsQueued := g.proposalsQueued - 1)))
  }

  /** The tallies: any other support value is not counted. */
  function Counted(p: Proposal, support: nat, votes: nat): Proposal {
    if support == 0 then p.(againstVotes := p.againstVotes + votes)
    else if support == 1 then p.(forVotes := p.forVotes + votes)
    else if support == 2 then p.(abstainVotes := p.abstainVotes + votes)
    else p
  }

  function UsesDynamicQuorum(params: Option<QuorumParams>, createdBlock: nat): bool {
    params.Some? && params.value.dynamicQuorumStartBlock.Some? && params.value.dynamicQuorumStartBlock.value < createdBlock
  }

  function ProposalQuorum(p: Proposal): Option<int> {
    DynamicQuorumVotes(p.againstVotes, p.totalSupply, p.minQuorumVotesBPS, p.maxQuorumVotesBPS, p.quorumCoefficient)
  }

  function Voted(p: Proposal, support: nat, votes: nat, dynamic: bool): Option<Proposal> {
    var c := Counted(p, support, votes);
    var quorum :- if dynamic then ProposalQuorum(c) else Some(c.quorumVotes);
    Some(c.(quorumVotes := quorum, status := if c.status == PENDING then ACTIVE else c.status))
  }

  function AfterVoteCast(s: Store, block: nat, id: ProposalId, voter: Address, support: nat, votes: nat): Option<Store> {
    if id !in s.proposals then None
    else
      var s1 := EnsureParams(EnsureDelegate(s, voter), None);
      var p :- Voted(s.proposals[id], support, votes, UsesDynamicQuorum(s1.params, s.proposals[id].createdBlock));
      var vote := Vote(votes, votes, support, DelegateOf(s1, voter).nounsRepresented, block);
      Some(SaveProposal(s1.(votes := s1.votes[VoteId(voter, id) := vote]), id, p))
  }

  datatype Param = MinQuorumVotesBPS(bps: nat) | MaxQuorumVotesBPS(bps: nat) | QuorumCoefficient(coefficient: nat)

  function SetParam(params: QuorumParams, param: Param): QuorumParams {
    match param
    case MinQuorumVotesBPS(bps) => params.(minQuorumVotesBPS := bps)
    case MaxQuorumVotesBPS(bps) => params.(maxQuorumVotesBPS := bps)
    case QuorumCoefficient(coefficient) => params.(quorumCoefficient := coefficient)
  }

  function AfterParamSet(s: Store, block: nat, param: Param): Store {
    var s1 := EnsureParams(s, Some(block));
    s1.(params := Some(SetParam(s1.params.value, param)))
  }

  // ---------- one vote ----------

  /** What a vote leaves alone: the quorum snapshot, the creation block and everything else that was set when the proposal was created. */
  predicate SameSnapshot(p: Proposal, q: Proposal) {
    && p.createdBlock == q.createdBlock && p.startBlock == q.startBlock && p.endBlock == q.endBlock
    && p.totalSupply == q.totalSupply && p.minQuorumVotesBPS == q.minQuorumVotesBPS
    && p.maxQuorumVotesBPS == q.maxQuorumVotesBPS && p.quorumCoefficient == q.quorumCoefficient
  }

  lemma VoteUpOrDown(p: Proposal, support: nat, votes: nat)
    requires p.totalSupply >= 0 && ProposalQuorum(Counted(p, support, votes)).Some?
    ensures ProposalQuorum(p).Some? && ProposalQuorum(p).value <= ProposalQuorum(Counted(p, support, votes)).value
  {
    var c := Counted(p, support, votes);
    QuorumMonotone(p.againstVotes, c.againstVotes, p.totalSupply, p.minQuorumVotesBPS, p.minQuorumVotesBPS,
                   p.maxQuorumVotesBPS, p.maxQuorumVotesBPS, p.quorumCoefficient, p.quorumCoefficient);
  }

  function VotedTwice(p: Proposal, support: nat, votes: nat, support': nat, votes': nat, dynamic: bool): Option<Proposal> {
    var q :- Voted(p, support, votes, dynamic);
    Voted(q, support', votes', dynamic)
  }

  /** Two votes: the quorum is that of both, and they abort exactly when that aborts. */
  lemma VotedTwiceIs(p: Proposal, support: nat, votes: nat, support': nat, votes': nat, dynamic: bool)
    requires p.totalSupply >= 0
    ensures var both := Counted(Counted(p, support, votes), support', votes');
            var quorum := if dynamic then ProposalQuorum(both) else Some(p.quorumVotes);
            VotedTwice(p, support, votes, support', votes', dynamic) ==
            if quorum.None? then None
            else Some(both.(quorumVotes := quorum.value, status := if p.status == PENDING then ACTIVE else p.status))
  {
    var one := Counted(p, support, votes);
    if dynamic && ProposalQuorum(Counted(one, support', votes')).Some? {
      VoteUpOrDown(one, support', votes');
    }
    var q := one.(status := if p.status == PENDING then ACTIVE else p.status);
    assert forall quorum :: Counted(q.(quorumVotes := quorum), support', votes') ==
                            Counted(one, support', votes').(quorumVotes := quorum, status := q.status);
  }

  lemma CountsCommute(p: Proposal, support: nat, votes: nat, support': nat, votes': nat)
    ensures Counted(Counted(p, support, votes), support', votes') == Counted(Counted(p, support', votes'), support, votes)
  {
  }

  /** Two votes on a proposal come to the same in either order, also when one of them aborts. */
  lemma VotesCommute(p: Proposal, support: nat, votes: nat, support': nat, votes': nat, dynamic: bool)
    requires p.totalSupply >= 0
    ensures VotedTwice(p, support, votes, support', votes', dynamic) == VotedTwice(p, support', votes', support, votes, dynamic)
  {
    VotedTwiceIs(p, support, votes, support', votes', dynamic);
    VotedTwiceIs(p, support', votes', support, votes, dynamic);
    CountsCommute(p, support, votes, support', votes');
  }

  /**
   A vote aborts exactly when its proposal was never created, or its quorum is dynamic and there is no
   supply, or the basis points that its votes against call for do not fit in 32 bits.
   */
  lemma VoteAbortsExact(s: Store, block: nat, id: ProposalId, voter: Address, support: nat, votes: nat)
    requires id in s.proposals ==> s.proposals[id].totalSupply >= 0
    ensures AfterVoteCast(s, block, id, voter, support, votes).None? <==>
            id !in s.proposals ||
            var p := Counted(s.proposals[id], support, votes);
            UsesDynamicQuorum(s.params, p.createdBlock) &&
            (p.totalSupply == 0 ||
             p.quorumCoefficient * (p.againstVotes * 10000 / p.totalSupply) / 1000000 + p.minQuorumVotesBPS > MAX_I32)
  {
    if id in s.proposals {
      var p := Counted(s.proposals[id], support, votes);
      assert EnsureDelegate(s, voter).params == s.params;
      DefinedExact(p.againstVotes, p.totalSupply, p.minQuorumVotesBPS, p.maxQuorumVotesBPS, p.quorumCoefficient);
    }
  }

  // ---------- conservation ----------

  function Weight(votes: map<VoteId, Vote>, v: VoteId, id: ProposalId, support: nat): int {
    if v in votes && v.proposal == id && votes[v].supportDetailed == support then votes[v].votes else 0
  }

  /** The sum of the stored votes on a proposal with one support value. */
  ghost function Cast(votes: map<VoteId, Vote>, id: ProposalId, support: nat): int {
    SumOver(votes.Keys, v => Weight(votes, v, id, support))
  }

  ghost predicate TalliesRight(s: Store, id: ProposalId)
    requires id in s.proposals
  {
    var p := s.proposals[id];
    p.againstVotes == Cast(s.votes, id, 0) && p.forVotes == Cast(s.votes, id, 1) && p.abstainVotes == Cast(s.votes, id, 2)
  }

  ghost predicate Conserved(s: Store) {
    && (forall v <- s.votes :: v.proposal in s.proposals)
    && forall id <- s.proposals :: TalliesRight(s, id)
  }

  lemma CastAfter(votes: map<VoteId, Vote>, v: VoteId, vote: Vote, id: ProposalId, support: nat)
    ensures Cast(votes[v := vote], id, support) ==
            Cast(votes, id, support) - Weight(votes, v, id, support)
            + (if v.proposal == id && vote.supportDetailed == support then vote.votes else 0)
  {
    var more := votes[v := vote];
    SumUpdate(votes.Keys, a => Weight(votes, a, id, support), a => Weight(more, a, id, support), v);
    assert more.Keys == votes.Keys + {v};
  }

  lemma NoVotesCast(votes: map<VoteId, Vote>, id: ProposalId, support: nat)
    requires forall v <- votes :: v.proposal != id
    ensures Cast(votes, id, support) == 0
  {
    SumSame(votes.Keys, v => Weight(votes, v, id, support), v => 0);
    SumZero(votes.Keys);
  }

  lemma {:induction false} SumZero(keys: set<VoteId>)
    ensures SumOver(keys, v => 0) == 0
    decreases |keys|
  {
    if keys != {} {
      var k :| k in keys;
      SumSplit(keys, v => 0, k);
      SumZero(keys - {k});
    }
  }

  /** The voter has no vote on the proposal yet, or one that counts for nothing. */
  predicate FirstVote(s: Store, id: ProposalId, voter: Address) {
    var v := VoteId(voter, id);
    v in s.votes ==> s.votes[v].votes == 0 || s.votes[v].supportDetailed > 2
  }

  /** A tally that was right stays right unless the stored vote it replaces had a part in it. */
  lemma CastMoves(votes: map<VoteId, Vote>, v: VoteId, vote: Vote, tally: int, support: nat)
    requires tally == Cast(votes, v.proposal, support)
    ensures tally + (if vote.supportDetailed == support then vote.votes else 0) == Cast(votes[v := vote], v.proposal, support) <==>
            Weight(votes, v, v.proposal, support) == 0
  {
    CastAfter(votes, v, vote, v.proposal, support);
  }

  lemma OthersUntouched(votes: map<VoteId, Vote>, v: VoteId, vote: Vote, id: ProposalId, support: nat)
    requires v.proposal != id
    ensures Cast(votes[v := vote], id, support) == Cast(votes, id, support)
  {
    CastAfter(votes, v, vote, id, support);
  }

  lemma TalliesAfterVote(s: Store, block: nat, id: ProposalId, voter: Address, support: nat, votes: nat, other: ProposalId)
    requires AfterVoteCast(s, block, id, voter, support, votes).Some? && other in s.proposals && TalliesRight(s, other)
    ensures TalliesRight(AfterVoteCast(s, block, id, voter, support, votes).value, other) <==>
            (other != id || FirstVote(s, id, voter))
  {
    var after := AfterVoteCast(s, block, id, voter, support, votes).value;
    var v := VoteId(voter, id);
    var vote := after.votes[v];
    assert after.votes == s.votes[v := vote] && vote.supportDetailed == support && vote.votes == votes;
    if other == id {
      var p := s.proposals[id];
      CastMoves(s.votes, v, vote, p.againstVotes, 0);
      CastMoves(s.votes, v, vote, p.forVotes, 1);
      CastMoves(s.votes, v, vote, p.abstainVotes, 2);
    } else {
      OthersUntouched(s.votes, v, vote, other, 0);
      OthersUntouched(s.votes, v, vote, other, 1);
      OthersUntouched(s.votes, v, vote, other, 2);
    }
  }

  /** Each tally stays the sum of the stored votes exactly when the voter's earlier vote, if any, counts for nothing. */
  lemma VoteCastExact(s: Store, block: nat, id: ProposalId, voter: Address, support: nat, votes: nat)
    requires Conserved(s) && AfterVoteCast(s, block, id, voter, support, votes).Some?
    ensures Conserved(AfterVoteCast(s, block, id, voter, support, votes).value) <==> FirstVote(s, id, voter)
  {
    var after := AfterVoteCast(s, block, id, voter, support, votes).value;
    forall other | other in s.proposals
      ensures TalliesRight(after, other) <==> (other != id || FirstVote(s, id, voter))
    {
      assert TalliesRight(s, other);
      TalliesAfterVote(s, block, id, voter, support, votes, other);
    }
    assert after.proposals.Keys == s.proposals.Keys;
  }

  predicate StartsFromZero(p: Proposal) {
    p.againstVotes == p.forVotes == p.abstainVotes == 0
  }

  /** One proposal is stored that has no votes yet. */
  lemma ZeroConserves(s: Store, after: Store, id: ProposalId)
    requires Conserved(s) && after.votes == s.votes && id in after.proposals && StartsFromZero(after.proposals[id])
    requires after.proposals == s.proposals[id := after.proposals[id]]
    ensures Conserved(after) <==> Cast(s.votes, id, 0) == Cast(s.votes, id, 1) == Cast(s.votes, id, 2) == 0
  {
    forall other | other in after.proposals && other != id
      ensures TalliesRight(after, other)
    {
      assert TalliesRight(s, other);
    }
    assert TalliesRight(after, id) <==> Cast(s.votes, id, 0) == Cast(s.votes, id, 1) == Cast(s.votes, id, 2) == 0;
  }

  /** A proposal that is created starts with right tallies exactly when no stored vote on its id counts for anything. */
  lemma CreatedConservesExact(s: Store, block: nat, id: ProposalId, proposer: Address, startBlock: nat, endBlock: nat, quorumVotes: nat)
    requires Conserved(s)
    ensures Conserved(AfterProposalCreated(s, block, id, proposer, startBlock, endBlock, quorumVotes)) <==>
            Cast(s.votes, id, 0) == Cast(s.votes, id, 1) == Cast(s.votes, id, 2) == 0
  {
    var counted := CountProposal(s, id);
    assert counted.votes == s.votes && counted.proposals == s.proposals;
    assert EnsureDelegate(counted, proposer).votes == s.votes && EnsureDelegate(counted, proposer).proposals == s.proposals;
    ZeroConserves(s, AfterProposalCreated(s, block, id, proposer, startBlock, endBlock, quorumVotes), id);
  }

  /** A new id has no votes. */
  lemma CreatedConserves(s: Store, block: nat, id: ProposalId, proposer: Address, startBlock: nat, endBlock: nat, quorumVotes: nat)
    requires Conserved(s) && id !in s.proposals
    ensures Conserved(AfterProposalCreated(s, block, id, proposer, startBlock, endBlock, quorumVotes))
  {
    NoVotesCast(s.votes, id, 0);
    NoVotesCast(s.votes, id, 1);
    NoVotesCast(s.votes, id, 2);
    CreatedConservesExact(s, block, id, proposer, startBlock, endBlock, quorumVotes);
  }
}
