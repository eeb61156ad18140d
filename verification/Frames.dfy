/**
 Which parts of the store each handler leaves alone: the token index, the delegates' votes, and the
 governor's entities.
 */
module Frames {
  import opened DelegatedVotes
  import opened Entities
  import opened Governor
  import opened Sums
  import opened TokenIndex

  /** Everything the token index is about looks the same. */
  ghost predicate TokensSame(s: Store, after: Store) {
    && ListsOnly(s, after)
    && forall d: Address :: RepresentedBy(after, d) == RepresentedBy(s, d)
  }

  /** The recorded votes look the same, and so do the totals over them. */
  ghost predicate VotesSame(s: Store, after: Store) {
    && s.delegates.Keys <= after.delegates.Keys
    && (forall d: Address :: DelegateOf(after, d).delegatedVotes == DelegateOf(s, d).delegatedVotes &&
                             DelegateOf(after, d).delegatedVotesRaw == DelegateOf(s, d).delegatedVotesRaw)
    && SameVoteTotals(GovernanceOf(s), GovernanceOf(after))
  }

  predicate SameVoteTotals(g: Governance, h: Governance) {
    h.delegatedVotes == g.delegatedVotes && h.delegatedVotesRaw == g.delegatedVotesRaw && h.currentDelegates == g.currentDelegates
  }

  predicate GovernorSame(s: Store, after: Store) {
    after.proposals == s.proposals && after.votes == s.votes && after.params == s.params
  }

  lemma TokensKept(s: Store, after: Store, t: Truth)
    requires Right(s, t) && TokensSame(s, after)
    ensures Right(after, t)
  {
    forall a: Address
      ensures AccountRight(after, t, a)
    {
      Look(s, t, a);
      assert AccountOf(after, a) == AccountOf(s, a);
    }
    forall d: Address
      ensures RepresentsExactly(RepresentedBy(after, d), t, d)
    {
      assert RepresentsExactly(RepresentedBy(s, d), t, d);
    }
  }

  lemma {:induction false} SumMoreKeys(keys: set<Address>, more: set<Address>, f: Address -> int)
    requires keys <= more && forall k :: k in more && k !in keys ==> f(k) == 0
    ensures SumOver(more, f) == SumOver(keys, f)
    decreases |more - keys|
  {
    if more == keys {
    } else {
      var k :| k in more && k !in keys;
      SumSplit(more, f, k);
      assert more - {k} - keys == more - keys - {k};
      SumMoreKeys(keys, more - {k}, f);
    }
  }

  lemma VotesKept(s: Store, after: Store)
    requires VotesRight(s) && VotesSame(s, after)
    ensures VotesRight(after)
  {
    forall d: Address
      ensures VotesOf(after.delegates, d) == VotesOf(s.delegates, d)
    {
      assert DelegateOf(after, d).delegatedVotes == DelegateOf(s, d).delegatedVotes;
    }
    SumMoreKeys(s.delegates.Keys, after.delegates.Keys, (d: Address) => VotesOf(after.delegates, d));
    SumSame(s.delegates.Keys, (d: Address) => VotesOf(after.delegates, d), (d: Address) => VotesOf(s.delegates, d));
    assert forall d :: d in Active(after.delegates) <==> VotesOf(after.delegates, d) > 0;
    assert forall d :: d in Active(s.delegates) <==> VotesOf(s.delegates, d) > 0;
    assert Active(after.delegates) == Active(s.delegates);
    forall d | d in after.delegates
      ensures after.delegates[d].delegatedVotesRaw == after.delegates[d].delegatedVotes >= 0
    {
      assert DelegateOf(after, d).delegatedVotes == DelegateOf(s, d).delegatedVotes;
    }
  }

  // ---------- the token handlers leave votes and governor alone ----------

  ghost predicate Leaves(s: Store, after: Store) {
    VotesSame(s, after) && GovernorSame(s, after)
  }

  lemma LeavesTrans(s: Store, mid: Store, after: Store)
    requires Leaves(s, mid) && Leaves(mid, after)
    ensures Leaves(s, after)
  {
    VotesTrans(s, mid, after);
  }

  lemma VotesTrans(s: Store, mid: Store, after: Store)
    requires VotesSame(s, mid) && VotesSame(mid, after)
    ensures VotesSame(s, after)
  {
    forall d: Address
      ensures DelegateOf(after, d).delegatedVotes == DelegateOf(s, d).delegatedVotes &&
              DelegateOf(after, d).delegatedVotesRaw == DelegateOf(s, d).delegatedVotesRaw
    {
      assert DelegateOf(mid, d).delegatedVotes == DelegateOf(s, d).delegatedVotes;
    }
  }

  lemma SaveGovernanceLeaves(s: Store, g: Governance)
    requires SameVoteTotals(GovernanceOf(s), g)
    ensures Leaves(s, SaveGovernance(s, g))
  {
  }

  lemma EnsureDelegateLeaves(s: Store, id: Address)
    ensures Leaves(s, EnsureDelegate(s, id)) && TokensSame(s, EnsureDelegate(s, id))
  {
    var g := GovernanceOf(s);
    SaveGovernanceLeaves(s, g.(totalDelegates := g.totalDelegates + 1));
    forall d: Address
      ensures DelegateOf(EnsureDelegate(s, id), d) == DelegateOf(s, d)
    {
      EnsureDelegateAdds(s, id, d);
    }
    EnsureDelegateAdds(s, id, id);
  }

  lemma StopLeaves(s: Store, delegate: Address, gone: seq<NounId>)
    ensures Leaves(s, StopRepresenting(s, delegate, gone))
  {
    EnsureDelegateLeaves(s, delegate);
  }

  lemma StartLeaves(s: Store, delegate: Address, id: NounId)
    ensures Leaves(s, StartRepresenting(s, delegate, id))
  {
    EnsureDelegateLeaves(s, delegate);
  }

  lemma SenderLeaves(s: Store, from: Address, id: NounId)
    ensures var (after, g) := SenderSide(s, from, id); Leaves(s, after) && SameVoteTotals(GovernanceOf(s), g)
  {
    var f, g := AccountOf(s, from), GovernanceOf(s);
    if from == ZERO_ADDRESS {
      SaveGovernanceLeaves(s, g.(totalTokenHolders := g.totalTokenHolders + 1));
    } else {
      var s1 := if f.delegate.Some? then StopRepresenting(s, f.delegate.value, [id]) else s;
      if f.delegate.Some? {
        StopLeaves(s, f.delegate.value, [id]);
      }
      SaveGovernanceLeaves(s1, g.(currentTokenHolders := g.currentTokenHolders - 1));
    }
  }

  lemma BurnLeaves(s: Store, g: Governance, to: Address)
    requires SameVoteTotals(GovernanceOf(s), g)
    ensures var (after, g1) := BurnSide(s, g, to); Leaves(s, after) && SameVoteTotals(GovernanceOf(after), g1)
  {
  }

  lemma CreditLeaves(s: Store, g: Governance, t: Account, to: Address, id: NounId)
    requires SameVoteTotals(GovernanceOf(s), g)
    ensures Leaves(s, CreditSide(s, g, t, to, id))
  {
  }

  lemma ReceiverLeaves(s: Store, g: Governance, t: Account, to: Address, id: NounId)
    requires SameVoteTotals(GovernanceOf(s), g)
    ensures Leaves(s, ReceiverSide(s, g, t, to, id))
  {
    var (s1, g1) := BurnSide(s, g, to);
    var s2 := StartRepresenting(s1, t.delegate.GetOr(to), id);
    BurnLeaves(s, g, to);
    StartLeaves(s1, t.delegate.GetOr(to), id);
    CreditLeaves(s2, g1, t, to, id);
    LeavesTrans(s, s1, s2);
    LeavesTrans(s, s2, CreditSide(s2, g1, t, to, id));
  }

  lemma TransferLeaves(s: Store, from: Address, to: Address, id: NounId)
    ensures Leaves(s, AfterTransfer(s, from, to, id))
  {
    var s0 := EnsureAccount(EnsureAccount(s, from), to);
    var (s1, g) := SenderSide(s0, from, id);
    EnsureAccountsAdds(s, from, to, from);
    SenderLeaves(s0, from, id);
    ReceiverLeaves(s1, g, s0.accounts[to], to, id);
    LeavesTrans(s0, s1, AfterTransfer(s, from, to, id));
  }

  lemma RedelegateLeaves(s: Store, delegator: Address, fromDelegate: Address, toDelegate: Address)
    requires delegator in s.accounts && fromDelegate in s.delegates && toDelegate in s.delegates
    ensures Leaves(s, Redelegate(s, delegator, fromDelegate, toDelegate))
  {
  }

  lemma EnsureTwoLeaves(s: Store, a: Address, b: Address)
    ensures Leaves(s, EnsureDelegate(EnsureDelegate(s, a), b))
  {
    EnsureDelegateLeaves(s, a);
    EnsureDelegateLeaves(EnsureDelegate(s, a), b);
    LeavesTrans(s, EnsureDelegate(s, a), EnsureDelegate(EnsureDelegate(s, a), b));
  }

  lemma EnsureAccountLeaves(s: Store, id: Address)
    ensures Leaves(s, EnsureAccount(s, id))
  {
  }

  lemma DelegationLeaves(s: Store, delegator: Address, fromDelegate: Address, toDelegate: Address)
    ensures Leaves(s, AfterDelegateChanged(s, delegator, fromDelegate, toDelegate))
  {
    var s0 := EnsureAccount(s, delegator);
    var s1 := EnsureDelegate(EnsureDelegate(s0, fromDelegate), toDelegate);
    EnsureAccountLeaves(s, delegator);
    EnsureTwoLeaves(s0, fromDelegate, toDelegate);
    RedelegateLeaves(s1, delegator, fromDelegate, toDelegate);
    LeavesTrans(s, s0, s1);
    LeavesTrans(s, s1, Redelegate(s1, delegator, fromDelegate, toDelegate));
  }

  // ---------- the other handlers leave the token index alone ----------

  lemma VotesChangedLeaves(s: Store, delegate: Address, previousBalance: nat, newBalance: nat)
    ensures var after := AfterVotesChanged(s, delegate, previousBalance, newBalance); TokensSame(s, after) && GovernorSame(s, after)
  {
    EnsureDelegateLeaves(s, delegate);
  }

  lemma CountLeaves(s: Store, id: ProposalId)
    ensures TokensSame(s, CountProposal(s, id)) && VotesSame(s, CountProposal(s, id))
  {
  }

  lemma TokensTrans(s: Store, mid: Store, after: Store)
    requires TokensSame(s, mid) && TokensSame(mid, after)
    ensures TokensSame(s, after)
  {
  }

  /** What a store looks like to the other handlers once a proposal and the parameters are saved. */
  lemma GovernorOnly(s: Store, after: Store)
    requires after.accounts == s.accounts && after.delegates == s.delegates && after.nouns == s.nouns && after.governance == s.governance
    ensures TokensSame(s, after) && VotesSame(s, after)
  {
  }

  lemma CreatedLeaves(s: Store, block: nat, id: ProposalId, proposer: Address, startBlock: nat, endBlock: nat, quorumVotes: nat)
    ensures var after := AfterProposalCreated(s, block, id, proposer, startBlock, endBlock, quorumVotes);
            TokensSame(s, after) && VotesSame(s, after)
  {
    var s1 := CountProposal(s, id);
    var s2 := EnsureDelegate(s1, proposer);
    var after := AfterProposalCreated(s, block, id, proposer, startBlock, endBlock, quorumVotes);
    CountLeaves(s, id);
    EnsureDelegateLeaves(s1, proposer);
    GovernorOnly(s2, after);
    TokensTrans(s, s1, s2);
    TokensTrans(s, s2, after);
    VotesTrans(s, s1, s2);
    VotesTrans(s, s2, after);
  }

  /** A new proposal's supply is the number of minted and not burned nouns that the store counts. */
  lemma CreatedSupply(s: Store, t: Truth, block: nat, id: ProposalId, proposer: Address, startBlock: nat, endBlock: nat, quorumVotes: nat)
    requires TotalsRight(s, t)
    ensures AfterProposalCreated(s, block, id, proposer, startBlock, endBlock, quorumVotes).proposals[id].totalSupply == |t.Live()|
  {
    CountLeaves(s, id);
    EnsureDelegateAdds(CountProposal(s, id), proposer, proposer);
  }

  lemma VoteCastLeaves(s: Store, block: nat, id: ProposalId, voter: Address, support: nat, votes: nat)
    requires AfterVoteCast(s, block, id, voter, support, votes).Some?
    ensures var after := AfterVoteCast(s, block, id, voter, support, votes).value; TokensSame(s, after) && VotesSame(s, after)
  {
    EnsureDelegateLeaves(s, voter);
  }
}
