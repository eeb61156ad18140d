/**
 The indexer itself: a store of entities that the handlers load copies from and save copies to. Each
 handler is proved to take the store to what the function of its event says.
 */
module Subgraph {
  import opened DelegatedVotes
  import opened Entities
  import opened Events
  import opened Governor
  import opened Lists
  import opened Quorum
  import opened TokenIndex
  import opened Wrappers

  class Subgraph {
    var accounts: map<Address, Account>
    var delegates: map<Address, Delegate>
    var governance: Option<Governance>
    var nouns: map<NounId, Address>
    var proposals: map<ProposalId, Proposal>
    var votes: map<VoteId, Vote>
    var params: Option<QuorumParams>

    ghost function View(): Store
      reads this
    {
      Store(accounts, delegates, governance, nouns, proposals, votes, params)
    }

    constructor ()
      ensures View() == EMPTY_STORE
    {
      accounts, delegates, governance, nouns := map[], map[], None, map[];
      proposals, votes, params := map[], map[], None;
    }

    // ---------- load or create ----------

    method GetOrCreateAccount(id: Address) returns (tokenHolder: Account)
      modifies this`accounts
      ensures View() == EnsureAccount(old(View()), id)
      ensures id in accounts && tokenHolder == accounts[id]
    {
      if id !in accounts {
        accounts := accounts[id := NEW_ACCOUNT];
      }
      tokenHolder := accounts[id];
    }

    /** The entity is not saved when it is new. */
    method GetGovernanceEntity() returns (g: Governance)
      ensures g == GovernanceOf(View())
    {
      g := if governance.None? then NEW_GOVERNANCE else governance.value;
    }

    method GetOrCreateDelegate(id: Address) returns (delegate: Delegate)
      modifies this`delegates, this`governance
      ensures View() == EnsureDelegate(old(View()), id)
      ensures id in delegates && delegate == delegates[id]
    {
      if id !in delegates {
        if id != ZERO_ADDRESS {
          var g := GetGovernanceEntity();
          governance := Some(g.(totalDelegates := g.totalDelegates + 1));
        }
        delegates := delegates[id := NEW_DELEGATE];
      }
      delegate := delegates[id];
    }

    method GetOrCreateParams(block: Option<nat>) returns (p: QuorumParams)
      modifies this`params
      ensures View() == EnsureParams(old(View()), block)
      ensures params == Some(p)
    {
      if params.None? {
        params := Some(QuorumParams(0, 0, 0, block));
      }
      p := params.value;
      if p.dynamicQuorumStartBlock.None? && block.Some? {
        p := p.(dynamicQuorumStartBlock := block);
        params := Some(p);
      }
    }

    // ---------- tokens ----------

    /**
     The sender's side of a transfer; returns the governance copy, changed or not. A balance that went
     down cannot have left zero, so that branch of the source is dead.
     */
    method DebitSender(from: Address, fromHolder: Account, g: Governance, noun: NounId) returns (g': Governance)
      requires fromHolder == AccountOf(View(), from) && g == GovernanceOf(View())
      modifies this`accounts, this`delegates, this`governance
      ensures (View(), g') == SenderSide(old(View()), from, noun)
    {
      g' := g;
      if from == ZERO_ADDRESS {
        g' := g'.(totalTokenHolders := g'.totalTokenHolders + 1);
        governance := Some(g');
      } else {
        var previousBalance := fromHolder.tokenBalanceRaw;
        var holder := fromHolder.(tokenBalanceRaw := previousBalance - 1, tokenBalance := previousBalance - 1,
                                  nouns := Without(fromHolder.nouns, [noun]));
        if holder.delegate.Some? {
          var holderDelegate := GetOrCreateDelegate(holder.delegate.value);
          delegates := delegates[holder.delegate.value :=
                                   holderDelegate.(nounsRepresented := Without(holderDelegate.nounsRepresented, [noun]))];
        }
        if holder.tokenBalanceRaw == 0 && previousBalance > 0 {
          g' := g'.(currentTokenHolders := g'.currentTokenHolders - 1);
          governance := Some(g');
          holder := holder.(delegate := None);
        }
        accounts := accounts[from := holder];
      }
    }

    /** The receiver's side; a balance that went up cannot have reached zero from above. */
    method CreditReceiver(to: Address, toHolder: Account, g: Governance, noun: NounId)
      modifies this`accounts, this`delegates, this`governance, this`nouns
      ensures View() == ReceiverSide(old(View()), g, toHolder, to, noun)
    {
      var g' := g;
      if to == ZERO_ADDRESS {
        g' := g'.(totalTokenHolders := g'.totalTokenHolders - 1);
        governance := Some(g');
      }
      var delegateId := if toHolder.delegate.Some? then toHolder.delegate.value else to;
      var holderDelegate := GetOrCreateDelegate(delegateId);
      delegates := delegates[delegateId := holderDelegate.(nounsRepresented := holderDelegate.nounsRepresented + [noun])];
      var previousBalance := toHolder.tokenBalanceRaw;
      var holder := toHolder.(tokenBalanceRaw := previousBalance + 1, tokenBalance := previousBalance + 1,
                              totalTokensHeldRaw := toHolder.totalTokensHeldRaw + 1,
                              totalTokensHeld := toHolder.totalTokensHeldRaw + 1,
                              nouns := toHolder.nouns + [noun]);
      if holder.tokenBalanceRaw > 0 && previousBalance == 0 {
        g' := g'.(currentTokenHolders := g'.currentTokenHolders + 1);
        governance := Some(g');
        holder := holder.(delegate := Some(to));
      }
      nouns := nouns[noun := to];
      accounts := accounts[to := holder];
    }

    /** Both accounts are loaded before either is saved. */
    method HandleTransfer(from: Address, to: Address, noun: NounId)
      modifies this`accounts, this`delegates, this`governance, this`nouns
      ensures View() == AfterTransfer(old(View()), from, to, noun)
    {
      var fromHolder := GetOrCreateAccount(from);
      var toHolder := GetOrCreateAccount(to);
      var g := GetGovernanceEntity();
      g := DebitSender(from, fromHolder, g, noun);
      CreditReceiver(to, toHolder, g, noun);
    }

    static method PushAll(represented: seq<NounId>, accountNouns: seq<NounId>) returns (all: seq<NounId>)
      ensures all == represented + accountNouns
    {
      all := represented;
      for i := 0 to |accountNouns|
        invariant all == represented + accountNouns[..i]
      {
        all := all + [accountNouns[i]];
      }
      assert accountNouns[..|accountNouns|] == accountNouns;
    }

    /** Both delegates are loaded before either is saved; when they are one, the new one's copy wins. */
    method SwapDelegates(delegator: Address, fromDelegate: Address, toDelegate: Address,
                         tokenHolder: Account, previousDelegate: Delegate, newDelegate: Delegate)
      requires delegator in accounts && accounts[delegator] == tokenHolder
      requires fromDelegate in delegates && delegates[fromDelegate] == previousDelegate
      requires toDelegate in delegates && delegates[toDelegate] == newDelegate
      modifies this`accounts, this`delegates
      ensures View() == Redelegate(old(View()), delegator, fromDelegate, toDelegate)
    {
      accounts := accounts[delegator := tokenHolder.(delegate := Some(toDelegate))];
      var previous := previousDelegate.(
        tokenHoldersRepresentedAmount := previousDelegate.tokenHoldersRepresentedAmount - 1,
        nounsRepresented := Without(previousDelegate.nounsRepresented, tokenHolder.nouns));
      var newNounsRepresented := PushAll(newDelegate.nounsRepresented, tokenHolder.nouns);
      var next := newDelegate.(
        tokenHoldersRepresentedAmount := newDelegate.tokenHoldersRepresentedAmount + 1,
        nounsRepresented := newNounsRepresented);
      delegates := delegates[fromDelegate := previous];
      delegates := delegates[toDelegate := next];
    }

    method HandleDelegateChanged(delegator: Address, fromDelegate: Address, toDelegate: Address)
      modifies this`accounts, this`delegates, this`governance
      ensures View() == AfterDelegateChanged(old(View()), delegator, fromDelegate, toDelegate)
    {
      var tokenHolder := GetOrCreateAccount(delegator);
      var previousDelegate := GetOrCreateDelegate(fromDelegate);
      var newDelegate := GetOrCreateDelegate(toDelegate);
      SwapDelegates(delegator, fromDelegate, toDelegate, tokenHolder, previousDelegate, newDelegate);
    }

    method HandleDelegateVotesChanged(delegateId: Address, previousBalance: nat, newBalance: nat)
      modifies this`delegates, this`governance
      ensures View() == AfterVotesChanged(old(View()), delegateId, previousBalance, newBalance)
    {
      var g := GetGovernanceEntity();
      var delegate := GetOrCreateDelegate(delegateId);
      var votesDifference := newBalance - previousBalance;
      delegates := delegates[delegateId := delegate.(delegatedVotesRaw := newBalance, delegatedVotes := newBalance)];
      if previousBalance == 0 && newBalance > 0 {
        g := g.(currentDelegates := g.currentDelegates + 1);
      }
      if newBalance == 0 {
        g := g.(currentDelegates := g.currentDelegates - 1);
      }
      g := g.(delegatedVotesRaw := g.delegatedVotesRaw + votesDifference);
      g := g.(delegatedVotes := g.delegatedVotesRaw);
      governance := Some(g);
    }

    // ---------- proposals ----------

    method HandleProposalCreated(block: nat, id: ProposalId, proposer: Address, startBlock: nat, endBlock: nat, quorumVotes: nat)
      modifies this`delegates, this`governance, this`proposals, this`params
      ensures View() == AfterProposalCreated(old(View()), block, id, proposer, startBlock, endBlock, quorumVotes)
    {
      var executionETA := None;
      if id in proposals {
        executionETA := proposals[id].executionETA;
      } else {
        var g := GetGovernanceEntity();
        governance := Some(g.(proposals := g.proposals + 1));
      }
      var proposerDelegate := GetOrCreateDelegate(proposer);
      var status := if block >= startBlock then ACTIVE else PENDING;
      var g := GetGovernanceEntity();
      var dynamicQuorum := GetOrCreateParams(None);
      proposals := proposals[id := Proposal(proposer, block, startBlock, endBlock, quorumVotes, 0, 0, 0, status, executionETA,
                                            g.totalTokenHolders, dynamicQuorum.minQuorumVotesBPS,
                                            dynamicQuorum.maxQuorumVotesBPS, dynamicQuorum.quorumCoefficient)];
    }

    /** A proposal that was never created lacks required fields and cannot be saved. */
    method SetStatus(id: ProposalId, status: Status) returns (ok: bool)
      modifies this`proposals
      ensures ok <==> AfterStatus(old(View()), id, status).Some?
      ensures View() == AfterStatus(old(View()), id, status).GetOr(old(View()))
    {
      ok := id in proposals;
      if ok {
        proposals := proposals[id := proposals[id].(status := status)];
      }
    }

    method HandleProposalQueued(id: ProposalId, eta: nat) returns (ok: bool)
      modifies this`proposals, this`governance
      ensures ok <==> AfterQueued(old(View()), id, eta).Some?
      ensures View() == AfterQueued(old(View()), id, eta).GetOr(old(View()))
    {
      var g := GetGovernanceEntity();
      ok := id in proposals;
      if ok {
        proposals := proposals[id := proposals[id].(status := QUEUED, executionETA := Some(eta))];
        governance := Some(g.(proposalsQueued := g.proposalsQueued + 1));
      }
    }

    method HandleProposalExecuted(id: ProposalId) returns (ok: bool)
      modifies this`proposals, this`governance
      ensures ok <==> AfterExecuted(old(View()), id).Some?
      ensures View() == AfterExecuted(old(View()), id).GetOr(old(View()))
    {
      var g := GetGovernanceEntity();
      ok := id in proposals;
      if ok {
        proposals := proposals[id := proposals[id].(status := EXECUTED, executionETA := None)];
        governance := Some(g.(proposalsQueued := g.proposalsQueued - 1));
      }
    }

    /** An aborted handler leaves the store as it was. */
    method HandleVoteCast(block: nat, id: ProposalId, voterId: Address, support: nat, votesCast: nat) returns (ok: bool)
      modifies this`delegates, this`governance, this`proposals, this`votes, this`params
      ensures ok <==> AfterVoteCast(old(View()), block, id, voterId, support, votesCast).Some?
      ensures View() == AfterVoteCast(old(View()), block, id, voterId, support, votesCast).GetOr(old(View()))
    {
      if id !in proposals {
        return false;
      }
      var proposal := proposals[id];
      var savedDelegates, savedGovernance, savedParams := delegates, governance, params;
      var voter := GetOrCreateDelegate(voterId);
      var vote := Vote(votesCast, votesCast, support, voter.nounsRepresented, block);
      if support == 0 {
        proposal := proposal.(againstVotes := proposal.againstVotes + votesCast);
      } else if support == 1 {
        proposal := proposal.(forVotes := proposal.forVotes + votesCast);
      } else if support == 2 {
        proposal := proposal.(abstainVotes := proposal.abstainVotes + votesCast);
      }
      var dqParams := GetOrCreateParams(None);
      if UsesDynamicQuorum(Some(dqParams), proposal.createdBlock) {
        var quorum := DynamicQuorumVotes(proposal.againstVotes, proposal.totalSupply, proposal.minQuorumVotesBPS,
                                         proposal.maxQuorumVotesBPS, proposal.quorumCoefficient);
        if quorum.None? {
          delegates, governance, params := savedDelegates, savedGovernance, savedParams;
          return false;
        }
        proposal := proposal.(quorumVotes := quorum.value);
      }
      if proposal.status == PENDING {
        proposal := proposal.(status := ACTIVE);
      }
      votes := votes[VoteId(voterId, id) := vote];
      proposals := proposals[id := proposal];
      return true;
    }

    method HandleParamSet(block: nat, param: Param)
      modifies this`params
      ensures View() == AfterParamSet(old(View()), block, param)
    {
      var p := GetOrCreateParams(Some(block));
      match param {
        case MinQuorumVotesBPS(bps) => p := p.(minQuorumVotesBPS := bps);
        case MaxQuorumVotesBPS(bps) => p := p.(maxQuorumVotesBPS := bps);
        case QuorumCoefficient(coefficient) => p := p.(quorumCoefficient := coefficient);
      }
      params := Some(p);
    }

    // ---------- runs ----------

    /** One event; an aborted handler leaves the store as it was. */
    method Dispatch(e: Event) returns (ok: bool)
      modifies this
      ensures ok <==> Step(old(View()), e).Some?
      ensures View() == Step(old(View()), e).GetOr(old(View()))
    {
      ok := true;
      match e.action {
        case Transfer(from, to, noun) => HandleTransfer(from, to, noun);
        case DelegateChanged(delegator, fromDelegate, toDelegate) => HandleDelegateChanged(delegator, fromDelegate, toDelegate);
        case DelegateVotesChanged(delegate, previous, next) => HandleDelegateVotesChanged(delegate, previous, next);
        case ProposalCreated(id, proposer, start, end, quorum) => HandleProposalCreated(e.block, id, proposer, start, end, quorum);
        case ProposalCanceled(id) => ok := SetStatus(id, CANCELLED);
        case ProposalVetoed(id) => ok := SetStatus(id, VETOED);
        case ProposalQueued(id, eta) => ok := HandleProposalQueued(id, eta);
        case ProposalExecuted(id) => ok := HandleProposalExecuted(id);
        case VoteCast(id, voter, support, votesCast) => ok := HandleVoteCast(e.block, id, voter, support, votesCast);
        case ParamSet(param) => HandleParamSet(e.block, param);
      }
    }

    /** A run of events, up to the first handler that aborts. */
    method Index(events: seq<Event>) returns (ok: bool)
      modifies this
      ensures ok <==> Run(old(View()), events).Some?
      ensures ok ==> Run(old(View()), events) == Some(View())
    {
      for i := 0 to |events|
        invariant Run(old(View()), events[..i]) == Some(View())
      {
        ok := Dispatch(events[i]);
        assert events[..i + 1][..i] == events[..i];
        if !ok {
          AbortedRun(old(View()), events, i + 1);
          return;
        }
      }
      assert events[..|events|] == events;
      ok := true;
    }
  }

  /** A run does not go on after a handler aborted. */
  lemma {:induction false} AbortedRun(s: Store, events: seq<Event>, i: nat)
    requires i <= |events| && Run(s, events[..i]).None?
    ensures Run(s, events).None?
    decreases |events|
  {
    if i < |events| {
      assert events[..|events| - 1][..i] == events[..i];
      AbortedRun(s, events[..|events| - 1], i);
    } else {
      assert events[..i] == events;
    }
  }
}
