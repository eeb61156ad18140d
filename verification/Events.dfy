/** The subgraph as a state machine over its events, and what holds after every run. */
module Events {
  import opened DelegatedVotes
  import opened Entities
  import opened Frames
  import opened Governor
  import Lists
  import opened TokenIndex
  import opened Wrappers

  datatype Action =
    | Transfer(from: Address, to: Address, noun: NounId)
    | DelegateChanged(delegator: Address, fromDelegate: Address, toDelegate: Address)
    | DelegateVotesChanged(delegate: Address, previousBalance: nat, newBalance: nat)
    | ProposalCreated(id: ProposalId, proposer: Address, startBlock: nat, endBlock: nat, quorumVotes: nat)
    | ProposalCanceled(id: ProposalId)
    | ProposalVetoed(id: ProposalId)
    | ProposalQueued(id: ProposalId, eta: nat)
    | ProposalExecuted(id: ProposalId)
    | VoteCast(id: ProposalId, voter: Address, support: nat, votes: nat)
    | ParamSet(param: Param)

  datatype Event = Event(block: nat, action: Action)

  /** `None` when the handler aborts, which stops the indexing. */
  function Step(s: Store, e: Event): Option<Store> {
    match e.action
    case Transfer(from, to, noun) => Some(AfterTransfer(s, from, to, noun))
    case DelegateChanged(delegator, fromDelegate, toDelegate) => Some(AfterDelegateChanged(s, delegator, fromDelegate, toDelegate))
    case DelegateVotesChanged(delegate, previous, next) => Some(AfterVotesChanged(s, delegate, previous, next))
    case ProposalCreated(id, proposer, start, end, quorum) => Some(AfterProposalCreated(s, e.block, id, proposer, start, end, quorum))
    case ProposalCanceled(id) => AfterStatus(s, id, CANCELLED)
    case ProposalVetoed(id) => AfterStatus(s, id, VETOED)
    case ProposalQueued(id, eta) => AfterQueued(s, id, eta)
    case ProposalExecuted(id) => AfterExecuted(s, id)
    case VoteCast(id, voter, support, votes) => AfterVoteCast(s, e.block, id, voter, support, votes)
    case ParamSet(param) => Some(AfterParamSet(s, e.block, param))
  }

  function Run(s: Store, es: seq<Event>): Option<Store> {
    if es == [] then Some(s)
    else
      var before :- Run(s, es[..|es| - 1]);
      Step(before, es[|es| - 1])
  }

  function TruthStep(t: Truth, action: Action): Truth {
    match action
    case Transfer(from, to, noun) => TruthTransfer(t, from, to, noun)
    case DelegateChanged(delegator, _, toDelegate) => TruthDelegateChanged(t, delegator, toDelegate)
    case _ => t
  }

  function TruthRun(t: Truth, es: seq<Event>): Truth {
    if es == [] then t else TruthStep(TruthRun(t, es[..|es| - 1]), es[|es| - 1].action)
  }

  /**
   What is assumed of the events. The contracts do not guarantee all of it: they let an owner send a
   noun to itself, and anybody delegate, with or without nouns, also to the same delegate again.
   `ContractRuns` says which runs of the contracts' events meet the assumptions on tokens.
   */
  predicate WellFormed(s: Store, t: Truth, action: Action) {
    match action
    case Transfer(from, to, noun) => WellFormedTransfer(t, from, to, noun)
    case DelegateChanged(delegator, fromDelegate, toDelegate) => WellFormedDelegateChanged(t, delegator, fromDelegate, toDelegate)
    case DelegateVotesChanged(delegate, previous, next) => WellFormedVotesChanged(s, delegate, previous, next)
    case ProposalCreated(id, _, _, _, _) => id !in s.proposals
    case VoteCast(id, voter, _, _) => FirstVote(s, id, voter)
    case _ => true
  }

  /** Every event is well formed in the state it meets, and no handler aborts. */
  predicate WellFormedRun(s: Store, t: Truth, es: seq<Event>) {
    es == [] ||
    var before, last := Run(s, es[..|es| - 1]), es[|es| - 1];
    && WellFormedRun(s, t, es[..|es| - 1])
    && before.Some? && WellFormed(before.value, TruthRun(t, es[..|es| - 1]), last.action)
    && Step(before.value, last).Some?
  }

  /** A proposal that is still pending or active has no execution ETA. */
  predicate NoEarlyETA(p: Proposal) {
    (p.status == PENDING || p.status == ACTIVE) ==> p.executionETA.None?
  }

  ghost predicate ProposalsRight(s: Store) {
    forall id <- s.proposals :: NoEarlyETA(s.proposals[id]) && s.proposals[id].totalSupply >= 0
  }

  /** The store agrees with the ground truth, with the recorded balances and with the stored votes. */
  ghost predicate Sound(s: Store, t: Truth) {
    Right(s, t) && VotesRight(s) && Conserved(s) && ProposalsRight(s)
  }

  lemma EmptyIsSound()
    ensures Sound(EMPTY_STORE, NO_NOUNS)
  {
    forall a: Address
      ensures AccountRight(EMPTY_STORE, NO_NOUNS, a)
    {
    }
    assert NO_NOUNS.Live() == {};
    assert Active(EMPTY_STORE.delegates) == {};
  }

  lemma ConservedSame(s: Store, after: Store)
    requires Conserved(s) && GovernorSame(s, after)
    ensures Conserved(after)
  {
    forall id | id in after.proposals
      ensures TalliesRight(after, id)
    {
      assert TalliesRight(s, id);
    }
  }

  /** Changing a proposal's status or ETA changes no tally. */
  lemma ConservedStatus(s: Store, after: Store, id: ProposalId, status: Status, eta: Option<nat>)
    requires Conserved(s) && id in s.proposals && after.votes == s.votes
    requires after.proposals == s.proposals[id := s.proposals[id].(status := status, executionETA := eta)]
    ensures Conserved(after)
  {
    forall other | other in after.proposals
      ensures TalliesRight(after, other)
    {
      assert TalliesRight(s, other);
    }
  }

  lemma TokenStep(s: Store, t: Truth, e: Event)
    requires Sound(s, t) && WellFormed(s, t, e.action) && Step(s, e).Some?
    requires e.action.Transfer? || e.action.DelegateChanged?
    ensures Sound(Step(s, e).value, TruthStep(t, e.action))
  {
    var after := Step(s, e).value;
    match e.action {
      case Transfer(from, to, noun) =>
        TransferExact(s, t, from, to, noun);
        TransferLeaves(s, from, to, noun);
      case DelegateChanged(delegator, fromDelegate, toDelegate) =>
        DelegationExact(s, t, delegator, fromDelegate, toDelegate);
        DelegationLeaves(s, delegator, fromDelegate, toDelegate);
    }
    VotesKept(s, after);
    ConservedSame(s, after);
  }

  lemma VotesStep(s: Store, t: Truth, e: Event)
    requires Sound(s, t) && WellFormed(s, t, e.action) && e.action.DelegateVotesChanged?
    ensures Sound(Step(s, e).value, t)
  {
    var DelegateVotesChanged(delegate, previous, next) := e.action;
    VotesChangedExact(s, delegate, previous, next);
    VotesChangedLeaves(s, delegate, previous, next);
    TokensKept(s, Step(s, e).value, t);
    ConservedSame(s, Step(s, e).value);
  }

  lemma CreatedProposals(s: Store, t: Truth, e: Event)
    requires ProposalsRight(s) && TotalsRight(s, t) && e.action.ProposalCreated? && e.action.id !in s.proposals
    ensures ProposalsRight(Step(s, e).value)
  {
    var ProposalCreated(id, proposer, start, end, quorum) := e.action;
    CreatedSupply(s, t, e.block, id, proposer, start, end, quorum);
    EnsureDelegateLeaves(CountProposal(s, id), proposer);
    forall other | other in Step(s, e).value.proposals
      ensures NoEarlyETA(Step(s, e).value.proposals[other]) && Step(s, e).value.proposals[other].totalSupply >= 0
    {
      if other != id {
        assert NoEarlyETA(s.proposals[other]) && s.proposals[other].totalSupply >= 0;
      }
    }
  }

  lemma CreatedStep(s: Store, t: Truth, e: Event)
    requires Sound(s, t) && WellFormed(s, t, e.action) && e.action.ProposalCreated?
    ensures Sound(Step(s, e).value, t)
  {
    var ProposalCreated(id, proposer, start, end, quorum) := e.action;
    CreatedLeaves(s, e.block, id, proposer, start, end, quorum);
    CreatedConserves(s, e.block, id, proposer, start, end, quorum);
    CreatedProposals(s, t, e);
    TokensKept(s, Step(s, e).value, t);
    VotesKept(s, Step(s, e).value);
  }

  lemma CastProposals(s: Store, block: nat, id: ProposalId, voter: Address, support: nat, votes: nat)
    requires ProposalsRight(s) && AfterVoteCast(s, block, id, voter, support, votes).Some?
    ensures ProposalsRight(AfterVoteCast(s, block, id, voter, support, votes).value)
  {
    var after := AfterVoteCast(s, block, id, voter, support, votes).value;
    forall other | other in after.proposals
      ensures NoEarlyETA(after.proposals[other]) && after.proposals[other].totalSupply >= 0
    {
      assert NoEarlyETA(s.proposals[other]) && s.proposals[other].totalSupply >= 0;
    }
  }

  lemma CastStep(s: Store, t: Truth, e: Event)
    requires Sound(s, t) && WellFormed(s, t, e.action) && e.action.VoteCast? && Step(s, e).Some?
    ensures Sound(Step(s, e).value, t)
  {
    var VoteCast(id, voter, support, votes) := e.action;
    VoteCastLeaves(s, e.block, id, voter, support, votes);
    VoteCastExact(s, e.block, id, voter, support, votes);
    CastProposals(s, e.block, id, voter, support, votes);
    TokensKept(s, Step(s, e).value, t);
    VotesKept(s, Step(s, e).value);
  }

  /** Only a proposal's status, its ETA and the queue counter change. */
  lemma StatusFrame(s: Store, e: Event)
    requires Step(s, e).Some?
    requires e.action.ProposalCanceled? || e.action.ProposalVetoed? || e.action.ProposalQueued? || e.action.ProposalExecuted?
    ensures var after, id := Step(s, e).value, e.action.id;
            && TokensSame(s, after) && VotesSame(s, after) && after.votes == s.votes
            && id in s.proposals && id in after.proposals
            && after.proposals == s.proposals[id := s.proposals[id].(status := after.proposals[id].status,
                                                                     executionETA := after.proposals[id].executionETA)]
            && !(after.proposals[id].status == PENDING || after.proposals[id].status == ACTIVE)
  {
  }

  lemma StatusStep(s: Store, t: Truth, e: Event)
    requires Sound(s, t) && Step(s, e).Some?
    requires e.action.ProposalCanceled? || e.action.ProposalVetoed? || e.action.ProposalQueued? || e.action.ProposalExecuted?
    ensures Sound(Step(s, e).value, t)
  {
    var after, id := Step(s, e).value, e.action.id;
    StatusFrame(s, e);
    TokensKept(s, after, t);
    VotesKept(s, after);
    ConservedStatus(s, after, id, after.proposals[id].status, after.proposals[id].executionETA);
  }

  lemma ParamStep(s: Store, t: Truth, e: Event)
    requires Sound(s, t) && e.action.ParamSet?
    ensures Sound(Step(s, e).value, t)
  {
    var after := Step(s, e).value;
    GovernorOnly(s, after);
    TokensKept(s, after, t);
    VotesKept(s, after);
    assert after.proposals == s.proposals && after.votes == s.votes;
    forall id | id in after.proposals
      ensures TalliesRight(after, id)
    {
      assert TalliesRight(s, id);
    }
  }

  /** What every well-formed event keeps. */
  lemma StepKeeps(s: Store, t: Truth, e: Event)
    requires Sound(s, t) && WellFormed(s, t, e.action) && Step(s, e).Some?
    ensures Sound(Step(s, e).value, TruthStep(t, e.action))
  {
    match e.action {
      case Transfer(_, _, _) => TokenStep(s, t, e);
      case DelegateChanged(_, _, _) => TokenStep(s, t, e);
      case DelegateVotesChanged(_, _, _) => VotesStep(s, t, e);
      case ProposalCreated(_, _, _, _, _) => CreatedStep(s, t, e);
      case VoteCast(_, _, _, _) => CastStep(s, t, e);
      case ParamSet(_) => ParamStep(s, t, e);
      case _ => StatusStep(s, t, e);
    }
  }

  /** After every well-formed run the store agrees with the ground truth of the run. */
  lemma {:induction false} RunKeeps(s: Store, t: Truth, es: seq<Event>)
    requires Sound(s, t) && WellFormedRun(s, t, es)
    ensures Run(s, es).Some? && Sound(Run(s, es).value, TruthRun(t, es))
  {
    if es != [] {
      var prefix := es[..|es| - 1];
      RunKeeps(s, t, prefix);
      StepKeeps(Run(s, prefix).value, TruthRun(t, prefix), es[|es| - 1]);
    }
  }

  /** From nothing: the token index, the vote totals and the tallies are right after every well-formed run. */
  lemma EveryRunIsSound(es: seq<Event>)
    requires WellFormedRun(EMPTY_STORE, NO_NOUNS, es)
    ensures Run(EMPTY_STORE, es).Some? && Sound(Run(EMPTY_STORE, es).value, TruthRun(NO_NOUNS, es))
  {
    EmptyIsSound();
    RunKeeps(EMPTY_STORE, NO_NOUNS, es);
  }

  /** The accounts with a positive balance. */
  function Holders(s: Store): set<Address> {
    set a | a in s.accounts && s.accounts[a].tokenBalance > 0
  }

  /**
   Holder accounting: an account's list is what it owns, without repeats, its balance is the length of
   the list, it has a delegate exactly when the balance is positive, and `currentTokenHolders` counts
   the accounts of which that is so.
   */
  lemma HoldersAfterEveryRun(es: seq<Event>, a: Address)
    requires WellFormedRun(EMPTY_STORE, NO_NOUNS, es)
    ensures Run(EMPTY_STORE, es).Some?
    ensures var s, t := Run(EMPTY_STORE, es).value, TruthRun(NO_NOUNS, es);
            && HoldsExactly(NounsOf(s, a), t, a)
            && AccountOf(s, a).tokenBalance == |NounsOf(s, a)|
            && (AccountOf(s, a).delegate.Some? <==> AccountOf(s, a).tokenBalance > 0)
            && GovernanceOf(s).currentTokenHolders == |Holders(s)|
  {
    EveryRunIsSound(es);
    var s, t := Run(EMPTY_STORE, es).value, TruthRun(NO_NOUNS, es);
    Look(s, t, a);
    HoldersDelegate(s, t);
  }

  lemma HoldersDelegate(s: Store, t: Truth)
    requires AccountsRight(s, t)
    ensures Holders(s) == t.delegate.Keys
  {
    forall a
      ensures a in Holders(s) <==> a in t.delegate
    {
      Look(s, t, a);
    }
  }

  /** The transfers of a run from the zero address, or to it. */
  function Moved(es: seq<Event>, mint: bool): nat {
    if es == [] then 0
    else
      var a := es[|es| - 1].action;
      Moved(es[..|es| - 1], mint) + (if a.Transfer? && (if mint then a.from else a.to) == ZERO_ADDRESS then 1 else 0)
  }

  lemma {:induction false} LiveAfterRun(s: Store, t: Truth, es: seq<Event>)
    requires WellFormedRun(s, t, es)
    ensures |TruthRun(t, es).Live()| == |t.Live()| + Moved(es, true) - Moved(es, false)
  {
    if es != [] {
      var prefix, a := es[..|es| - 1], es[|es| - 1].action;
      LiveAfterRun(s, t, prefix);
      if a.Transfer? {
        TransferLive(TruthRun(t, prefix), a.from, a.to, a.noun);
      }
    }
  }

  /** The supply is what was minted minus what was burned. */
  lemma SupplyAfterEveryRun(es: seq<Event>)
    requires WellFormedRun(EMPTY_STORE, NO_NOUNS, es)
    ensures Run(EMPTY_STORE, es).Some?
    ensures GovernanceOf(Run(EMPTY_STORE, es).value).totalTokenHolders == Moved(es, true) - Moved(es, false)
  {
    EveryRunIsSound(es);
    LiveAfterRun(EMPTY_STORE, NO_NOUNS, es);
    assert NO_NOUNS.Live() == {};
  }

  /** And so is the supply that a proposal created then records. */
  lemma NewProposalSupply(es: seq<Event>, block: nat, id: ProposalId, proposer: Address, start: nat, end: nat, quorum: nat)
    requires WellFormedRun(EMPTY_STORE, NO_NOUNS, es)
    ensures Run(EMPTY_STORE, es).Some?
    ensures var after := AfterProposalCreated(Run(EMPTY_STORE, es).value, block, id, proposer, start, end, quorum);
            id in after.proposals && after.proposals[id].totalSupply == Moved(es, true) - Moved(es, false)
  {
    EveryRunIsSound(es);
    SupplyAfterEveryRun(es);
    CreatedSupply(Run(EMPTY_STORE, es).value, TruthRun(NO_NOUNS, es), block, id, proposer, start, end, quorum);
  }

  /** A minted noun is in the list of its owner's recorded delegate, and at no other place of any list. */
  ghost predicate NounOnce(s: Store, t: Truth, n: NounId) {
    && (n in t.owner ==>
          AccountOf(s, t.owner[n]).delegate.Some? && n in RepresentedBy(s, AccountOf(s, t.owner[n]).delegate.value))
    && forall d: Address, e: Address, i, j ::
         0 <= i < |RepresentedBy(s, d)| && 0 <= j < |RepresentedBy(s, e)| &&
         RepresentedBy(s, d)[i] == n == RepresentedBy(s, e)[j] ==>
           d == e && i == j && n in t.owner && AccountOf(s, t.owner[n]).delegate == Some(d)
  }

  lemma EachNounOnce(s: Store, t: Truth, n: NounId)
    requires Right(s, t)
    ensures NounOnce(s, t, n)
  {
    if n in t.owner {
      Look(s, t, t.owner[n]);
      assert t.Owns(t.owner[n], n) && n in NounsOf(s, t.owner[n]);
      assert RepresentsExactly(RepresentedBy(s, t.delegate[t.owner[n]]), t, t.delegate[t.owner[n]]);
    }
    forall d: Address, e: Address, i, j |
      0 <= i < |RepresentedBy(s, d)| && 0 <= j < |RepresentedBy(s, e)| && RepresentedBy(s, d)[i] == n == RepresentedBy(s, e)[j]
      ensures d == e && i == j && n in t.owner && AccountOf(s, t.owner[n]).delegate == Some(d)
    {
      assert RepresentsExactly(RepresentedBy(s, d), t, d) && RepresentsExactly(RepresentedBy(s, e), t, e);
      assert n in RepresentedBy(s, d) && n in RepresentedBy(s, e);
      Lists.DistinctMeans(RepresentedBy(s, d));
      Look(s, t, t.owner[n]);
    }
  }

  /** After every well-formed run each minted noun occurs exactly once across all representation lists. */
  lemma NounsAfterEveryRun(es: seq<Event>, n: NounId)
    requires WellFormedRun(EMPTY_STORE, NO_NOUNS, es)
    ensures Run(EMPTY_STORE, es).Some?
    ensures NounOnce(Run(EMPTY_STORE, es).value, TruthRun(NO_NOUNS, es), n)
  {
    EveryRunIsSound(es);
    EachNounOnce(Run(EMPTY_STORE, es).value, TruthRun(NO_NOUNS, es), n);
  }
}
