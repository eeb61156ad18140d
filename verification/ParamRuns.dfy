/**
 The quorum parameters as the events of a whole run set them, and the quorum of a proposal from
 nothing: in terms of the run's events alone.
 */
module ParamRuns {
  import opened Entities
  import opened Events
  import opened Frames
  import opened Governor
  import opened TokenIndex
  import opened VoteRuns
  import opened Wrappers

  // ---------- what the events of a run set ----------

  /** The block of the first parameter event. */
  function FirstSet(es: seq<Event>): Option<nat> {
    if es == [] then None
    else
      var before, last := FirstSet(es[..|es| - 1]), es[|es| - 1];
      if before.None? && last.action.ParamSet? then Some(last.block) else before
  }

  /** The value of the last event of each kind, and 0 before the first. */
  function LastMin(es: seq<Event>): nat {
    if es == [] then 0
    else
      match es[|es| - 1].action
      case ParamSet(MinQuorumVotesBPS(bps)) => bps
      case _ => LastMin(es[..|es| - 1])
  }

  function LastMax(es: seq<Event>): nat {
    if es == [] then 0
    else
      match es[|es| - 1].action
      case ParamSet(MaxQuorumVotesBPS(bps)) => bps
      case _ => LastMax(es[..|es| - 1])
  }

  function LastCoefficient(es: seq<Event>): nat {
    if es == [] then 0
    else
      match es[|es| - 1].action
      case ParamSet(QuorumCoefficient(coefficient)) => coefficient
      case _ => LastCoefficient(es[..|es| - 1])
  }

  /** Parameters that were never saved read as zeros that have not started. */
  function Stored(s: Store): QuorumParams {
    if s.params.Some? then s.params.value else QuorumParams(0, 0, 0, None)
  }

  lemma TokenStepKeepsParams(s: Store, e: Event)
    requires e.action.Transfer? || e.action.DelegateChanged? || e.action.DelegateVotesChanged?
    ensures Step(s, e).value.params == s.params
  {
    match e.action {
      case Transfer(from, to, noun) => TransferLeaves(s, from, to, noun);
      case DelegateChanged(delegator, fromDelegate, toDelegate) => DelegationLeaves(s, delegator, fromDelegate, toDelegate);
      case DelegateVotesChanged(delegate, previous, next) => VotesChangedLeaves(s, delegate, previous, next);
    }
  }

  lemma CreatedKeepsParams(s: Store, e: Event)
    requires e.action.ProposalCreated?
    ensures Stored(Step(s, e).value) == Stored(s)
  {
    EnsureDelegateLeaves(CountProposal(s, e.action.id), e.action.proposer);
  }

  /** Only a parameter event changes the parameters. */
  lemma OtherStep(s: Store, e: Event)
    requires Step(s, e).Some? && !e.action.ParamSet?
    ensures Stored(Step(s, e).value) == Stored(s)
  {
    match e.action {
      case Transfer(_, _, _) => TokenStepKeepsParams(s, e);
      case DelegateChanged(_, _, _) => TokenStepKeepsParams(s, e);
      case DelegateVotesChanged(_, _, _) => TokenStepKeepsParams(s, e);
      case ProposalCreated(_, _, _, _, _) => CreatedKeepsParams(s, e);
      case VoteCast(_, _, _, _) => VoteParts(s, e);
      case _ =>
    }
  }

  /**
   After every run the start block is the block of the first parameter event, and absent before any;
   each parameter is what the last event of its kind set, and 0 if there was none.
   */
  lemma {:induction false} ParamsOverRun(es: seq<Event>)
    requires Run(EMPTY_STORE, es).Some?
    ensures Stored(Run(EMPTY_STORE, es).value) == QuorumParams(LastMin(es), LastMax(es), LastCoefficient(es), FirstSet(es))
  {
    if es != [] {
      var prefix, e := es[..|es| - 1], es[|es| - 1];
      ParamsOverRun(prefix);
      if !e.action.ParamSet? {
        OtherStep(Run(EMPTY_STORE, prefix).value, e);
      }
    }
  }

  // ---------- the quorum of a proposal, from nothing ----------

  lemma SplitRun(before: seq<Event>, created: Event, es: seq<Event>)
    requires Run(EMPTY_STORE, before + [created] + es).Some?
    ensures Run(EMPTY_STORE, before).Some? && Step(Run(EMPTY_STORE, before).value, created).Some?
    ensures Run(EMPTY_STORE, before + [created] + es) == Run(Step(Run(EMPTY_STORE, before).value, created).value, es)
  {
    RunAppend(EMPTY_STORE, before + [created], es);
    RunLast(EMPTY_STORE, before, created);
  }

  lemma SupplyBefore(before: seq<Event>)
    requires WellFormedRun(EMPTY_STORE, NO_NOUNS, before)
    ensures Run(EMPTY_STORE, before).Some?
    ensures GovernanceOf(Run(EMPTY_STORE, before).value).totalTokenHolders == Moved(before, true) - Moved(before, false) >= 0
  {
    EveryRunIsSound(before);
    SupplyAfterEveryRun(before);
  }

  lemma QuorumFromStore(s: Store, supply: int, params: QuorumParams, created: Event, mid: Store, es: seq<Event>)
    requires created.action.ProposalCreated? && Some(mid) == Step(s, created) && Run(mid, es).Some?
    requires Clocked(es, created.block) && NotRecreated(es, created.action.id)
    requires Stored(s) == params && GovernanceOf(s).totalTokenHolders == supply >= 0
    ensures created.action.id in Run(mid, es).value.proposals
    ensures var quorum := Run(mid, es).value.proposals[created.action.id].quorumVotes;
            var dynamic := params.dynamicQuorumStartBlock.Some? && params.dynamicQuorumStartBlock.value < created.block;
            if dynamic && VotedOn(es, created.action.id) then
              IsFloorQuorum(quorum, Against(es, created.action.id), supply,
                            params.minQuorumVotesBPS, params.maxQuorumVotesBPS, params.quorumCoefficient)
            else quorum == created.action.quorumVotes
  {
    QuorumFromCreation(s, created, mid, es);
  }

  /**
   The quorum of a proposal in terms of the events before and after its creation. Once it has been
   voted on, and if the first parameter event was in an earlier block than its own, it is the floor
   quorum of the votes against since, under the nouns minted and not burned before, and the minimum,
   the maximum and the coefficient set last before; otherwise it is the quorum of its creation event.
   */
  lemma QuorumFromEvents(before: seq<Event>, created: Event, es: seq<Event>)
    requires created.action.ProposalCreated? && WellFormedRun(EMPTY_STORE, NO_NOUNS, before)
    requires Run(EMPTY_STORE, before + [created] + es).Some?
    requires Clocked(es, created.block) && NotRecreated(es, created.action.id)
    ensures created.action.id in Run(EMPTY_STORE, before + [created] + es).value.proposals
    ensures var quorum := Run(EMPTY_STORE, before + [created] + es).value.proposals[created.action.id].quorumVotes;
            var dynamic := FirstSet(before).Some? && FirstSet(before).value < created.block;
            if dynamic && VotedOn(es, created.action.id) then
              IsFloorQuorum(quorum, Against(es, created.action.id), Moved(before, true) - Moved(before, false),
                            LastMin(before), LastMax(before), LastCoefficient(before))
            else quorum == created.action.quorumVotes
  {
    SplitRun(before, created, es);
    SupplyBefore(before);
    ParamsOverRun(before);
    var s := Run(EMPTY_STORE, before).value;
    QuorumFromStore(s, Moved(before, true) - Moved(before, false),
                    QuorumParams(LastMin(before), LastMax(before), LastCoefficient(before), FirstSet(before)),
                    created, Step(s, created).value, es);
  }
}
