/**
 The state that the web app shows of a proposal, from the indexed events: it follows from the last
 event that created, cancelled, vetoed, queued or executed it, and from the votes since.
 */
module StateRuns {
  import opened Entities
  import opened Events
  import opened Frames
  import opened Governor
  import opened ParamRuns
  import opened TokenIndex
  import opened Verdict
  import opened VoteRuns
  import opened Wrappers

  /** The event creates the proposal or sets its status. */
  predicate Touches(a: Action, id: ProposalId) {
    match a
    case ProposalCreated(created, _, _, _, _) => created == id
    case ProposalCanceled(canceled) => canceled == id
    case ProposalVetoed(vetoed) => vetoed == id
    case ProposalQueued(queued, _) => queued == id
    case ProposalExecuted(executed) => executed == id
    case _ => false
  }

  predicate Untouched(es: seq<Event>, id: ProposalId) {
    forall e <- es :: !Touches(e.action, id)
  }

  /** The votes for the proposal that a run casts. */
  function For(es: seq<Event>, id: ProposalId): nat {
    if es == [] then 0
    else
      var a := es[|es| - 1].action;
      For(es[..|es| - 1], id) + (if a.VoteCast? && a.id == id && a.support == 1 then a.votes else 0)
  }

  /** What an event that does not touch a proposal leaves of its record. */
  predicate Passes(s: Store, a: Action, id: ProposalId, after: Store) {
    id in s.proposals && id in after.proposals &&
    var p, q := s.proposals[id], after.proposals[id];
    var voted := a.VoteCast? && a.id == id;
    && q.proposer == p.proposer && SameSnapshot(p, q) && q.executionETA == p.executionETA
    && q.status == (if voted && p.status == PENDING then ACTIVE else p.status)
    && q.againstVotes == p.againstVotes + (if voted && a.support == 0 then a.votes else 0)
    && q.forVotes == p.forVotes + (if voted && a.support == 1 then a.votes else 0)
  }

  lemma TokenStepPasses(s: Store, e: Event, id: ProposalId)
    requires id in s.proposals && (e.action.Transfer? || e.action.DelegateChanged? || e.action.DelegateVotesChanged?)
    ensures Passes(s, e.action, id, Step(s, e).value)
  {
    match e.action {
      case Transfer(from, to, noun) => TransferLeaves(s, from, to, noun);
      case DelegateChanged(delegator, fromDelegate, toDelegate) => DelegationLeaves(s, delegator, fromDelegate, toDelegate);
      case DelegateVotesChanged(delegate, previous, next) => VotesChangedLeaves(s, delegate, previous, next);
    }
  }

  lemma CreatedPasses(s: Store, e: Event, id: ProposalId)
    requires id in s.proposals && e.action.ProposalCreated? && e.action.id != id
    ensures Passes(s, e.action, id, Step(s, e).value)
  {
    EnsureDelegateLeaves(CountProposal(s, e.action.id), e.action.proposer);
  }

  /** A status event of another proposal. */
  lemma StatusPasses(s: Store, e: Event, id: ProposalId)
    requires id in s.proposals && Step(s, e).Some? && !Touches(e.action, id)
    requires e.action.ProposalCanceled? || e.action.ProposalVetoed? || e.action.ProposalQueued? || e.action.ProposalExecuted?
    ensures Passes(s, e.action, id, Step(s, e).value)
  {
    StatusFrame(s, e);
  }

  lemma VotePasses(s: Store, e: Event, id: ProposalId)
    requires id in s.proposals && Step(s, e).Some? && e.action.VoteCast?
    ensures Passes(s, e.action, id, Step(s, e).value)
  {
    VoteParts(s, e);
  }

  lemma StepPasses(s: Store, e: Event, id: ProposalId)
    requires id in s.proposals && Step(s, e).Some? && !Touches(e.action, id)
    ensures Passes(s, e.action, id, Step(s, e).value)
  {
    match e.action {
      case Transfer(_, _, _) => TokenStepPasses(s, e, id);
      case DelegateChanged(_, _, _) => TokenStepPasses(s, e, id);
      case DelegateVotesChanged(_, _, _) => TokenStepPasses(s, e, id);
      case ProposalCreated(_, _, _, _, _) => CreatedPasses(s, e, id);
      case VoteCast(_, _, _, _) => VotePasses(s, e, id);
      case ParamSet(_) =>
      case _ => StatusPasses(s, e, id);
    }
  }

  lemma {:induction false} RecordOverRun(s: Store, es: seq<Event>, id: ProposalId)
    requires id in s.proposals && Run(s, es).Some? && Untouched(es, id)
    ensures id in Run(s, es).value.proposals
    ensures var p, q := s.proposals[id], Run(s, es).value.proposals[id];
            && q.proposer == p.proposer && SameSnapshot(p, q) && q.executionETA == p.executionETA
            && q.status == (if VotedOn(es, id) && p.status == PENDING then ACTIVE else p.status)
            && q.againstVotes == p.againstVotes + Against(es, id) && q.forVotes == p.forVotes + For(es, id)
  {
    if es != [] {
      var prefix, e := es[..|es| - 1], es[|es| - 1];
      assert es == prefix + [e];
      RecordOverRun(s, prefix, id);
      StepPasses(Run(s, prefix).value, e, id);
      VotedOnLast(es, id);
    }
  }

  /** The record of a proposal at the end of a run from nothing. */
  function RecordAt(es: seq<Event>, id: ProposalId): Proposal
    requires Run(EMPTY_STORE, es).Some? && id in Run(EMPTY_STORE, es).value.proposals
  {
    Run(EMPTY_STORE, es).value.proposals[id]
  }

  lemma SinceLast(before: seq<Event>, last: Event, es: seq<Event>, id: ProposalId)
    requires Run(EMPTY_STORE, before + [last] + es).Some? && Untouched(es, id) && Touches(last.action, id)
    ensures Run(EMPTY_STORE, before).Some? && Step(Run(EMPTY_STORE, before).value, last).Some?
    ensures var mid := Step(Run(EMPTY_STORE, before).value, last).value;
            id in mid.proposals && Run(mid, es).Some? && Run(mid, es) == Run(EMPTY_STORE, before + [last] + es)
  {
    SplitRun(before, last, es);
  }

  lemma StatusSet(s: Store, e: Event, id: ProposalId)
    requires Step(s, e).Some? && Touches(e.action, id) && !e.action.ProposalCreated?
    ensures id in Step(s, e).value.proposals
    ensures var p := Step(s, e).value.proposals[id];
            match e.action
            case ProposalCanceled(_) => p.status == CANCELLED
            case ProposalVetoed(_) => p.status == VETOED
            case ProposalQueued(_, eta) => p.status == QUEUED && p.executionETA == Some(eta)
            case _ => p.status == EXECUTED && p.executionETA == None
  {
  }

  /** A record that is neither pending nor active keeps status and ETA. */
  lemma StatusKept(s: Store, es: seq<Event>, id: ProposalId)
    requires id in s.proposals && s.proposals[id].status != PENDING && Run(s, es).Some? && Untouched(es, id)
    ensures id in Run(s, es).value.proposals
    ensures var p, q := s.proposals[id], Run(s, es).value.proposals[id]; q.status == p.status && q.executionETA == p.executionETA
  {
    RecordOverRun(s, es, id);
  }

  /** The record is as the last event that touched it left it. */
  lemma StatusFromEvents(before: seq<Event>, last: Event, es: seq<Event>, id: ProposalId)
    requires Run(EMPTY_STORE, before + [last] + es).Some? && Untouched(es, id)
    requires Touches(last.action, id) && !last.action.ProposalCreated?
    ensures id in Run(EMPTY_STORE, before + [last] + es).value.proposals
    ensures var p := RecordAt(before + [last] + es, id);
            match last.action
            case ProposalCanceled(_) => p.status == CANCELLED
            case ProposalVetoed(_) => p.status == VETOED
            case ProposalQueued(_, eta) => p.status == QUEUED && p.executionETA == Some(eta)
            case _ => p.status == EXECUTED && p.executionETA == None
  {
    SinceLast(before, last, es, id);
    var mid := Step(Run(EMPTY_STORE, before).value, last).value;
    StatusSet(Run(EMPTY_STORE, before).value, last, id);
    StatusKept(mid, es, id);
  }

  /** Queued last: queued until 14 days after its ETA and expired from then on, at any block. */
  lemma QueuedFromEvents(before: seq<Event>, last: Event, es: seq<Event>, id: ProposalId, eta: nat, blockNumber: Option<nat>, time: int)
    requires last.action == ProposalQueued(id, eta) && Untouched(es, id)
    requires Run(EMPTY_STORE, before + [last] + es).Some?
    ensures id in Run(EMPTY_STORE, before + [last] + es).value.proposals
    ensures GetProposalState(blockNumber, Some(time), RecordAt(before + [last] + es, id)) ==
            if time >= 1000 * (eta + 1209600) then Expired else Queued
    ensures GetProposalState(blockNumber, None, RecordAt(before + [last] + es, id)) == Undetermined
  {
    StatusFromEvents(before, last, es, id);
    QueuedExact(RecordAt(before + [last] + es, id), eta, blockNumber, time);
  }

  /** Cancelled, vetoed or executed last: that at any block and time. */
  lemma ClosedFromEvents(before: seq<Event>, last: Event, es: seq<Event>, id: ProposalId, blockNumber: Option<nat>, blockTime: Option<int>)
    requires last.action == ProposalCanceled(id) || last.action == ProposalVetoed(id) || last.action == ProposalExecuted(id)
    requires Untouched(es, id) && Run(EMPTY_STORE, before + [last] + es).Some?
    ensures id in Run(EMPTY_STORE, before + [last] + es).value.proposals
    ensures GetProposalState(blockNumber, blockTime, RecordAt(before + [last] + es, id)) ==
            if last.action.ProposalCanceled? then Cancelled else if last.action.ProposalVetoed? then Vetoed else Executed
  {
    StatusFromEvents(before, last, es, id);
  }

  /** An ETA that a proposal has kept from an earlier creation. */
  predicate HadETA(before: seq<Event>, id: ProposalId) {
    var s := Run(EMPTY_STORE, before);
    s.Some? && id in s.value.proposals && s.value.proposals[id].executionETA.Some?
  }

  /** The record of a proposal since its creation. */
  lemma RecordFromEvents(before: seq<Event>, created: Event, es: seq<Event>, id: ProposalId)
    requires created.action.ProposalCreated? && created.action.id == id && Untouched(es, id)
    requires Run(EMPTY_STORE, before + [created] + es).Some?
    ensures id in Run(EMPTY_STORE, before + [created] + es).value.proposals
    ensures var p, a := RecordAt(before + [created] + es, id), created.action;
            && p.proposer == a.proposer && p.createdBlock == created.block && p.startBlock == a.startBlock && p.endBlock == a.endBlock
            && p.status == (if created.block >= a.startBlock || VotedOn(es, id) then ACTIVE else PENDING)
            && p.forVotes == For(es, id) && p.againstVotes == Against(es, id)
            && (p.executionETA.Some? <==> HadETA(before, id))
  {
    SinceLast(before, created, es, id);
    var s := Run(EMPTY_STORE, before).value;
    CreatedRecord(s, created);
    RecordOverRun(Step(s, created).value, es, id);
  }

  /**
   Created last: pending up to its start block if it was created before that and nobody has voted,
   otherwise active to its end block; then the voters' verdict, if it was never queued before.
   */
  lemma CreatedFromEvents(before: seq<Event>, created: Event, es: seq<Event>, id: ProposalId, block: nat, blockTime: Option<int>)
    requires created.action.ProposalCreated? && created.action.id == id && Untouched(es, id)
    requires Run(EMPTY_STORE, before + [created] + es).Some?
    ensures id in Run(EMPTY_STORE, before + [created] + es).value.proposals
    ensures var p, a := RecordAt(before + [created] + es, id), created.action;
            GetProposalState(Some(block), blockTime, p) ==
            if block == 0 then Undetermined
            else if created.block < a.startBlock && !VotedOn(es, id) && block <= a.startBlock then Pending
            else if block <= a.endBlock then Active
            else if For(es, id) <= Against(es, id) || For(es, id) < p.quorumVotes then Defeated
            else if HadETA(before, id) then Active else Succeeded
    ensures GetProposalState(None, blockTime, RecordAt(before + [created] + es, id)) == Undetermined
  {
    RecordFromEvents(before, created, es, id);
  }
}
