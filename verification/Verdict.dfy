/** `getProposalState`: the state the web app derives from a proposal's record, the block and the time. */
module Verdict {
  import opened Entities
  import opened Events
  import opened Governor
  import opened TokenIndex
  import opened Wrappers

  datatype ProposalState =
    | Undetermined | Pending | Active | Cancelled | Defeated | Succeeded | Queued | Expired | Executed | Vetoed

  const GRACE_PERIOD: int := 14 * 60 * 60 * 24

  function Recorded(status: Status): ProposalState {
    match status
    case PENDING => Pending
    case ACTIVE => Active
    case CANCELLED => Cancelled
    case VETOED => Vetoed
    case QUEUED => Queued
    case EXECUTED => Executed
  }

  /** The block time is in milliseconds, the ETA in seconds; block 0 counts as unknown. */
  function GetProposalState(blockNumber: Option<nat>, blockTime: Option<int>, p: Proposal): ProposalState {
    var unknownBlock := blockNumber.None? || blockNumber.value == 0;
    var status := Recorded(p.status);
    if status == Pending && unknownBlock then Undetermined
    else if status == Pending && blockNumber.value <= p.startBlock then Pending
    else if status == Pending || status == Active then
      if unknownBlock then Undetermined
      else if blockNumber.value > p.endBlock && (p.forVotes <= p.againstVotes || p.forVotes < p.quorumVotes) then Defeated
      else if blockNumber.value > p.endBlock && p.executionETA.None? then Succeeded
      else Active
    else if status == Queued then
      if blockTime.None? || p.executionETA.None? then Undetermined
      else if blockTime.value >= 1000 * (p.executionETA.value + GRACE_PERIOD) then Expired
      else Queued
    else status
  }

  /** The order in which a proposal may go through its derived states. */
  predicate NotBefore(a: ProposalState, b: ProposalState) {
    || a == b
    || (a == Pending && (b == Active || b == Defeated || b == Succeeded))
    || (a == Active && (b == Defeated || b == Succeeded))
    || (a == Queued && b == Expired)
  }

  /** For a fixed record the derived state never moves backwards as block and time advance. */
  lemma StateAdvances(p: Proposal, block: nat, block': nat, time: int, time': int)
    requires 0 < block <= block' && time <= time'
    ensures NotBefore(GetProposalState(Some(block), Some(time), p), GetProposalState(Some(block'), Some(time'), p))
  {
  }

  /** A queued record with an ETA, in seconds, is expired from 14 days after it on, in milliseconds, and queued before. */
  lemma QueuedExact(p: Proposal, eta: nat, blockNumber: Option<nat>, time: int)
    requires p.status == QUEUED && p.executionETA == Some(eta)
    ensures GetProposalState(blockNumber, Some(time), p) == if time >= 1000 * (eta + 1209600) then Expired else Queued
  {
  }

  /** The state is unknown exactly for a pending or active record at an unknown block, and a queued one without a time or an ETA. */
  lemma UndeterminedExact(p: Proposal, blockNumber: Option<nat>, blockTime: Option<int>)
    ensures GetProposalState(blockNumber, blockTime, p) == Undetermined <==>
            if p.status == PENDING || p.status == ACTIVE then blockNumber == None || blockNumber == Some(0)
            else p.status == QUEUED && (blockTime.None? || p.executionETA.None?)
  {
  }

  /** The verdict of the voters: more for than against, and a quorum. */
  predicate Carried(p: Proposal) {
    p.forVotes > p.againstVotes && p.forVotes >= p.quorumVotes
  }

  /** Past the end of the vote a pending or active record has a verdict exactly when it has no ETA, or is defeated anyway. */
  lemma VerdictExact(p: Proposal, block: nat, blockTime: Option<int>)
    requires (p.status == PENDING || p.status == ACTIVE) && block > p.startBlock && block > p.endBlock
    ensures GetProposalState(Some(block), blockTime, p) ==
            if !Carried(p) then Defeated else if p.executionETA.None? then Succeeded else Active
  {
  }

  /**
   In every state that a well-formed run of events reaches, a proposal recorded as pending or active
   gets the voters' verdict past the end of the vote, and no other state.
   */
  lemma VerdictAfterEveryRun(es: seq<Event>, id: ProposalId, block: nat, blockTime: Option<int>)
    requires WellFormedRun(EMPTY_STORE, NO_NOUNS, es) && Run(EMPTY_STORE, es).Some?
    requires id in Run(EMPTY_STORE, es).value.proposals
    requires var p := Run(EMPTY_STORE, es).value.proposals[id];
             (p.status == PENDING || p.status == ACTIVE) && block > p.startBlock && block > p.endBlock
    ensures var p := Run(EMPTY_STORE, es).value.proposals[id];
            GetProposalState(Some(block), blockTime, p) == if Carried(p) then Succeeded else Defeated
  {
    EveryRunIsSound(es);
    var p := Run(EMPTY_STORE, es).value.proposals[id];
    assert NoEarlyETA(p);
    VerdictExact(p, block, blockTime);
  }

  /** Creating a proposal leaves it without an ETA exactly when its id is new, or had none. */
  lemma CreatedETAExact(s: Store, block: nat, id: ProposalId, proposer: Address, startBlock: nat, endBlock: nat, quorumVotes: nat)
    ensures NoEarlyETA(AfterProposalCreated(s, block, id, proposer, startBlock, endBlock, quorumVotes).proposals[id]) <==>
            id !in s.proposals || s.proposals[id].executionETA.None?
  {
  }
}
