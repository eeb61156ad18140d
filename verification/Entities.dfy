/**
 The entities of the subgraph's store, as values: what `load` returns is a copy, and only `save`
 writes it back.
 */
module Entities {
  import opened Wrappers

  /** The number a hexadecimal address stands for. */
  type Address = nat
  type NounId = nat
  type ProposalId = nat

  const ZERO_ADDRESS: Address := 0

  datatype Account = Account(delegate: Option<Address>, tokenBalanceRaw: int, tokenBalance: int,
                             totalTokensHeldRaw: int, totalTokensHeld: int, nouns: seq<NounId>)

  datatype Delegate = Delegate(delegatedVotesRaw: int, delegatedVotes: int,
                               tokenHoldersRepresentedAmount: int, nounsRepresented: seq<NounId>)

  datatype Governance = Governance(proposals: int, totalTokenHolders: int, currentTokenHolders: int,
                                   currentDelegates: int, totalDelegates: int,
                                   delegatedVotesRaw: int, delegatedVotes: int, proposalsQueued: int)

  datatype Status = PENDING | ACTIVE | CANCELLED | VETOED | QUEUED | EXECUTED

  datatype Proposal = Proposal(proposer: Address, createdBlock: nat, startBlock: nat, endBlock: nat,
                               quorumVotes: int, forVotes: nat, againstVotes: nat, abstainVotes: nat,
                               status: Status, executionETA: Option<nat>, totalSupply: int,
                               minQuorumVotesBPS: nat, maxQuorumVotesBPS: nat, quorumCoefficient: nat)

  /** The id of a vote: the voter's and the proposal's, joined. */
  datatype VoteId = VoteId(voter: Address, proposal: ProposalId)

  datatype Vote = Vote(votesRaw: nat, votes: nat, supportDetailed: nat, nouns: seq<NounId>, blockNumber: nat)

  datatype QuorumParams = QuorumParams(minQuorumVotesBPS: nat, maxQuorumVotesBPS: nat, quorumCoefficient: nat,
                                       dynamicQuorumStartBlock: Option<nat>)

  datatype Store = Store(accounts: map<Address, Account>, delegates: map<Address, Delegate>,
                         governance: Option<Governance>, nouns: map<NounId, Address>,
                         proposals: map<ProposalId, Proposal>, votes: map<VoteId, Vote>,
                         params: Option<QuorumParams>)

  const EMPTY_STORE := Store(map[], map[], None, map[], map[], map[], None)
  const NEW_ACCOUNT := Account(None, 0, 0, 0, 0, [])
  const NEW_DELEGATE := Delegate(0, 0, 0, [])
  const NEW_GOVERNANCE := Governance(0, 0, 0, 0, 0, 0, 0, 0)

  function AccountOf(s: Store, id: Address): Account {
    if id in s.accounts then s.accounts[id] else NEW_ACCOUNT
  }

  function DelegateOf(s: Store, id: Address): Delegate {
    if id in s.delegates then s.delegates[id] else NEW_DELEGATE
  }

  function GovernanceOf(s: Store): Governance {
    s.governance.GetOr(NEW_GOVERNANCE)
  }

  function SaveAccount(s: Store, id: Address, a: Account): Store {
    s.(accounts := s.accounts[id := a])
  }

  function SaveDelegate(s: Store, id: Address, d: Delegate): Store {
    s.(delegates := s.delegates[id := d])
  }

  function SaveGovernance(s: Store, g: Governance): Store {
    s.(governance := Some(g))
  }

  function EnsureAccount(s: Store, id: Address): Store {
    if id in s.accounts then s else SaveAccount(s, id, NEW_ACCOUNT)
  }

  /** A new delegate other than the zero address is counted, on the stored governance entity. */
  function EnsureDelegate(s: Store, id: Address): (r: Store)
    ensures id in r.delegates && s.delegates.Keys <= r.delegates.Keys && r.accounts == s.accounts
  {
    if id in s.delegates then s
    else
      var g := GovernanceOf(s);
      var counted := if id != ZERO_ADDRESS then SaveGovernance(s, g.(totalDelegates := g.totalDelegates + 1)) else s;
      SaveDelegate(counted, id, NEW_DELEGATE)
  }
}
